/** The vendored-apparatus gate over file trees: re-pinning, verifying, and pushing the
    shared set to sibling checkouts. */
module Drift {
  import opened Basics
  import opened Joining
  import opened Manifest

  type Path = seq<string>

  /** The components of a package-relative name. */
  function Parts(name: string): (p: Path)
    ensures |p| >= 1
  {
    SplitBy(name, '/')
  }

  function Parent(name: string): Path {
    Parts(name)[..|Parts(name)| - 1]
  }

  /** The first two components: bench/apparatus or bench/certificate. */
  function Group(name: string): Path
    requires Deep(name)
  {
    Parts(name)[..2]
  }

  predicate Deep(name: string) {
    |Parts(name)| >= 3
  }

  /** What a name's text says of its place: the directory is all but the last component, and
      the group the first two. */
  lemma PathOfName(parts: seq<string>)
    requires |parts| >= 3 && forall k :: 0 <= k < |parts| ==> Without(parts[k], '/')
    ensures var name := Join(parts, '/');
            Deep(name) && Parent(name) == parts[..|parts| - 1] && Group(name) == [parts[0], parts[1]]
  {
    SplitUndoesJoin(parts, '/');
  }

  /** A checkout: the contents of its files by name, and its directories. */
  datatype Tree = Tree(files: map<string, string>, dirs: set<Path>)

  /** Every directory's ancestors exist, the root included, and so do every file's. */
  predicate Sound(t: Tree) {
    && [] in t.dirs
    && (forall d, k {:trigger d[..k]} :: d in t.dirs && 0 <= k <= |d| ==> d[..k] in t.dirs)
    && (forall name :: name in t.files ==> Parent(name) in t.dirs)
  }

  /** What the gate is given: character classes, the digest function, the manifest's head
      and name, and the shared names. */
  datatype Gate = Gate(cs: Chars, sha: string -> string, head: seq<string>, manifest: string, shared: seq<string>)

  ghost predicate Legal(g: Gate) {
    && Lawful(g.cs) && Comments(g.cs, g.head)
    && Deep(g.manifest) && g.manifest !in g.shared
    && (forall name :: name in g.shared ==> Deep(name))
    && (forall name, content :: name in g.shared ==> CleanPin(g.cs, Pin(name, g.sha(content))))
  }

  /** observed: the digest of every shared file present. */
  function Observed(g: Gate, t: Tree): Pins {
    map name | name in g.shared && name in t.files :: g.sha(t.files[name])
  }

  /** carried: does the directory the name belongs in exist here? */
  predicate Carried(t: Tree, name: string) {
    Parent(name) in t.dirs
  }

  function PinnedIn(g: Gate, t: Tree): Pins {
    if g.manifest in t.files then Pinned(g.cs, t.files[g.manifest]) else map[]
  }

  /** The pins --update writes: those of groups not carried here, kept, and the observed. */
  function NewPins(g: Gate, t: Tree): Pins {
    (map name | name in PinnedIn(g, t) && !Carried(t, name) :: PinnedIn(g, t)[name]) + Observed(g, t)
  }

  function Missing(g: Gate, t: Tree): set<string> {
    set name | name in PinnedIn(g, t) && name !in Observed(g, t) && Carried(t, name)
  }

  function Extra(g: Gate, t: Tree): set<string> {
    set name | name in Observed(g, t) && name !in PinnedIn(g, t)
  }

  function Drifted(g: Gate, t: Tree): set<string> {
    set name | name in Observed(g, t) && name in PinnedIn(g, t) && PinnedIn(g, t)[name] != Observed(g, t)[name]
  }

  /** verify: 0 clean, 1 drifted, 2 without a manifest. */
  function VerifyOf(g: Gate, t: Tree): int {
    if PinnedIn(g, t) == map[] then 2
    else if Missing(g, t) != {} || Extra(g, t) != {} || Drifted(g, t) != {} then 1
    else 0
  }

  function Updated(g: Gate, t: Tree, order: seq<string>): Tree
    requires forall name :: name in order ==> name in NewPins(g, t)
  {
    t.(files := t.files[g.manifest := Written(g.head, NewPins(g, t), order)])
  }

  // ---- --update ----

  lemma NewPinsAreClean(g: Gate, t: Tree)
    requires Legal(g) && Sound(t)
    ensures CleanPins(g.cs, NewPins(g, t))
  {
    if g.manifest in t.files {
      PinnedIsClean(g.cs, t.files[g.manifest]);
    }
    assert Parts("") == [""] && Parent("") == [];
    forall name | name in NewPins(g, t)
      ensures CleanPin(g.cs, Pin(name, NewPins(g, t)[name]))
    {
      if name in Observed(g, t) {
        assert CleanPin(g.cs, Pin(name, g.sha(t.files[name])));
      }
    }
  }

  lemma UpdateLeavesShared(g: Gate, t: Tree, order: seq<string>)
    requires Legal(g)
    requires forall name :: name in order <==> name in NewPins(g, t)
    ensures Observed(g, Updated(g, t, order)) == Observed(g, t)
  {
  }

  lemma UpdatedPins(g: Gate, t: Tree, order: seq<string>)
    requires Legal(g) && Sound(t)
    requires forall name :: name in order <==> name in NewPins(g, t)
    ensures PinnedIn(g, Updated(g, t, order)) == NewPins(g, t)
    ensures Observed(g, Updated(g, t, order)) == Observed(g, t)
  {
    NewPinsAreClean(g, t);
    WrittenReadsBack(g.cs, g.head, NewPins(g, t), order);
    UpdateLeavesShared(g, t, order);
  }

  /** A file that is here has its directory here. */
  lemma ObservedIsCarried(g: Gate, t: Tree)
    requires Sound(t)
    ensures forall name :: name in Observed(g, t) ==> Carried(t, name)
  {
  }

  /** After --update, unless there is nothing to pin, verify is clean. */
  lemma UpdateConverges(g: Gate, t: Tree, order: seq<string>)
    requires Legal(g) && Sound(t)
    requires forall name :: name in order <==> name in NewPins(g, t)
    ensures VerifyOf(g, Updated(g, t, order)) == if NewPins(g, t) == map[] then 2 else 0
  {
    var t' := Updated(g, t, order);
    UpdatedPins(g, t, order);
    assert Missing(g, t') == {};
    assert Extra(g, t') == {};
    assert Drifted(g, t') == {};
  }

  predicate SamePin(before: Pins, after: Pins, name: string) {
    (name in after <==> name in before) && (name in before ==> after[name] == before[name])
  }

  /** What is pinned is what was observed, and pins for groups not carried here stand as
      they were: re-pinning from a subset never narrows the manifest. */
  lemma UpdateKeepsForeignPins(g: Gate, t: Tree, order: seq<string>, name: string)
    requires Legal(g) && Sound(t)
    requires forall name :: name in order <==> name in NewPins(g, t)
    ensures var before, after := PinnedIn(g, t), PinnedIn(g, Updated(g, t, order));
            && (!Carried(t, name) ==> SamePin(before, after, name))
            && (Carried(t, name) ==>
                  (name in after <==> name in Observed(g, t))
                  && (name in Observed(g, t) ==> after[name] == Observed(g, t)[name]))
  {
    UpdatedPins(g, t, order);
    ObservedIsCarried(g, t);
  }

  /** All of that, for every name. */
  lemma UpdateMeans(g: Gate, t: Tree, order: seq<string>)
    requires forall name :: name in order <==> name in NewPins(g, t)
    ensures Legal(g) && Sound(t) ==>
              var after := Updated(g, t, order);
              && PinnedIn(g, after) == NewPins(g, t) && Observed(g, after) == Observed(g, t)
              && VerifyOf(g, after) == (if PinnedIn(g, after) == map[] then 2 else 0)
              && forall name :: !Carried(t, name) ==> SamePin(PinnedIn(g, t), PinnedIn(g, after), name)
  {
    if Legal(g) && Sound(t) {
      UpdatedPins(g, t, order);
      UpdateConverges(g, t, order);
      forall name
        ensures !Carried(t, name) ==> SamePin(PinnedIn(g, t), PinnedIn(g, Updated(g, t, order)), name)
      {
        UpdateKeepsForeignPins(g, t, order, name);
      }
    }
  }

  // ---- --propagate ----

  /** Every ancestor of d, d included: what making d with its parents creates. */
  function Ancestors(d: Path): set<Path> {
    set k | 0 <= k <= |d| :: d[..k]
  }

  predicate Receives(src: Tree, sib: Tree, name: string)
    requires Deep(name)
  {
    name in src.files && Group(name) in sib.dirs
  }

  /** A sibling after the first names of the list have been offered to it. */
  function Delivered(src: Tree, sib: Tree, names: seq<string>): Tree
    requires forall name :: name in names ==> Deep(name)
  {
    if names == [] then sib
    else
      var n := |names| - 1;
      var t := Delivered(src, sib, names[..n]);
      if Receives(src, t, names[n]) then
        Tree(t.files[names[n] := src.files[names[n]]], t.dirs + Ancestors(Parent(names[n])))
      else t
  }

  /** A file is received where the source holds it and the sibling has the first two
      components of its name for a directory. */
  lemma ReceivesIff(src: Tree, sib: Tree, parts: seq<string>)
    requires |parts| >= 3 && forall k :: 0 <= k < |parts| ==> Without(parts[k], '/')
    ensures Deep(Join(parts, '/'))
    ensures Receives(src, sib, Join(parts, '/')) <==> Join(parts, '/') in src.files && [parts[0], parts[1]] in sib.dirs
  {
    PathOfName(parts);
  }

  lemma GroupOfParent(t: Tree, name: string)
    requires Sound(t) && Deep(name) && Parent(name) in t.dirs
    ensures Group(name) in t.dirs
  {
    assert Parent(name)[..2] == Group(name);
  }

  lemma AncestorsKeepSound(t: Tree, d: Path)
    requires Sound(t) && |d| >= 2 && d[..2] in t.dirs
    ensures Sound(t.(dirs := t.dirs + Ancestors(d)))
    ensures forall p :: |p| <= 2 ==> (p in t.dirs + Ancestors(d) <==> p in t.dirs)
  {
    var all := t.dirs + Ancestors(d);
    forall p, k {:trigger p[..k]} | p in all && 0 <= k <= |p|
      ensures p[..k] in all
    {
      if p !in t.dirs {
        var j :| 0 <= j <= |d| && p == d[..j];
        assert p[..k] == d[..k];
      }
    }
    forall p | p in Ancestors(d) && |p| <= 2
      ensures p in t.dirs
    {
      var j :| 0 <= j <= |d| && p == d[..j];
      assert p == d[..2][..j];
    }
  }

  /** Offering names never creates a group, so the group test has one answer throughout:
      a file arrives exactly where the sibling had its group to begin with. */
  lemma {:induction false} DeliveredFiles(src: Tree, sib: Tree, names: seq<string>)
    requires Sound(sib) && forall name :: name in names ==> Deep(name)
    ensures var t := Delivered(src, sib, names);
            && Sound(t) && sib.dirs <= t.dirs
            && (forall p :: |p| <= 2 ==> (p in t.dirs <==> p in sib.dirs))
            && (forall name :: name in names && Receives(src, sib, name) ==>
                  name in t.files && t.files[name] == src.files[name])
            && (forall name :: !(name in names && Receives(src, sib, name)) ==>
                  (name in t.files <==> name in sib.files) && (name in sib.files ==> t.files[name] == sib.files[name]))
  {
    if names != [] {
      var n := |names| - 1;
      var last := names[n];
      assert names == names[..n] + [last];
      DeliveredFiles(src, sib, names[..n]);
      var t := Delivered(src, sib, names[..n]);
      if Receives(src, t, last) {
        assert Parent(last)[..2] == Group(last);
        AncestorsKeepSound(t, Parent(last));
        assert Parent(last)[..|Parent(last)|] == Parent(last);
      }
    }
  }

  /** The directories a delivery makes, where they are not there yet. */
  function Made(src: Tree, sib: Tree, names: seq<string>): set<Path>
    requires forall name :: name in names ==> Deep(name)
  {
    set name, d | name in names && Receives(src, sib, name) && d in Ancestors(Parent(name)) :: d
  }

  lemma {:induction false} DeliveredDirs(src: Tree, sib: Tree, names: seq<string>)
    requires Sound(sib) && forall name :: name in names ==> Deep(name)
    ensures Delivered(src, sib, names).dirs == sib.dirs + Made(src, sib, names)
  {
    if names != [] {
      var n := |names| - 1;
      assert names == names[..n] + [names[n]];
      DeliveredFiles(src, sib, names[..n]);
      DeliveredDirs(src, sib, names[..n]);
      assert Receives(src, Delivered(src, sib, names[..n]), names[n]) == Receives(src, sib, names[n]);
      MadeSnoc(src, sib, names, n);
    }
  }

  lemma MadeSnoc(src: Tree, sib: Tree, names: seq<string>, n: nat)
    requires n + 1 == |names| && forall name :: name in names ==> Deep(name)
    ensures Made(src, sib, names)
         == Made(src, sib, names[..n]) + (if Receives(src, sib, names[n]) then Ancestors(Parent(names[n])) else {})
  {
    assert names == names[..n] + [names[n]];
  }

  /** Everything that is offered: the shared names, then the manifest itself. */
  function Offered(g: Gate): seq<string> {
    g.shared + [g.manifest]
  }

  function Propagated(g: Gate, src: Tree, sib: Tree): Tree
    requires forall name :: name in Offered(g) ==> Deep(name)
  {
    Delivered(src, sib, Offered(g))
  }

  /** What stands in the way of a clean sibling: a shared file of its own that the source
      does not hold and the manifest does not pin at its digest, or a pinned name that
      neither side holds although the sibling has its directory, or is about to. */
  predicate Obstacle(g: Gate, src: Tree, sib: Tree, name: string)
    requires forall name :: name in Offered(g) ==> Deep(name)
  {
    || (name in g.shared && name in sib.files && name !in src.files
        && !(name in PinnedIn(g, src) && PinnedIn(g, src)[name] == g.sha(sib.files[name])))
    || (name in PinnedIn(g, src) && (Carried(sib, name) || Parent(name) in Made(src, sib, Offered(g)))
        && name !in Observed(g, src) && name !in Observed(g, sib))
  }

  /** One propagate, exactly. From a clean checkout to a sibling that has the manifest's
      group: the sibling verifies clean if and only if there is no obstacle, although
      delivery asks for the group directory and verifying for the immediate parent. */
  lemma PropagateIff(g: Gate, src: Tree, sib: Tree)
    requires Legal(g) && Sound(src) && Sound(sib)
    requires VerifyOf(g, src) == 0 && Group(g.manifest) in sib.dirs
    ensures VerifyOf(g, Propagated(g, src, sib)) == 0
       <==> forall name :: !Obstacle(g, src, sib, name)
    ensures VerifyOf(g, Propagated(g, src, sib)) in {0, 1}
  {
    var after := Propagated(g, src, sib);
    ManifestArrives(g, src, sib);
    forall name
      ensures Obstacle(g, src, sib, name) <==> Faulty(g, after, name)
    {
      ObstacleIsAFault(g, src, sib, name);
    }
    CleanIff(g, after);
  }

  predicate Faulty(g: Gate, t: Tree, name: string) {
    name in Missing(g, t) || name in Extra(g, t) || name in Drifted(g, t)
  }

  /** The codes: 2 without pins; 0 where every pinned file whose directory is here is present,
      at its pinned digest, and every shared file present is pinned; and otherwise 1. */
  lemma VerifyCodes(g: Gate, t: Tree)
    ensures VerifyOf(g, t) == 2 <==> PinnedIn(g, t) == map[]
    ensures VerifyOf(g, t) == 0
       <==> && PinnedIn(g, t) != map[]
            && (forall name :: name in PinnedIn(g, t) && Parent(name) in t.dirs ==> name in g.shared && name in t.files)
            && (forall name :: name in g.shared && name in t.files ==>
                  name in PinnedIn(g, t) && PinnedIn(g, t)[name] == g.sha(t.files[name]))
    ensures VerifyOf(g, t) in {0, 1, 2}
  {
    CleanIff(g, t);
    assert forall name :: Faulty(g, t, name) <==>
        || (name in PinnedIn(g, t) && Parent(name) in t.dirs && !(name in g.shared && name in t.files))
        || (name in g.shared && name in t.files
            && !(name in PinnedIn(g, t) && PinnedIn(g, t)[name] == g.sha(t.files[name])));
  }

  lemma CleanIff(g: Gate, t: Tree)
    ensures VerifyOf(g, t) == 0 <==> PinnedIn(g, t) != map[] && forall name :: !Faulty(g, t, name)
  {
    if Missing(g, t) != {} {
      var name :| name in Missing(g, t);
      assert Faulty(g, t, name);
    }
    if Extra(g, t) != {} {
      var name :| name in Extra(g, t);
      assert Faulty(g, t, name);
    }
    if Drifted(g, t) != {} {
      var name :| name in Drifted(g, t);
      assert Faulty(g, t, name);
    }
  }

  lemma ManifestArrives(g: Gate, src: Tree, sib: Tree)
    requires Legal(g) && Sound(sib) && VerifyOf(g, src) == 0 && Group(g.manifest) in sib.dirs
    ensures PinnedIn(g, Propagated(g, src, sib)) == PinnedIn(g, src) != map[]
  {
    DeliveredFiles(src, sib, Offered(g));
    assert g.manifest in Offered(g);
  }

  lemma ObstacleIsAFault(g: Gate, src: Tree, sib: Tree, name: string)
    requires Legal(g) && Sound(src) && Sound(sib) && VerifyOf(g, src) == 0
    requires PinnedIn(g, Propagated(g, src, sib)) == PinnedIn(g, src)
    ensures var after := Propagated(g, src, sib);
            Obstacle(g, src, sib, name) <==> Faulty(g, after, name)
  {
    if name in Observed(g, src) {
      HeldArrives(g, src, sib, name);
    } else {
      OthersStay(g, src, sib, name);
    }
    CarriedAfter(g, src, sib, name);
  }

  lemma CarriedAfter(g: Gate, src: Tree, sib: Tree, name: string)
    requires Legal(g) && Sound(sib)
    ensures Carried(Propagated(g, src, sib), name)
       <==> Carried(sib, name) || Parent(name) in Made(src, sib, Offered(g))
  {
    DeliveredDirs(src, sib, Offered(g));
  }

  lemma HeldIsPinned(g: Gate, t: Tree, name: string)
    requires VerifyOf(g, t) == 0 && name in Observed(g, t)
    ensures name in PinnedIn(g, t) && PinnedIn(g, t)[name] == Observed(g, t)[name]
  {
    assert name !in Extra(g, t) && name !in Drifted(g, t);
  }

  /** A shared file the source holds arrives wherever the sibling carries it at all. */
  lemma HeldArrives(g: Gate, src: Tree, sib: Tree, name: string)
    requires Legal(g) && Sound(src) && Sound(sib) && VerifyOf(g, src) == 0 && name in Observed(g, src)
    ensures var after := Propagated(g, src, sib);
            && name in PinnedIn(g, src) && PinnedIn(g, src)[name] == Observed(g, src)[name]
            && (Carried(after, name) ==> name in Observed(g, after))
            && (name in Observed(g, after) ==> Observed(g, after)[name] == Observed(g, src)[name])
  {
    var after := Propagated(g, src, sib);
    DeliveredFiles(src, sib, Offered(g));
    HeldIsPinned(g, src, name);
    assert name in Offered(g);
    if Carried(after, name) {
      GroupOfParent(after, name);
    }
    if name in sib.files {
      GroupOfParent(sib, name);
    }
  }

  /** One it does not hold stays as the sibling has it. */
  lemma OthersStay(g: Gate, src: Tree, sib: Tree, name: string)
    requires Legal(g) && Sound(sib) && name !in Observed(g, src)
    ensures var after := Propagated(g, src, sib);
            && (name in Observed(g, after) <==> name in Observed(g, sib))
            && (name in Observed(g, sib) ==> Observed(g, after)[name] == Observed(g, sib)[name])
  {
    DeliveredFiles(src, sib, Offered(g));
  }

  /** The documented promise: a clean checkout that holds every pinned file makes every
      sibling clean whose own shared files it also holds, whatever they contained. */
  lemma PropagateConverges(g: Gate, src: Tree, sib: Tree)
    requires Legal(g) && Sound(src) && Sound(sib)
    requires VerifyOf(g, src) == 0 && Group(g.manifest) in sib.dirs
    requires forall name :: name in PinnedIn(g, src) ==> name in Observed(g, src)
    requires forall name :: name in g.shared && name in sib.files ==> name in src.files
    ensures VerifyOf(g, Propagated(g, src, sib)) == 0
  {
    PropagateIff(g, src, sib);
  }

  /** The proviso on the sibling's own files is needed: a shared file that the source
      neither holds nor pins is still there after the push, and the gate stays red. */
  lemma StrayFileStaysRed(g: Gate, src: Tree, sib: Tree, name: string)
    requires Legal(g) && Sound(src) && Sound(sib)
    requires VerifyOf(g, src) == 0 && Group(g.manifest) in sib.dirs
    requires name in g.shared && name in sib.files && name !in src.files && name !in PinnedIn(g, src)
    ensures VerifyOf(g, Propagated(g, src, sib)) == 1
  {
    ManifestArrives(g, src, sib);
    PropagateIff(g, src, sib);
    assert Obstacle(g, src, sib, name);
  }

  /** So is a pinned file that neither side holds, where the sibling has its directory. */
  lemma GapStaysRed(g: Gate, src: Tree, sib: Tree, name: string)
    requires Legal(g) && Sound(src) && Sound(sib)
    requires VerifyOf(g, src) == 0 && Group(g.manifest) in sib.dirs
    requires name in PinnedIn(g, src) && Carried(sib, name) && name !in src.files && name !in sib.files
    ensures VerifyOf(g, Propagated(g, src, sib)) == 1
  {
    ManifestArrives(g, src, sib);
    PropagateIff(g, src, sib);
    assert Obstacle(g, src, sib, name);
  }

  lemma AncestorsAreSound(d: Path, e: Path)
    ensures Sound(Tree(map[], Ancestors(d) + Ancestors(e)))
    ensures d in Ancestors(d)
  {
    assert d[..|d|] == d && d[..0] == [];
    forall p, k {:trigger p[..k]} | p in Ancestors(d) + Ancestors(e) && 0 <= k <= |p|
      ensures p[..k] in Ancestors(d) + Ancestors(e)
    {
      if p in Ancestors(d) {
        var j :| 0 <= j <= |d| && p == d[..j];
        assert p[..k] == d[..k];
      } else {
        var j :| 0 <= j <= |e| && p == e[..j];
        assert p[..k] == e[..k];
      }
    }
  }

  /** A checkout with the manifest and one shared file, which it pins, as it does one name
      of another group. */
  function Pinning(g: Gate, held: string, other: string): Tree {
    Tree(map[held := "", g.manifest := Written(g.head, PinsOfTwo(g, held, other), [held, other])],
         Ancestors(Parent(g.manifest)) + Ancestors(Parent(held)))
  }

  function PinsOfTwo(g: Gate, held: string, other: string): Pins {
    map[held := g.sha(""), other := g.sha("")]
  }

  lemma PinningPins(g: Gate, held: string, other: string)
    requires Legal(g) && held in g.shared && other in g.shared
    ensures PinnedIn(g, Pinning(g, held, other)) == PinsOfTwo(g, held, other)
  {
    WrittenReadsBack(g.cs, g.head, PinsOfTwo(g, held, other), [held, other]);
  }

  lemma PinningIsSound(g: Gate, held: string, other: string)
    requires Legal(g) && held in g.shared
    ensures Sound(Pinning(g, held, other))
    ensures Observed(g, Pinning(g, held, other)) == map[held := g.sha("")]
  {
    AncestorsAreSound(Parent(g.manifest), Parent(held));
    AncestorsAreSound(Parent(held), Parent(held));
  }

  lemma OtherIsNotCarried(g: Gate, held: string, other: string)
    requires Legal(g) && held in g.shared && other in g.shared
    requires Group(held) == Group(g.manifest) && Group(other) != Group(g.manifest)
    ensures !Carried(Pinning(g, held, other), other)
  {
    assert Group(other) == Parent(other)[..2];
    assert Group(held) == Parent(held)[..2] && Group(g.manifest) == Parent(g.manifest)[..2];
    SameStart(Parent(other), Parent(g.manifest));
    SameStart(Parent(other), Parent(held));
  }

  lemma PinningIsClean(g: Gate, held: string, other: string)
    requires Legal(g) && held in g.shared && other in g.shared
    requires Group(held) == Group(g.manifest) && Group(other) != Group(g.manifest)
    ensures VerifyOf(g, Pinning(g, held, other)) == 0
  {
    var t := Pinning(g, held, other);
    PinningPins(g, held, other);
    PinningIsSound(g, held, other);
    OtherIsNotCarried(g, held, other);
    assert held in PinnedIn(g, t);
    assert Missing(g, t) == {} && Extra(g, t) == {} && Drifted(g, t) == {};
  }

  lemma SameStart(p: Path, d: Path)
    requires |p| >= 2
    ensures p in Ancestors(d) ==> |d| >= 2 && p[..2] == d[..2]
  {
  }

  /** Both obstacles occur, over every gate that shares two files in the manifest's group and
      one in another: from one clean checkout that holds the first of them, a sibling with a
      stray second file of its own, and a sibling with no file at all but a directory for the
      pinned third. */
  lemma ObstaclesOccur(g: Gate, held: string, ours: string, theirs: string)
    returns (src: Tree, stray: Tree, gap: Tree)
    requires Legal(g) && held in g.shared && ours in g.shared && theirs in g.shared && ours != held
    requires Group(held) == Group(ours) == Group(g.manifest) != Group(theirs)
    ensures Sound(src) && Sound(stray) && Sound(gap)
    ensures VerifyOf(g, src) == 0 && Observed(g, src) == map[held := g.sha("")]
    ensures Group(g.manifest) in stray.dirs && Group(g.manifest) in gap.dirs
    ensures ours in stray.files && VerifyOf(g, Propagated(g, src, stray)) == 1
    ensures gap.files == map[] && VerifyOf(g, Propagated(g, src, gap)) == 1
  {
    src := Pinning(g, held, theirs);
    PinningPins(g, held, theirs);
    PinningIsSound(g, held, theirs);
    PinningIsClean(g, held, theirs);
    stray := StraySibling(g, ours);
    StrayFileStaysRed(g, src, stray, ours);
    gap := GapSibling(g, theirs);
    GapStaysRed(g, src, gap, theirs);
  }

  lemma StraySibling(g: Gate, ours: string) returns (t: Tree)
    requires Legal(g) && ours in g.shared && Group(ours) == Group(g.manifest)
    ensures Sound(t) && Group(g.manifest) in t.dirs && ours in t.files
  {
    var d := Parent(ours);
    t := Tree(map[ours := ""], Ancestors(d));
    AncestorsAreSound(d, d);
    assert Ancestors(d) + Ancestors(d) == Ancestors(d);
    assert Group(ours) == d[..2];
  }

  lemma GapSibling(g: Gate, theirs: string) returns (t: Tree)
    requires Legal(g) && theirs in g.shared
    ensures Sound(t) && Group(g.manifest) in t.dirs && t.files == map[] && Carried(t, theirs)
  {
    var d := Parent(g.manifest);
    t := Tree(map[], Ancestors(d) + Ancestors(Parent(theirs)));
    AncestorsAreSound(d, Parent(theirs));
    AncestorsAreSound(Parent(theirs), d);
    assert Group(g.manifest) == d[..2];
  }

  // ---- the commands ----

  /** A checkout on disk. */
  class Checkout {
    var files: map<string, string>
    var dirs: set<Path>

    function View(): Tree
      reads this
    {
      Tree(files, dirs)
    }

    /** --update: write_manifest over what is observed. order stands for sorted(digests).
        Nothing but the manifest changes; what is read back from it are the pins of groups
        not carried here as they stood, and every digest observed; and verify is clean,
        unless there was nothing to pin. */
    method Update(g: Gate, order: seq<string>)
      requires forall name :: name in order <==> name in NewPins(g, View())
      modifies this
      ensures dirs == old(dirs) && files.Keys == old(files.Keys) + {g.manifest}
      ensures forall name :: name in old(files) && name != g.manifest ==> files[name] == old(files[name])
      ensures files[g.manifest] == Written(g.head, NewPins(g, old(View())), order)
      ensures Legal(g) && Sound(old(View())) ==>
                && PinnedIn(g, View()) == NewPins(g, old(View()))
                && Observed(g, View()) == Observed(g, old(View()))
                && VerifyOf(g, View()) == if PinnedIn(g, View()) == map[] then 2 else 0
      ensures Legal(g) && Sound(old(View())) ==>
                forall name :: !Carried(old(View()), name) ==> SamePin(PinnedIn(g, old(View())), PinnedIn(g, View()), name)
    {
      var kept := map name | name in PinnedIn(g, View()) && !Carried(View(), name) :: PinnedIn(g, View())[name];
      var digests := kept + Observed(g, View());
      assert digests == NewPins(g, View());
      ghost var before := View();
      files := files[g.manifest := Written(g.head, digests, order)];
      assert View() == Updated(g, before, order);
      UpdateMeans(g, before, order);
    }

    /** verify, by its three differences. */
    method Verify(g: Gate) returns (code: int)
      ensures code == VerifyOf(g, View())
    {
      var want, have := PinnedIn(g, View()), Observed(g, View());
      if want == map[] {
        return 2;
      }
      var missing := set name | name in want.Keys - have.Keys && Carried(View(), name);
      var extra := have.Keys - want.Keys;
      var drifted := set name | name in want.Keys * have.Keys && want[name] != have[name];
      assert missing == Missing(g, View()) && extra == Extra(g, View()) && drifted == Drifted(g, View());
      if missing != {} || extra != {} || drifted != {} {
        return 1;
      }
      return 0;
    }

    /** propagate, to one sibling. */
    method Propagate(g: Gate, sib: Checkout)
      requires sib != this && forall name :: name in Offered(g) ==> Deep(name)
      modifies sib
      ensures sib.View() == Propagated(g, View(), old(sib.View()))
    {
      var names := Offered(g);
      for i := 0 to |names|
        invariant files == old(files) && dirs == old(dirs)
        invariant sib.View() == Delivered(View(), old(sib.View()), names[..i])
      {
        var name := names[i];
        assert names[..i + 1][..i] == names[..i];
        if name in files && Group(name) in sib.dirs {
          sib.dirs := sib.dirs + Ancestors(Parent(name));
          sib.files := sib.files[name := files[name]];
        }
      }
      assert names[..|names|] == names;
    }
  }
}
