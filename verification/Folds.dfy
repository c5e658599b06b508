/** Simple case-fold orbits: grouping codepoints by their fold target, flattening the
    orbits into one offset table, and the lookup that reads it. */
module Folds {

  /** One C or S row of the case-folding data. */
  datatype Row = Row(code: nat, target: nat)

  /** Where c folds to; itself when no row says otherwise. */
  function Fold(rows: seq<Row>, c: nat): nat {
    if rows == [] then c
    else if rows[|rows| - 1].code == c then rows[|rows| - 1].target
    else Fold(rows[..|rows| - 1], c)
  }

  /** Each codepoint has one row, and fold targets do not fold further: the shape of the
      data that section 3.13 of the Unicode Standard gives simple case folding. */
  predicate Simple(rows: seq<Row>) {
    && (forall i, j :: 0 <= i < |rows| && 0 <= j < |rows| && rows[i].code == rows[j].code ==> rows[i].target == rows[j].target)
    && (forall i, j :: 0 <= i < |rows| && 0 <= j < |rows| ==> rows[i].target != rows[j].code)
  }

  /** The orbit relation: distinct codepoints with a common fold. */
  predicate Equivalent(rows: seq<Row>, c: nat, d: nat) {
    c != d && Fold(rows, c) == Fold(rows, d)
  }

  predicate Ascending(s: seq<nat>) {
    forall j, k :: 0 <= j < k < |s| ==> s[j] < s[k]
  }

  /** s lists exactly the members of m, in order. */
  ghost predicate Lists(s: seq<nat>, m: set<nat>) {
    Ascending(s) && forall x :: x in s <==> x in m
  }

  lemma SomeMember<T>(m: set<T>)
    requires m != {}
    ensures exists x :: x in m
  {
    assert |m| > 0;
  }

  lemma LeastExists(m: set<nat>, x: nat)
    requires x in m
    ensures exists l :: l in m && forall y :: y in m ==> l <= y
  {
    if y :| y in m && y < x {
      LeastExists(m, y);
    }
  }

  method LeastOf(m: set<nat>) returns (x: nat)
    requires m != {}
    ensures x in m && forall y :: y in m ==> x <= y
  {
    SomeMember(m);
    ghost var some :| some in m;
    LeastExists(m, some);
    x :| x in m && forall y :: y in m ==> x <= y;
  }

  /** The first of todo, where s lists what comes before it. */
  lemma ListsOneMore(s: seq<nat>, m: set<nat>, x: nat)
    requires Lists(s, m) && forall y :: y in m ==> y < x
    ensures Lists(s + [x], m + {x})
  {
    forall j | 0 <= j < |s|
      ensures s[j] < x
    {
      assert s[j] in s;
    }
  }

  /** sorted of a set. */
  method SortedOf(m: set<nat>) returns (s: seq<nat>)
    ensures Lists(s, m)
  {
    s := [];
    var todo := m;
    while todo != {}
      invariant todo <= m && Lists(s, m - todo)
      invariant forall x, y :: x in m - todo && y in todo ==> x < y
      decreases todo
    {
      var x := LeastOf(todo);
      ListsOneMore(s, m - todo, x);
      assert m - (todo - {x}) == (m - todo) + {x};
      s := s + [x];
      todo := todo - {x};
    }
    assert m - todo == m;
  }

  /** The groups the rows form: each target with itself and every codepoint that folds to it. */
  ghost predicate Grouped(groups: map<nat, set<nat>>, rows: seq<Row>) {
    && (forall t :: t in groups <==> exists i :: 0 <= i < |rows| && rows[i].target == t)
    && (forall t, c :: t in groups ==> (c in groups[t] <==> c == t || Row(c, t) in rows))
  }

  method GroupRows(rows: seq<Row>) returns (groups: map<nat, set<nat>>)
    ensures Grouped(groups, rows)
  {
    groups := map[];
    for i := 0 to |rows|
      invariant Grouped(groups, rows[..i])
    {
      var row := rows[i];
      assert rows[..i + 1] == rows[..i] + [row];
      ghost var before := groups;
      if row.target !in groups {
        groups := groups[row.target := {row.target}];
      }
      groups := groups[row.target := groups[row.target] + {row.code}];
      GroupedSnoc(before, groups, rows[..i], row);
    }
    assert rows[..|rows|] == rows;
  }

  lemma GroupedSnoc(before: map<nat, set<nat>>, groups: map<nat, set<nat>>, rows: seq<Row>, row: Row)
    requires Grouped(before, rows)
    requires groups == before[row.target := (if row.target in before then before[row.target] else {row.target}) + {row.code}]
    ensures Grouped(groups, rows + [row])
  {
    var all := rows + [row];
    assert all[|rows|] == row;
    forall t
      ensures t in groups <==> exists i :: 0 <= i < |all| && all[i].target == t
    {
      if t in before {
        var i :| 0 <= i < |rows| && rows[i].target == t;
        assert all[i] == rows[i];
      }
    }
    forall t, c | t in groups
      ensures c in groups[t] <==> c == t || Row(c, t) in all
    {
      if t !in before {
        assert Row(c, t) !in rows;
      }
    }
  }

  /** In simple data a codepoint's row, if it has one, is its fold. */
  lemma {:induction false} FoldOfRow(rows: seq<Row>, c: nat)
    requires Simple(rows)
    ensures forall t :: Row(c, t) in rows ==> Fold(rows, c) == t
    ensures (forall t :: Row(c, t) !in rows) ==> Fold(rows, c) == c
    ensures Fold(rows, c) == c || Row(c, Fold(rows, c)) in rows
  {
    if rows != [] {
      var last, rest := rows[|rows| - 1], rows[..|rows| - 1];
      assert rows == rest + [last];
      assert Simple(rest);
      FoldOfRow(rest, c);
    }
  }

  /** In simple data the group of t is the set of codepoints whose fold is t. */
  lemma GroupIsFibre(groups: map<nat, set<nat>>, rows: seq<Row>, t: nat, c: nat)
    requires Simple(rows) && Grouped(groups, rows) && t in groups
    ensures c in groups[t] <==> Fold(rows, c) == t
  {
    FoldOfRow(rows, c);
    FoldOfRow(rows, t);
    var i :| 0 <= i < |rows| && rows[i].target == t;
    forall j | 0 <= j < |rows|
      ensures rows[j].code != t
    {
      assert rows[i].target != rows[j].code;
    }
  }

  /** The table is right about every codepoint. */
  ghost predicate OrbitTable(orbits: map<nat, seq<nat>>, rows: seq<Row>) {
    && (forall m :: m in orbits ==> Ascending(orbits[m]) && orbits[m] != [])
    && (forall m, c :: (m in orbits && c in orbits[m]) <==> Equivalent(rows, m, c))
  }

  /** The orbits of the groups in done are in the table, and nothing else is. */
  ghost predicate PartialTable(orbits: map<nat, seq<nat>>, groups: map<nat, set<nat>>, done: set<nat>, rows: seq<Row>) {
    && (forall m :: m in orbits ==> Ascending(orbits[m]) && orbits[m] != [])
    && (forall m, c :: (m in orbits && c in orbits[m]) <==> Equivalent(rows, m, c) && Fold(rows, m) in done)
  }

  /** One group's orbits entered, and no other. */
  ghost predicate GroupEntered(before: map<nat, seq<nat>>, orbits: map<nat, seq<nat>>, g: set<nat>, all: set<nat>) {
    && (forall m :: m in g ==> m in orbits && Lists(orbits[m], all - {m}))
    && (forall m :: m !in g ==> (m in orbits <==> m in before) && (m in before ==> orbits[m] == before[m]))
  }

  /** The inner loop of fold_orbits. */
  method EnterGroup(before: map<nat, seq<nat>>, members: set<nat>) returns (orbits: map<nat, seq<nat>>)
    ensures GroupEntered(before, orbits, members, members)
  {
    orbits := before;
    var left := members;
    while left != {}
      invariant left <= members && GroupEntered(before, orbits, members - left, members)
      decreases left
    {
      SomeMember(left);
      var m :| m in left;
      var others := SortedOf(members - {m});
      EnteredOneMore(before, orbits, members - left, members, m, others);
      assert members - (left - {m}) == (members - left) + {m};
      orbits := orbits[m := others];
      left := left - {m};
    }
    assert members - left == members;
  }

  lemma EnteredOneMore(before: map<nat, seq<nat>>, orbits: map<nat, seq<nat>>, g: set<nat>, all: set<nat>,
                       m: nat, others: seq<nat>)
    requires GroupEntered(before, orbits, g, all) && Lists(others, all - {m})
    ensures GroupEntered(before, orbits[m := others], g + {m}, all)
  {
  }

  /** Over simple data, the table is right about every group but those still to come. */
  ghost predicate RightSoFar(orbits: map<nat, seq<nat>>, groups: map<nat, set<nat>>, todo: set<nat>, rows: seq<Row>) {
    Simple(rows) ==> PartialTable(orbits, groups, groups.Keys - todo, rows)
  }

  lemma NoGroupYet(groups: map<nat, set<nat>>, rows: seq<Row>)
    ensures RightSoFar(map[], groups, groups.Keys, rows)
  {
  }

  lemma NextGroup(before: map<nat, seq<nat>>, orbits: map<nat, seq<nat>>, groups: map<nat, set<nat>>,
                  todo: set<nat>, rows: seq<Row>, t: nat)
    requires Grouped(groups, rows) && todo <= groups.Keys && t in todo && RightSoFar(before, groups, todo, rows)
    requires if |groups[t]| >= 2 then GroupEntered(before, orbits, groups[t], groups[t]) else orbits == before
    ensures RightSoFar(orbits, groups, todo - {t}, rows)
  {
    if Simple(rows) {
      GroupDone(before, orbits, groups, groups.Keys - todo, rows, t);
      assert groups.Keys - (todo - {t}) == (groups.Keys - todo) + {t};
    }
  }

  lemma LastGroup(orbits: map<nat, seq<nat>>, groups: map<nat, set<nat>>, rows: seq<Row>)
    requires Grouped(groups, rows) && RightSoFar(orbits, groups, {}, rows)
    ensures Simple(rows) ==> OrbitTable(orbits, rows)
  {
    if Simple(rows) {
      AllGroupsDone(orbits, groups, groups.Keys - {}, rows);
    }
  }

  /** fold_orbits. The groups are visited in an arbitrary order, which over simple data
      does not matter, as they are disjoint. */
  method FoldOrbits(rows: seq<Row>) returns (orbits: map<nat, seq<nat>>)
    ensures Simple(rows) ==> OrbitTable(orbits, rows)
  {
    var groups := GroupRows(rows);
    orbits := map[];
    NoGroupYet(groups, rows);
    var todo := groups.Keys;
    while todo != {}
      invariant todo <= groups.Keys
      invariant RightSoFar(orbits, groups, todo, rows)
      decreases todo
    {
      SomeMember(todo);
      var t :| t in todo;
      var members := groups[t];
      ghost var before := orbits;
      if |members| >= 2 {
        orbits := EnterGroup(orbits, members);
      }
      NextGroup(before, orbits, groups, todo, rows, t);
      todo := todo - {t};
    }
    LastGroup(orbits, groups, rows);
  }

  lemma GroupDone(before: map<nat, seq<nat>>, orbits: map<nat, seq<nat>>, groups: map<nat, set<nat>>,
                  done: set<nat>, rows: seq<Row>, t: nat)
    requires Simple(rows) && Grouped(groups, rows) && t in groups && t !in done
    requires PartialTable(before, groups, done, rows)
    requires |groups[t]| < 2 ==> orbits == before
    requires |groups[t]| >= 2 ==> GroupEntered(before, orbits, groups[t], groups[t])
    ensures PartialTable(orbits, groups, done + {t}, rows)
  {
    var g := groups[t];
    forall m | m in orbits
      ensures Ascending(orbits[m]) && orbits[m] != []
    {
      if |g| >= 2 && m in g {
        AnotherMember(g, m);
      }
    }
    forall m, c
      ensures (m in orbits && c in orbits[m]) <==> Equivalent(rows, m, c) && Fold(rows, m) in done + {t}
    {
      GroupIsFibre(groups, rows, t, m);
      GroupIsFibre(groups, rows, t, c);
      if m in g {
        NothingOf(before, groups, done, rows, m);
        if |g| < 2 && Equivalent(rows, m, c) {
          TwoMembers(g, m, c);
        }
      }
    }
  }

  lemma NothingOf(before: map<nat, seq<nat>>, groups: map<nat, set<nat>>, done: set<nat>, rows: seq<Row>, m: nat)
    requires PartialTable(before, groups, done, rows)
    ensures m in before ==> Fold(rows, m) in done
  {
    if m in before {
      assert before[m][0] in before[m];
    }
  }

  lemma AnotherMember(g: set<nat>, m: nat)
    requires m in g && |g| >= 2
    ensures exists c :: c in g - {m}
  {
    assert |g - {m}| >= 1;
    SomeMember(g - {m});
  }

  lemma TwoMembers(g: set<nat>, m: nat, c: nat)
    requires m in g && c in g && m != c
    ensures |g| >= 2
  {
    assert |g - {m}| >= 1 by {
      assert c in g - {m};
    }
  }

  /** A codepoint with an equivalent folds to some row's target. */
  lemma AllGroupsDone(orbits: map<nat, seq<nat>>, groups: map<nat, set<nat>>, done: set<nat>, rows: seq<Row>)
    requires Simple(rows) && Grouped(groups, rows) && done == groups.Keys
    requires PartialTable(orbits, groups, done, rows)
    ensures OrbitTable(orbits, rows)
  {
    forall m, c | Equivalent(rows, m, c)
      ensures Fold(rows, m) in done
    {
      FoldOfRow(rows, m);
      FoldOfRow(rows, c);
      var t := Fold(rows, m);
      assert Row(m, t) in rows || Row(c, t) in rows;
    }
  }

  // ---- the flattened table ----

  datatype Entry = Entry(cp: nat, off: nat, len: nat)

  /** The flattening loop of build: one entry per codepoint with an orbit, in order, and
      the orbits end to end. */
  predicate Flattened(entries: seq<Entry>, members: seq<nat>, cps: seq<nat>, orbits: map<nat, seq<nat>>) {
    && |entries| == |cps|
    && forall k :: 0 <= k < |entries| ==>
         && entries[k].cp == cps[k] && cps[k] in orbits
         && entries[k].off + entries[k].len <= |members|
         && members[entries[k].off..entries[k].off + entries[k].len] == orbits[cps[k]]
  }

  method Flatten(orbits: map<nat, seq<nat>>) returns (entries: seq<Entry>, members: seq<nat>, cps: seq<nat>)
    ensures Lists(cps, orbits.Keys)
    ensures Flattened(entries, members, cps, orbits)
  {
    cps := SortedOf(orbits.Keys);
    entries, members := [], [];
    for i := 0 to |cps|
      invariant Flattened(entries, members, cps[..i], orbits)
    {
      assert cps[i] in cps;
      var others := orbits[cps[i]];
      FlattenedOneMore(entries, members, cps, orbits, i);
      entries := entries + [Entry(cps[i], |members|, |others|)];
      members := members + others;
    }
    assert cps[..|cps|] == cps;
  }

  lemma FlattenedOneMore(entries: seq<Entry>, members: seq<nat>, cps: seq<nat>, orbits: map<nat, seq<nat>>, i: nat)
    requires i < |cps| && cps[i] in orbits && Flattened(entries, members, cps[..i], orbits)
    ensures Flattened(entries + [Entry(cps[i], |members|, |orbits[cps[i]]|)], members + orbits[cps[i]], cps[..i + 1], orbits)
  {
    var others := orbits[cps[i]];
    var more := members + others;
    assert more[|members|..|members| + |others|] == others;
    forall k | 0 <= k < i
      ensures more[entries[k].off..entries[k].off + entries[k].len] == orbits[cps[k]]
    {
      assert cps[..i][k] == cps[k];
      StillThere(members, others, entries[k].off, entries[k].len);
    }
  }

  lemma StillThere(s: seq<nat>, t: seq<nat>, off: nat, len: nat)
    requires off + len <= |s|
    ensures (s + t)[off..off + len] == s[off..off + len]
  {
  }

  /** foldOrbit: a binary search for the entry, and a slice of the members. */
  method FoldOrbit(entries: seq<Entry>, members: seq<nat>, cp: nat, ghost cps: seq<nat>, ghost orbits: map<nat, seq<nat>>)
    returns (orbit: seq<nat>)
    requires Lists(cps, orbits.Keys) && Flattened(entries, members, cps, orbits)
    ensures orbit == if cp in orbits then orbits[cp] else []
  {
    var lo, hi := 0, |entries|;
    while lo < hi
      invariant 0 <= lo <= hi <= |entries|
      invariant forall k :: 0 <= k < lo ==> cps[k] < cp
      invariant forall k :: hi <= k < |entries| ==> cp < cps[k]
      decreases hi - lo
    {
      var mid := lo + (hi - lo) / 2;
      var e := entries[mid];
      assert e.cp == cps[mid];
      if cp < e.cp {
        hi := mid;
      } else if cp > e.cp {
        lo := mid + 1;
      } else {
        return members[e.off..e.off + e.len];
      }
    }
    assert cp !in cps;
    return [];
  }

  /** From the rows to the lookup: over simple data, the orbit read for any codepoint lists
      exactly the other codepoints with its fold, in ascending order. */
  method OrbitOf(rows: seq<Row>, cp: nat) returns (orbit: seq<nat>)
    requires Simple(rows)
    ensures Ascending(orbit)
    ensures forall c :: c in orbit <==> Equivalent(rows, cp, c)
  {
    var orbits := FoldOrbits(rows);
    var entries, members, cps := Flatten(orbits);
    orbit := FoldOrbit(entries, members, cp, cps, orbits);
  }

  /** So the orbits partition the codepoints that fold: the relation the table holds is
      symmetric and irreflexive, and transitive between distinct codepoints. */
  lemma OrbitsPartition(orbits: map<nat, seq<nat>>, rows: seq<Row>, c: nat, d: nat, e: nat)
    requires OrbitTable(orbits, rows)
    requires c in orbits && d in orbits[c]
    ensures c != d && d in orbits && c in orbits[d]
    ensures e in orbits[d] && e != c ==> e in orbits[c]
  {
    assert Equivalent(rows, c, d);
    assert Equivalent(rows, d, c);
    if e in orbits[d] && e != c {
      assert Equivalent(rows, d, e);
      assert Equivalent(rows, c, e);
    }
  }

  /** Without simple data the groups overlap and the table depends on the order they are
      visited in: with a folding to b and b folding to c, b is in the groups of both. */
  lemma ChainedFoldsOverlap(a: nat, b: nat, c: nat, groups: map<nat, set<nat>>)
    requires a != b && b != c && a != c
    requires Grouped(groups, [Row(a, b), Row(b, c)])
    ensures !Simple([Row(a, b), Row(b, c)])
    ensures b in groups && c in groups && b in groups[b] && b in groups[c] && a in groups[b] && a !in groups[c]
  {
    var rows := [Row(a, b), Row(b, c)];
    assert rows[0].target == b && rows[1].target == c && rows[1].code == b;
    assert rows[0] in rows && rows[1] in rows;
  }
}
