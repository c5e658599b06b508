/** The text of the vendored manifest: one "<digest>  <name>" line per pinned file. What
    counts as white space and as a line break is a parameter, known by a few laws. */
module Manifest {
  import opened Basics

  datatype Chars = Chars(space: char -> bool, breaks: char -> bool)

  /** Line breaks and blanks are white space; # is not. */
  ghost predicate Lawful(cs: Chars) {
    && (forall c :: cs.breaks(c) ==> cs.space(c))
    && cs.breaks('\n') && cs.space(' ') && !cs.space('#') && !cs.breaks(' ')
  }

  function DropLeft(cs: Chars, s: string): (r: string)
    ensures |r| <= |s|
  {
    if s != [] && cs.space(s[0]) then DropLeft(cs, s[1..]) else s
  }

  function DropRight(cs: Chars, s: string): (r: string)
    ensures |r| <= |s|
  {
    if s != [] && cs.space(s[|s| - 1]) then DropRight(cs, s[..|s| - 1]) else s
  }

  /** str.strip */
  function Strip(cs: Chars, s: string): string {
    DropRight(cs, DropLeft(cs, s))
  }

  predicate Stripped(cs: Chars, s: string) {
    s != [] ==> !cs.space(s[0]) && !cs.space(s[|s| - 1])
  }

  predicate Unbroken(cs: Chars, s: string) {
    forall k :: 0 <= k < |s| ==> !cs.breaks(s[k])
  }

  /** Where the first two blanks in a row are, at or after i; -1 if nowhere. */
  function Gap(s: string, i: nat): (k: int)
    ensures k == -1 || (i <= k <= |s| - 2 && s[k] == ' ' && s[k + 1] == ' ')
    ensures k == -1 ==> forall j :: i <= j <= |s| - 2 ==> !(s[j] == ' ' && s[j + 1] == ' ')
    ensures k >= 0 ==> forall j :: i <= j < k ==> !(s[j] == ' ' && s[j + 1] == ' ')
    decreases |s| - i
  {
    if i + 1 >= |s| then -1
    else if s[i] == ' ' && s[i + 1] == ' ' then i
    else Gap(s, i + 1)
  }

  datatype Pin = Pin(name: string, sha: string)

  /** One line of the manifest: blank lines and comments say nothing. */
  function ParseLine(cs: Chars, raw: string): Option<Pin> {
    var line := Strip(cs, raw);
    if line == [] || line[0] == '#' then None
    else
      var k := Gap(line, 0);
      if k < 0 then Some(Pin(Strip(cs, []), Strip(cs, line)))
      else Some(Pin(Strip(cs, line[k + 2..]), Strip(cs, line[..k])))
  }

  /** A pin that survives being written and read: both parts stripped and on one line, a
      name, and a digest that neither reads as a comment nor holds the separator. */
  predicate CleanPin(cs: Chars, p: Pin) {
    && p.name != [] && Stripped(cs, p.name) && Unbroken(cs, p.name)
    && p.sha != [] && Stripped(cs, p.sha) && Unbroken(cs, p.sha)
    && p.sha[0] != '#' && Gap(p.sha, 0) == -1
  }

  function PinLine(p: Pin): string {
    p.sha + "  " + p.name
  }

  lemma StrippedIsFixed(cs: Chars, s: string)
    requires Stripped(cs, s)
    ensures Strip(cs, s) == s
  {
  }

  lemma {:induction false} GapAfterSha(sha: string, rest: string, i: nat)
    requires i <= |sha| && Gap(sha, i) == -1 && (sha != [] ==> sha[|sha| - 1] != ' ')
    requires |rest| >= 2 && rest[0] == ' ' && rest[1] == ' '
    ensures Gap(sha + rest, i) == |sha|
    decreases |sha| - i
  {
    if i < |sha| {
      GapAfterSha(sha, rest, i + 1);
    }
  }

  /** A clean pin reads back from its line. */
  lemma LineRoundTrip(cs: Chars, p: Pin)
    requires Lawful(cs) && CleanPin(cs, p)
    ensures ParseLine(cs, PinLine(p)) == Some(p)
    ensures ParseLine(cs, p.sha + [' ', ' '] + p.name) == Some(p)
  {
    PinLineParts(p);
    StrippedIsFixed(cs, PinLine(p));
    GapAfterSha(p.sha, "  " + p.name, 0);
    StrippedIsFixed(cs, p.sha);
    StrippedIsFixed(cs, p.name);
  }

  lemma PinLineParts(p: Pin)
    requires p.sha != [] && p.name != []
    ensures var line := PinLine(p);
            && line == p.sha + ("  " + p.name) && line[0] == p.sha[0] && line[|line| - 1] == p.name[|p.name| - 1]
            && line[..|p.sha|] == p.sha && line[|p.sha| + 2..] == p.name
  {
  }

  lemma {:induction false} DropLeftKeeps(cs: Chars, s: string)
    requires Unbroken(cs, s)
    ensures Unbroken(cs, DropLeft(cs, s))
    ensures DropLeft(cs, s) != [] ==> !cs.space(DropLeft(cs, s)[0])
    ensures s != [] && !cs.space(s[0]) ==> DropLeft(cs, s) == s
  {
    if s != [] && cs.space(s[0]) {
      DropLeftKeeps(cs, s[1..]);
    }
  }

  lemma {:induction false} DropRightKeeps(cs: Chars, s: string)
    requires Unbroken(cs, s)
    ensures var r := DropRight(cs, s);
            && Unbroken(cs, r)
            && (r != [] ==> !cs.space(r[|r| - 1]))
            && r == s[..|r|]
            && (s != [] && !cs.space(s[0]) ==> r != [])
  {
    if s != [] && cs.space(s[|s| - 1]) {
      DropRightKeeps(cs, s[..|s| - 1]);
    }
  }

  lemma StripKeeps(cs: Chars, s: string)
    requires Unbroken(cs, s)
    ensures Unbroken(cs, Strip(cs, s)) && Stripped(cs, Strip(cs, s))
    ensures s != [] && !cs.space(s[0]) ==>
              var r := Strip(cs, s);
              r != [] && r == s[..|r|]
  {
    DropLeftKeeps(cs, s);
    DropRightKeeps(cs, DropLeft(cs, s));
  }

  /** Whatever a line says is clean, unless it names nothing. */
  lemma ParsedIsClean(cs: Chars, raw: string)
    requires Lawful(cs) && Unbroken(cs, raw) && ParseLine(cs, raw).Some?
    ensures ParseLine(cs, raw).value.name != [] ==> CleanPin(cs, ParseLine(cs, raw).value)
  {
    StripKeeps(cs, raw);
    var line := Strip(cs, raw);
    var k := Gap(line, 0);
    if k >= 0 {
      assert Unbroken(cs, line[k + 2..]) && Unbroken(cs, line[..k]);
      StripKeeps(cs, line[k + 2..]);
      StripKeeps(cs, line[..k]);
      assert k > 0;
      var sha := Strip(cs, line[..k]);
      assert sha == line[..k][..|sha|];
      assert forall j :: 0 <= j < |sha| ==> sha[j] == line[j];
    }
  }

  // ---- the whole text ----

  function BreakAt(cs: Chars, t: string, i: nat): (k: nat)
    requires i <= |t|
    ensures i <= k <= |t| && (k < |t| ==> cs.breaks(t[k]))
    ensures forall j :: i <= j < k ==> !cs.breaks(t[j])
    decreases |t| - i
  {
    if i == |t| || cs.breaks(t[i]) then i else BreakAt(cs, t, i + 1)
  }

  function UpToBreak(cs: Chars, t: string): (line: string)
    ensures Unbroken(cs, line)
  {
    t[..BreakAt(cs, t, 0)]
  }

  /** str.splitlines, up to empty lines, which say nothing here. */
  function Lines(cs: Chars, t: string): seq<string>
    decreases |t|, 1
  {
    [UpToBreak(cs, t)] + LinesBehind(cs, t, BreakAt(cs, t, 0))
  }

  /** The lines behind a break at k; none behind the end. */
  function LinesBehind(cs: Chars, t: string, k: nat): seq<string>
    requires k <= |t|
    decreases |t|, 0
  {
    if k == |t| then [] else Lines(cs, t[k + 1..])
  }

  function Ended(lines: seq<string>): string {
    if lines == [] then [] else lines[0] + "\n" + Ended(lines[1..])
  }

  lemma FirstLine(cs: Chars, line: string, rest: string)
    requires Lawful(cs) && Unbroken(cs, line)
    ensures Lines(cs, line + "\n" + rest) == [line] + Lines(cs, rest)
  {
    var t := line + "\n" + rest;
    assert t[|line|] == '\n' && forall j :: 0 <= j < |line| ==> t[j] == line[j];
    assert BreakAt(cs, t, 0) == |line|;
    assert t[..|line|] == line && t[|line| + 1..] == rest;
  }

  predicate AllUnbroken(cs: Chars, lines: seq<string>) {
    lines == [] || (Unbroken(cs, lines[0]) && AllUnbroken(cs, lines[1..]))
  }

  lemma {:induction false} UnbrokenEach(cs: Chars, lines: seq<string>)
    requires forall k :: 0 <= k < |lines| ==> Unbroken(cs, lines[k])
    ensures AllUnbroken(cs, lines)
  {
    if lines != [] {
      assert Unbroken(cs, lines[0]);
      UnbrokenEach(cs, lines[1..]);
    }
  }

  lemma Regrouped<T>(s: seq<T>, tail: seq<T>)
    requires s != []
    ensures s + tail == [s[0]] + (s[1..] + tail)
  {
  }

  lemma EndedCons(lines: seq<string>)
    requires lines != []
    ensures Ended(lines) == lines[0] + "\n" + Ended(lines[1..])
  {
  }

  lemma {:induction false} LinesOfEnded(cs: Chars, lines: seq<string>)
    requires Lawful(cs) && AllUnbroken(cs, lines)
    ensures Lines(cs, Ended(lines)) == lines + [[]]
  {
    if lines != [] {
      LinesOfEnded(cs, lines[1..]);
      FirstLine(cs, lines[0], Ended(lines[1..]));
      EndedCons(lines);
      Regrouped(lines, [[]]);
    }
  }

  lemma OneMoreUnbroken(cs: Chars, line: string, rest: seq<string>)
    requires Unbroken(cs, line) && AllUnbroken(cs, rest)
    ensures AllUnbroken(cs, [line] + rest)
  {
    assert ([line] + rest)[1..] == rest;
  }

  lemma {:induction false} LinesAreUnbroken(cs: Chars, t: string)
    ensures AllUnbroken(cs, Lines(cs, t))
    decreases |t|
  {
    var k := BreakAt(cs, t, 0);
    if k < |t| {
      LinesAreUnbroken(cs, t[k + 1..]);
    }
    OneMoreUnbroken(cs, UpToBreak(cs, t), LinesBehind(cs, t, k));
  }

  type Pins = map<string, string>

  /** The pins of some lines; a later line wins. */
  function PinsOf(cs: Chars, lines: seq<string>): Pins {
    if lines == [] then map[] else PinMap(ParseLine(cs, lines[0])) + PinsOf(cs, lines[1..])
  }

  function PinMap(pin: Option<Pin>): Pins {
    if pin.Some? then map[pin.value.name := pin.value.sha] else map[]
  }

  /** pinned: the manifest as written. */
  function Pinned(cs: Chars, text: string): Pins {
    PinsOf(cs, Lines(cs, text))
  }

  /** pinned, as the loop that fills the dictionary. */
  method ReadPins(cs: Chars, text: string) returns (out: Pins)
    ensures out == Pinned(cs, text)
  {
    out := map[];
    var lines := Lines(cs, text);
    for i := 0 to |lines|
      invariant out + PinsOf(cs, lines[i..]) == PinsOf(cs, lines)
    {
      NextLine(cs, lines, i);
      var pin := ParseLine(cs, lines[i]);
      PutOneMore(out, pin, PinsOf(cs, lines[i + 1..]));
      if pin.Some? {
        out := out[pin.value.name := pin.value.sha];
      }
    }
  }

  lemma PutOneMore(out: Pins, pin: Option<Pin>, rest: Pins)
    ensures out + (PinMap(pin) + rest)
         == (match pin case None => out case Some(pin) => out[pin.name := pin.sha]) + rest
  {
  }

  lemma NextLine(cs: Chars, lines: seq<string>, i: nat)
    requires i < |lines|
    ensures PinsOf(cs, lines[i..]) == PinMap(ParseLine(cs, lines[i])) + PinsOf(cs, lines[i + 1..])
  {
    var tail := lines[i..];
    assert tail[0] == lines[i] && tail[1..] == lines[i + 1..];
  }

  predicate CleanPins(cs: Chars, pins: Pins) {
    forall name :: name in pins ==> CleanPin(cs, Pin(name, pins[name]))
  }

  lemma {:induction false} PinsOfLinesAreClean(cs: Chars, lines: seq<string>)
    requires Lawful(cs) && AllUnbroken(cs, lines)
    ensures forall name :: name in PinsOf(cs, lines) && name != [] ==> CleanPin(cs, Pin(name, PinsOf(cs, lines)[name]))
  {
    if lines != [] {
      PinsOfLinesAreClean(cs, lines[1..]);
      if ParseLine(cs, lines[0]).Some? {
        ParsedIsClean(cs, lines[0]);
      }
    }
  }

  /** Every pin read from any text is clean, unless its name is empty. */
  lemma PinnedIsClean(cs: Chars, text: string)
    requires Lawful(cs)
    ensures forall name :: name in Pinned(cs, text) && name != [] ==> CleanPin(cs, Pin(name, Pinned(cs, text)[name]))
  {
    LinesAreUnbroken(cs, text);
    PinsOfLinesAreClean(cs, Lines(cs, text));
  }

  function PinLines(pins: Pins, order: seq<string>): seq<string>
    requires forall name :: name in order ==> name in pins
  {
    seq(|order|, k requires 0 <= k < |order| => PinLine(Pin(order[k], pins[order[k]])))
  }

  /** Comment lines, which is what the head of the manifest is. */
  predicate Comments(cs: Chars, head: seq<string>) {
    forall k :: 0 <= k < |head| ==> Unbroken(cs, head[k]) && head[k] != [] && head[k][0] == '#'
  }

  /** The text write_manifest produces: the head, then one line per name in some order. */
  function Written(head: seq<string>, pins: Pins, order: seq<string>): string
    requires forall name :: name in order ==> name in pins
  {
    Ended(head + PinLines(pins, order))
  }

  lemma CommentSaysNothing(cs: Chars, line: string)
    requires Lawful(cs) && Unbroken(cs, line) && line != [] && line[0] == '#'
    ensures ParseLine(cs, line) == None
  {
    StripKeeps(cs, line);
    var r := Strip(cs, line);
    assert r[0] == line[..|r|][0];
  }

  lemma {:induction false} PinsOfHead(cs: Chars, head: seq<string>, rest: seq<string>)
    requires Lawful(cs) && Comments(cs, head)
    ensures PinsOf(cs, head + rest) == PinsOf(cs, rest)
  {
    if head == [] {
      assert head + rest == rest;
    } else {
      assert (head + rest)[1..] == head[1..] + rest;
      CommentSaysNothing(cs, head[0]);
      PinsOfHead(cs, head[1..], rest);
    }
  }

  ghost function Chosen(pins: Pins, order: seq<string>): Pins
    requires forall name :: name in order ==> name in pins
  {
    map name | name in order :: pins[name]
  }

  lemma ChosenCons(pins: Pins, first: string, rest: seq<string>)
    requires first in pins && forall name :: name in rest ==> name in pins
    ensures Chosen(pins, [first] + rest) == map[first := pins[first]] + Chosen(pins, rest)
  {
  }

  lemma PinLinesCons(pins: Pins, first: string, rest: seq<string>, end: seq<string>)
    requires first in pins && forall name :: name in rest ==> name in pins
    ensures PinLines(pins, [first] + rest) + end == [PinLine(Pin(first, pins[first]))] + (PinLines(pins, rest) + end)
  {
  }

  lemma {:induction false} PinsOfBody(cs: Chars, pins: Pins, order: seq<string>)
    requires Lawful(cs) && CleanPins(cs, pins)
    requires forall name :: name in order ==> name in pins
    ensures PinsOf(cs, PinLines(pins, order) + [[]]) == Chosen(pins, order)
  {
    if order == [] {
      assert PinLines(pins, order) + [[]] == [[]];
      NothingIsPinned(cs);
    } else {
      var first, rest := order[0], order[1..];
      assert order == [first] + rest;
      PinsOfBody(cs, pins, rest);
      PinLinesCons(pins, first, rest, [[]]);
      ChosenCons(pins, first, rest);
      PinReadsBack(cs, pins, first);
      OneMoreLine(cs, PinLine(Pin(first, pins[first])), PinLines(pins, rest) + [[]], PinLines(pins, order) + [[]]);
    }
  }

  lemma NothingIsPinned(cs: Chars)
    ensures PinsOf(cs, [[]]) == map[]
  {
    var lines: seq<string> := [[]];
    assert lines[1..] == [] && lines[0] == [];
    assert ParseLine(cs, lines[0]) == None;
  }

  lemma PinReadsBack(cs: Chars, pins: Pins, name: string)
    requires Lawful(cs) && CleanPins(cs, pins) && name in pins
    ensures PinMap(ParseLine(cs, PinLine(Pin(name, pins[name])))) == map[name := pins[name]]
  {
    LineRoundTrip(cs, Pin(name, pins[name]));
  }

  lemma OneMoreLine(cs: Chars, line: string, rest: seq<string>, lines: seq<string>)
    requires lines == [line] + rest
    ensures PinsOf(cs, lines) == PinMap(ParseLine(cs, line)) + PinsOf(cs, rest)
  {
    assert lines[1..] == rest;
  }

  lemma PinLineUnbroken(cs: Chars, p: Pin)
    requires Lawful(cs) && CleanPin(cs, p)
    ensures Unbroken(cs, PinLine(p))
  {
  }

  /** The manifest round trip: clean pins, written in any order that names each of them,
      read back as the same pins. */
  lemma WrittenReadsBack(cs: Chars, head: seq<string>, pins: Pins, order: seq<string>)
    requires Lawful(cs) && Comments(cs, head) && CleanPins(cs, pins)
    requires forall name :: name in order <==> name in pins
    ensures Pinned(cs, Written(head, pins, order)) == pins
  {
    var body := PinLines(pins, order);
    WrittenIsUnbroken(cs, head, pins, order);
    LinesOfEnded(cs, head + body);
    Associates(head, body, [[]]);
    PinsOfHead(cs, head, body + [[]]);
    PinsOfBody(cs, pins, order);
    ChosenAll(pins, order);
  }

  lemma ChosenAll(pins: Pins, order: seq<string>)
    requires forall name :: name in order <==> name in pins
    ensures Chosen(pins, order) == pins
  {
  }

  lemma WrittenIsUnbroken(cs: Chars, head: seq<string>, pins: Pins, order: seq<string>)
    requires Comments(cs, head) && CleanPins(cs, pins) && Lawful(cs)
    requires forall name :: name in order ==> name in pins
    ensures AllUnbroken(cs, head + PinLines(pins, order))
  {
    var lines := head + PinLines(pins, order);
    forall k | 0 <= k < |lines|
      ensures Unbroken(cs, lines[k])
    {
      if k >= |head| {
        var name := order[k - |head|];
        assert name in order && lines[k] == PinLine(Pin(name, pins[name]));
        PinLineUnbroken(cs, Pin(name, pins[name]));
      }
    }
    UnbrokenEach(cs, lines);
  }

  /** The text written, line by line: the head first, each pin as digest, two blanks and name,
      and a newline behind every line. */
  lemma WrittenByLines(head: seq<string>, pins: Pins, order: seq<string>)
    requires forall name :: name in order ==> name in pins
    ensures head == [] && order == [] ==> Written(head, pins, order) == ""
    ensures head != [] ==> Written(head, pins, order) == head[0] + "\n" + Written(head[1..], pins, order)
    ensures head == [] && order != [] ==>
              Written(head, pins, order)
              == pins[order[0]] + "  " + order[0] + "\n" + Written([], pins, order[1..])
  {
    if head != [] {
      assert (head + PinLines(pins, order))[1..] == head[1..] + PinLines(pins, order);
    } else if order != [] {
      var lines := PinLines(pins, order);
      assert order == [order[0]] + order[1..];
      assert head + lines == lines && [] + PinLines(pins, order[1..]) == PinLines(pins, order[1..]);
      assert lines[1..] == PinLines(pins, order[1..]);
    }
  }

  predicate AllSpace(cs: Chars, s: string) {
    forall k :: 0 <= k < |s| ==> cs.space(s[k])
  }

  lemma {:induction false} DropLeftIs(cs: Chars, lead: string, s: string)
    requires AllSpace(cs, lead) && s != "" && !cs.space(s[0])
    ensures DropLeft(cs, lead + s) == s
  {
    if lead == "" {
      assert lead + s == s;
    } else {
      assert (lead + s)[1..] == lead[1..] + s;
      DropLeftIs(cs, lead[1..], s);
    }
  }

  lemma {:induction false} DropRightIs(cs: Chars, s: string, trail: string)
    requires AllSpace(cs, trail) && s != "" && !cs.space(s[|s| - 1])
    ensures DropRight(cs, s + trail) == s
    decreases |trail|
  {
    var t := s + trail;
    if trail == "" {
      assert t == s;
    } else {
      var n := |trail| - 1;
      assert t[|t| - 1] == trail[n] && t[..|t| - 1] == s + trail[..n];
      DropRightIs(cs, s, trail[..n]);
    }
  }

  lemma StripIs(cs: Chars, lead: string, s: string, trail: string)
    requires AllSpace(cs, lead) && AllSpace(cs, trail) && s != "" && Stripped(cs, s)
    ensures Strip(cs, lead + s + trail) == s
  {
    Associates(lead, s, trail);
    assert (s + trail)[0] == s[0];
    DropLeftIs(cs, lead, s + trail);
    DropRightIs(cs, s, trail);
  }

  /** A pin's line may have white space around it, and more of it behind the two blanks. */
  lemma SpacedLineReads(cs: Chars, lead: string, p: Pin, more: string, trail: string)
    requires Lawful(cs) && CleanPin(cs, p) && AllSpace(cs, lead) && AllSpace(cs, more) && AllSpace(cs, trail)
    ensures ParseLine(cs, lead + (p.sha + [' ', ' '] + more + p.name) + trail) == Some(p)
  {
    var core := p.sha + [' ', ' '] + more + p.name;
    CoreParts(p, more);
    StripIs(cs, lead, core, trail);
    GapAfterSha(p.sha, [' ', ' '] + (more + p.name), 0);
    StrippedIsFixed(cs, p.sha);
    NameBehindSpace(cs, more, p.name);
  }

  lemma CoreParts(p: Pin, more: string)
    requires p.sha != [] && p.name != []
    ensures var core, name := p.sha + [' ', ' '] + more + p.name, more + p.name;
            && core == p.sha + ([' ', ' '] + name) && core[0] == p.sha[0] && core[|core| - 1] == p.name[|p.name| - 1]
            && core[..|p.sha|] == p.sha && core[|p.sha| + 2..] == name
  {
  }

  lemma NameBehindSpace(cs: Chars, more: string, name: string)
    requires AllSpace(cs, more) && name != "" && Stripped(cs, name)
    ensures Strip(cs, more + name) == name
  {
    StripIs(cs, more, name, "");
    assert more + name + "" == more + name;
  }

  /** Blank lines and comments say nothing, wherever they start. */
  lemma NothingSaid(cs: Chars, lead: string, comment: string)
    requires Lawful(cs) && AllSpace(cs, lead) && (comment != "" ==> comment[0] == '#')
    ensures ParseLine(cs, lead + comment) == None
  {
    if comment == "" {
      BlankIsNothing(cs, lead);
      assert lead + comment == lead;
    } else {
      DropLeftIs(cs, lead, comment);
      DropRightKeepsFirst(cs, comment);
    }
  }

  lemma {:induction false} BlankIsNothing(cs: Chars, lead: string)
    requires AllSpace(cs, lead)
    ensures DropLeft(cs, lead) == ""
  {
    if lead != "" {
      BlankIsNothing(cs, lead[1..]);
    }
  }

  lemma {:induction false} DropRightKeepsFirst(cs: Chars, s: string)
    requires s != "" && !cs.space(s[0])
    ensures DropRight(cs, s) != "" && DropRight(cs, s)[0] == s[0]
    decreases |s|
  {
    if cs.space(s[|s| - 1]) {
      DropRightKeepsFirst(cs, s[..|s| - 1]);
    }
  }
}
