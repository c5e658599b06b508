/** Replacement templates: reading $-references, resolving them to groups, and
    rebuilding a text around its matches. */
module Templates {
  import opened Basics
  import opened Runes
  import opened Numerals
  import opened MatchSequence

  const DOLLAR: Byte := 0x24
  const OPEN: Byte := 0x7B
  const CLOSE: Byte := 0x7D

  /** What the library calls decide: word(r) is whether the rune r is a letter, a digit
      or an underscore; index is the pattern's table of named groups. */
  datatype Pattern = Pattern(word: int -> bool, index: map<Bytes, GroupIndex>)

  /** Group numbers come from the engine as 32-bit counts. */
  type GroupIndex = n: int | 0 <= n < 0x1_0000_0000

  datatype Ref = Ref(name: Bytes, rest: Bytes, ok: bool)

  /** Where the run of word runes starting at end stops. */
  function NameEnd(p: Pattern, body: Bytes, end: nat): (stop: nat)
    requires end <= |body|
    ensures end <= stop <= |body|
    decreases |body| - end
  {
    if end == |body| then end
    else
      var d := Decode(body, end);
      if !p.word(d.rune) then end
      else
        assert d.width == RuneWidth(body, end);
        NameEnd(p, body, end + d.width)
  }

  /** The reference s begins with, behind its dollar. */
  function ReferenceOf(p: Pattern, s: Bytes): (ref: Ref)
    ensures |ref.rest| <= |s|
    ensures ref.ok ==> ref.name != []
  {
    if s == [] then Ref([], [], false)
    else if s[0] == DOLLAR then Ref([], s[1..], false)
    else
      var braced := s[0] == OPEN;
      var body := if braced then s[1..] else s;
      var end := NameEnd(p, body, 0);
      if end == 0 then Ref([], s, false)
      else if !braced then Ref(body[..end], body[end..], true)
      else if end < |body| && body[end] == CLOSE then Ref(body[..end], body[end + 1..], true)
      else Ref([], s, false)
  }

  /** reference. */
  method Reference(p: Pattern, s: Bytes) returns (name: Bytes, rest: Bytes, ok: bool)
    ensures Ref(name, rest, ok) == ReferenceOf(p, s)
  {
    if s == [] {
      return [], [], false;
    }
    if s[0] == DOLLAR {
      return [], s[1..], false;
    }
    var body := s;
    var braced := body[0] == OPEN;
    if braced {
      body := body[1..];
    }
    var end := ScanName(p, body);
    if end == 0 {
      return [], s, false;
    }
    name := body[..end];
    if braced {
      if end >= |body| || body[end] != CLOSE {
        return [], s, false;
      }
      end := end + 1;
    }
    return name, body[end..], true;
  }

  /** The loop of reference. */
  method ScanName(p: Pattern, body: Bytes) returns (end: nat)
    ensures end == NameEnd(p, body, 0)
  {
    end := 0;
    ghost var stop := NameEnd(p, body, 0);
    while end < |body|
      invariant end <= |body|
      invariant NameEnd(p, body, end) == stop
    {
      var d := Decode(body, end);
      OneMoreRune(p, body, end);
      if !p.word(d.rune) {
        break;
      }
      end := end + d.width;
    }
  }

  lemma OneMoreRune(p: Pattern, body: Bytes, end: nat)
    requires end < |body|
    ensures var d := Decode(body, end);
            && 1 <= d.width <= |body| - end
            && NameEnd(p, body, end) == if p.word(d.rune) then NameEnd(p, body, end + d.width) else end
  {
    assert Decode(body, end).width == RuneWidth(body, end);
  }

  /** A name that reads as a group number: all digits, and no leading zero. */
  predicate Numeric(name: Bytes)
    requires name != []
  {
    AllDigits(name) && (name[0] != ZERO || |name| == 1)
  }

  function Named(p: Pattern, name: Bytes): int {
    if name in p.index then p.index[name] else -1
  }

  function GroupNumberOf(p: Pattern, name: Bytes): int
    requires name != []
  {
    if Numeric(name) then Wrap64(Value(name)) else Named(p, name)
  }

  /** groupNumber, whose running product is a 64-bit integer without an overflow check. */
  method GroupNumber(p: Pattern, name: Bytes) returns (n: int)
    requires name != []
    ensures n == GroupNumberOf(p, name)
  {
    var digits := name[0] != ZERO || |name| == 1;
    var number := 0;
    var i := 0;
    while digits && i < |name|
      invariant 0 <= i <= |name|
      invariant digits ==> AllDigits(name[..i]) && (name[0] != ZERO || |name| == 1)
      invariant digits ==> number == Wrap64(Value(name[..i]))
      invariant !digits ==> !Numeric(name)
      decreases |name| - i
    {
      if name[i] < ZERO || name[i] > NINE {
        digits := false;
      } else {
        assert name[..i + 1][..i] == name[..i];
        WrapStep(Value(name[..i]), DigitValue(name[i]));
        number := Wrap64(number * 10 + DigitValue(name[i]));
      }
      i := i + 1;
    }
    assert name[..|name|] == name;
    if digits {
      return number;
    }
    n := Named(p, name);
  }

  /** Group offsets as the engine fills them in: the whole match, then a pair per group,
      -1 and -1 for a group the match did not enter. The bound is the address space's. */
  predicate ValidGroups(src: Bytes, groups: seq<int>) {
    && 2 <= |groups| < 0x1000_0000_0000_0000 && |groups| % 2 == 0
    && 0 <= groups[0]
    && forall g :: 0 <= g < |groups| / 2 ==> ValidPair(src, groups[2 * g], groups[2 * g + 1])
  }

  predicate ValidPair(src: Bytes, from: int, to: int) {
    from == to == -1 || 0 <= from <= to <= |src|
  }

  /** The text of group n, empty for one that does not exist or was not entered. */
  function GroupText(src: Bytes, groups: seq<int>, n: int): Bytes {
    if n >= 0 && 2 * n + 1 < |groups| && groups[2 * n] >= 0
    then Slice(src, groups[2 * n], groups[2 * n + 1])
    else []
  }

  /** What a reference appends, or None where indexing the offsets panics: 2 * n and
      2 * n + 1 are 64-bit products, and come out negative from 2^62 on. */
  function Substituted(p: Pattern, src: Bytes, groups: seq<int>, name: Bytes): Option<Bytes>
    requires name != []
  {
    var n := GroupNumberOf(p, name);
    if n >= 0 && Wrap64(2 * n + 1) < |groups| then
      if Wrap64(2 * n) < 0 then None else Some(GroupText(src, groups, n))
    else Some([])
  }

  /** What the documentation says a reference stands for. */
  function Documented(p: Pattern, src: Bytes, groups: seq<int>, name: Bytes): Bytes
    requires name != []
  {
    GroupText(src, groups, if Numeric(name) then Value(name) else Named(p, name))
  }

  /** References mean what the documentation says exactly when the number survives
      64-bit arithmetic, or wraps to a negative number, or to a group with no text. */
  lemma ReferenceIsDocumentedIff(p: Pattern, src: Bytes, groups: seq<int>, name: Bytes)
    requires name != [] && ValidGroups(src, groups)
    ensures Substituted(p, src, groups, name) == Some(Documented(p, src, groups, name))
       <==> (Numeric(name) ==>
               var w := Wrap64(Value(name));
               w < 0 || (w < TWO_62 && (w == Value(name) || GroupText(src, groups, w) == [])))
  {
  }

  lemma ReadAsGroup(p: Pattern, src: Bytes, groups: seq<int>, name: Bytes, n: nat)
    requires name != [] && Numeric(name) && Wrap64(Value(name)) == n < TWO_62
    ensures Substituted(p, src, groups, name) == Some(GroupText(src, groups, n))
  {
    assert Wrap64(2 * n) == 2 * n && Wrap64(2 * n + 1) == 2 * n + 1;
  }

  /** Every group number below 2^62 is read as written. */
  lemma SmallReferenceIsExact(p: Pattern, src: Bytes, groups: seq<int>, n: nat)
    requires n < TWO_62
    ensures Substituted(p, src, groups, Numeral(n)) == Some(GroupText(src, groups, n))
  {
    NumeralReads(n);
    ReadAsGroup(p, src, groups, Numeral(n), n);
  }

  /** From 2^62 to 2^63 - 1 the doubled index comes out negative, and indexing panics. */
  lemma LargeReferencePanics(p: Pattern, src: Bytes, groups: seq<int>, n: nat)
    requires TWO_62 <= n < TWO_63
    ensures Substituted(p, src, groups, Numeral(n)).None?
  {
    NumeralReads(n);
    WrapsOnce(2 * n);
    WrapsOnce(2 * n + 1);
  }

  /** 2^64 + n silently reads as group n. */
  lemma HugeReferenceWraps(p: Pattern, src: Bytes, groups: seq<int>, n: nat)
    requires n < TWO_62
    ensures Substituted(p, src, groups, Numeral(TWO_64 + n)) == Some(GroupText(src, groups, n))
  {
    NumeralReads(TWO_64 + n);
    WrapsOnce(TWO_64 + n);
    ReadAsGroup(p, src, groups, Numeral(TWO_64 + n), n);
  }

  /** How many bytes come before the first b; all of them if there is none. */
  function UpTo(s: Bytes, b: Byte): (i: nat)
    ensures i <= |s| && (i < |s| ==> s[i] == b)
  {
    if s == [] || s[0] == b then 0 else 1 + UpTo(s[1..], b)
  }

  /** strings.IndexByte: the index of the first b, or -1. */
  function IndexByte(s: Bytes, b: Byte): (i: int)
    ensures i == -1 || (0 <= i < |s| && s[i] == b)
  {
    if UpTo(s, b) == |s| then -1 else UpTo(s, b)
  }

  /** Prefixing a result that may have panicked. */
  function Prefixed(head: Bytes, tail: Option<Bytes>): Option<Bytes> {
    if tail.None? then None else Some(head + tail.value)
  }

  /** One round of expand: the end of a template that holds no dollar, or the text up to
      and including what its first dollar stands for, and the template after it. */
  datatype Chunk = Last(text: Bytes) | More(piece: Option<Bytes>, rest: Bytes)

  function NextChunk(p: Pattern, template: Bytes, src: Bytes, groups: seq<int>): (c: Chunk)
    ensures c.More? ==> |c.rest| < |template|
  {
    var dollar := UpTo(template, DOLLAR);
    if dollar == |template| then Last(template)
    else
      var ref := ReferenceOf(p, template[dollar + 1..]);
      More(Prefixed(template[..dollar], StandsFor(p, src, groups, ref)),
           ref.rest)
  }

  /** What expand appends; None when a reference panics. */
  function ExpandOf(p: Pattern, template: Bytes, src: Bytes, groups: seq<int>): Option<Bytes>
    decreases |template|
  {
    match NextChunk(p, template, src, groups)
    case Last(text) => Some(text)
    case More(piece, rest) =>
      if piece.None? then None else Prefixed(piece.value, ExpandOf(p, rest, src, groups))
  }

  /** The step of expand that looks a reference up. */
  method Substitute(p: Pattern, src: Bytes, groups: seq<int>, name: Bytes) returns (text: Option<Bytes>)
    requires name != [] && ValidGroups(src, groups)
    ensures text == Substituted(p, src, groups, name)
  {
    var n := GroupNumber(p, name);
    if n >= 0 && Wrap64(2 * n + 1) < |groups| {
      if Wrap64(2 * n) < 0 {
        return None;
      }
      PairIsValid(src, groups, n);
      if groups[2 * n] >= 0 {
        return Some(src[groups[2 * n]..groups[2 * n + 1]]);
      }
    }
    return Some([]);
  }

  /** expand. */
  method Expand(p: Pattern, dst: Bytes, template: Bytes, src: Bytes, groups: seq<int>) returns (out: Option<Bytes>)
    requires ValidGroups(src, groups)
    ensures out == Prefixed(dst, ExpandOf(p, template, src, groups))
  {
    var done, todo := dst, template;
    ghost var whole := Prefixed(dst, ExpandOf(p, template, src, groups));
    while true
      invariant Prefixed(done, ExpandOf(p, todo, src, groups)) == whole
      decreases |todo|
    {
      ExpandRound(p, done, todo, src, groups);
      var dollar := IndexByte(todo, DOLLAR);
      if dollar < 0 {
        return Some(done + todo);
      }
      done := done + todo[..dollar];
      var name, rest, ok := Reference(p, todo[dollar + 1..]);
      todo := rest;
      if !ok {
        done := done + [DOLLAR];
        continue;
      }
      var text := Substitute(p, src, groups, name);
      if text.None? {
        return None;
      }
      done := done + text.value;
    }
  }

  /** What a reference, or what is not one, stands for. */
  function StandsFor(p: Pattern, src: Bytes, groups: seq<int>, ref: Ref): Option<Bytes>
    requires ref.ok ==> ref.name != []
  {
    if ref.ok then Substituted(p, src, groups, ref.name) else Some([DOLLAR])
  }

  /** One round, with what was already written. */
  lemma ExpandRound(p: Pattern, done: Bytes, todo: Bytes, src: Bytes, groups: seq<int>)
    ensures var now, dollar := Prefixed(done, ExpandOf(p, todo, src, groups)), IndexByte(todo, DOLLAR);
            if dollar < 0 then now == Some(done + todo)
            else
              var ref := ReferenceOf(p, todo[dollar + 1..]);
              var text := StandsFor(p, src, groups, ref);
              if text.None? then now.None?
              else now == Prefixed(done + todo[..dollar] + text.value, ExpandOf(p, ref.rest, src, groups))
  {
    ExpandIs(p, todo, src, groups);
    var dollar := UpTo(todo, DOLLAR);
    if dollar < |todo| {
      var ref := ReferenceOf(p, todo[dollar + 1..]);
      var text, tail := StandsFor(p, src, groups, ref), ExpandOf(p, ref.rest, src, groups);
      PrefixedRound(done, todo[..dollar], text, tail, ExpandOf(p, todo, src, groups));
    }
  }

  lemma PrefixedRound(done: Bytes, head: Bytes, text: Option<Bytes>, tail: Option<Bytes>, whole: Option<Bytes>)
    requires whole == if text.None? then None else Prefixed(head + text.value, tail)
    ensures if text.None? then Prefixed(done, whole).None?
            else Prefixed(done, whole) == Prefixed(done + head + text.value, tail)
  {
    if text.Some? {
      PrefixedTwice(done, head + text.value, tail);
      Associates(done, head, text.value);
    }
  }

  lemma ExpandIs(p: Pattern, template: Bytes, src: Bytes, groups: seq<int>)
    ensures var dollar := UpTo(template, DOLLAR);
            if dollar == |template| then ExpandOf(p, template, src, groups) == Some(template)
            else
              var ref := ReferenceOf(p, template[dollar + 1..]);
              var text := StandsFor(p, src, groups, ref);
              ExpandOf(p, template, src, groups)
              == if text.None? then None else Prefixed(template[..dollar] + text.value, ExpandOf(p, ref.rest, src, groups))
  {
  }

  lemma PairIsValid(src: Bytes, groups: seq<int>, n: int)
    requires ValidGroups(src, groups) && 0 <= n && Wrap64(2 * n + 1) < |groups| && Wrap64(2 * n) >= 0 && n < TWO_63
    ensures 0 <= 2 * n < 2 * n + 1 < |groups| && ValidPair(src, groups[2 * n], groups[2 * n + 1])
  {
    if n >= TWO_62 {
      WrapsOnce(2 * n);
      assert false;
    }
  }

  lemma PrefixedTwice(a: Bytes, b: Bytes, tail: Option<Bytes>)
    ensures Prefixed(a + b, tail) == Prefixed(a, Prefixed(b, tail))
  {
    if tail.Some? {
      assert a + b + tail.value == a + (b + tail.value);
    }
  }

  /** Every dollar written twice. */
  function Doubled(r: Bytes): Bytes {
    if r == [] then []
    else Twice(r[0]) + Doubled(r[1..])
  }

  /** A byte that is not a dollar is copied through. */
  lemma PlainByteIsCopied(p: Pattern, b: Byte, rest: Bytes, src: Bytes, groups: seq<int>)
    requires b != DOLLAR
    ensures ExpandOf(p, [b] + rest, src, groups) == Prefixed([b], ExpandOf(p, rest, src, groups))
  {
    var t := [b] + rest;
    assert t[1..] == rest;
    var d := UpTo(rest, DOLLAR);
    if d < |rest| {
      assert t[..d + 1] == [b] + rest[..d] && t[d + 2..] == rest[d + 1..];
      PlainByteChunk(p, b, rest, src, groups, d, t);
    }
  }

  lemma PlainByteChunk(p: Pattern, b: Byte, rest: Bytes, src: Bytes, groups: seq<int>, d: nat, t: Bytes)
    requires UpTo(rest, DOLLAR) == d < |rest| && UpTo(t, DOLLAR) == d + 1 < |t|
    requires t[..d + 1] == [b] + rest[..d] && t[d + 2..] == rest[d + 1..]
    ensures ExpandOf(p, t, src, groups) == Prefixed([b], ExpandOf(p, rest, src, groups))
  {
    var inner, outer := NextChunk(p, rest, src, groups), NextChunk(p, t, src, groups);
    assert inner.rest == outer.rest;
    if inner.piece.Some? {
      var ref := ReferenceOf(p, rest[d + 1..]);
      var text := StandsFor(p, src, groups, ref);
      PrefixedTwice([b], rest[..d], text);
      PrefixedTwice([b], inner.piece.value, ExpandOf(p, inner.rest, src, groups));
    }
  }

  lemma DollarPairIsADollar(p: Pattern, rest: Bytes, src: Bytes, groups: seq<int>)
    ensures ExpandOf(p, [DOLLAR, DOLLAR] + rest, src, groups) == Prefixed([DOLLAR], ExpandOf(p, rest, src, groups))
  {
    var t := [DOLLAR, DOLLAR] + rest;
    assert t[1..] == [DOLLAR] + rest && t[1..][1..] == rest;
    assert NextChunk(p, t, src, groups) == More(Some([] + [DOLLAR]), rest);
    assert [] + [DOLLAR] == [DOLLAR];
  }

  /** $$ is a literal dollar: a template with every dollar doubled expands to the
      undoubled text, whatever the pattern and the match. */
  lemma {:induction false} DoubledExpandsToItself(p: Pattern, r: Bytes, src: Bytes, groups: seq<int>)
    ensures ExpandOf(p, Doubled(r), src, groups) == Some(r)
    decreases |r|
  {
    if r == [] {
      EmptyTemplate(p, src, groups);
    } else {
      DoubledExpandsToItself(p, r[1..], src, groups);
      DoubledByte(p, r[0], Doubled(r[1..]), src, groups);
      DoubledFirst(r);
      assert r == [r[0]] + r[1..];
    }
  }

  function Twice(b: Byte): Bytes {
    if b == DOLLAR then [DOLLAR, DOLLAR] else [b]
  }

  lemma DoubledFirst(r: Bytes)
    requires r != []
    ensures Doubled(r) == Twice(r[0]) + Doubled(r[1..])
  {
  }

  lemma DoubledByte(p: Pattern, b: Byte, rest: Bytes, src: Bytes, groups: seq<int>)
    ensures ExpandOf(p, Twice(b) + rest, src, groups) == Prefixed([b], ExpandOf(p, rest, src, groups))
  {
    if b == DOLLAR {
      DollarPairIsADollar(p, rest, src, groups);
    } else {
      PlainByteIsCopied(p, b, rest, src, groups);
    }
  }

  const WHOLE_MATCH: Bytes := [DOLLAR, OPEN, ZERO, CLOSE]

  lemma BracedZeroIsAReference(p: Pattern, s: Bytes)
    requires p.word(0x30) && !p.word(0x7D)
    requires s == [OPEN, ZERO, CLOSE]
    ensures ReferenceOf(p, s) == Ref([ZERO], [], true)
  {
    var body := s[1..];
    assert |body| == 2 && body[0] == ZERO && body[1] == CLOSE;
    assert Decode(body, 0) == Decoded(0x30, 1) && Decode(body, 1) == Decoded(0x7D, 1);
    assert NameEnd(p, body, 1) == 1;
    assert NameEnd(p, body, 0) == 1;
    assert body[..1] == [ZERO] && body[2..] == [];
  }

  /** ${0} expands to the match itself, given that 0 is a word rune and } is not. */
  lemma WholeMatchExpandsToTheMatch(p: Pattern, src: Bytes, groups: seq<int>)
    requires p.word(0x30) && !p.word(0x7D) && ValidGroups(src, groups)
    ensures ExpandOf(p, WHOLE_MATCH, src, groups) == Some(Slice(src, groups[0], groups[1]))
  {
    var text := Slice(src, groups[0], groups[1]);
    GroupZero(p, src, groups);
    BracedZeroIsAReference(p, WHOLE_MATCH[1..]);
    assert UpTo(WHOLE_MATCH, DOLLAR) == 0;
    assert WHOLE_MATCH[..0] == [] && [] + text == text;
    assert NextChunk(p, WHOLE_MATCH, src, groups) == More(Some(text), []);
    EmptyTemplate(p, src, groups);
    assert text + [] == text;
  }

  lemma EmptyTemplate(p: Pattern, src: Bytes, groups: seq<int>)
    ensures ExpandOf(p, [], src, groups) == Some([])
  {
  }

  lemma GroupZero(p: Pattern, src: Bytes, groups: seq<int>)
    requires ValidGroups(src, groups)
    ensures Substituted(p, src, groups, [ZERO]) == Some(Slice(src, groups[0], groups[1]))
  {
    assert [ZERO][..0] == [] && Value([ZERO]) == 0;
  }

  // ---- what a template's text expands to ----

  /** What the library promises of the runes a template is written with: no dollar, brace or
      blank is part of a name. */
  predicate Sensible(p: Pattern) {
    !p.word(DOLLAR as int) && !p.word(OPEN as int) && !p.word(CLOSE as int) && !p.word(0x20)
  }

  /** A run of word runes. */
  predicate Word(p: Pattern, runes: seq<int>) {
    forall k :: 0 <= k < |runes| ==> Scalar(runes[k]) && p.word(runes[k])
  }

  /** No further word rune comes first. */
  predicate Breaks(p: Pattern, rest: Bytes) {
    rest == [] || !p.word(Decode(rest, 0).rune)
  }

  lemma OneRunePassed(p: Pattern, before: Bytes, rune: int, tail: Bytes)
    requires Scalar(rune) && p.word(rune)
    ensures var body := (before + Encode(rune)) + tail;
            NameEnd(p, body, |before|) == NameEnd(p, body, |before + Encode(rune)|)
  {
    var body := (before + Encode(rune)) + tail;
    assert StartsAt(body, |before|, Encode(rune));
    DecodeUndoesEncode(body, |before|, rune);
    OneMoreRune(p, body, |before|);
  }

  lemma NameStops(p: Pattern, before: Bytes, rest: Bytes)
    requires Breaks(p, rest)
    ensures NameEnd(p, before + rest, |before|) == |before|
  {
    DecodeIsLocal(before, rest);
  }

  lemma {:induction false} NameEndsWithTheWord(p: Pattern, before: Bytes, runes: seq<int>, rest: Bytes)
    requires Word(p, runes) && Breaks(p, rest)
    ensures NameEnd(p, before + (Spelled(runes) + rest), |before|) == |before| + |Spelled(runes)|
    decreases |runes|
  {
    if runes == [] {
      assert Spelled(runes) + rest == rest;
      NameStops(p, before, rest);
    } else {
      var first, more := Encode(runes[0]), Spelled(runes[1..]);
      Moved(before, first, more, rest);
      OneRunePassed(p, before, runes[0], more + rest);
      NameEndsWithTheWord(p, before + first, runes[1..], rest);
    }
  }

  lemma Moved(before: Bytes, first: Bytes, more: Bytes, rest: Bytes)
    ensures before + ((first + more) + rest) == (before + first) + (more + rest)
  {
  }

  lemma NameIsTheWord(p: Pattern, runes: seq<int>, rest: Bytes)
    requires Word(p, runes) && Breaks(p, rest)
    ensures NameEnd(p, Spelled(runes) + rest, 0) == |Spelled(runes)|
    ensures (Spelled(runes) + rest)[..|Spelled(runes)|] == Spelled(runes)
    ensures (Spelled(runes) + rest)[|Spelled(runes)|..] == rest
  {
    NameEndsWithTheWord(p, [], runes, rest);
    assert [] + (Spelled(runes) + rest) == Spelled(runes) + rest;
  }

  /** A word starts with no byte that a dollar or a brace is. */
  lemma WordStarts(p: Pattern, runes: seq<int>)
    requires Sensible(p) && Word(p, runes) && runes != []
    ensures Spelled(runes) != [] && Spelled(runes)[0] != DOLLAR && Spelled(runes)[0] != OPEN
  {
    var e := Encode(runes[0]);
    assert Spelled(runes)[0] == e[0];
    assert e[0] as int < 0x80 ==> e[0] as int == runes[0];
  }

  lemma PlainReferenceIsRead(p: Pattern, runes: seq<int>, rest: Bytes)
    requires Sensible(p) && Word(p, runes) && runes != [] && Breaks(p, rest)
    ensures ReferenceOf(p, Spelled(runes) + rest) == Ref(Spelled(runes), rest, true)
  {
    WordStarts(p, runes);
    assert (Spelled(runes) + rest)[0] == Spelled(runes)[0];
    NameIsTheWord(p, runes, rest);
  }

  lemma BracedReferenceIsRead(p: Pattern, runes: seq<int>, rest: Bytes)
    requires Sensible(p) && Word(p, runes) && runes != []
    ensures ReferenceOf(p, [OPEN] + Spelled(runes) + [CLOSE] + rest) == Ref(Spelled(runes), rest, true)
  {
    var s, name, tail := [OPEN] + Spelled(runes) + [CLOSE] + rest, Spelled(runes), [CLOSE] + rest;
    assert s[1..] == name + tail;
    assert tail[0] == CLOSE && tail[1..] == rest;
    assert Decode(tail, 0) == Decoded(CLOSE as int, 1);
    WordStarts(p, runes);
    NameIsTheWord(p, runes, tail);
    assert (name + tail)[|name| + 1..] == rest;
  }

  lemma NoReferenceIsRead(p: Pattern, s: Bytes, runes: seq<int>, rest: Bytes)
    requires Sensible(p) && Word(p, runes) && Breaks(p, rest)
    requires || (runes == [] && s == rest && (s == [] || (s[0] != DOLLAR && s[0] != OPEN)))
             || (s == [OPEN] + (Spelled(runes) + rest) && (runes == [] || rest == [] || rest[0] != CLOSE))
    ensures ReferenceOf(p, s) == Ref([], s, false)
  {
    NameIsTheWord(p, runes, rest);
    if runes == [] && s == rest {
      assert Spelled(runes) + rest == s;
    } else {
      assert s[1..] == Spelled(runes) + rest;
    }
  }

  lemma FirstDollar(s: Bytes)
    ensures UpTo([DOLLAR] + s, DOLLAR) == 0 && ([DOLLAR] + s)[1..] == s && ([DOLLAR] + s)[..0] == []
  {
  }

  /** A dollar in front: what it stands for, and then the rest. */
  lemma DollarFirst(p: Pattern, s: Bytes, src: Bytes, groups: seq<int>, ref: Ref, text: Option<Bytes>)
    requires ref == ReferenceOf(p, s) && text == StandsFor(p, src, groups, ref)
    ensures ExpandOf(p, [DOLLAR] + s, src, groups)
         == if text.None? then None else Prefixed(text.value, ExpandOf(p, ref.rest, src, groups))
  {
    FirstDollar(s);
    ExpandIs(p, [DOLLAR] + s, src, groups);
    if text.Some? {
      assert [] + text.value == text.value;
    }
  }

  /** $name stands for what its group gives, where the name is as long as it can be; and
      everything behind it is expanded in turn. */
  lemma PlainReferenceExpands(p: Pattern, runes: seq<int>, rest: Bytes, src: Bytes, groups: seq<int>)
    requires Sensible(p) && Word(p, runes) && runes != [] && Breaks(p, rest)
    ensures Spelled(runes) != []
    ensures var text := Substituted(p, src, groups, Spelled(runes));
            ExpandOf(p, [DOLLAR] + (Spelled(runes) + rest), src, groups)
            == if text.None? then None else Prefixed(text.value, ExpandOf(p, rest, src, groups))
  {
    WordStarts(p, runes);
    PlainReferenceIsRead(p, runes, rest);
    var text := Substituted(p, src, groups, Spelled(runes));
    DollarFirst(p, Spelled(runes) + rest, src, groups, Ref(Spelled(runes), rest, true), text);
  }

  /** So does ${name}, whatever comes behind the brace. */
  lemma BracedReferenceExpands(p: Pattern, runes: seq<int>, rest: Bytes, src: Bytes, groups: seq<int>)
    requires Sensible(p) && Word(p, runes) && runes != []
    ensures Spelled(runes) != []
    ensures var text := Substituted(p, src, groups, Spelled(runes));
            ExpandOf(p, [DOLLAR] + ([OPEN] + Spelled(runes) + [CLOSE] + rest), src, groups)
            == if text.None? then None else Prefixed(text.value, ExpandOf(p, rest, src, groups))
  {
    WordStarts(p, runes);
    BracedReferenceIsRead(p, runes, rest);
    var text := Substituted(p, src, groups, Spelled(runes));
    DollarFirst(p, [OPEN] + Spelled(runes) + [CLOSE] + rest, src, groups, Ref(Spelled(runes), rest, true), text);
  }

  /** A dollar that begins nothing stays, and everything behind it is expanded: at the end,
      before what is no name, and before a brace that holds no name or is not closed. */
  lemma StrayDollarStays(p: Pattern, s: Bytes, runes: seq<int>, rest: Bytes, src: Bytes, groups: seq<int>)
    requires Sensible(p) && Word(p, runes) && Breaks(p, rest)
    requires || (runes == [] && s == rest && (s == [] || (s[0] != DOLLAR && s[0] != OPEN)))
             || (s == [OPEN] + (Spelled(runes) + rest) && (runes == [] || rest == [] || rest[0] != CLOSE))
    ensures ExpandOf(p, [DOLLAR] + s, src, groups) == Prefixed([DOLLAR], ExpandOf(p, s, src, groups))
  {
    NoReferenceIsRead(p, s, runes, rest);
    DollarFirst(p, s, src, groups, Ref([], s, false), Some([DOLLAR]));
  }

  /** What a group gives: its bytes of src if it was entered, and nothing if it was not or
      there is no such group. */
  lemma GroupGives(src: Bytes, groups: seq<int>, n: nat)
    requires ValidGroups(src, groups)
    ensures 2 * n + 1 < |groups| && groups[2 * n] >= 0 ==>
              && groups[2 * n] <= groups[2 * n + 1] <= |src|
              && GroupText(src, groups, n) == src[groups[2 * n]..groups[2 * n + 1]]
    ensures 2 * n + 1 >= |groups| || groups[2 * n] < 0 ==> GroupText(src, groups, n) == []
  {
    if 2 * n + 1 < |groups| {
      assert ValidPair(src, groups[2 * n], groups[2 * n + 1]);
    }
  }

  /** A name that is no number stands for the group of that name, or for nothing. */
  lemma NamedReference(p: Pattern, src: Bytes, groups: seq<int>, name: Bytes)
    requires name != [] && (!AllDigits(name) || (name[0] == ZERO && |name| > 1)) && |groups| < TWO_62
    ensures name in p.index ==> Substituted(p, src, groups, name) == Some(GroupText(src, groups, p.index[name]))
    ensures name !in p.index ==> Substituted(p, src, groups, name) == Some([])
  {
  }

  /** src up to the end of match k - 1, with the first k matches replaced by texts;
      None when one of those texts panicked. */
  function Built(src: Bytes, spans: seq<Span>, texts: seq<Option<Bytes>>, k: nat): Option<Bytes>
    requires k <= |spans| && k <= |texts|
  {
    if k == 0 then Some([])
    else
      var before := Built(src, spans, texts, k - 1);
      if before.None? then None
      else Prefixed(before.value + Slice(src, LastEnd(spans, k - 1), spans[k - 1].start), texts[k - 1])
  }

  function LastEnd(spans: seq<Span>, k: nat): nat
    requires k <= |spans|
  {
    if k == 0 then 0 else spans[k - 1].end
  }

  /** src with every match replaced. */
  function Rebuilt(src: Bytes, spans: seq<Span>, texts: seq<Option<Bytes>>): Option<Bytes>
    requires |spans| == |texts|
  {
    var all := Built(src, spans, texts, |spans|);
    if all.None? then None else Some(all.value + Slice(src, LastEnd(spans, |spans|), |src|))
  }

  /** The text a template gives for each match. */
  function Expansions(p: Pattern, template: Bytes, src: Bytes, captures: seq<seq<int>>): seq<Option<Bytes>> {
    seq(|captures|, k requires 0 <= k < |captures| => ExpandOf(p, template, src, captures[k]))
  }

  function Repeated(r: Bytes, n: nat): seq<Option<Bytes>> {
    seq(n, _ => Some(r))
  }

  predicate CaptureOf(src: Bytes, span: Span, groups: seq<int>) {
    ValidGroups(src, groups) && groups[0] == span.start && groups[1] == span.end
  }

  /** The engine's captures belong to the first n spans: group 0 of each is the span. */
  predicate CapturesUpTo(src: Bytes, spans: seq<Span>, captures: seq<seq<int>>, n: nat)
    requires n <= |spans| == |captures|
  {
    n == 0 || (CapturesUpTo(src, spans, captures, n - 1) && CaptureOf(src, spans[n - 1], captures[n - 1]))
  }

  predicate CapturesOf(src: Bytes, spans: seq<Span>, captures: seq<seq<int>>) {
    |spans| == |captures| && CapturesUpTo(src, spans, captures, |spans|)
  }

  lemma {:induction false} CaptureAt(src: Bytes, spans: seq<Span>, captures: seq<seq<int>>, n: nat, i: nat)
    requires i < n <= |spans| == |captures| && CapturesUpTo(src, spans, captures, n)
    ensures CaptureOf(src, spans[i], captures[i])
  {
    if i < n - 1 {
      CaptureAt(src, spans, captures, n - 1, i);
    }
  }

  /** ReplaceAllString and rebuild: one pass over the matches. Captures are asked for
      only when the template holds a dollar; without one, each match is its own span.
      No match at all means src itself. */
  method ReplaceAllString(p: Pattern, src: Bytes, template: Bytes, spans: seq<Span>, captures: seq<seq<int>>)
    returns (out: Option<Bytes>)
    requires Ordered(spans, 0, |src|) && CapturesOf(src, spans, captures)
    ensures out == Rebuilt(src, spans, Expansions(p, template, src, captures))
  {
    ghost var texts := Expansions(p, template, src, captures);
    if |spans| == 0 {
      NoMatches(src, spans, texts);
      return Some(src);
    }
    var groups := DOLLAR in template;
    var built: Bytes := [];
    for i := 0 to |spans|
      invariant Built(src, spans, texts, i) == Some(built)
    {
      var next := ReplaceNext(p, src, template, groups, spans, captures, i, built);
      if next.None? {
        PanicIsFinal(src, spans, texts, i + 1);
        return None;
      }
      built := next.value;
    }
    AfterTheLast(src, spans, texts, built);
    return Some(built + src[LastEnd(spans, |spans|)..]);
  }

  /** The body of that loop: the text since the last match, and what is emitted for this
      one. */
  method ReplaceNext(p: Pattern, src: Bytes, template: Bytes, groups: bool, spans: seq<Span>, captures: seq<seq<int>>,
                     i: nat, built: Bytes) returns (next: Option<Bytes>)
    requires Ordered(spans, 0, |src|) && CapturesOf(src, spans, captures) && i < |spans|
    requires groups == (DOLLAR in template)
    requires Built(src, spans, Expansions(p, template, src, captures), i) == Some(built)
    ensures next == Built(src, spans, Expansions(p, template, src, captures), i + 1)
  {
    var last, span := LastEnd(spans, i), spans[i];
    var m := if groups then captures[i] else [span.start, span.end];
    NextMatch(p, src, template, spans, captures, i, built, m);
    next := Expand(p, built + src[last..span.start], template, src, m);
  }

  /** One round: the match lies behind the last one, the offsets handed on are as good as
      the captures, and appending its expansion is what comes next. */
  lemma NextMatch(p: Pattern, src: Bytes, template: Bytes, spans: seq<Span>, captures: seq<seq<int>>, i: nat,
                  built: Bytes, m: seq<int>)
    requires Ordered(spans, 0, |src|) && CapturesOf(src, spans, captures) && i < |spans|
    requires m == if DOLLAR in template then captures[i] else [spans[i].start, spans[i].end]
    requires Built(src, spans, Expansions(p, template, src, captures), i) == Some(built)
    ensures LastEnd(spans, i) <= spans[i].start <= spans[i].end <= |src| && ValidGroups(src, m)
    ensures Built(src, spans, Expansions(p, template, src, captures), i + 1)
         == Prefixed(built + src[LastEnd(spans, i)..spans[i].start], ExpandOf(p, template, src, m))
  {
    var texts := Expansions(p, template, src, captures);
    SpanAfterLast(spans, i, |src|);
    SpanGroupsValid(src, spans, captures, i);
    NoDollarNoGroups(p, template, src, captures[i], m);
    BuiltStep(src, spans, texts, i, built);
  }

  lemma NoMatches(src: Bytes, spans: seq<Span>, texts: seq<Option<Bytes>>)
    requires spans == [] && texts == []
    ensures Rebuilt(src, spans, texts) == Some(src)
  {
    assert Slice(src, 0, |src|) == src;
    assert [] + src == src;
  }

  lemma AfterTheLast(src: Bytes, spans: seq<Span>, texts: seq<Option<Bytes>>, built: Bytes)
    requires Ordered(spans, 0, |src|) && |spans| == |texts| && Built(src, spans, texts, |spans|) == Some(built)
    ensures LastEnd(spans, |spans|) <= |src|
    ensures Rebuilt(src, spans, texts) == Some(built + src[LastEnd(spans, |spans|)..])
  {
    assert Slice(src, LastEnd(spans, |spans|), |src|) == src[LastEnd(spans, |spans|)..];
  }

  lemma BuiltStep(src: Bytes, spans: seq<Span>, texts: seq<Option<Bytes>>, k: nat, built: Bytes)
    requires k < |spans| == |texts| && LastEnd(spans, k) <= spans[k].start <= |src|
    requires Built(src, spans, texts, k) == Some(built)
    ensures Built(src, spans, texts, k + 1) == Prefixed(built + src[LastEnd(spans, k)..spans[k].start], texts[k])
  {
  }

  lemma PanicStays(src: Bytes, spans: seq<Span>, texts: seq<Option<Bytes>>, k: nat)
    requires |texts| == |spans| && k < |spans| && Built(src, spans, texts, k).None?
    ensures Built(src, spans, texts, k + 1).None?
  {
  }

  lemma {:induction false} PanicIsFinal(src: Bytes, spans: seq<Span>, texts: seq<Option<Bytes>>, k: nat)
    requires |texts| == |spans| && k <= |spans| && Built(src, spans, texts, k).None?
    ensures Rebuilt(src, spans, texts).None?
    decreases |spans| - k
  {
    if k < |spans| {
      PanicStays(src, spans, texts, k);
      PanicIsFinal(src, spans, texts, k + 1);
    }
  }

  lemma SpanGroupsValid(src: Bytes, spans: seq<Span>, captures: seq<seq<int>>, i: nat)
    requires CapturesOf(src, spans, captures) && i < |spans|
    ensures ValidGroups(src, captures[i])
    ensures ValidGroups(src, [spans[i].start, spans[i].end])
  {
    CaptureAt(src, spans, captures, |spans|, i);
    assert ValidPair(src, captures[i][2 * 0], captures[i][2 * 0 + 1]);
  }

  /** ReplaceAllLiteralString. */
  method ReplaceAllLiteralString(src: Bytes, repl: Bytes, spans: seq<Span>) returns (out: Bytes)
    requires Ordered(spans, 0, |src|)
    ensures Some(out) == Rebuilt(src, spans, Repeated(repl, |spans|))
  {
    if |spans| == 0 {
      NoMatches(src, spans, []);
      return src;
    }
    out := [];
    var last: nat := 0;
    for i := 0 to |spans|
      invariant last == LastEnd(spans, i)
      invariant Built(src, spans, Repeated(repl, |spans|), i) == Some(out)
    {
      SpanAfterLast(spans, i, |src|);
      BuiltStep(src, spans, Repeated(repl, |spans|), i, out);
      out := out + src[last..spans[i].start];
      out := out + repl;
      last := spans[i].end;
    }
    AfterTheLast(src, spans, Repeated(repl, |spans|), out);
    out := out + src[last..];
  }

  lemma SpanAfterLast(spans: seq<Span>, i: nat, size: nat)
    requires Ordered(spans, 0, size) && i < |spans|
    ensures LastEnd(spans, i) <= spans[i].start <= spans[i].end <= size
  {
    assert i > 0 ==> Before(spans[i - 1], spans[i]);
  }

  lemma NoDollarNoGroups(p: Pattern, template: Bytes, src: Bytes, a: seq<int>, b: seq<int>)
    requires DOLLAR in template ==> a == b
    ensures ExpandOf(p, template, src, a) == ExpandOf(p, template, src, b)
  {
  }

  /** Doubling the dollars of r makes the template verb the literal one. */
  lemma DoubledIsLiteral(p: Pattern, src: Bytes, r: Bytes, spans: seq<Span>, captures: seq<seq<int>>)
    requires |spans| == |captures|
    ensures Rebuilt(src, spans, Expansions(p, Doubled(r), src, captures)) == Rebuilt(src, spans, Repeated(r, |spans|))
  {
    var texts := Expansions(p, Doubled(r), src, captures);
    forall k | 0 <= k < |captures|
      ensures texts[k] == Some(r)
    {
      DoubledExpandsToItself(p, r, src, captures[k]);
    }
    assert texts == Repeated(r, |spans|);
  }

  lemma {:induction false} BuiltFromItself(src: Bytes, spans: seq<Span>, texts: seq<Option<Bytes>>, k: nat)
    requires Ordered(spans, 0, |src|) && |texts| == |spans| && k <= |spans|
    requires forall j {:trigger texts[j]} :: 0 <= j < |spans| ==> texts[j] == Some(Slice(src, spans[j].start, spans[j].end))
    ensures LastEnd(spans, k) <= |src| && Built(src, spans, texts, k) == Some(src[..LastEnd(spans, k)])
  {
    if k > 0 {
      BuiltFromItself(src, spans, texts, k - 1);
      SpanAfterLast(spans, k - 1, |src|);
      assert texts[k - 1].Some?;
      SlicesJoin(src, LastEnd(spans, k - 1), spans[k - 1].start, spans[k - 1].end);
    }
  }

  lemma SlicesJoin(src: Bytes, a: nat, b: nat, c: nat)
    requires a <= b <= c <= |src|
    ensures src[..a] + Slice(src, a, b) + Slice(src, b, c) == src[..c]
  {
  }

  /** Replacing every match by ${0} changes nothing. */
  lemma WholeMatchIsIdentity(p: Pattern, src: Bytes, spans: seq<Span>, captures: seq<seq<int>>)
    requires p.word(0x30) && !p.word(0x7D)
    requires Ordered(spans, 0, |src|) && CapturesOf(src, spans, captures)
    ensures Rebuilt(src, spans, Expansions(p, WHOLE_MATCH, src, captures)) == Some(src)
  {
    var texts := Expansions(p, WHOLE_MATCH, src, captures);
    forall k {:trigger texts[k]} | 0 <= k < |captures|
      ensures texts[k] == Some(Slice(src, spans[k].start, spans[k].end))
    {
      CaptureAt(src, spans, captures, |spans|, k);
      WholeMatchExpandsToTheMatch(p, src, captures[k]);
    }
    BuiltFromItself(src, spans, texts, |spans|);
    SlicesJoin(src, 0, LastEnd(spans, |spans|), |src|);
    assert src[..0] == [] && src[..|src|] == src;
    assert Slice(src, 0, LastEnd(spans, |spans|)) == src[..LastEnd(spans, |spans|)];
  }

  function Lengths(texts: seq<Option<Bytes>>, k: nat): int
    requires k <= |texts|
  {
    if k == 0 then 0 else Lengths(texts, k - 1) + (if texts[k - 1].Some? then |texts[k - 1].value| else 0)
  }

  function Matched(spans: seq<Span>, k: nat): int
    requires k <= |spans|
  {
    if k == 0 then 0 else Matched(spans, k - 1) + spans[k - 1].end - spans[k - 1].start
  }

  /** Rebuilding conserves every byte outside the matches: unless it panics, the result
      is as long as src, less what was matched, plus what was emitted. */
  lemma RebuiltLength(src: Bytes, spans: seq<Span>, texts: seq<Option<Bytes>>)
    requires Ordered(spans, 0, |src|) && |texts| == |spans| && Rebuilt(src, spans, texts).Some?
    ensures |Rebuilt(src, spans, texts).value| == |src| - Matched(spans, |spans|) + Lengths(texts, |texts|)
  {
    BuiltLength(src, spans, texts, |spans|);
    AfterTheLast(src, spans, texts, Built(src, spans, texts, |spans|).value);
  }

  lemma {:induction false} BuiltLength(src: Bytes, spans: seq<Span>, texts: seq<Option<Bytes>>, k: nat)
    requires Ordered(spans, 0, |src|) && |texts| == |spans| && k <= |spans|
    ensures Built(src, spans, texts, k).Some? ==>
              |Built(src, spans, texts, k).value| == LastEnd(spans, k) - Matched(spans, k) + Lengths(texts, k)
  {
    if k > 0 {
      BuiltLength(src, spans, texts, k - 1);
      SpanAfterLast(spans, k - 1, |src|);
    }
  }
}
