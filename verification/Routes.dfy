/** How a find with a limit gets its answer: three engine verbs, a buffer that is
    refilled at most once, and four routes through them, all of which have to agree
    with cutting the fully thinned sequence. */
module Routes {
  import opened Basics
  import opened MatchSequence

  /** The engine's walk over one region: the pull cursor behind every span verb. */
  class Walk {
    const at: Oracle
    var pos: nat
    var spent: bool

    constructor (at: Oracle, from: nat)
      requires IsOracle(at) && from < |at|
      ensures this.at == at && Rest() == EngineSeq(at, from) && pos == from
    {
      this.at := at;
      pos, spent := from, false;
    }

    /** What the walk has still to report. */
    ghost function Rest(): seq<Span>
      requires IsOracle(at)
      reads this
    {
      if spent then [] else EngineSeq(at, pos)
    }

    method Next() returns (found: Option<Span>)
      requires IsOracle(at)
      modifies this
      ensures old(Rest()) == [] ==> found.None? && Rest() == []
      ensures old(Rest()) != [] ==> found == Some(old(Rest())[0]) && Rest() == old(Rest())[1..]
    {
      if spent {
        return None;
      }
      if pos >= |at| {
        spent := true;
        return None;
      }
      found := Leftmost(at, pos);
      if found.None? {
        spent := true;
        return;
      }
      pos := if found.value.Empty() then found.value.end + 1 else found.value.end;
    }
  }

  /** irgx_find_all_in: at most room.Length spans are written, but the count returned
      is how many the region HOLDS. */
  method FindAll(at: Oracle, from: nat, room: array<Span>) returns (total: nat)
    requires IsOracle(at) && from < |at|
    modifies room
    ensures total == |EngineSeq(at, from)|
    ensures room[..Min(total, room.Length)] == EngineSeq(at, from)[..Min(total, room.Length)]
  {
    ghost var all := EngineSeq(at, from);
    var walk := new Walk(at, from);
    total := 0;
    var sp := walk.Next();
    while sp.Some?
      invariant walk.at == at && fresh(walk) && total <= |all|
      invariant Pending(sp, walk.Rest(), all, total)
      invariant Holds(room[..], all, total)
      decreases |all| - total
    {
      Push(room, total, sp.value, all);
      total := total + 1;
      sp := walk.Next();
    }
    HeldSoFar(room[..], all, total);
    assert room[..][..Min(total, room.Length)] == room[..Min(total, room.Length)];
  }

  /** Sink.push: counted always, stored only where the host left room. */
  method Push(room: array<Span>, n: nat, sp: Span, ghost all: seq<Span>)
    requires Holds(room[..], all, n) && n < |all| && sp == all[n]
    modifies room
    ensures Holds(room[..], all, n + 1)
  {
    HoldsOneMore(room[..], all, n);
    if n < room.Length {
      ghost var before := room[..];
      room[n] := sp;
      assert room[..] == before[n := sp];
    }
  }

  lemma HeldSoFar(room: seq<Span>, all: seq<Span>, n: nat)
    requires Holds(room, all, n)
    ensures room[..Min(n, |room|)] == all[..Min(n, |room|)]
  {
  }

  /** With n spans behind it, the walk has span n in hand, if there is one, and the
      later ones still to come. */
  ghost predicate Pending(inHand: Option<Span>, rest: seq<Span>, all: seq<Span>, n: nat) {
    && n <= |all|
    && (inHand.None? ==> n == |all|)
    && (inHand.Some? ==> n < |all| && inHand.value == all[n] && rest == all[n + 1..])
  }

  ghost predicate Holds(room: seq<Span>, all: seq<Span>, n: nat) {
    n <= |all| && forall k {:trigger room[k]} :: 0 <= k < n && k < |room| ==> room[k] == all[k]
  }

  lemma HoldsOneMore(room: seq<Span>, all: seq<Span>, n: nat)
    requires Holds(room, all, n) && n < |all|
    ensures Holds(if n < |room| then room[n := all[n]] else room, all, n + 1)
  {
  }

  /** irgx_find_upto_in: the same walk, stopped when the room is full. */
  method FindUpto(at: Oracle, from: nat, room: array<Span>) returns (written: nat)
    requires IsOracle(at) && from < |at| && room.Length > 0
    modifies room
    ensures written == Min(|EngineSeq(at, from)|, room.Length)
    ensures room[..written] == EngineSeq(at, from)[..written]
  {
    ghost var all := EngineSeq(at, from);
    var walk := new Walk(at, from);
    written := 0;
    while written < room.Length
      invariant walk.at == at && fresh(walk)
      invariant written <= |all| && written <= room.Length
      invariant walk.Rest() == all[written..]
      invariant room[..written] == all[..written]
      decreases room.Length - written
    {
      var sp := walk.Next();
      if sp.None? {
        break;
      }
      room[written] := sp.value;
      written := written + 1;
    }
  }

  /** irgx_find_first_in: the same walk, stopped at its first span. */
  method FindFirst(at: Oracle, from: nat) returns (found: Option<Span>)
    requires IsOracle(at) && from < |at|
    ensures found == if EngineSeq(at, from) == [] then None else Some(EngineSeq(at, from)[0])
  {
    var walk := new Walk(at, from);
    found := walk.Next();
  }

  const FIRST_WINDOW := 4096

  /** window: how many spans are worth holding. */
  function Window(want: int, ceiling: int, limit: int): int {
    var fits := if want > ceiling then ceiling else want;
    if limit > 0 && fits > limit then limit else fits
  }

  /** The first limit spans; all of them when the limit is negative. */
  function First(spans: seq<Span>, limit: int): seq<Span> {
    if limit < 0 || |spans| <= limit then spans else spans[..limit]
  }

  function Truncate(spans: seq<Span>, limit: int): seq<Span> {
    if limit > 0 && |spans| > limit then spans[..limit] else spans
  }

  method Copied(room: array<Span>, n: nat) returns (out: seq<Span>)
    requires n <= room.Length
    ensures out == room[..n]
  {
    out := [];
    for i := 0 to n
      invariant out == room[..i]
    {
      out := out + [room[i]];
    }
  }

  /** rawSpans and fillSpansIn: fill a guessed window, and when the region turns out
      to hold more than fits, fill one of exactly the reported size. */
  method RawSpans(at: Oracle, from: nat, limit: int) returns (out: seq<Span>)
    requires IsOracle(at) && from < |at| && limit != 0
    ensures out == First(EngineSeq(at, from), limit)
  {
    EngineSeqOrdered(at, from);
    var ceiling := |at| - from;
    var room := new Span[Window(FIRST_WINDOW, ceiling, limit)](_ => Span(0, 0));
    var total := FindAll(at, from, room);
    var want := Window(total, ceiling, limit);
    if want > room.Length {
      room := new Span[want](_ => Span(0, 0));
      var again := FindAll(at, from, room);
      if again < want {
        want := again;
      }
    }
    out := Copied(room, want);
  }

  /** uptoSpans. */
  method UptoSpans(at: Oracle, from: nat, limit: int) returns (out: seq<Span>)
    requires IsOracle(at) && from < |at| && limit > 0
    ensures out == First(EngineSeq(at, from), limit)
  {
    EngineSeqOrdered(at, from);
    var room := new Span[Window(limit, |at| - from, limit)](_ => Span(0, 0));
    var written := FindUpto(at, from, room);
    out := Copied(room, written);
  }

  /** firstSpan. */
  method FirstSpan(at: Oracle, from: nat) returns (out: seq<Span>)
    requires IsOracle(at) && from < |at|
    ensures out == First(EngineSeq(at, from), 1)
  {
    var found := FindFirst(at, from);
    out := if found.None? then [] else [found.value];
  }

  /** What each route hands back, in terms of the engine's sequence. */
  function Found(nullable: bool, spans: seq<Span>, text: Bytes, limit: int): seq<Span> {
    if limit == 0 then []
    else if nullable then First(GoSequenceOf(spans, text), limit)
    else First(spans, limit)
  }

  /** findSpans over the whole text (from is 0) and spansIn over a region of it. */
  method FindSpans(nullable: bool, at: Oracle, text: Bytes, from: nat, limit: int) returns (out: seq<Span>)
    requires IsOracle(at) && from < |at| <= |text| + 1
    ensures out == Found(nullable, EngineSeq(at, from), text, limit)
  {
    if limit == 0 {
      return [];
    }
    if limit == 1 {
      FirstIsKept(EngineSeq(at, from), text);
      out := FirstSpan(at, from);
      return;
    }
    if nullable {
      var raw := RawSpans(at, from, -1);
      var thinned := GoSequence(raw, text);
      return Truncate(thinned, limit);
    }
    if limit > 0 {
      out := UptoSpans(at, from, limit);
      return;
    }
    out := RawSpans(at, from, limit);
  }

  /** The first span survives: only a span before it could have it thinned out. */
  lemma FirstIsKept(spans: seq<Span>, text: Bytes)
    ensures First(GoSequenceOf(spans, text), 1) == First(spans, 1)
  {
    if spans != [] {
      assert GoSequenceOf(spans, text) == [spans[0]] + Thin(spans[1..], text, ResumeAfter(text, spans[0]), spans[0].end);
    }
  }

  /** Neither rule applies to any of these spans: each starts at or past the resume
      point its predecessor left, and none is an empty match touching its predecessor. */
  predicate NothingToThin(spans: seq<Span>, text: Bytes) {
    forall k :: 0 < k < |spans| ==>
      && ResumeAfter(text, spans[k - 1]) <= spans[k].start
      && !(spans[k].Empty() && spans[k].start == spans[k - 1].end)
  }

  function ResumeAt(spans: seq<Span>, text: Bytes, k: nat): nat
    requires k <= |spans|
  {
    if k == 0 then 0 else ResumeAfter(text, spans[k - 1])
  }

  function PrevEndAt(spans: seq<Span>, k: nat): int
    requires k <= |spans|
  {
    if k == 0 then -1 else spans[k - 1].end
  }

  /** While neither rule applies the thinning copies its input. */
  lemma {:induction false} ThinCopies(spans: seq<Span>, text: Bytes, k: nat)
    requires k <= |spans| && NothingToThin(spans[..k], text)
    ensures GoSequenceOf(spans, text)
         == spans[..k] + Thin(spans[k..], text, ResumeAt(spans, text, k), PrevEndAt(spans, k))
    decreases k
  {
    if k == 0 {
      assert spans[0..] == spans;
    } else {
      assert spans[..k][..k - 1] == spans[..k - 1];
      ThinCopies(spans, text, k - 1);
      var tail := spans[k - 1..];
      assert tail[0] == spans[k - 1] && tail[1..] == spans[k..];
      if k > 1 {
        assert spans[..k][k - 1] == spans[k - 1] && spans[..k][k - 2] == spans[k - 2];
      }
      assert spans[..k] == spans[..k - 1] + [spans[k - 1]];
    }
  }

  /** Where the first rule applies, a later span takes the place of the one removed. */
  lemma ThinDiverges(spans: seq<Span>, text: Bytes, k: nat, from: nat, to: nat)
    requires Ordered(spans, from, to)
    requires 0 < k < |spans| && NothingToThin(spans[..k], text) && !NothingToThin(spans[..k + 1], text)
    ensures |GoSequenceOf(spans, text)| <= k || GoSequenceOf(spans, text)[k] != spans[k]
  {
    ThinCopies(spans, text, k);
    var tail := spans[k..];
    assert tail[0] == spans[k] && tail[1..] == spans[k + 1..];
    assert forall j :: 0 <= j < k ==> spans[..k][j] == spans[..k + 1][j];
    var resume, prevEnd := ResumeAt(spans, text, k), PrevEndAt(spans, k);
    var next := if spans[k].start < resume then resume else ResumeAfter(text, spans[k]);
    var last := if spans[k].start < resume then prevEnd else spans[k].end;
    assert Thin(tail, text, resume, prevEnd) == Thin(tail[1..], text, next, last);
    ThinSubset(tail[1..], text, next, last);
    forall sp | sp in tail[1..]
      ensures sp.start > spans[k].start
    {
      var j :| 0 <= j < |tail[1..]| && tail[1..][j] == sp;
      assert Before(spans[k], spans[k + 1 + j]);
    }
  }

  /** The first k spans come through unthinned exactly when neither rule applies to them. */
  lemma PrefixSurvivesIff(spans: seq<Span>, text: Bytes, n: nat, from: nat, to: nat)
    requires Ordered(spans, from, to) && n <= |spans|
    ensures spans[..n] <= GoSequenceOf(spans, text) <==> NothingToThin(spans[..n], text)
  {
    if NothingToThin(spans[..n], text) {
      ThinCopies(spans, text, n);
    } else {
      var k := 1;
      while NothingToThin(spans[..k + 1], text)
        invariant 1 <= k < n && NothingToThin(spans[..k], text)
        decreases n - k
      {
        k := k + 1;
        if k == n {
          assert false;
        }
      }
      ThinDiverges(spans, text, k, from, to);
      assert spans[..n][k] == spans[k];
    }
  }

  /** Route agreement, exactly. Every limit gets the first spans of the fully thinned
      sequence if and only if the pattern takes the thinning route, or the limit is 0
      or 1, or neither rule would have removed any of the spans handed back. */
  lemma RoutesAgreeIff(nullable: bool, at: Oracle, text: Bytes, from: nat, limit: int)
    requires IsOracle(at) && from < |at| <= |text| + 1
    ensures Found(nullable, EngineSeq(at, from), text, limit) == First(GoSequenceOf(EngineSeq(at, from), text), limit)
       <==> (nullable || limit == 0 || limit == 1 || NothingToThin(First(EngineSeq(at, from), limit), text))
  {
    var spans := EngineSeq(at, from);
    EngineSeqOrdered(at, from);
    FirstIsKept(spans, text);
    if !nullable && limit != 0 {
      var n := |First(spans, limit)|;
      assert First(spans, limit) == spans[..n];
      PrefixSurvivesIff(spans, text, n, from, |at| - 1);
      if NothingToThin(spans[..n], text) {
        ThinCopies(spans, text, n);
        assert spans[n..] == [] || n == limit;
      }
      ThinLength(spans, text, 0, -1);
    }
  }

  lemma {:induction false} ThinLength(spans: seq<Span>, text: Bytes, resume: nat, prevEnd: int)
    ensures |Thin(spans, text, resume, prevEnd)| <= |spans|
  {
    if spans != [] {
      ThinLength(spans[1..], text, resume, prevEnd);
      ThinLength(spans[1..], text, ResumeAfter(text, spans[0]), spans[0].end);
    }
  }

  /** With no empty match in the text there is nothing to thin, so a pattern that
      really is never empty agrees on every route and at every limit. */
  lemma NoEmptyMatchAgrees(nullable: bool, at: Oracle, text: Bytes, from: nat, limit: int)
    requires IsOracle(at) && from < |at| <= |text| + 1
    requires !nullable ==> forall sp :: sp in EngineSeq(at, from) ==> !sp.Empty()
    ensures Found(nullable, EngineSeq(at, from), text, limit) == First(GoSequenceOf(EngineSeq(at, from), text), limit)
  {
    EngineSeqOrdered(at, from);
    var spans := EngineSeq(at, from);
    forall k | 0 < k < |spans|
      ensures Before(spans[k - 1], spans[k])
    {
    }
    RoutesAgreeIff(nullable, at, text, from, limit);
  }

  /** The flag is only a test on the empty subject, so it can miss. A word run or else
      a word boundary does not match the empty text; over "a" the engine reports (0,1)
      and the empty match (1,1) after it, which this route lets through. */
  lemma NullableFlagCanMiss() returns (at: Oracle, text: Bytes)
    ensures IsOracle(at) && |at| == |text| + 1
    ensures Found(false, EngineSeq(at, 0), text, -1) == [Span(0, 1), Span(1, 1)]
    ensures GoSequenceOf(EngineSeq(at, 0), text) == [Span(0, 1)]
  {
    at := [Some(1), Some(1)];
    text := [0x61];
    assert EngineSeq(at, 2) == [];
    assert EngineSeq(at, 1) == [Span(1, 1)] + EngineSeq(at, 2);
    var spans := EngineSeq(at, 0);
    assert spans == [Span(0, 1)] + EngineSeq(at, 1);
    assert Thin(spans[2..], text, 2, 1) == [];
    assert spans[1..][1..] == spans[2..];
    assert Thin(spans[1..], text, 1, 1) == [];
  }

  /** End to end: over matches that respect rune boundaries, and for a pattern flagged
      nullable or without an empty match in the region, a find gives the first limit spans of
      Go's own sequence, and all of them for a negative limit. */
  lemma FindGivesGo(nullable: bool, at: Oracle, text: Bytes, from: nat, limit: int)
    requires IsOracle(at) && from < |at| <= |text| + 1 && NoMatchInsideARune(at, text)
    requires !nullable ==> forall sp :: sp in EngineSeq(at, from) ==> !sp.Empty()
    ensures var out, go := Found(nullable, EngineSeq(at, from), text, limit), GoSeq(at, text, from, -1);
            && |out| == (if limit < 0 then |go| else Min(limit, |go|))
            && forall k :: 0 <= k < |out| ==> out[k] == go[k]
  {
    NoEmptyMatchAgrees(nullable, at, text, from, limit);
    ThinningIsGo(at, text, from);
  }
}
