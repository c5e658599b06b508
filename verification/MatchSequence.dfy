/** The match sequence: what the engine reports, what Go's regexp package would
    deliver over the same matches, and the thinning that turns one into the other.

    The engine itself is a parameter. at[p] is the end of the match that starts at
    byte p, or None when no match starts there; |at| - 1 is the end of the searched
    region, so the sequence has one entry per position, the end included. */
module MatchSequence {
  import opened Basics
  import opened Runes

  datatype Span = Span(start: nat, end: nat) {
    predicate Empty() {
      start == end
    }
  }

  type Oracle = seq<Option<nat>>

  /** Every match lies inside the region and does not end before it starts. */
  predicate IsOracle(at: Oracle) {
    |at| > 0 && forall p :: 0 <= p < |at| && at[p].Some? ==> p <= at[p].value < |at|
  }

  /** The leftmost match starting at or after pos. */
  function Leftmost(at: Oracle, pos: nat): (found: Option<Span>)
    requires IsOracle(at)
    ensures found.None? ==> forall p :: pos <= p < |at| ==> at[p].None?
    ensures found.Some? ==>
              && pos <= found.value.start <= found.value.end < |at|
              && at[found.value.start] == Some(found.value.end)
              && forall p :: pos <= p < found.value.start ==> at[p].None?
    decreases |at| - pos
  {
    if pos >= |at| then None
    else if at[pos].Some? then Some(Span(pos, at[pos].value))
    else Leftmost(at, pos + 1)
  }

  /** Where the engine's walk stands after reporting sp: one BYTE past an empty match. */
  function After(sp: Span): nat {
    if sp.Empty() then sp.end + 1 else sp.end
  }

  /** The engine's own, widest sequence from pos on. */
  function EngineSeq(at: Oracle, pos: nat): seq<Span>
    requires IsOracle(at)
    decreases |at| - pos
  {
    if pos >= |at| then []
    else
      match Leftmost(at, pos)
      case None => []
      case Some(sp) => [sp] + EngineSeq(at, After(sp))
  }

  /** Go's regexp.allMatches: the scan position, the previous match end (-1 before
      the first match), and what is delivered from there on. A match ending AT the
      scan position is empty; it is refused when it starts where the previous match
      ended, and the scan advances one rune. An empty match further on is delivered,
      and then met again at the scan position, where it is refused and stepped over. */
  function GoSeq(at: Oracle, text: Bytes, pos: nat, prevEnd: int): seq<Span>
    requires IsOracle(at)
    decreases |at| - pos
  {
    if pos >= |at| then []
    else
      match Leftmost(at, pos)
      case None => []
      case Some(sp) =>
        if sp.end == pos then
          (if sp.start == prevEnd then [] else [sp])
          + GoSeq(at, text, pos + RuneWidth(text, pos), sp.end)
        else
          [sp] + GoSeq(at, text, sp.end, sp.end)
  }

  /** The position at which the thinning accepts spans again after visiting sp. */
  function ResumeAfter(text: Bytes, sp: Span): nat {
    if sp.Empty() then sp.start + RuneWidth(text, sp.start) else sp.end
  }

  /** What goSequence keeps of spans. */
  function Thin(spans: seq<Span>, text: Bytes, resume: nat, prevEnd: int): seq<Span> {
    if spans == [] then []
    else
      var sp := spans[0];
      if sp.start < resume then Thin(spans[1..], text, resume, prevEnd)
      else
        (if sp.Empty() && sp.start == prevEnd then [] else [sp])
        + Thin(spans[1..], text, ResumeAfter(text, sp), sp.end)
  }

  function GoSequenceOf(spans: seq<Span>, text: Bytes): seq<Span> {
    Thin(spans, text, 0, -1)
  }

  /** goSequence: the one-pass filter over the spans the engine wrote. */
  method GoSequence(spans: seq<Span>, text: Bytes) returns (out: seq<Span>)
    ensures out == GoSequenceOf(spans, text)
  {
    out := [];
    var prevEnd: int := -1;
    var resume: nat := 0;
    for i := 0 to |spans|
      invariant out + Thin(spans[i..], text, resume, prevEnd) == GoSequenceOf(spans, text)
    {
      var sp := spans[i];
      assert spans[i..][0] == sp && spans[i..][1..] == spans[i + 1..];
      if sp.start < resume {
        continue;
      }
      var empty := sp.start == sp.end;
      if empty {
        resume := sp.start + RuneWidth(text, sp.start);
      } else {
        resume := sp.end;
      }
      if !empty || sp.start != prevEnd {
        out := out + [sp];
      }
      prevEnd := sp.end;
    }
  }

  /** The exact side condition of the thinning. A span it passes over, because it
      starts before the resume point, must not cover a position at or after that
      point where some match starts: the engine never reported that match, so no
      removal of spans can bring it back. */
  predicate NothingHidden(at: Oracle, spans: seq<Span>, text: Bytes, resume: nat) {
    spans != [] ==>
      var sp := spans[0];
      if sp.start < resume then
        && (forall q :: resume <= q < sp.end && q < |at| ==> at[q].None?)
        && NothingHidden(at, spans[1..], text, resume)
      else
        NothingHidden(at, spans[1..], text, ResumeAfter(text, sp))
  }

  /** The condition the documentation relies on: no non-empty match starts strictly
      inside a multi-byte rune. */
  predicate NoMatchInsideARune(at: Oracle, text: Bytes) {
    forall i, p :: 0 <= i < p < i + RuneWidth(text, i) && p < |at| ==> at[p].None? || at[p] == Some(p)
  }

  lemma {:induction false} LeftmostSkips(at: Oracle, pos: nat, later: nat)
    requires IsOracle(at) && pos <= later
    requires forall p :: pos <= p < later && p < |at| ==> at[p].None?
    ensures Leftmost(at, pos) == Leftmost(at, later)
    decreases later - pos
  {
    if pos < later {
      if pos < |at| {
        LeftmostSkips(at, pos + 1, later);
      }
    }
  }

  lemma {:induction false} EngineSeqStarts(at: Oracle, pos: nat)
    requires IsOracle(at)
    ensures forall sp :: sp in EngineSeq(at, pos) ==> pos <= sp.start
    decreases |at| - pos
  {
    if pos < |at| && Leftmost(at, pos).Some? {
      EngineSeqStarts(at, After(Leftmost(at, pos).value));
    }
  }

  /** Positions where nothing starts do not change what Go delivers, once the scan
      has moved past the previous match end. */
  lemma {:induction false} GoSkips(at: Oracle, text: Bytes, pos: nat, later: nat, prevEnd: int)
    requires IsOracle(at) && prevEnd < pos <= later
    requires forall p :: pos <= p < later && p < |at| ==> at[p].None?
    ensures GoSeq(at, text, pos, prevEnd) == GoSeq(at, text, later, prevEnd)
  {
    LeftmostSkips(at, pos, later);
    if pos < later && later < |at| && Leftmost(at, later).Some? {
      var sp := Leftmost(at, later).value;
      GoStep(at, text, pos, prevEnd, sp);
      GoStep(at, text, later, prevEnd, sp);
      if sp.end == later {
        SecondLook(at, text, sp);
      }
    }
  }

  /** A resume point below every remaining span is no constraint. */
  lemma ThinIgnoresResume(at: Oracle, spans: seq<Span>, text: Bytes, r0: nat, r1: nat, prevEnd: int)
    requires spans != [] ==> r0 <= spans[0].start && r1 <= spans[0].start
    ensures Thin(spans, text, r0, prevEnd) == Thin(spans, text, r1, prevEnd)
    ensures NothingHidden(at, spans, text, r0) == NothingHidden(at, spans, text, r1)
  {
  }

  lemma {:induction false} ThinSubset(spans: seq<Span>, text: Bytes, resume: nat, prevEnd: int)
    ensures forall sp :: sp in Thin(spans, text, resume, prevEnd) ==> sp in spans
  {
    if spans != [] {
      ThinSubset(spans[1..], text, resume, prevEnd);
      ThinSubset(spans[1..], text, ResumeAfter(text, spans[0]), spans[0].end);
    }
  }

  lemma PrefixCancels<T>(p: seq<T>, a: seq<T>, b: seq<T>)
    ensures p + a == p + b <==> a == b
  {
    assert (p + a)[|p|..] == a && (p + b)[|p|..] == b;
  }

  /** The heart of the simulation. The engine's walk stands at epos, the thinning
      accepts from resume on, and Go's scan stands at resume; they agree from here
      exactly when nothing is hidden from here. */
  lemma {:induction false} ThinSimulatesGo(at: Oracle, text: Bytes, epos: nat, resume: nat, prevEnd: int)
    requires IsOracle(at) && |at| <= |text| + 1 && epos <= resume
    requires prevEnd <= resume && (epos < resume ==> prevEnd < resume)
    ensures Thin(EngineSeq(at, epos), text, resume, prevEnd) == GoSeq(at, text, resume, prevEnd)
       <==> NothingHidden(at, EngineSeq(at, epos), text, resume)
    decreases |at| - epos
  {
    var spans := EngineSeq(at, epos);
    if epos >= |at| || Leftmost(at, epos).None? {
      LeftmostSkips(at, epos, resume);
    } else {
      var sp := Leftmost(at, epos).value;
      var rest := EngineSeq(at, After(sp));
      assert spans[0] == sp && spans[1..] == rest;
      if sp.start < resume {
        if sp.end <= resume {
          ThinSimulatesGo(at, text, After(sp), resume, prevEnd);
        } else {
          DroppedPastResume(at, text, sp, resume, prevEnd);
        }
      } else {
        LeftmostSkips(at, epos, resume);
        VisitedSpan(at, text, sp, resume, prevEnd);
        var next := ResumeAfter(text, sp);
        ThinSimulatesGo(at, text, After(sp), next, sp.end);
        var kept := if sp.Empty() && sp.start == prevEnd then [] else [sp];
        PrefixCancels(kept, Thin(rest, text, next, sp.end), GoSeq(at, text, next, sp.end));
        assert Thin(spans, text, resume, prevEnd) == kept + Thin(rest, text, next, sp.end);
        assert GoSeq(at, text, resume, prevEnd) == kept + GoSeq(at, text, next, sp.end);
      }
    }
  }

  /** One turn of Go's loop. */
  lemma GoStep(at: Oracle, text: Bytes, pos: nat, prevEnd: int, sp: Span)
    requires IsOracle(at) && pos < |at| && Leftmost(at, pos) == Some(sp)
    ensures sp.end == pos ==>
              GoSeq(at, text, pos, prevEnd)
              == (if sp.start == prevEnd then [] else [sp]) + GoSeq(at, text, pos + RuneWidth(text, pos), sp.end)
    ensures sp.end != pos ==> GoSeq(at, text, pos, prevEnd) == [sp] + GoSeq(at, text, sp.end, sp.end)
  {
  }

  /** Go's turns over a span both sides visit, with the second look at an empty match
      beyond the scan position folded in. */
  lemma VisitedSpan(at: Oracle, text: Bytes, sp: Span, resume: nat, prevEnd: int)
    requires IsOracle(at) && resume < |at|
    requires prevEnd <= resume
    requires Leftmost(at, resume) == Some(sp)
    ensures GoSeq(at, text, resume, prevEnd)
         == (if sp.Empty() && sp.start == prevEnd then [] else [sp])
            + GoSeq(at, text, ResumeAfter(text, sp), sp.end)
  {
    GoStep(at, text, resume, prevEnd, sp);
    if sp.Empty() && sp.end != resume {
      SecondLook(at, text, sp);
    }
  }

  lemma SecondLook(at: Oracle, text: Bytes, sp: Span)
    requires IsOracle(at) && sp.Empty() && sp.start < |at| && at[sp.start] == Some(sp.end)
    ensures GoSeq(at, text, sp.end, sp.end) == GoSeq(at, text, ResumeAfter(text, sp), sp.end)
  {
    GoStep(at, text, sp.end, sp.end, sp);
  }

  /** The engine passed over sp, which reaches past the resume point. */
  lemma {:induction false} DroppedPastResume(at: Oracle, text: Bytes, sp: Span, resume: nat, prevEnd: int)
    requires IsOracle(at) && |at| <= |text| + 1
    requires sp.start < resume < sp.end < |at|
    requires prevEnd < resume
    ensures Thin(EngineSeq(at, sp.end), text, resume, prevEnd) == GoSeq(at, text, resume, prevEnd)
       <==> (&& (forall q :: resume <= q < sp.end && q < |at| ==> at[q].None?)
             && NothingHidden(at, EngineSeq(at, sp.end), text, resume))
    decreases |at| - sp.start, 0
  {
    var rest := EngineSeq(at, sp.end);
    EngineSeqStarts(at, sp.end);
    if forall q :: resume <= q < sp.end && q < |at| ==> at[q].None? {
      ThinIgnoresResume(at, rest, text, resume, sp.end, prevEnd);
      GoSkips(at, text, resume, sp.end, prevEnd);
      ThinSimulatesGo(at, text, sp.end, sp.end, prevEnd);
    } else {
      // Go delivers the hidden match first; every span left here starts later.
      ThinSubset(rest, text, resume, prevEnd);
      var hidden := Leftmost(at, resume).value;
      VisitedSpan(at, text, hidden, resume, prevEnd);
      assert GoSeq(at, text, resume, prevEnd)[0] == hidden;
    }
  }

  /** goSequence gives Go's sequence exactly when the engine's walk hides nothing, over
      the whole text as over any region: it starts at from and ends where the oracle does. */
  lemma ThinningIsGoIff(at: Oracle, text: Bytes, from: nat)
    requires IsOracle(at) && |at| <= |text| + 1
    ensures GoSequenceOf(EngineSeq(at, from), text) == GoSeq(at, text, from, -1)
       <==> NothingHidden(at, EngineSeq(at, from), text, from)
  {
    ThinSimulatesGo(at, text, from, from, -1);
    FirstSpanStarts(at, from);
    ThinIgnoresResume(at, EngineSeq(at, from), text, 0, from, -1);
  }

  lemma FirstSpanStarts(at: Oracle, from: nat)
    requires IsOracle(at)
    ensures EngineSeq(at, from) != [] ==> from <= EngineSeq(at, from)[0].start
  {
  }

  lemma EngineSeqFirst(at: Oracle, pos: nat)
    requires IsOracle(at) && pos < |at| && Leftmost(at, pos).Some?
    ensures var sp, spans := Leftmost(at, pos).value, EngineSeq(at, pos);
            spans != [] && spans[0] == sp && spans[1..] == EngineSeq(at, After(sp))
  {
  }

  lemma EmptyInsideARune(at: Oracle, text: Bytes, from: nat, sp: Span)
    requires IsOracle(at) && NoMatchInsideARune(at, text)
    requires from < sp.start < from + RuneWidth(text, from) && sp.start < |at| && at[sp.start] == Some(sp.end)
    ensures sp.Empty()
  {
  }

  lemma {:induction false} NoMatchInsideARuneHidesNothing(at: Oracle, text: Bytes, epos: nat, from: nat, resume: nat)
    requires IsOracle(at) && |at| <= |text| + 1 && NoMatchInsideARune(at, text)
    requires epos < resume ==> from < epos && resume == from + RuneWidth(text, from)
    ensures NothingHidden(at, EngineSeq(at, epos), text, resume)
    decreases |at| - epos
  {
    if epos < |at| && Leftmost(at, epos).Some? {
      var sp := Leftmost(at, epos).value;
      EngineSeqFirst(at, epos);
      if sp.start < resume {
        EmptyInsideARune(at, text, from, sp);
        NoMatchInsideARuneHidesNothing(at, text, After(sp), from, resume);
      } else {
        NoMatchInsideARuneHidesNothing(at, text, After(sp), sp.start, ResumeAfter(text, sp));
      }
    }
  }

  /** The promise as documented: over a pattern whose matches respect rune boundaries,
      the thinned engine sequence is Go's own, span for span. */
  lemma ThinningIsGo(at: Oracle, text: Bytes, from: nat)
    requires IsOracle(at) && |at| <= |text| + 1 && NoMatchInsideARune(at, text)
    ensures GoSequenceOf(EngineSeq(at, from), text) == GoSeq(at, text, from, -1)
  {
    NoMatchInsideARuneHidesNothing(at, text, from, from, from);
    ThinningIsGoIff(at, text, from);
  }

  /** Without the condition the promise fails: over the three bytes C3 A9 78 take the
      byte pattern that matches A9 78, or 78, or nothing. The engine reports (0,0),
      (1,3), (3,3). The thinning drops the middle span as lying inside the rune C3 A9,
      and the match Go finds at byte 2 was never reported. */
  lemma ThinningLosesAHiddenMatch() returns (at: Oracle, text: Bytes)
    ensures IsOracle(at) && |at| == |text| + 1
    ensures GoSequenceOf(EngineSeq(at, 0), text) == [Span(0, 0), Span(3, 3)]
    ensures GoSeq(at, text, 0, -1) == [Span(0, 0), Span(2, 3)]
  {
    at := [Some(0), Some(3), Some(3), Some(3)];
    text := [0xC3, 0xA9, 0x78];
    HiddenEngine(at);
    HiddenThinned(text);
    HiddenGo(at, text);
  }

  lemma HiddenEngine(at: Oracle)
    requires at == [Some(0), Some(3), Some(3), Some(3)]
    ensures EngineSeq(at, 0) == [Span(0, 0), Span(1, 3), Span(3, 3)]
  {
    assert EngineSeq(at, 4) == [];
    assert EngineSeq(at, 3) == [Span(3, 3)] + EngineSeq(at, 4);
    assert EngineSeq(at, 1) == [Span(1, 3)] + EngineSeq(at, 3);
    assert EngineSeq(at, 0) == [Span(0, 0)] + EngineSeq(at, 1);
  }

  lemma HiddenThinned(text: Bytes)
    requires text == [0xC3, 0xA9, 0x78]
    ensures GoSequenceOf([Span(0, 0), Span(1, 3), Span(3, 3)], text) == [Span(0, 0), Span(3, 3)]
  {
    assert RuneWidth(text, 0) == 2;
    var last, middle := [Span(3, 3)], [Span(1, 3), Span(3, 3)];
    assert last[1..] == [] && middle[1..] == last;
    assert Thin(last, text, 2, 0) == [Span(3, 3)] + Thin([], text, 4, 3);
    assert Thin(middle, text, 2, 0) == Thin(last, text, 2, 0);
    assert [Span(0, 0), Span(1, 3), Span(3, 3)][1..] == middle;
  }

  lemma HiddenGo(at: Oracle, text: Bytes)
    requires at == [Some(0), Some(3), Some(3), Some(3)] && text == [0xC3, 0xA9, 0x78]
    ensures GoSeq(at, text, 0, -1) == [Span(0, 0), Span(2, 3)]
  {
    assert RuneWidth(text, 0) == 2;
    assert Leftmost(at, 3) == Some(Span(3, 3)) && RuneWidth(text, 3) == 1;
    assert GoSeq(at, text, 3, 3) == [] + GoSeq(at, text, 4, 3);
    assert Leftmost(at, 2) == Some(Span(2, 3));
    assert GoSeq(at, text, 2, 0) == [Span(2, 3)] + GoSeq(at, text, 3, 3);
    assert Leftmost(at, 0) == Some(Span(0, 0));
  }

  /** Spans in reading order: inside [from, to], later ones starting strictly later
      and not before an earlier one has ended. */
  predicate Ordered(spans: seq<Span>, from: nat, to: nat) {
    && (forall k :: 0 <= k < |spans| ==> from <= spans[k].start <= spans[k].end <= to)
    && (forall j, k {:trigger Before(spans[j], spans[k])} :: 0 <= j < k < |spans| ==> Before(spans[j], spans[k]))
  }

  predicate Before(a: Span, b: Span) {
    a.start < b.start && a.end <= b.start
  }

  /** The engine's sequence is ordered and holds at most one span per position. */
  lemma {:induction false} EngineSeqOrdered(at: Oracle, pos: nat)
    requires IsOracle(at) && pos <= |at|
    ensures Ordered(EngineSeq(at, pos), pos, |at| - 1)
    ensures |EngineSeq(at, pos)| <= |at| - pos
    decreases |at| - pos
  {
    if pos < |at| && Leftmost(at, pos).Some? {
      var sp := Leftmost(at, pos).value;
      EngineSeqOrdered(at, After(sp));
    }
  }

  /** Thinning only removes spans, so what is left is still in order. */
  lemma {:induction false} ThinOrdered(spans: seq<Span>, text: Bytes, resume: nat, prevEnd: int, from: nat, to: nat)
    requires Ordered(spans, from, to)
    ensures Ordered(Thin(spans, text, resume, prevEnd), from, to)
  {
    if spans != [] {
      var sp, rest := spans[0], spans[1..];
      assert Ordered(rest, from, to);
      if sp.start < resume {
        ThinOrdered(rest, text, resume, prevEnd, from, to);
      } else {
        var out := Thin(rest, text, ResumeAfter(text, sp), sp.end);
        ThinOrdered(rest, text, ResumeAfter(text, sp), sp.end, from, to);
        ThinSubset(rest, text, ResumeAfter(text, sp), sp.end);
        forall k | 0 <= k < |out|
          ensures Before(sp, out[k])
        {
          assert out[k] in rest;
          var j :| 0 <= j < |rest| && rest[j] == out[k];
          assert Before(spans[0], spans[j + 1]);
        }
      }
    }
  }

  /** No empty match is left touching the end of the match before it: the reported one,
      even when other empty matches were refused in between. */
  lemma {:induction false} ThinLeavesNoAbutting(spans: seq<Span>, text: Bytes, resume: nat, prevEnd: int)
    ensures var out := Thin(spans, text, resume, prevEnd);
            && (out != [] ==> !(out[0].Empty() && out[0].start == prevEnd))
            && (forall k :: 0 < k < |out| ==> !(out[k].Empty() && out[k].start == out[k - 1].end))
  {
    if spans != [] {
      ThinLeavesNoAbutting(spans[1..], text, resume, prevEnd);
      ThinLeavesNoAbutting(spans[1..], text, ResumeAfter(text, spans[0]), spans[0].end);
    }
  }

  /** What the package reports for a text or a region of it: ordered, and free of abutting
      empty matches. */
  lemma ReportedSequence(at: Oracle, text: Bytes, from: nat)
    requires IsOracle(at) && from <= |at|
    ensures var out := GoSequenceOf(EngineSeq(at, from), text);
            && Ordered(out, from, |at| - 1)
            && (forall k :: 0 < k < |out| ==> !(out[k].Empty() && out[k].start == out[k - 1].end))
  {
    EngineSeqOrdered(at, from);
    ThinOrdered(EngineSeq(at, from), text, 0, -1, from, |at| - 1);
    ThinLeavesNoAbutting(EngineSeq(at, from), text, 0, -1);
  }
}
