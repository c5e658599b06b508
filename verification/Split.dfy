/** Splitting a text around a sequence of matches. */
module Split {
  import opened Basics
  import opened MatchSequence
  import opened Routes

  /** Does this span separate two pieces? An empty match before the first byte does
      not, and an empty match after the last byte does not. */
  predicate Separates(sp: Span, size: nat) {
    sp.end != 0 && sp.start != size
  }

  /** The spans that separate, in order. */
  function Cuts(spans: seq<Span>, size: nat): seq<Span> {
    if spans == [] then []
    else (if Separates(spans[0], size) then [spans[0]] else []) + Cuts(spans[1..], size)
  }

  /** Piece k begins where the cut before it ends, and ends where the next one starts. */
  function Begin(cuts: seq<Span>, k: nat): nat
    requires k <= |cuts|
  {
    if k == 0 then 0 else cuts[k - 1].end
  }

  function End(cuts: seq<Span>, size: nat, k: nat): nat
    requires k <= |cuts|
  {
    if k == |cuts| then size else cuts[k].start
  }

  function Piece(s: Bytes, cuts: seq<Span>, k: nat): Bytes
    requires k <= |cuts|
  {
    Slice(s, Begin(cuts, k), End(cuts, |s|, k))
  }

  /** The cuts a limit of n lets through: all of them when n is negative, and no more
      than n - 1 when n is positive. */
  function Limited(cuts: seq<Span>, n: int): seq<Span>
    requires n != 0
  {
    if n < 0 || |cuts| < n then cuts else cuts[..n - 1]
  }

  /** What Split means: the pieces around the cuts the limit lets through. */
  function Pieces(s: Bytes, spans: seq<Span>, n: int): seq<Bytes> {
    if n == 0 then []
    else
      var cuts := Limited(Cuts(spans, |s|), n);
      seq(|cuts| + 1, k requires 0 <= k <= |cuts| => Piece(s, cuts, k))
  }

  /** No separator is lost or invented: only an empty match at either edge of the text
      fails to separate. */
  lemma {:induction false} EverySeparatorCuts(spans: seq<Span>, size: nat)
    ensures forall sp :: sp in Cuts(spans, size) <==> sp in spans && Separates(sp, size)
  {
    if spans != [] {
      EverySeparatorCuts(spans[1..], size);
      assert spans == [spans[0]] + spans[1..];
    }
  }

  /** Of an ordered sequence, all but an empty match at either edge of the text separate. */
  lemma ReportedSpanCutsIff(spans: seq<Span>, size: nat, sp: Span)
    requires Ordered(spans, 0, size) && sp in spans
    ensures sp in Cuts(spans, size) <==> !(sp.start == sp.end && (sp.start == 0 || sp.start == size))
  {
    EverySeparatorCuts(spans, size);
    var k :| 0 <= k < |spans| && spans[k] == sp;
  }

  lemma {:induction false} CutsOrdered(spans: seq<Span>, from: nat, size: nat)
    requires Ordered(spans, from, size)
    ensures Ordered(Cuts(spans, size), from, size)
  {
    if spans != [] {
      RestIsOrdered(spans, from, size);
      CutsOrdered(spans[1..], from, size);
      EverySeparatorCuts(spans[1..], size);
      OrderedBehind(spans[0], Cuts(spans[1..], size), from, size);
    }
  }

  lemma RestIsOrdered(spans: seq<Span>, from: nat, to: nat)
    requires Ordered(spans, from, to) && spans != []
    ensures Ordered(spans[1..], from, to) && from <= spans[0].start <= spans[0].end <= to
    ensures forall sp :: sp in spans[1..] ==> Before(spans[0], sp)
  {
    forall sp | sp in spans[1..]
      ensures Before(spans[0], sp)
    {
      var k :| 1 <= k < |spans| && spans[k] == sp;
    }
  }

  lemma OrderedBehind(first: Span, rest: seq<Span>, from: nat, to: nat)
    requires Ordered(rest, from, to) && from <= first.start <= first.end <= to
    requires forall sp :: sp in rest ==> Before(first, sp)
    ensures Ordered([first] + rest, from, to)
  {
    var spans := [first] + rest;
    forall j, k {:trigger Before(spans[j], spans[k])} | 0 <= j < k < |spans|
      ensures Before(spans[j], spans[k])
    {
      assert spans[k] == rest[k - 1] && rest[k - 1] in rest;
      assert j > 0 ==> Before(rest[j - 1], rest[k - 1]);
    }
  }

  lemma FirstAndRest(a: seq<Span>, b: seq<Span>)
    requires a != []
    ensures a + b == [a[0]] + (a[1..] + b) && a == [a[0]] + a[1..]
  {
  }

  lemma CutsOfFirst(sp: Span, rest: seq<Span>, size: nat)
    ensures Cuts([sp] + rest, size) == (if Separates(sp, size) then [sp] else []) + Cuts(rest, size)
  {
    assert ([sp] + rest)[1..] == rest;
  }

  lemma {:induction false} CutsConcat(a: seq<Span>, b: seq<Span>, size: nat)
    ensures Cuts(a + b, size) == Cuts(a, size) + Cuts(b, size)
  {
    if a == [] {
      assert a + b == b;
    } else {
      CutsConcat(a[1..], b, size);
      CutsOfFirst(a[0], a[1..] + b, size);
      CutsOfFirst(a[0], a[1..], size);
      FirstAndRest(a, b);
    }
  }

  lemma CutsStep(spans: seq<Span>, i: nat, size: nat)
    requires i < |spans|
    ensures Cuts(spans[..i + 1], size)
         == if Separates(spans[i], size) then Cuts(spans[..i], size) + [spans[i]] else Cuts(spans[..i], size)
  {
    assert spans[..i + 1] == spans[..i] + [spans[i]];
    CutsConcat(spans[..i], [spans[i]], size);
    assert Cuts([spans[i]], size) == if Separates(spans[i], size) then [spans[i]] else [];
  }

  lemma {:induction false} AllSeparate(spans: seq<Span>, size: nat)
    requires forall k :: 0 <= k < |spans| ==> Separates(spans[k], size)
    ensures Cuts(spans, size) == spans
  {
    if spans != [] {
      AllSeparate(spans[1..], size);
    }
  }

  /** Short of the end of the text, all but the first span of an ordered sequence cut. */
  lemma AllButTheFirstCut(spans: seq<Span>, size: nat)
    requires Ordered(spans, 0, size)
    requires spans != [] ==> spans[|spans| - 1].start < size
    ensures |Cuts(spans, size)| >= |spans| - 1
  {
    if spans != [] {
      forall k | 1 <= k < |spans|
        ensures Separates(spans[k], size)
      {
        assert Before(spans[0], spans[k]);
        assert k < |spans| - 1 ==> Before(spans[k], spans[|spans| - 1]);
      }
      AllSeparate(spans[1..], size);
    }
  }

  /** The pieces that end where a cut starts. */
  function Closed(s: Bytes, cuts: seq<Span>): seq<Bytes> {
    seq(|cuts|, k requires 0 <= k < |cuts| => Slice(s, Begin(cuts, k), cuts[k].start))
  }

  function LastPiece(s: Bytes, cuts: seq<Span>): Bytes {
    Slice(s, Begin(cuts, |cuts|), |s|)
  }

  lemma ClosedMore(s: Bytes, cuts: seq<Span>, span: Span)
    ensures Closed(s, cuts + [span]) == Closed(s, cuts) + [Slice(s, Begin(cuts, |cuts|), span.start)]
  {
    var more := cuts + [span];
    forall k | 0 <= k <= |cuts|
      ensures Begin(more, k) == Begin(cuts, k)
    {
    }
  }

  lemma PiecesAreClosed(s: Bytes, spans: seq<Span>, n: int)
    requires n != 0
    ensures var cuts := Limited(Cuts(spans, |s|), n);
            Pieces(s, spans, n) == Closed(s, cuts) + [LastPiece(s, cuts)]
  {
  }

  /** The pieces closed so far: one per cut met, and the last one too once an empty
      match after the last byte has closed it. */
  predicate ClosedPieces(s: Bytes, cuts: seq<Span>, end: nat, out: seq<Bytes>) {
    out == Closed(s, cuts) + (if end == |s| then [LastPiece(s, cuts)] else [])
  }

  /** The loop's variables. */
  datatype Progress = Progress(begin: nat, end: nat, out: seq<Bytes>)

  /** What one round makes of them, and what they are after i rounds. */
  function Turn(s: Bytes, p: Progress, span: Span): Progress {
    Progress(span.end, span.start, if span.end != 0 then p.out + [Slice(s, p.begin, span.start)] else p.out)
  }

  function After(s: Bytes, matches: seq<Span>, i: nat): Progress
    requires i <= |matches|
  {
    if i == 0 then Progress(0, 0, []) else Turn(s, After(s, matches, i - 1), matches[i - 1])
  }

  /** Split, over the sequence the package reports for s. The loop sees only the first
      n spans, and leaves early once n - 1 pieces are out. */
  method SplitText(s: Bytes, reported: seq<Span>, n: int) returns (out: seq<Bytes>)
    requires Ordered(reported, 0, |s|)
    ensures out == Pieces(s, reported, n)
  {
    if n == 0 {
      return [];
    }
    if |s| == 0 {
      EmptyTextHasOnePiece(s, reported, n);
      return [[]];
    }
    var matches := First(reported, n);
    out := [];
    var begin: nat, end: nat, i := 0, 0, 0;
    while i < |matches|
      invariant 0 <= i <= |matches| && Progress(begin, end, out) == After(s, matches, i)
      invariant n > 0 ==> |out| <= n - 1
    {
      if n > 0 && |out| >= n - 1 {
        break;
      }
      var span := matches[i];
      SpanInTurn(s, reported, n, i);
      end := span.start;
      if span.end != 0 {
        out := out + [s[begin..end]];
      }
      begin := span.end;
      i := i + 1;
    }
    ClosingCompletes(s, reported, n, i);
    if end != |s| {
      out := out + [s[begin..]];
    }
  }

  lemma EmptyTextHasOnePiece(s: Bytes, reported: seq<Span>, n: int)
    requires s == [] && n != 0 && Ordered(reported, 0, 0)
    ensures Pieces(s, reported, n) == [[]]
  {
    EmptyTextHasNoCuts(reported);
  }

  /** A span met in the loop starts where the piece still open begins, or after. */
  lemma SpanInTurn(s: Bytes, reported: seq<Span>, n: int, i: nat)
    requires Ordered(reported, 0, |s|) && i < |First(reported, n)|
    ensures var span := First(reported, n)[i];
            After(s, First(reported, n), i).begin <= span.start <= span.end <= |s|
  {
    assert i > 0 ==> Before(reported[i - 1], reported[i]);
  }

  /** However the loop ends, closing the piece still open, when there is one, completes the
      split. */
  lemma ClosingCompletes(s: Bytes, reported: seq<Span>, n: int, i: nat)
    requires Ordered(reported, 0, |s|) && n != 0 && |s| > 0 && i <= |First(reported, n)|
    requires var out := After(s, First(reported, n), i).out;
             && (n > 0 ==> |out| <= n - 1)
             && (i < |First(reported, n)| ==> n > 0 && |out| == n - 1)
    ensures var p := After(s, First(reported, n), i);
            && p.begin <= |s|
            && Pieces(s, reported, n) == if p.end == |s| then p.out else p.out + [s[p.begin..]]
  {
    var matches := First(reported, n);
    var p := After(s, matches, i);
    LoopReaches(s, matches, i);
    LoopSawEnough(s, reported, n, i, p.end, p.out);
    PiecesAreClosed(s, reported, n);
    var cuts := Cuts(matches[..i], |s|);
    assert p.end != |s| ==> LastPiece(s, cuts) == s[p.begin..];
  }

  /** What the loop knows after i spans: the cuts among them, the pieces they close,
      and where the piece still open begins. */
  predicate LoopState(s: Bytes, matches: seq<Span>, i: nat, p: Progress)
    requires i <= |matches|
  {
    && p.begin <= |s| && p.end <= |s|
    && p.begin == (if i == 0 then 0 else matches[i - 1].end)
    && p.end == (if i == 0 then 0 else matches[i - 1].start)
    && var cuts := Cuts(matches[..i], |s|);
       && (p.end == |s| || p.begin == Begin(cuts, |cuts|))
       && ClosedPieces(s, cuts, p.end, p.out)
  }

  lemma OneMoreTurn(s: Bytes, matches: seq<Span>, i: nat)
    requires 0 < i <= |matches|
    ensures After(s, matches, i) == Turn(s, After(s, matches, i - 1), matches[i - 1])
  {
  }

  lemma {:induction false} LoopReaches(s: Bytes, matches: seq<Span>, i: nat)
    requires Ordered(matches, 0, |s|) && |s| > 0 && i <= |matches|
    ensures LoopState(s, matches, i, After(s, matches, i))
  {
    if i > 0 {
      LoopReaches(s, matches, i - 1);
      NextSpan(s, matches, i - 1, After(s, matches, i - 1));
      OneMoreTurn(s, matches, i);
    }
  }

  lemma NextSpan(s: Bytes, matches: seq<Span>, i: nat, p: Progress)
    requires Ordered(matches, 0, |s|) && i < |matches| && |s| > 0
    requires LoopState(s, matches, i, p)
    ensures LoopState(s, matches, i + 1, Turn(s, p, matches[i]))
  {
    assert i > 0 ==> Before(matches[i - 1], matches[i]);
    CutsStep(matches, i, |s|);
    ClosesAPiece(s, Cuts(matches[..i], |s|), p.begin, p.end, matches[i], p.out);
  }

  /** One round of the loop, on values. */
  lemma ClosesAPiece(s: Bytes, cuts: seq<Span>, begin: nat, end: nat, span: Span, out: seq<Bytes>)
    requires end < |s| && begin == Begin(cuts, |cuts|) && ClosedPieces(s, cuts, end, out)
    requires begin <= span.start <= span.end <= |s|
    requires span.end == 0 ==> cuts == []
    ensures var cuts' := if Separates(span, |s|) then cuts + [span] else cuts;
            var out' := if span.end != 0 then out + [s[begin..span.start]] else out;
            && ClosedPieces(s, cuts', span.start, out')
            && (span.start == |s| || span.end == Begin(cuts', |cuts'|))
  {
    if Separates(span, |s|) {
      ClosedMore(s, cuts, span);
    }
  }

  lemma {:induction false} EmptyTextHasNoCuts(reported: seq<Span>)
    requires forall k :: 0 <= k < |reported| ==> reported[k].end == 0
    ensures Cuts(reported, 0) == []
  {
    if reported != [] {
      EmptyTextHasNoCuts(reported[1..]);
    }
  }

  /** Where the loop stopped, it had met every cut the limit lets through. */
  lemma LoopSawEnough(s: Bytes, reported: seq<Span>, n: int, i: nat, end: nat, out: seq<Bytes>)
    requires Ordered(reported, 0, |s|) && n != 0 && |s| > 0
    requires i <= |First(reported, n)|
    requires end == (if i == 0 then 0 else First(reported, n)[i - 1].start)
    requires n > 0 ==> |out| <= n - 1
    requires |out| == |Cuts(First(reported, n)[..i], |s|)| + (if end == |s| then 1 else 0)
    requires i < |First(reported, n)| ==> n > 0 && |out| == n - 1
    ensures Cuts(First(reported, n)[..i], |s|) == Limited(Cuts(reported, |s|), n)
  {
    SeenOfFirst(reported, n, i);
    CutsSoFar(reported, i, |s|);
    if i < |reported| {
      SeenCutWell(reported, i, |s|);
    }
  }

  lemma SeenOfFirst(reported: seq<Span>, n: int, i: nat)
    requires i <= |First(reported, n)|
    ensures First(reported, n)[..i] == reported[..i]
    ensures i > 0 ==> First(reported, n)[i - 1] == reported[i - 1]
  {
  }

  lemma CutsSoFar(reported: seq<Span>, i: nat, size: nat)
    requires i <= |reported|
    ensures |Cuts(reported[..i], size)| <= |Cuts(reported, size)|
    ensures Cuts(reported, size)[..|Cuts(reported[..i], size)|] == Cuts(reported[..i], size)
    ensures i == |reported| ==> Cuts(reported[..i], size) == Cuts(reported, size)
  {
    assert reported[..i] + reported[i..] == reported;
    CutsConcat(reported[..i], reported[i..], size);
    assert i == |reported| ==> reported[..i] == reported;
  }

  /** Spans that others follow all cut, but perhaps for the first. */
  lemma SeenCutWell(reported: seq<Span>, i: nat, size: nat)
    requires Ordered(reported, 0, size) && i < |reported|
    ensures |Cuts(reported[..i], size)| >= i - 1
    ensures i > 0 ==> reported[i - 1].start < size
  {
    assert i > 0 ==> Before(reported[i - 1], reported[i]);
    assert Ordered(reported[..i], 0, size);
    AllButTheFirstCut(reported[..i], size);
  }

  /** The first k + 1 pieces with the first k separators between them. */
  function Interleaved(s: Bytes, pieces: seq<Bytes>, cuts: seq<Span>, k: nat): Bytes
    requires k < |pieces| && k <= |cuts| && Ordered(cuts, 0, |s|)
  {
    if k == 0 then pieces[0]
    else Interleaved(s, pieces, cuts, k - 1) + s[cuts[k - 1].start..cuts[k - 1].end] + pieces[k]
  }

  lemma {:induction false} InterleavedIsAPrefix(s: Bytes, pieces: seq<Bytes>, cuts: seq<Span>, k: nat)
    requires Ordered(cuts, 0, |s|) && k <= |cuts| < |pieces|
    requires forall j {:trigger pieces[j]} :: 0 <= j <= |cuts| ==> pieces[j] == Piece(s, cuts, j)
    ensures Interleaved(s, pieces, cuts, k) == s[..End(cuts, |s|, k)]
  {
    assert pieces[k] == Piece(s, cuts, k);
    if k > 0 {
      InterleavedIsAPrefix(s, pieces, cuts, k - 1);
      Adjoins(s, cuts[k - 1].start, cuts[k - 1].end, EndAfter(s, cuts, k));
    }
  }

  function EndAfter(s: Bytes, cuts: seq<Span>, k: nat): (e: nat)
    requires Ordered(cuts, 0, |s|) && 0 < k <= |cuts|
    ensures e == End(cuts, |s|, k) && cuts[k - 1].end <= e <= |s|
  {
    assert k < |cuts| ==> Before(cuts[k - 1], cuts[k]);
    End(cuts, |s|, k)
  }

  lemma Adjoins(s: Bytes, a: nat, b: nat, c: nat)
    requires a <= b <= c <= |s|
    ensures s[..a] + s[a..b] + s[b..c] == s[..c]
  {
  }

  /** The promise of Split, for every ordered sequence and every limit: the pieces and
      the separators between them rebuild the text, at most n pieces come back, all but
      the last agree with the unlimited split, and the last is the exact remainder. */
  lemma SplitConserves(s: Bytes, spans: seq<Span>, n: int, cuts: seq<Span>)
    requires Ordered(spans, 0, |s|) && n != 0
    requires cuts == Limited(Cuts(spans, |s|), n)
    ensures Ordered(cuts, 0, |s|)
    ensures |Pieces(s, spans, n)| == |cuts| + 1
    ensures n > 0 ==> |Pieces(s, spans, n)| == Min(n, |Pieces(s, spans, -1)|)
    ensures Interleaved(s, Pieces(s, spans, n), cuts, |cuts|) == s
    ensures Pieces(s, spans, n)[..|cuts|] == Pieces(s, spans, -1)[..|cuts|]
    ensures Begin(cuts, |cuts|) <= |s| && Pieces(s, spans, n)[|cuts|] == s[Begin(cuts, |cuts|)..]
  {
    CutsOrdered(spans, 0, |s|);
    PiecesRebuild(s, spans, n, cuts);
    SamePieces(s, spans, n, cuts);
    LastPieceIsTheRest(s, spans, n, cuts);
  }

  lemma PiecesRebuild(s: Bytes, spans: seq<Span>, n: int, cuts: seq<Span>)
    requires n != 0 && cuts == Limited(Cuts(spans, |s|), n) && Ordered(cuts, 0, |s|)
    ensures |Pieces(s, spans, n)| == |cuts| + 1
    ensures Interleaved(s, Pieces(s, spans, n), cuts, |cuts|) == s
  {
    InterleavedIsAPrefix(s, Pieces(s, spans, n), cuts, |cuts|);
    assert s[..|s|] == s;
  }

  lemma LastPieceIsTheRest(s: Bytes, spans: seq<Span>, n: int, cuts: seq<Span>)
    requires n != 0 && cuts == Limited(Cuts(spans, |s|), n) && Ordered(cuts, 0, |s|)
    ensures |Pieces(s, spans, n)| == |cuts| + 1
    ensures Begin(cuts, |cuts|) <= |s| && Pieces(s, spans, n)[|cuts|] == s[Begin(cuts, |cuts|)..]
  {
    PiecesAreClosed(s, spans, n);
    BeginIsInside(s, cuts);
  }

  lemma BeginIsInside(s: Bytes, cuts: seq<Span>)
    requires Ordered(cuts, 0, |s|)
    ensures Begin(cuts, |cuts|) <= |s| && LastPiece(s, cuts) == s[Begin(cuts, |cuts|)..]
  {
  }

  lemma ClosedPrefix(s: Bytes, cuts: seq<Span>, m: nat)
    requires m <= |cuts|
    ensures Closed(s, cuts[..m]) == Closed(s, cuts)[..m]
  {
    forall k | 0 <= k <= m
      ensures Begin(cuts[..m], k) == Begin(cuts, k)
    {
    }
  }

  lemma SamePieces(s: Bytes, spans: seq<Span>, n: int, cuts: seq<Span>)
    requires n != 0 && cuts == Limited(Cuts(spans, |s|), n)
    ensures Pieces(s, spans, n)[..|cuts|] == Pieces(s, spans, -1)[..|cuts|]
  {
    PiecesAreClosed(s, spans, n);
    PiecesAreClosed(s, spans, -1);
    ClosedPrefix(s, Cuts(spans, |s|), |cuts|);
    assert Cuts(spans, |s|)[..|cuts|] == cuts;
  }
}
