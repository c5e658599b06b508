/** The Mann-Whitney judge. Floating point is replaced by real arithmetic, and the two
    transcendental functions by parameters known only through their laws. Statistics that
    carry halves are kept doubled, so that they are integers. */
module Dominance {
  import opened Basics
  import opened Sorting
  import opened Sums

  /** A pooled observation: its cost, and whether it came from the first sample. */
  datatype Obs = Obs(value: real, first: bool)

  /** Twice what y contributes to the rank of x: 2 below it, 1 tied with it. */
  function Weight(x: real, y: real): int {
    if y < x then 2 else if y == x then 1 else 0
  }

  function WeightOf(x: real): real -> int {
    y => Weight(x, y)
  }

  /** Twice the number of ys below x, plus the number tied with it. */
  function Score(x: real, ys: seq<real>): int {
    SumBy(WeightOf(x), ys)
  }

  function ScoreOf(ys: seq<real>): real -> int {
    x => Score(x, ys)
  }

  /** Twice the pairwise statistic: over all pairs, 2 where x > y and 1 where x == y. */
  function DoubleU(xs: seq<real>, ys: seq<real>): int {
    SumBy(ScoreOf(ys), xs)
  }

  function Values(pool: seq<Obs>): seq<real> {
    seq(|pool|, k requires 0 <= k < |pool| => pool[k].value)
  }

  function Tagged(xs: seq<real>, first: bool): seq<Obs> {
    seq(|xs|, k requires 0 <= k < |xs| => Obs(xs[k], first))
  }

  /** How many observations share the value x. */
  function TiesOf(x: real): real -> int {
    y => if x == y then 1 else 0
  }

  function Ties(x: real, ys: seq<real>): int {
    SumBy(TiesOf(x), ys)
  }

  function TieTerm(ys: seq<real>): real -> int {
    x => Ties(x, ys) * Ties(x, ys) - 1
  }

  /** The tie correction: each value's group size g contributes g * g - 1 once per member,
      so a group contributes g cubed less g. */
  function TieSum(ys: seq<real>): int {
    SumBy(TieTerm(ys), ys)
  }

  predicate Sorted(xs: seq<real>) {
    forall j, k :: 0 <= j < k < |xs| ==> xs[j] <= xs[k]
  }

  function Itself(): real -> real {
    (x: real) => x
  }

  function Sort(xs: seq<real>): seq<real> {
    SortBy(Itself(), xs)
  }

  lemma SortSorts(xs: seq<real>)
    ensures Sorted(Sort(xs)) && multiset(Sort(xs)) == multiset(xs)
  {
    SortOrders(Itself(), xs);
    SortPermutes(Itself(), xs);
    forall j, k | 0 <= j < k < |Sort(xs)|
      ensures Sort(xs)[j] <= Sort(xs)[k]
    {
      assert Itself()(Sort(xs)[j]) <= Itself()(Sort(xs)[k]);
    }
  }

  lemma LeastFirst(s: seq<real>, t: seq<real>)
    requires Sorted(s) && Sorted(t) && s != [] && multiset(s) == multiset(t)
    ensures t != [] && s[0] <= t[0]
  {
    assert s[0] in multiset(t);
    assert t[0] in multiset(s);
  }

  /** There is only one way to sort a sample. */
  lemma {:induction false} SortedIsUnique(s: seq<real>, t: seq<real>)
    requires Sorted(s) && Sorted(t) && multiset(s) == multiset(t)
    ensures s == t
  {
    if s == [] {
      assert |multiset(t)| == 0;
    } else {
      LeastFirst(s, t);
      LeastFirst(t, s);
      MultisetTail(s);
      MultisetTail(t);
      SortedIsUnique(s[1..], t[1..]);
      assert s == [s[0]] + s[1..] && t == [t[0]] + t[1..];
    }
  }

  // ---- the statistic does not depend on any order ----

  lemma DoubleUPermutes(xs: seq<real>, xs': seq<real>, ys: seq<real>, ys': seq<real>)
    requires multiset(xs) == multiset(xs') && multiset(ys) == multiset(ys')
    ensures DoubleU(xs, ys) == DoubleU(xs', ys')
  {
    forall x | x in xs
      ensures Score(x, ys) == Score(x, ys')
    {
      SumByPermutes(WeightOf(x), ys, ys');
    }
    SumByAgrees(ScoreOf(ys), ScoreOf(ys'), xs);
    SumByPermutes(ScoreOf(ys'), xs, xs');
  }

  lemma TieSumPermutes(ys: seq<real>, ys': seq<real>)
    requires multiset(ys) == multiset(ys')
    ensures TieSum(ys) == TieSum(ys')
  {
    forall x | x in ys
      ensures Ties(x, ys) == Ties(x, ys')
    {
      SumByPermutes(TiesOf(x), ys, ys');
    }
    SumByAgrees(TieTerm(ys), TieTerm(ys'), ys);
    SumByPermutes(TieTerm(ys'), ys, ys');
  }

  lemma {:induction false} DoubleUConcatRight(xs: seq<real>, ys: seq<real>, ys': seq<real>)
    ensures DoubleU(xs, ys + ys') == DoubleU(xs, ys) + DoubleU(xs, ys')
  {
    if xs != [] {
      SumByConcat(WeightOf(xs[0]), ys, ys');
      DoubleUConcatRight(xs[1..], ys, ys');
      assert SumBy(ScoreOf(ys + ys'), xs) == Score(xs[0], ys + ys') + SumBy(ScoreOf(ys + ys'), xs[1..]);
      assert SumBy(ScoreOf(ys), xs) == Score(xs[0], ys) + SumBy(ScoreOf(ys), xs[1..]);
      assert SumBy(ScoreOf(ys'), xs) == Score(xs[0], ys') + SumBy(ScoreOf(ys'), xs[1..]);
    }
  }

  lemma {:induction false} OneAgainstMany(x: real, ys: seq<real>)
    ensures Score(x, ys) + DoubleU(ys, [x]) == 2 * |ys|
  {
    if ys != [] {
      OneAgainstMany(x, ys[1..]);
      assert Score(x, ys) == Weight(x, ys[0]) + Score(x, ys[1..]);
      assert [x][1..] == [];
      assert Score(ys[0], [x]) == Weight(ys[0], x) + SumBy(WeightOf(ys[0]), []);
      assert DoubleU(ys, [x]) == Score(ys[0], [x]) + DoubleU(ys[1..], [x]);
    }
  }

  /** Every pair is won, lost or tied: u1 + u2 == n1 * n2. */
  lemma {:induction false} PairsAddUp(xs: seq<real>, ys: seq<real>)
    ensures DoubleU(xs, ys) + DoubleU(ys, xs) == 2 * |xs| * |ys|
  {
    if xs == [] {
      NothingBeatsNothing(ys);
    } else {
      PairsAddUp(xs[1..], ys);
      OneAgainstMany(xs[0], ys);
      AgainstFirstAndRest(ys, xs);
      OneMorePairs(|xs[1..]|, |ys|);
    }
  }

  lemma AgainstFirstAndRest(ys: seq<real>, xs: seq<real>)
    requires xs != []
    ensures DoubleU(ys, xs) == DoubleU(ys, [xs[0]]) + DoubleU(ys, xs[1..])
    ensures DoubleU(xs, ys) == Score(xs[0], ys) + DoubleU(xs[1..], ys)
  {
    assert xs == [xs[0]] + xs[1..];
    DoubleUConcatRight(ys, [xs[0]], xs[1..]);
  }

  lemma OneMorePairs(n: nat, m: nat)
    ensures 2 * (n + 1) * m == 2 * m + 2 * n * m
  {
  }

  lemma {:induction false} NothingBeatsNothing(ys: seq<real>)
    ensures DoubleU(ys, []) == 0
  {
    if ys != [] {
      NothingBeatsNothing(ys[1..]);
      assert Score(ys[0], []) == 0;
    }
  }

  // ---- the rank loop computes it ----

  /** Twice the rank an observation earns, when it is from the first sample. */
  function RankOf(ys: seq<real>): Obs -> int {
    (o: Obs) => if o.first then Score(o.value, ys) + 1 else 0
  }

  predicate Group(ys: seq<real>, i: nat, j: nat) {
    && i < j <= |ys|
    && (forall k :: 0 <= k < i ==> ys[k] < ys[i])
    && (forall k :: i <= k < j ==> ys[k] == ys[i])
    && (forall k :: j <= k < |ys| ==> ys[i] < ys[k])
  }

  lemma {:induction false} SumOfConstantRun(f: real -> int, ys: seq<real>, lo: nat, hi: nat, c: int)
    requires lo <= hi <= |ys|
    requires forall k :: lo <= k < hi ==> f(ys[k]) == c
    ensures SumBy(f, ys[..hi]) == SumBy(f, ys[..lo]) + (hi - lo) * c
    decreases hi - lo
  {
    if lo < hi {
      SumOfConstantRun(f, ys, lo, hi - 1, c);
      SumByStep(f, ys, hi - 1);
      assert (hi - lo) * c == (hi - 1 - lo) * c + c;
    }
  }

  /** A tie group occupying positions i to j - 1 earns twice the average rank i + 1 + j,
      which is what its score says, and has j - i members. */
  lemma GroupScore(ys: seq<real>, i: nat, j: nat)
    requires Group(ys, i, j)
    ensures Score(ys[i], ys) == i + j
    ensures Ties(ys[i], ys) == j - i
  {
    assert ys[..0] == [] && ys[..|ys|] == ys;
    SumOfConstantRun(WeightOf(ys[i]), ys, 0, i, 2);
    SumOfConstantRun(WeightOf(ys[i]), ys, i, j, 1);
    SumOfConstantRun(WeightOf(ys[i]), ys, j, |ys|, 0);
    SumOfConstantRun(TiesOf(ys[i]), ys, 0, i, 0);
    SumOfConstantRun(TiesOf(ys[i]), ys, i, j, 1);
    SumOfConstantRun(TiesOf(ys[i]), ys, j, |ys|, 0);
  }

  lemma Cubes(g: int)
    ensures g * (g * g - 1) == g * g * g - g
  {
  }

  /** The two nested loops of dominance over the sorted pool. */
  method RankLoop(pool: seq<Obs>) returns (r1: real, tieSum: real)
    requires Sorted(Values(pool))
    ensures 2.0 * r1 == SumBy(RankOf(Values(pool)), pool) as real
    ensures tieSum == TieSum(Values(pool)) as real
  {
    ghost var ys := Values(pool);
    var total := |pool|;
    r1 := 0.0;
    tieSum := 0.0;
    var i := 0;
    assert pool[..0] == [] && ys[..0] == [];
    while i < total
      invariant 0 <= i <= total
      invariant i < total ==> forall k :: 0 <= k < i ==> ys[k] < ys[i]
      invariant 2.0 * r1 == SumBy(RankOf(ys), pool[..i]) as real
      invariant tieSum == SumBy(TieTerm(ys), ys[..i]) as real
    {
      var j := i + 1;
      while j < total && pool[j].value == pool[i].value
        invariant i < j <= total
        invariant forall k :: i <= k < j ==> ys[k] == ys[i]
      {
        j := j + 1;
      }
      assert j < total ==> ys[j] == pool[j].value && ys[i] < ys[j];
      assert Group(ys, i, j);
      GroupScore(ys, i, j);
      var avgRank := (i + 1 + j) as real / 2.0;
      var group := j - i;
      Cubes(group);
      SumOfConstantRun(TieTerm(ys), ys, i, j, group * group - 1);
      tieSum := tieSum + (group * group * group - group) as real;
      r1 := AddRanks(pool, i, j, avgRank, r1, ys);
      i := j;
    }
    assert pool[..total] == pool && ys[..total] == ys;
  }

  /** The last loop of that round: the group's members in the first sample get its rank. */
  method AddRanks(pool: seq<Obs>, i: nat, j: nat, avgRank: real, sum: real, ghost ys: seq<real>) returns (r1: real)
    requires i < j <= |pool| && ys == Values(pool)
    requires forall k :: i <= k < j ==> 2.0 * avgRank == (Score(ys[k], ys) + 1) as real
    requires 2.0 * sum == SumBy(RankOf(ys), pool[..i]) as real
    ensures 2.0 * r1 == SumBy(RankOf(ys), pool[..j]) as real
  {
    r1 := sum;
    for k := i to j
      invariant 2.0 * r1 == SumBy(RankOf(ys), pool[..k]) as real
    {
      SumByStep(RankOf(ys), pool, k);
      assert ys[k] == pool[k].value;
      if pool[k].first {
        r1 := r1 + avgRank;
      }
    }
  }

  lemma {:induction false} SumOverTagged(f: Obs -> int, g: real -> int, xs: seq<real>, first: bool)
    requires forall x :: x in xs ==> f(Obs(x, first)) == g(x)
    ensures SumBy(f, Tagged(xs, first)) == SumBy(g, xs)
  {
    if xs != [] {
      assert Tagged(xs, first)[1..] == Tagged(xs[1..], first);
      SumOverTagged(f, g, xs[1..], first);
    }
  }

  function PlusOne(f: real -> int): real -> int {
    x => f(x) + 1
  }

  lemma {:induction false} SumPlusOne(f: real -> int, xs: seq<real>)
    ensures SumBy(PlusOne(f), xs) == SumBy(f, xs) + |xs|
  {
    if xs != [] {
      SumPlusOne(f, xs[1..]);
    }
  }

  function Never(): real -> int {
    _ => 0
  }

  lemma ValuesPermute(pool: seq<Obs>, a: seq<real>, b: seq<real>)
    requires multiset(pool) == multiset(Tagged(a, true) + Tagged(b, false))
    ensures multiset(Values(pool)) == multiset(a + b)
  {
    ValuesFollowTheMultiset(pool, Tagged(a, true) + Tagged(b, false));
    assert Values(Tagged(a, true) + Tagged(b, false)) == a + b;
  }

  lemma {:induction false} ValuesFollowTheMultiset(s: seq<Obs>, t: seq<Obs>)
    requires multiset(s) == multiset(t)
    ensures multiset(Values(s)) == multiset(Values(t))
  {
    if s == [] {
      assert |multiset(t)| == 0;
    } else {
      var k := HeadElsewhere(s, t);
      ValuesFollowTheMultiset(s[1..], t[..k] + t[k + 1..]);
      assert Values(s) == [s[0].value] + Values(s[1..]);
      ValuesConcat(t[..k], t[k + 1..]);
      ValuesConcat(t[..k] + [t[k]], t[k + 1..]);
      ValuesConcat(t[..k], [t[k]]);
      assert Values([t[k]]) == [s[0].value];
    }
  }

  lemma ValuesConcat(s: seq<Obs>, t: seq<Obs>)
    ensures Values(s + t) == Values(s) + Values(t)
  {
  }

  lemma RanksOfTheFirstSample(ys: seq<real>, pool: seq<Obs>, a: seq<real>, b: seq<real>)
    requires multiset(pool) == multiset(Tagged(a, true) + Tagged(b, false))
    ensures SumBy(RankOf(ys), pool) == DoubleU(a, ys) + |a|
  {
    var f := RankOf(ys);
    SumByPermutes(f, pool, Tagged(a, true) + Tagged(b, false));
    SumByConcat(f, Tagged(a, true), Tagged(b, false));
    SumOverTagged(f, PlusOne(ScoreOf(ys)), a, true);
    SumOverTagged(f, Never(), b, false);
    SumByConstant(Never(), b, 0);
    SumPlusOne(ScoreOf(ys), a);
  }

  /** Tie-averaged ranks compute the pairwise definition: whichever way the pool is
      sorted, twice the rank sum of a, less n1 * (n1 + 1), is twice the number of pairs
      won plus the number tied. */
  lemma RankSumIsPairwise(pool: seq<Obs>, a: seq<real>, b: seq<real>)
    requires multiset(pool) == multiset(Tagged(a, true) + Tagged(b, false))
    ensures SumBy(RankOf(Values(pool)), pool) - |a| * (|a| + 1) == DoubleU(a, b)
    ensures TieSum(Values(pool)) == TieSum(a + b)
  {
    var ys := Values(pool);
    ValuesPermute(pool, a, b);
    TieSumPermutes(ys, a + b);
    RanksOfTheFirstSample(ys, pool, a, b);
    DoubleUPermutes(a, a, ys, a + b);
    DoubleUConcatRight(a, a, b);
    PairsAddUp(a, a);
    assert |a| * (|a| + 1) == |a| * |a| + |a|;
  }

  /** All N ranks add up to N * (N + 1) / 2. */
  lemma AllRanksAddUp(ys: seq<real>)
    ensures SumBy(PlusOne(ScoreOf(ys)), ys) == |ys| * (|ys| + 1)
  {
    SumPlusOne(ScoreOf(ys), ys);
    PairsAddUp(ys, ys);
  }

  // ---- the verdict ----

  /** The normal distribution function and the square root, known by their laws. */
  datatype Maths = Maths(cdf: real -> real, root: real -> real)

  ghost predicate Lawful(m: Maths) {
    && (forall x: real :: m.cdf(-x) == 1.0 - m.cdf(x))
    && (forall x: real, y: real :: x <= y ==> m.cdf(x) <= m.cdf(y))
    && (forall x: real :: x > 0.0 ==> m.root(x) > 0.0)
  }

  datatype Verdict = Win | Parity | Loss

  datatype Judgement = Judgement(verdict: Verdict, speedup: real, p: real, aMedian: real, bMedian: real)

  function Abs(x: real): real {
    if x < 0.0 then -x else x
  }

  /** Type-7 quantile of a sorted sample. */
  function Quantile(xs: seq<real>, p: real): real
    requires 0.0 <= p <= 1.0
  {
    var n := |xs|;
    if n == 0 then 0.0
    else if n == 1 then xs[0]
    else
      var h := Position(p, n - 1);
      var lo := h.Floor;
      var hi := Min(lo + 1, n - 1);
      Interpolated(xs[lo], xs[hi], h - lo as real)
  }

  function Interpolated(x: real, y: real, t: real): real {
    x + t * (y - x)
  }

  function Position(p: real, last: nat): (h: real)
    requires 0.0 <= p <= 1.0
    ensures 0.0 <= h <= last as real
  {
    p * last as real
  }

  function Median(xs: seq<real>): real {
    Quantile(Sort(xs), 0.5)
  }

  /** Whatever sorts the sample, the median is the same. */
  lemma MedianOfSorted(xs: seq<real>, s: seq<real>)
    requires Sorted(s) && multiset(s) == multiset(xs)
    ensures Median(xs) == Quantile(s, 0.5)
  {
    SortSorts(xs);
    SortedIsUnique(Sort(xs), s);
  }

  function Pairs(n1: nat, n2: nat): nat {
    n1 * n2
  }

  function Spread(nn: nat, tieSum: real): real
    requires nn >= 2
  {
    (nn + 1) as real - tieSum / (nn * (nn - 1)) as real
  }

  function Scaled(pairs: nat, spread: real): real {
    (pairs as real / 12.0) * spread
  }

  function Variance(n1: nat, n2: nat, tieSum: real): real
    requires n1 + n2 >= 2
  {
    Scaled(Pairs(n1, n2), Spread(n1 + n2, tieSum))
  }

  /** The continuity correction: half a unit towards zero. */
  function Corrected(diff: real): real {
    if diff > 0.0 then diff - 0.5 else if diff < 0.0 then diff + 0.5 else 0.0
  }

  function Significance(m: Maths, n1: nat, n2: nat, diff: real, tieSum: real): real
    requires Lawful(m) && n1 + n2 >= 2
  {
    var sigma2 := Variance(n1, n2, tieSum);
    var sigma := if sigma2 > 0.0 then m.root(sigma2) else 0.000000001;
    var z := Corrected(diff) / sigma;
    var p := 2.0 * (1.0 - m.cdf(Abs(z)));
    if p < 1.0 then p else 1.0
  }

  /** How far the pairwise statistic lies from its mean: u1 - n1 * n2 / 2. */
  function Shift(a: seq<real>, b: seq<real>): real {
    (DoubleU(a, b) - |a| * |b|) as real / 2.0
  }

  function Rule(p: real, alpha: real, aMedian: real, bMedian: real): Verdict {
    if p < alpha then (if aMedian < bMedian then Win else Loss) else Parity
  }

  /** What the judge says, from the pairwise definition; None where the tie correction
      divides by zero, which is with fewer than two observations in all. */
  function Judged(m: Maths, a: seq<real>, b: seq<real>, alpha: real): (out: Option<Judgement>)
    requires Lawful(m)
    ensures out == None <==> |a| + |b| < 2
  {
    if |a| + |b| < 2 then None
    else
      var p := Significance(m, |a|, |b|, Shift(a, b), TieSum(a + b) as real);
      var aMedian, bMedian := Median(a), Median(b);
      Some(Judgement(Rule(p, alpha, aMedian, bMedian), if aMedian > 0.0 then bMedian / aMedian else 0.0,
                     p, aMedian, bMedian))
  }

  /** dominance. The library sort enters by its contract: aSorted, bSorted and pool are
      sorted rearrangements of a, of b, and of both with their tags. */
  method Judge(m: Maths, a: seq<real>, b: seq<real>, alpha: real,
               aSorted: seq<real>, bSorted: seq<real>, pool: seq<Obs>) returns (out: Option<Judgement>)
    requires Lawful(m)
    requires Sorted(aSorted) && multiset(aSorted) == multiset(a)
    requires Sorted(bSorted) && multiset(bSorted) == multiset(b)
    requires Sorted(Values(pool)) && multiset(pool) == multiset(Tagged(a, true) + Tagged(b, false))
    ensures out == Judged(m, a, b, alpha)
  {
    MedianOfSorted(a, aSorted);
    MedianOfSorted(b, bSorted);
    var aMed := Quantile(aSorted, 0.5);
    var bMed := Quantile(bSorted, 0.5);
    var n1, n2 := |a|, |b|;
    RankSumIsPairwise(pool, a, b);
    var r1, tieSum := RankLoop(pool);
    var u1 := r1 - (n1 * (n1 + 1)) as real / 2.0;
    var mu := (n1 * n2) as real / 2.0;
    var nn := n1 + n2;
    FewObservations(nn);
    if nn * (nn - 1) == 0 {
      return None;
    }
    var sigma2 := Variance(n1, n2, tieSum);
    var sigma := if sigma2 > 0.0 then m.root(sigma2) else 0.000000001;
    var diff := u1 - mu;
    ShiftOfRanks(a, b, r1);
    var cc := Corrected(diff);
    var z := cc / sigma;
    var p := 2.0 * (1.0 - m.cdf(Abs(z)));
    if p > 1.0 {
      p := 1.0;
    }
    assert p == Significance(m, n1, n2, Shift(a, b), TieSum(a + b) as real);
    var verdict := Parity;
    if p < alpha {
      verdict := if aMed < bMed then Win else Loss;
    }
    var speedup := if aMed > 0.0 then bMed / aMed else 0.0;
    return Some(Judgement(verdict, speedup, p, aMed, bMed));
  }

  lemma ShiftOfRanks(a: seq<real>, b: seq<real>, r1: real)
    requires 2.0 * r1 == (DoubleU(a, b) + |a| * (|a| + 1)) as real
    ensures r1 - (|a| * (|a| + 1)) as real / 2.0 - (|a| * |b|) as real / 2.0 == Shift(a, b)
  {
  }

  lemma FewObservations(nn: nat)
    ensures nn * (nn - 1) == 0 <==> nn < 2
  {
    if nn >= 2 {
      Positive(nn, nn - 1);
    }
  }

  lemma Positive(x: int, y: int)
    requires x > 0 && y > 0
    ensures x * y > 0
  {
  }

  // ---- what the verdict can be relied on for ----

  lemma TiesBounds(x: real, ys: seq<real>)
    ensures 0 <= Ties(x, ys) <= |ys|
    ensures Ties(x, ys) == |ys| ==> forall y :: y in ys ==> y == x
    ensures (forall y :: y in ys ==> y == x) ==> Ties(x, ys) == |ys|
  {
    SumByBound(TiesOf(x), ys, 1);
    SumByBound(y => -TiesOf(x)(y), ys, 0);
    SumNegated(TiesOf(x), ys);
    if Ties(x, ys) == |ys| {
      forall y | y in ys
        ensures y == x
      {
        assert TiesOf(x)(y) == 1;
      }
    }
    if forall y :: y in ys ==> y == x {
      SumByConstant(TiesOf(x), ys, 1);
    }
  }

  lemma {:induction false} SumNegated(f: real -> int, ys: seq<real>)
    ensures SumBy(y => -f(y), ys) == -SumBy(f, ys)
  {
    if ys != [] {
      SumNegated(f, ys[1..]);
    }
  }

  lemma SquaresAreMonotone(c: int, n: int)
    requires 0 <= c <= n
    ensures c * c <= n * n
    ensures c * c == n * n ==> c == n
  {
    if c < n {
      assert c * c <= c * n <= n * n;
      Positive(n, n - c);
      assert n * n - n * c == n * (n - c);
    }
  }

  predicate AllTied(ys: seq<real>) {
    forall x, y :: x in ys && y in ys ==> x == y
  }

  /** The tie correction of n observations that are all tied: n cubed less n. */
  function Ceiling(n: int): int {
    n * (n * n - 1)
  }

  /** The tie correction never exceeds its ceiling, and reaches it only over one value. */
  lemma TieSumCeiling(ys: seq<real>)
    ensures TieSum(ys) <= Ceiling(|ys|)
    ensures TieSum(ys) == Ceiling(|ys|) <==> AllTied(ys)
  {
    var n := |ys|;
    forall x | x in ys
      ensures TieTerm(ys)(x) <= n * n - 1
    {
      TiesBounds(x, ys);
      SquaresAreMonotone(Ties(x, ys), n);
    }
    SumByBound(TieTerm(ys), ys, n * n - 1);
    if TieSum(ys) == Ceiling(n) {
      forall x, y | x in ys && y in ys
        ensures x == y
      {
        assert TieTerm(ys)(x) == n * n - 1;
        TiesBounds(x, ys);
        SquaresAreMonotone(Ties(x, ys), n);
      }
    }
    if AllTied(ys) {
      forall x | x in ys
        ensures TieTerm(ys)(x) == n * n - 1
      {
        TiesBounds(x, ys);
      }
      SumByConstant(TieTerm(ys), ys, n * n - 1);
    }
  }

  lemma SignOfMultiple(x: real, nn: real)
    requires nn > 0.0
    ensures (x >= 0.0 <==> x * nn >= 0.0) && (x == 0.0 <==> x * nn == 0.0)
  {
  }

  lemma OverCommon(k: real, ties: real, nn: real)
    requires nn > 0.0
    ensures (k - ties / nn) * nn == k * nn - ties
  {
    assert ties / nn * nn == ties;
  }

  lemma SpreadSign(n: nat, ties: int)
    requires n >= 2 && ties <= Ceiling(n)
    ensures Spread(n, ties as real) >= 0.0
    ensures Spread(n, ties as real) == 0.0 <==> ties == Ceiling(n)
  {
    Positive(n, n - 1);
    var nn := n * (n - 1);
    assert Ceiling(n) == (n + 1) * nn;
    assert ((n + 1) * nn) as real == (n + 1) as real * nn as real;
    OverCommon((n + 1) as real, ties as real, nn as real);
    SignOfMultiple(Spread(n, ties as real), nn as real);
  }

  lemma ScaledSign(pairs: nat, spread: real)
    requires spread >= 0.0
    ensures Scaled(pairs, spread) >= 0.0
    ensures Scaled(pairs, spread) == 0.0 <==> pairs == 0 || spread == 0.0
  {
    Product(pairs as real / 12.0, spread);
  }

  lemma VarianceSign(n1: nat, n2: nat, ties: int)
    requires n1 + n2 >= 2 && ties <= Ceiling(n1 + n2)
    ensures Variance(n1, n2, ties as real) >= 0.0
    ensures Variance(n1, n2, ties as real) == 0.0 <==> n1 == 0 || n2 == 0 || ties == Ceiling(n1 + n2)
  {
    SpreadSign(n1 + n2, ties);
    PairsAreCounted(n1, n2);
    ScaledSign(Pairs(n1, n2), Spread(n1 + n2, ties as real));
  }

  /** The variance is never negative, and is zero exactly when a sample is empty or every
      observation has the same value. */
  lemma VarianceIsSound(a: seq<real>, b: seq<real>)
    requires |a| + |b| >= 2
    ensures Variance(|a|, |b|, TieSum(a + b) as real) >= 0.0
    ensures Variance(|a|, |b|, TieSum(a + b) as real) == 0.0 <==> a == [] || b == [] || AllTied(a + b)
  {
    TieSumCeiling(a + b);
    VarianceSign(|a|, |b|, TieSum(a + b));
  }

  lemma PairsAreCounted(x: nat, y: nat)
    ensures Pairs(x, y) == 0 <==> x == 0 || y == 0
  {
    if x > 0 && y > 0 {
      Positive(x, y);
    }
  }

  lemma Product(x: real, y: real)
    requires x >= 0.0 && y >= 0.0
    ensures x * y >= 0.0 && (x * y == 0.0 <==> x == 0.0 || y == 0.0)
  {
  }

  /** The continuity correction shrinks a shift without turning it round: twice a shift is
      an integer, so one that is not zero is at least a half. */
  lemma CorrectionKeepsTheSign(a: seq<real>, b: seq<real>)
    ensures var diff := Shift(a, b);
            && (diff > 0.0 ==> 0.0 <= Corrected(diff) < diff)
            && (diff < 0.0 ==> diff < Corrected(diff) <= 0.0)
            && (diff == 0.0 ==> Corrected(diff) == 0.0)
  {
    var twice := DoubleU(a, b) - |a| * |b|;
    assert twice > 0 ==> twice as real >= 1.0;
    assert twice < 0 ==> twice as real <= -1.0;
  }

  /** Exchanging the samples negates the shift and keeps the tie correction. */
  lemma ExchangedSamples(a: seq<real>, b: seq<real>)
    ensures Shift(b, a) == -Shift(a, b)
    ensures TieSum(b + a) == TieSum(a + b)
  {
    PairsAddUp(a, b);
    TieSumPermutes(b + a, a + b);
    assert |b| * |a| == |a| * |b|;
  }

  /** The significance depends on the size of the shift only. */
  lemma SignificanceIsEven(m: Maths, n1: nat, n2: nat, diff: real, tieSum: real)
    requires Lawful(m) && n1 + n2 >= 2
    ensures Significance(m, n1, n2, -diff, tieSum) == Significance(m, n2, n1, diff, tieSum)
  {
    assert n1 * n2 == n2 * n1;
    assert Variance(n1, n2, tieSum) == Variance(n2, n1, tieSum);
    var sigma2 := Variance(n1, n2, tieSum);
    var sigma := if sigma2 > 0.0 then m.root(sigma2) else 0.000000001;
    NegatedQuotient(Corrected(diff), sigma);
  }

  lemma NegatedQuotient(x: real, y: real)
    requires y > 0.0
    ensures Abs(-x / y) == Abs(x / y)
  {
    assert -x / y == -(x / y);
  }

  /** The verdict is the same question asked from either side: equal p, a win read from
      the other side is a loss, and a loss is a win exactly when the medians differ. */
  lemma VerdictFromTheOtherSide(m: Maths, a: seq<real>, b: seq<real>, alpha: real)
    requires Lawful(m) && |a| + |b| >= 2
    ensures var here, there := Judged(m, a, b, alpha).value, Judged(m, b, a, alpha).value;
            && here.p == there.p
            && (here.verdict == Win ==> there.verdict == Loss)
            && (here.verdict == Loss ==> (there.verdict == Win <==> Median(a) != Median(b)))
            && (here.verdict == Parity <==> there.verdict == Parity)
  {
    ExchangedSamples(a, b);
    SignificanceIsEven(m, |b|, |a|, Shift(a, b), TieSum(a + b) as real);
  }

  lemma NoShiftNoSignificance(m: Maths, n1: nat, n2: nat, tieSum: real)
    requires Lawful(m) && n1 + n2 >= 2
    ensures Significance(m, n1, n2, 0.0, tieSum) == 1.0
  {
    assert m.cdf(-0.0) == 1.0 - m.cdf(0.0);
  }

  /** Where the variance vanishes there is no shift either, so the judge fails closed:
      identical observations, or an empty sample, are parity at every level up to 1. */
  lemma NothingToTellApartIsParity(m: Maths, a: seq<real>, b: seq<real>, alpha: real)
    requires Lawful(m) && |a| + |b| >= 2 && alpha <= 1.0
    requires a == [] || b == [] || AllTied(a + b)
    ensures Judged(m, a, b, alpha).value.verdict == Parity
    ensures Judged(m, a, b, alpha).value.p == 1.0
  {
    if b == [] {
      NothingBeatsNothing(a);
    } else if a != [] {
      forall x | x in a
        ensures ScoreOf(b)(x) == |b|
      {
        forall y | y in b
          ensures WeightOf(x)(y) == 1
        {
          assert x in a + b && y in a + b;
        }
        SumByConstant(WeightOf(x), b, 1);
      }
      SumByConstant(ScoreOf(b), a, |b|);
    }
    NoShiftNoSignificance(m, |a|, |b|, TieSum(a + b) as real);
  }

  lemma SortIgnoresOrder(a: seq<real>, a': seq<real>)
    requires multiset(a) == multiset(a')
    ensures Sort(a) == Sort(a')
  {
    SortSorts(a);
    SortSorts(a');
    SortedIsUnique(Sort(a), Sort(a'));
  }

  /** Neither the order of the samples nor how the sort arranges ties can change the
      judgement. */
  lemma VerdictIgnoresOrder(m: Maths, a: seq<real>, a': seq<real>, b: seq<real>, b': seq<real>, alpha: real)
    requires Lawful(m) && multiset(a) == multiset(a') && multiset(b) == multiset(b')
    ensures Judged(m, a, b, alpha) == Judged(m, a', b', alpha)
  {
    assert |a| == |multiset(a)| == |a'| && |b| == |multiset(b)| == |b'|;
    DoubleUPermutes(a, a', b, b');
    TieSumPermutes(a + b, a' + b');
    SortIgnoresOrder(a, a');
    SortIgnoresOrder(b, b');
  }

  /** A quantile lies between the two order statistics around it, so in the sample's range. */
  lemma QuantileInRange(xs: seq<real>, p: real)
    requires Sorted(xs) && xs != [] && 0.0 <= p <= 1.0
    ensures var lo := Position(p, |xs| - 1).Floor;
            var hi := Min(lo + 1, |xs| - 1);
            0 <= lo <= hi < |xs| && xs[lo] <= Quantile(xs, p) <= xs[hi]
    ensures xs[0] <= Quantile(xs, p) <= xs[|xs| - 1]
  {
    var n := |xs|;
    var h := Position(p, n - 1);
    var lo := h.Floor;
    var hi := Min(lo + 1, n - 1);
    assert 0 <= lo <= hi < n;
    assert xs[0] <= xs[lo] <= xs[hi] <= xs[n - 1];
    if n > 1 {
      assert 0.0 <= h - lo as real <= 1.0;
      Between(xs[lo], xs[hi], h - lo as real);
    }
  }

  lemma Between(x: real, y: real, t: real)
    requires x <= y && 0.0 <= t <= 1.0
    ensures x <= Interpolated(x, y, t) <= y
  {
    var gap := y - x;
    Product(t, gap);
    Product(1.0 - t, gap);
    assert (1.0 - t) * gap == gap - t * gap;
  }

  /** Between positions k and k + 1 a quantile is their weighted mean: at k + t, which is p of
      the way to the last position, k weighs 1 - t and k + 1 weighs t. */
  lemma QuantileIsAMean(xs: seq<real>, p: real, k: nat, t: real)
    requires k < |xs| && 0.0 <= p <= 1.0 && 0.0 <= t < 1.0
    requires p * (|xs| - 1) as real == k as real + t
    ensures k + 1 < |xs| ==> Quantile(xs, p) == (1.0 - t) * xs[k] + t * xs[k + 1]
    ensures k + 1 == |xs| ==> Quantile(xs, p) == xs[k]
  {
    var h := Position(p, |xs| - 1);
    assert h.Floor == k && h - k as real == t;
    if k + 1 < |xs| {
      MeanOfTwo(xs[k], xs[k + 1], t);
    }
  }

  lemma MeanOfTwo(x: real, y: real, t: real)
    ensures Interpolated(x, y, t) == (1.0 - t) * x + t * y
  {
  }

  /** The median of an even sample is the mean of the two in the middle. */
  lemma MiddleOfEven(s: seq<real>, half: nat)
    requires half > 0 && |s| == 2 * half
    ensures Quantile(s, 0.5) == (s[half - 1] + s[half]) / 2.0
  {
    assert 0.5 * (|s| - 1) as real == (half - 1) as real + 0.5;
    QuantileIsAMean(s, 0.5, half - 1, 0.5);
  }

  /** The median of an odd one is the one in the middle. */
  lemma MiddleOfOdd(s: seq<real>, half: nat)
    requires |s| == 2 * half + 1
    ensures Quantile(s, 0.5) == s[half]
  {
    assert 0.5 * (|s| - 1) as real == half as real + 0.0;
    QuantileIsAMean(s, 0.5, half, 0.0);
  }

  /** The variance, cleared of fractions: 12 N (N - 1) of it are n1 n2 times N cubed, less N
      and less the tie correction. */
  lemma VarianceFormula(n1: nat, n2: nat, tieSum: real)
    requires n1 + n2 >= 2
    ensures var n := n1 + n2;
            12.0 * (n * (n - 1)) as real * Variance(n1, n2, tieSum)
            == (n1 * n2) as real * ((n * n * n - n) as real - tieSum)
  {
    var n := n1 + n2;
    SpreadFormula(n, tieSum);
    ScaledFormula(Pairs(n1, n2), Spread(n, tieSum), (n * (n - 1)) as real, (n * n * n - n) as real - tieSum);
  }

  lemma SpreadFormula(n: nat, tieSum: real)
    requires n >= 2
    ensures Spread(n, tieSum) * (n * (n - 1)) as real == (n * n * n - n) as real - tieSum
  {
    var nn := n * (n - 1);
    Positive(n, n - 1);
    OverCommon((n + 1) as real, tieSum, nn as real);
    CubeLessItself(n);
    ProductOfReals(n + 1, nn);
  }

  lemma CubeLessItself(n: nat)
    ensures (n + 1) * (n * (n - 1)) == n * n * n - n
  {
  }

  lemma ProductOfReals(x: int, y: int)
    ensures x as real * y as real == (x * y) as real
  {
  }

  lemma ScaledFormula(pairs: nat, spread: real, nn: real, x: real)
    requires spread * nn == x
    ensures 12.0 * nn * Scaled(pairs, spread) == pairs as real * x
  {
    Regroup(pairs as real, spread, nn);
  }

  lemma Regroup(pairs: real, spread: real, nn: real)
    ensures 12.0 * nn * ((pairs / 12.0) * spread) == pairs * (spread * nn)
  {
  }

  /** Half the whole number 2 u1 - n1 n2 lies between the shift and zero, and one half less
      is left of it by the correction. */
  lemma CorrectionIsHalf(a: seq<real>, b: seq<real>)
    ensures var twice := DoubleU(a, b) - |a| * |b|;
            2.0 * Abs(Corrected(Shift(a, b))) == Max(Size(twice) - 1, 0) as real
  {
  }

  function Size(x: int): int {
    if x < 0 then -x else x
  }

  /** The judgement by hand. v is the variance, as a solution of its equation, and z the
      corrected shift in standard deviations; p is then what lies beyond z on both sides,
      and 1 at most. p below the level decides, for the lower median; the speedup says how
      many times the first median goes into the second. */
  lemma JudgedByHand(m: Maths, a: seq<real>, b: seq<real>, alpha: real, v: real, z: real)
    requires Lawful(m) && |a| + |b| >= 2 && v > 0.0
    requires var n := |a| + |b|;
             12.0 * (n * (n - 1)) as real * v == (|a| * |b|) as real * ((n * n * n - n) - TieSum(a + b)) as real
    requires z * m.root(v) * 2.0 == Max(Size(DoubleU(a, b) - |a| * |b|) - 1, 0) as real
    ensures var j := Judged(m, a, b, alpha).value;
            var p := 2.0 * (1.0 - m.cdf(z));
            && j.p == (if p > 1.0 then 1.0 else p)
            && (j.verdict == Win <==> j.p < alpha && j.aMedian < j.bMedian)
            && (j.verdict == Loss <==> j.p < alpha && j.aMedian >= j.bMedian)
            && j.aMedian == Median(a) && j.bMedian == Median(b)
            && (j.aMedian > 0.0 ==> j.speedup * j.aMedian == j.bMedian)
            && (j.aMedian <= 0.0 ==> j.speedup == 0.0)
  {
    VarianceSolves(|a|, |b|, TieSum(a + b), v);
    SignificanceByHand(m, a, b, v, z);
    if Median(a) > 0.0 {
      SameMultiple(Median(b), Median(a));
    }
  }

  lemma VarianceSolves(n1: nat, n2: nat, ties: int, v: real)
    requires n1 + n2 >= 2
    requires var n := n1 + n2;
             12.0 * (n * (n - 1)) as real * v == (n1 * n2) as real * ((n * n * n - n) - ties) as real
    ensures v == Variance(n1, n2, ties as real)
  {
    var n := n1 + n2;
    Positive(n, n - 1);
    VarianceFormula(n1, n2, ties as real);
    Cancelled(12.0 * (n * (n - 1)) as real, v, Variance(n1, n2, ties as real));
  }

  lemma SignificanceByHand(m: Maths, a: seq<real>, b: seq<real>, v: real, z: real)
    requires Lawful(m) && |a| + |b| >= 2 && v > 0.0 && v == Variance(|a|, |b|, TieSum(a + b) as real)
    requires z * m.root(v) * 2.0 == Max(Size(DoubleU(a, b) - |a| * |b|) - 1, 0) as real
    ensures var p := 2.0 * (1.0 - m.cdf(z));
            Significance(m, |a|, |b|, Shift(a, b), TieSum(a + b) as real) == if p > 1.0 then 1.0 else p
  {
    CorrectionIsHalf(a, b);
    AbsOfQuotient(Corrected(Shift(a, b)), m.root(v));
    SameQuotient(Abs(Corrected(Shift(a, b))), m.root(v), z);
  }

  lemma Cancelled(k: real, x: real, y: real)
    requires k > 0.0 && k * x == k * y
    ensures x == y
  {
  }

  lemma SameQuotient(x: real, y: real, z: real)
    requires y > 0.0 && z * y == x
    ensures x / y == z
  {
  }

  lemma SameMultiple(x: real, y: real)
    requires y > 0.0
    ensures x / y * y == x
  {
  }

  /** A sample entirely below the other is never judged a loss, nor its rival a win. */
  lemma SeparatedIsNeverALoss(m: Maths, a: seq<real>, b: seq<real>, alpha: real)
    requires Lawful(m) && a != [] && b != []
    requires forall x, y :: x in a && y in b ==> x < y
    ensures Judged(m, a, b, alpha).value.verdict != Loss
    ensures Judged(m, b, a, alpha).value.verdict != Win
  {
    var _, top := MedianIsBetweenMembers(a);
    var bottom, _ := MedianIsBetweenMembers(b);
    assert top < bottom;
  }

  lemma MedianIsBetweenMembers(xs: seq<real>) returns (low: real, high: real)
    requires xs != []
    ensures low in xs && high in xs && low <= Median(xs) <= high
  {
    SortSorts(xs);
    var s := Sort(xs);
    assert |s| == |multiset(xs)|;
    low, high := s[0], s[|s| - 1];
    assert low in multiset(s) && high in multiset(s);
    QuantileInRange(s, 0.5);
  }

  // ---- where the verdict and the ranks part ----

  lemma SignificantIsShifted(m: Maths, a: seq<real>, b: seq<real>, alpha: real)
    requires Lawful(m) && |a| + |b| >= 2 && alpha <= 1.0
    requires Judged(m, a, b, alpha).value.verdict != Parity
    ensures Shift(a, b) != 0.0
  {
    NoShiftNoSignificance(m, |a|, |b|, TieSum(a + b) as real);
  }

  /** The significance comes from the ranks, which favour a where the shift is negative,
      and the direction from the medians. A verdict goes the way of the ranks exactly when
      a is the lower by median where it is the lower by rank, and only there. */
  lemma VerdictFollowsRanksIff(m: Maths, a: seq<real>, b: seq<real>, alpha: real)
    requires Lawful(m) && |a| + |b| >= 2 && alpha <= 1.0
    ensures var verdict := Judged(m, a, b, alpha).value.verdict;
            verdict != Parity ==>
              (((verdict == Win && Shift(a, b) < 0.0) || (verdict == Loss && Shift(a, b) > 0.0))
               <==> (Shift(a, b) < 0.0 <==> Median(a) < Median(b)))
  {
    if Judged(m, a, b, alpha).value.verdict != Parity {
      SignificantIsShifted(m, a, b, alpha);
    }
  }

  /** Two more laws of the normal distribution and the square root: 2 standard deviations
      either way hold more than 95 in 100, and a root squares to its number. */
  ghost predicate Normal(m: Maths) {
    && Lawful(m) && m.cdf(2.0) > 0.975
    && (forall x: real :: x > 0.0 ==> m.root(x) * m.root(x) == x)
  }

  lemma SmallerSquare(x: real, y: real)
    requires x >= 0.0 && y >= 0.0 && x * x <= y * y
    ensures x <= y
  {
    if x + y > 0.0 {
      assert (y - x) * (x + y) == y * y - x * x;
      SignOfMultiple(y - x, x + y);
    }
  }

  lemma QuotientAtLeast(x: real, y: real, k: real)
    requires y > 0.0 && x >= k * y
    ensures x / y >= k
  {
    assert x / y * y == x;
  }

  lemma QuotientSign(x: real, y: real)
    requires x >= 0.0 && y > 0.0
    ensures x / y >= 0.0
  {
    QuotientAtLeast(x, y, 0.0);
  }

  lemma AbsOfQuotient(x: real, y: real)
    requires y > 0.0
    ensures Abs(x / y) == Abs(x) / y
  {
    if x < 0.0 {
      QuotientSign(-x, y);
      assert x / y == -(-x / y);
    } else {
      QuotientSign(x, y);
    }
  }

  /** Ties only make the variance smaller. */
  lemma VarianceWithoutTies(n1: nat, n2: nat, tieSum: real)
    requires n1 + n2 >= 2 && tieSum >= 0.0
    ensures Variance(n1, n2, tieSum) <= Variance(n1, n2, 0.0)
  {
    Positive(n1 + n2, n1 + n2 - 1);
    QuotientSign(tieSum, ((n1 + n2) * (n1 + n2 - 1)) as real);
    ScaledKeepsOrder(Pairs(n1, n2), Spread(n1 + n2, tieSum), Spread(n1 + n2, 0.0));
  }

  lemma ScaledKeepsOrder(pairs: nat, x: real, y: real)
    requires x <= y
    ensures Scaled(pairs, x) <= Scaled(pairs, y)
  {
    Product(pairs as real / 12.0, y - x);
    assert (pairs as real / 12.0) * (y - x) == Scaled(pairs, y) - Scaled(pairs, x);
  }

  /** A shift of twice a bound on the standard deviation is significant. */
  lemma SignificantShift(m: Maths, n1: nat, n2: nat, diff: real, tieSum: real, sigma: real)
    requires Normal(m) && n1 + n2 >= 2 && tieSum >= 0.0
    requires sigma > 0.000000001 && Variance(n1, n2, 0.0) <= sigma * sigma
    requires Abs(Corrected(diff)) >= 2.0 * sigma
    ensures Significance(m, n1, n2, diff, tieSum) < 0.05
  {
    VarianceWithoutTies(n1, n2, tieSum);
    var root := RootWithin(m, Variance(n1, n2, tieSum), sigma);
    FarOut(m, Corrected(diff), root, sigma);
  }

  lemma RootWithin(m: Maths, sigma2: real, sigma: real) returns (root: real)
    requires Normal(m) && sigma > 0.000000001 && sigma2 <= sigma * sigma
    ensures root == (if sigma2 > 0.0 then m.root(sigma2) else 0.000000001) && 0.0 < root <= sigma
  {
    root := if sigma2 > 0.0 then m.root(sigma2) else 0.000000001;
    if sigma2 > 0.0 {
      SmallerSquare(root, sigma);
    }
  }

  lemma FarOut(m: Maths, x: real, root: real, sigma: real)
    requires Normal(m) && 0.0 < root <= sigma && Abs(x) >= 2.0 * sigma
    ensures 2.0 * (1.0 - m.cdf(Abs(x / root))) < 0.05
  {
    AbsOfQuotient(x, root);
    QuotientAtLeast(Abs(x), root, 2.0);
  }

  /** n times the same observation. */
  function Copies(x: real, n: nat): seq<real> {
    seq(n, _ => x)
  }

  lemma SumOverTwo(f: real -> int, x: real, m: nat, y: real, n: nat)
    ensures SumBy(f, Copies(x, m) + Copies(y, n)) == m * f(x) + n * f(y)
  {
    SumByConcat(f, Copies(x, m), Copies(y, n));
    SumByConstant(f, Copies(x, m), f(x));
    SumByConstant(f, Copies(y, n), f(y));
  }

  lemma MedianOfTwo(x: real, m: nat, y: real, n: nat)
    requires x <= y && (m + n) % 2 == 1
    ensures Median(Copies(x, m) + Copies(y, n)) == if m > n then x else y
  {
    var s := Copies(x, m) + Copies(y, n);
    TwoAreSorted(x, m, y, n);
    MedianOfSorted(s, s);
    MiddleOfOdd(s, (m + n) / 2);
  }

  lemma TwoAreSorted(x: real, m: nat, y: real, n: nat)
    requires x <= y
    ensures Sorted(Copies(x, m) + Copies(y, n))
  {
  }

  lemma {:induction false} TiesWithItself(x: real, ys: seq<real>)
    requires x in ys
    ensures Ties(x, ys) >= 1
  {
    TiesBounds(x, ys[1..]);
    if ys[0] != x {
      TiesWithItself(x, ys[1..]);
    }
  }

  lemma TieSumIsNatural(ys: seq<real>)
    ensures TieSum(ys) >= 0
  {
    forall x | x in ys
      ensures TieTerm(ys)(x) >= 0
    {
      TiesWithItself(x, ys);
      Positive(Ties(x, ys), Ties(x, ys));
    }
    SumByNatural(TieTerm(ys), ys);
  }

  /** With equal medians, ranks that differ significantly are a loss from both sides. */
  lemma EqualMediansLose(m: Maths, a: seq<real>, b: seq<real>, alpha: real)
    requires Lawful(m) && |a| + |b| >= 2 && Median(a) == Median(b)
    requires Significance(m, |a|, |b|, Shift(a, b), TieSum(a + b) as real) < alpha
    ensures Judged(m, a, b, alpha).value.verdict == Loss && Judged(m, b, a, alpha).value.verdict == Loss
  {
    VerdictFromTheOtherSide(m, a, b, alpha);
  }

  lemma LowAgainstHigh()
    ensures DoubleU(Copies(0.0, 10) + Copies(5.0, 11), Copies(5.0, 11) + Copies(9.0, 10)) == 121
  {
    var b := Copies(5.0, 11) + Copies(9.0, 10);
    SumOverTwo(ScoreOf(b), 0.0, 10, 5.0, 11);
    SumOverTwo(WeightOf(0.0), 5.0, 11, 9.0, 10);
    SumOverTwo(WeightOf(5.0), 5.0, 11, 9.0, 10);
  }

  /** And that occurs: ten 0s and eleven 5s against eleven 5s and ten 9s. */
  lemma LossFromBothSides(m: Maths) returns (a: seq<real>, b: seq<real>)
    requires Normal(m)
    ensures |a| + |b| >= 2 && Median(a) == Median(b)
    ensures Judged(m, a, b, 0.05).value.verdict == Loss && Judged(m, b, a, 0.05).value.verdict == Loss
  {
    a, b := Copies(0.0, 10) + Copies(5.0, 11), Copies(5.0, 11) + Copies(9.0, 10);
    MedianOfTwo(0.0, 10, 5.0, 11);
    MedianOfTwo(5.0, 11, 9.0, 10);
    LowAgainstHigh();
    TieSumIsNatural(a + b);
    SignificantShift(m, 21, 21, -160.0, TieSum(a + b) as real, 40.0);
    EqualMediansLose(m, a, b, 0.05);
  }

  lemma MixedAgainstSplit()
    ensures DoubleU(Copies(4.0, 21) + Copies(9.0, 14), Copies(1.0, 14) + Copies(5.0, 21)) == 1568
  {
    var b := Copies(1.0, 14) + Copies(5.0, 21);
    SumOverTwo(ScoreOf(b), 4.0, 21, 9.0, 14);
    SumOverTwo(WeightOf(4.0), 1.0, 14, 5.0, 21);
    SumOverTwo(WeightOf(9.0), 1.0, 14, 5.0, 21);
  }

  /** A win for the sample that ranks higher, having the lower median and the greater ranks:
      21 fours and 14 nines against 14 ones and 21 fives. */
  lemma WinAgainstTheRanks(m: Maths) returns (a: seq<real>, b: seq<real>)
    requires Normal(m)
    ensures |a| + |b| >= 2 && Shift(a, b) > 0.0
    ensures Judged(m, a, b, 0.05).value.verdict == Win
  {
    a, b := Copies(4.0, 21) + Copies(9.0, 14), Copies(1.0, 14) + Copies(5.0, 21);
    MedianOfTwo(4.0, 21, 9.0, 14);
    MedianOfTwo(1.0, 14, 5.0, 21);
    MixedAgainstSplit();
    TieSumIsNatural(a + b);
    SignificantShift(m, 35, 35, 171.5, TieSum(a + b) as real, 85.5);
  }
}
