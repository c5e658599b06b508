/** Scaled byte densities: the rarity table, and the inversion count that vouches for it. */
module Rarity {
  import opened Basics
  import opened Sums

  const SCALE := 65535

  /** One cell of scaled: count * SCALE / total, rounded half up. */
  function Cell(count: nat, total: nat): int
    requires total > 0
  {
    (count * 2 * SCALE + total) / (2 * total)
  }

  function Scaled(counts: seq<nat>, total: nat): seq<int>
    requires total > 0
  {
    seq(|counts|, b requires 0 <= b < |counts| => Cell(counts[b], total))
  }

  lemma DivideBounds(x: int, y: int)
    requires y > 0
    ensures x / y * y <= x < (x / y + 1) * y
  {
  }

  /** A cell is within a half of the true scaled density: twice the error is at most total. */
  lemma CellError(count: nat, total: nat)
    requires total > 0
    ensures var error := 2 * Cell(count, total) * total - 2 * count * SCALE;
            0 - total < error <= total
  {
    var q := Cell(count, total);
    DivideBounds(count * 2 * SCALE + total, 2 * total);
    assert q * (2 * total) == 2 * q * total;
    assert (q + 1) * (2 * total) == 2 * q * total + 2 * total;
  }

  lemma Monotone(x: int, y: int, k: int)
    requires k > 0
    ensures x * k < y * k <==> x < y
  {
  }

  /** No cell is clamped, because none can exceed the scale. */
  lemma CellFits(count: nat, total: nat)
    requires total > 0 && count <= total
    ensures 0 <= Cell(count, total) <= SCALE
  {
    var q := Cell(count, total);
    CellError(count, total);
    assert q * (2 * total) == 2 * q * total;
    Monotone(q, SCALE + 1, 2 * total);
    Monotone(-1, q, 2 * total);
  }

  /** Cells keep the order of the counts, strictly so once the counts differ by
      total / SCALE. */
  lemma CellOrder(a: nat, b: nat, total: nat)
    requires total > 0 && a <= b
    ensures Cell(a, total) <= Cell(b, total)
    ensures (b - a) * SCALE >= total ==> Cell(a, total) < Cell(b, total)
  {
    var x, y := a * 2 * SCALE + total, b * 2 * SCALE + total;
    DivideBounds(x, 2 * total);
    DivideBounds(y, 2 * total);
    var p, q := Cell(a, total), Cell(b, total);
    Monotone(p, q + 1, 2 * total);
    if (b - a) * SCALE >= total {
      assert y >= x + 2 * total;
      assert (p + 1) * (2 * total) == p * (2 * total) + 2 * total;
      Monotone(p + 1, q + 1, 2 * total);
    }
  }

  function Total(counts: seq<nat>, n: nat): nat
    requires n <= |counts|
  {
    if n == 0 then 0 else Total(counts, n - 1) + counts[n - 1]
  }

  function CellTotal(counts: seq<nat>, total: nat, n: nat): int
    requires total > 0 && n <= |counts|
  {
    if n == 0 then 0 else CellTotal(counts, total, n - 1) + Cell(counts[n - 1], total)
  }

  /** Twice the error, in units of 1 / total, of a cell sum that stands for count. */
  function Error(cells: int, count: int, total: int): int {
    2 * cells * total - 2 * count * SCALE
  }

  lemma ErrorsAdd(s: int, c: int, m: int, k: int, total: int)
    ensures Error(s + c, m + k, total) == Error(s, m, total) + Error(c, k, total)
  {
    assert (s + c) * total == s * total + c * total;
  }

  lemma {:induction false} SumError(counts: seq<nat>, total: nat, n: nat)
    requires total > 0 && n <= |counts|
    ensures -(n * total) <= Error(CellTotal(counts, total, n), Total(counts, n), total) <= n * total
  {
    if n > 0 {
      SumError(counts, total, n - 1);
      CellError(counts[n - 1], total);
      ErrorsAdd(CellTotal(counts, total, n - 1), Cell(counts[n - 1], total), Total(counts, n - 1), counts[n - 1], total);
      assert n * total == (n - 1) * total + total;
    }
  }

  lemma WithinHalfUnits(d: int, k: int)
    requires k > 0 && -(128 * k) <= d * k <= 128 * k
    ensures -128 <= d <= 128
  {
    Monotone(d, 129, k);
    Monotone(-129, d, k);
  }

  lemma Regroup(s: int, total: int)
    ensures 2 * s * total - 2 * total * SCALE == (s - SCALE) * (2 * total)
  {
  }

  /** The 256 cells add up to the scale, give or take 128. */
  lemma CellsAddUp(counts: seq<nat>)
    requires |counts| == 256 && Total(counts, 256) > 0
    ensures SCALE - 128 <= CellTotal(counts, Total(counts, 256), 256) <= SCALE + 128
  {
    var total := Total(counts, 256);
    SumError(counts, total, 256);
    var s := CellTotal(counts, total, 256);
    Regroup(s, total);
    WithinHalfUnits(s - SCALE, 2 * total);
  }

  // ---- the report ----

  /** Is the pair inverted: a rarer cell for the commoner byte? */
  predicate Inverted(table: seq<int>, counts: seq<nat>, a: nat, b: nat)
    requires a < |table| && b < |table| && |counts| == |table|
  {
    table[a] < table[b] && counts[a] > counts[b]
  }

  /** The report's order: all cells, sorted by cell and then by count. */
  predicate ReportOrder(order: seq<nat>, table: seq<int>, counts: seq<nat>)
    requires |counts| == |table|
  {
    && (forall i :: 0 <= i < |order| ==> order[i] < |table|)
    && (forall b :: 0 <= b < |table| ==> b in order)
    && (forall i, j :: 0 <= i < j < |order| ==>
          table[order[i]] < table[order[j]]
          || (table[order[i]] == table[order[j]] && counts[order[i]] <= counts[order[j]]))
  }

  predicate OrderOf(order: seq<nat>, table: seq<int>, counts: seq<nat>) {
    |counts| == |table| && forall i :: 0 <= i < |order| ==> order[i] < |table|
  }

  /** Is the pair at k and k + 1 inverted? */
  predicate InvertedAt(order: seq<nat>, table: seq<int>, counts: seq<nat>, k: nat)
    requires OrderOf(order, table, counts)
  {
    k + 1 < |order| && Inverted(table, counts, order[k], order[k + 1])
  }

  /** The inverted neighbours among the first n. */
  function InvertedUpTo(order: seq<nat>, table: seq<int>, counts: seq<nat>, n: nat): set<nat>
    requires OrderOf(order, table, counts)
  {
    set k | 0 <= k < n && InvertedAt(order, table, counts, k)
  }

  predicate NoPairInverted(table: seq<int>, counts: seq<nat>)
    requires |counts| == |table|
  {
    forall a, b :: 0 <= a < |table| && 0 <= b < |table| ==> !Inverted(table, counts, a, b)
  }

  /** The report counts neighbours only. */
  method Inversions(order: seq<nat>, table: seq<int>, counts: seq<nat>) returns (n: nat)
    requires |counts| == |table| && ReportOrder(order, table, counts)
    ensures n == |InvertedUpTo(order, table, counts, |order|)|
    ensures n == 0 <==> NoPairInverted(table, counts)
  {
    n := 0;
    assert InvertedUpTo(order, table, counts, 0) == {};
    var last := Max(|order| - 1, 0);
    for i := 0 to last
      invariant n == |InvertedUpTo(order, table, counts, i)|
    {
      OneMoreNeighbour(order, table, counts, i);
      if Inverted(table, counts, order[i], order[i + 1]) {
        n := n + 1;
      }
    }
    assert InvertedUpTo(order, table, counts, last) == InvertedUpTo(order, table, counts, |order|);
    ZeroMeansNone(order, table, counts);
  }

  lemma OneMoreNeighbour(order: seq<nat>, table: seq<int>, counts: seq<nat>, i: nat)
    requires OrderOf(order, table, counts)
    ensures |InvertedUpTo(order, table, counts, i + 1)|
         == |InvertedUpTo(order, table, counts, i)| + if InvertedAt(order, table, counts, i) then 1 else 0
  {
    var before, after := InvertedUpTo(order, table, counts, i), InvertedUpTo(order, table, counts, i + 1);
    assert after == if InvertedAt(order, table, counts, i) then before + {i} else before;
    assert i !in before;
  }

  lemma ZeroMeansNone(order: seq<nat>, table: seq<int>, counts: seq<nat>)
    requires |counts| == |table| && ReportOrder(order, table, counts)
    ensures |InvertedUpTo(order, table, counts, |order|)| == 0 <==> NoPairInverted(table, counts)
  {
    var found := InvertedUpTo(order, table, counts, |order|);
    if found == {} {
      forall k | 0 <= k < |order|
        ensures !InvertedAt(order, table, counts, k)
      {
        assert k !in found;
      }
      NeighboursSuffice(order, table, counts);
    } else {
      var k := OneOf(found);
      assert InvertedAt(order, table, counts, k);
    }
  }

  lemma OneOf(found: set<nat>) returns (k: nat)
    requires found != {}
    ensures k in found
  {
    k :| k in found;
  }

  lemma {:induction false} CountsAscend(order: seq<nat>, table: seq<int>, counts: seq<nat>, i: nat, j: nat)
    requires |counts| == |table| && ReportOrder(order, table, counts) && i <= j < |order|
    requires forall k :: 0 <= k < |order| ==> !InvertedAt(order, table, counts, k)
    ensures counts[order[i]] <= counts[order[j]]
    decreases j - i
  {
    if i < j {
      CountsAscend(order, table, counts, i, j - 1);
      assert !InvertedAt(order, table, counts, j - 1);
    }
  }

  /** No inverted neighbours in the sorted order means no inverted pair at all. */
  lemma NeighboursSuffice(order: seq<nat>, table: seq<int>, counts: seq<nat>)
    requires |counts| == |table| && ReportOrder(order, table, counts)
    requires forall k :: 0 <= k < |order| ==> !InvertedAt(order, table, counts, k)
    ensures NoPairInverted(table, counts)
  {
    forall a, b | 0 <= a < |table| && 0 <= b < |table|
      ensures !Inverted(table, counts, a, b)
    {
      assert a in order && b in order;
      var i :| 0 <= i < |order| && order[i] == a;
      var j :| 0 <= j < |order| && order[j] == b;
      if i <= j {
        CountsAscend(order, table, counts, i, j);
      }
    }
  }

  /** The emitted table has no inversions at all, whatever was counted. */
  lemma ScaledNeverInverts(counts: seq<nat>, total: nat, a: nat, b: nat)
    requires total > 0 && a < |counts| && b < |counts|
    ensures !Inverted(Scaled(counts, total), counts, a, b)
  {
    if counts[a] > counts[b] {
      CellOrder(counts[b], counts[a], total);
    }
  }
}
