/** Codepoint range tables: coalescing into a canonical form, and the membership test that
    relies on it. */
module Ranges {
  import opened Basics

  datatype Range = Range(lo: int, hi: int)

  /** Does some range of rs contain x? */
  predicate Member(rs: seq<Range>, x: int) {
    exists k :: 0 <= k < |rs| && rs[k].lo <= x <= rs[k].hi
  }

  ghost predicate SameSet(a: seq<Range>, b: seq<Range>) {
    forall x: int :: Member(a, x) <==> Member(b, x)
  }

  predicate NonEmpty(rs: seq<Range>) {
    forall k :: 0 <= k < |rs| ==> rs[k].lo <= rs[k].hi
  }

  /** Sorted, with at least one codepoint missing between neighbours. */
  predicate Canonical(rs: seq<Range>) {
    && NonEmpty(rs)
    && forall j, k {:trigger Apart(rs[j], rs[k])} :: 0 <= j < k < |rs| ==> Apart(rs[j], rs[k])
  }

  predicate Apart(a: Range, b: Range) {
    a.hi + 1 < b.lo
  }

  /** Python's order on pairs. */
  predicate AtMost(a: Range, b: Range) {
    a.lo < b.lo || (a.lo == b.lo && a.hi <= b.hi)
  }

  predicate SortedRanges(rs: seq<Range>) {
    forall j, k {:trigger AtMost(rs[j], rs[k])} :: 0 <= j < k < |rs| ==> AtMost(rs[j], rs[k])
  }

  /** What the merging loop has made of the ranges seen so far. */
  ghost predicate Merged(out: seq<Range>, seen: seq<Range>) {
    && out != [] && Canonical(out)
    && forall x :: Member(out, x) <==> Member(seen, x)
  }

  lemma MemberSnoc(rs: seq<Range>, r: Range, x: int)
    ensures Member(rs + [r], x) <==> Member(rs, x) || r.lo <= x <= r.hi
  {
    var all := rs + [r];
    if Member(rs, x) {
      var k :| 0 <= k < |rs| && rs[k].lo <= x <= rs[k].hi;
      assert all[k] == rs[k];
    }
    if r.lo <= x <= r.hi {
      assert all[|rs|] == r;
    }
  }

  /** One round of the merging loop: the next range starts no earlier than the last one
      kept, and either extends it or opens a new one. */
  lemma MergeStep(out: seq<Range>, seen: seq<Range>, r: Range)
    requires Merged(out, seen) && r.lo <= r.hi && out[|out| - 1].lo <= r.lo
    ensures Merged(Absorbed(out, r), seen + [r])
  {
    forall x
      ensures Member(Absorbed(out, r), x) <==> Member(seen + [r], x)
    {
      AbsorbedMember(out, r, x);
      MemberSnoc(seen, r, x);
    }
    AbsorbedIsCanonical(out, r);
  }

  function Absorbed(out: seq<Range>, r: Range): seq<Range>
    requires out != []
  {
    var last := out[|out| - 1];
    if r.lo <= last.hi + 1 then out[..|out| - 1] + [Range(last.lo, Max(last.hi, r.hi))] else out + [r]
  }

  lemma AbsorbedMember(out: seq<Range>, r: Range, x: int)
    requires out != [] && r.lo <= r.hi && out[|out| - 1].lo <= r.lo
    ensures Member(Absorbed(out, r), x) <==> Member(out, x) || r.lo <= x <= r.hi
  {
    var kept, last := out[..|out| - 1], out[|out| - 1];
    if r.lo <= last.hi + 1 {
      assert out == kept + [last];
      MemberSnoc(kept, last, x);
      MemberSnoc(kept, Range(last.lo, Max(last.hi, r.hi)), x);
    } else {
      MemberSnoc(out, r, x);
    }
  }

  lemma AbsorbedIsCanonical(out: seq<Range>, r: Range)
    requires out != [] && Canonical(out) && r.lo <= r.hi && out[|out| - 1].lo <= r.lo
    ensures Canonical(Absorbed(out, r))
  {
    var n, out' := |out| - 1, Absorbed(out, r);
    forall j, k | 0 <= j < k < |out'|
      ensures Apart(out'[j], out'[k])
    {
      if k <= n {
        assert Apart(out[j], out[k]);
      } else if j < n {
        assert Apart(out[j], out[n]);
      }
    }
  }

  /** coalesce. The library sort enters by its contract: ordered is ranges, sorted. */
  method Coalesce(ranges: seq<Range>, ordered: seq<Range>) returns (merged: seq<Range>)
    requires NonEmpty(ranges)
    requires SortedRanges(ordered) && multiset(ordered) == multiset(ranges)
    ensures Canonical(merged) && SameSet(merged, ranges)
  {
    SameMembers(ordered, ranges);
    if |ranges| == 0 {
      return [];
    }
    assert |ordered| == |multiset(ordered)|;
    merged := [ordered[0]];
    assert NonEmpty(ordered);
    assert ordered[..1] == [ordered[0]];
    ghost var from: nat := 0;
    for i := 1 to |ordered|
      invariant Merged(merged, ordered[..i])
      invariant from < i && ordered[from].lo == merged[|merged| - 1].lo
    {
      var last := merged[|merged| - 1];
      var r := ordered[i];
      assert AtMost(ordered[from], r);
      MergeStep(merged, ordered[..i], r);
      assert ordered[..i + 1] == ordered[..i] + [r];
      if r.lo <= last.hi + 1 {
        merged := merged[..|merged| - 1] + [Range(last.lo, Max(last.hi, r.hi))];
      } else {
        merged := merged + [r];
        from := i;
      }
    }
    assert ordered[..|ordered|] == ordered;
  }

  /** Rearranging a list changes neither its set nor whether its ranges are sound. */
  lemma SameMembers(a: seq<Range>, b: seq<Range>)
    requires multiset(a) == multiset(b)
    ensures SameSet(a, b)
    ensures NonEmpty(b) ==> NonEmpty(a)
  {
    forall x
      ensures Member(a, x) <==> Member(b, x)
    {
      if Member(a, x) {
        var k :| 0 <= k < |a| && a[k].lo <= x <= a[k].hi;
        assert a[k] in multiset(b);
      }
      if Member(b, x) {
        var k :| 0 <= k < |b| && b[k].lo <= x <= b[k].hi;
        assert b[k] in multiset(a);
      }
    }
    if NonEmpty(b) {
      forall k | 0 <= k < |a|
        ensures a[k].lo <= a[k].hi
      {
        assert a[k] in multiset(b);
      }
    }
  }

  // ---- canonical means canonical ----

  lemma CanonicalGap(rs: seq<Range>, k: nat)
    requires Canonical(rs) && k < |rs|
    ensures Member(rs, rs[k].lo) && Member(rs, rs[k].hi)
    ensures !Member(rs, rs[k].lo - 1) && !Member(rs, rs[k].hi + 1)
  {
    forall j | 0 <= j < |rs|
      ensures !(rs[j].lo <= rs[k].hi + 1 <= rs[j].hi) && !(rs[j].lo <= rs[k].lo - 1 <= rs[j].hi)
    {
      assert j < k ==> Apart(rs[j], rs[k]);
      assert k < j ==> Apart(rs[k], rs[j]);
    }
  }

  lemma NothingBelowTheFirst(rs: seq<Range>, x: int)
    requires Canonical(rs) && rs != [] && x < rs[0].lo
    ensures !Member(rs, x)
  {
    assert forall k :: 0 < k < |rs| ==> Apart(rs[0], rs[k]);
  }

  lemma TailMember(rs: seq<Range>, x: int)
    requires Canonical(rs) && rs != []
    ensures Canonical(rs[1..])
    ensures Member(rs[1..], x) <==> Member(rs, x) && x > rs[0].hi
  {
    var rest := rs[1..];
    forall j, k | 0 <= j < k < |rest|
      ensures Apart(rest[j], rest[k])
    {
      assert Apart(rs[j + 1], rs[k + 1]);
    }
    forall k | 0 <= k < |rest|
      ensures Apart(rs[0], rest[k])
    {
      assert rest[k] == rs[k + 1];
    }
    if Member(rest, x) {
      var k :| 0 <= k < |rest| && rest[k].lo <= x <= rest[k].hi;
      assert rs[k + 1] == rest[k];
    }
    if Member(rs, x) && x > rs[0].hi {
      var k :| 0 <= k < |rs| && rs[k].lo <= x <= rs[k].hi;
      assert rest[k - 1] == rs[k];
    }
  }

  lemma FirstRangesAgree(a: seq<Range>, b: seq<Range>)
    requires Canonical(a) && Canonical(b) && SameSet(a, b) && a != [] && b != []
    ensures a[0].lo <= b[0].lo && a[0].hi <= b[0].hi
  {
    CanonicalGap(a, 0);
    CanonicalGap(b, 0);
    if b[0].lo < a[0].lo {
      NothingBelowTheFirst(a, b[0].lo);
    }
  }

  /** Two canonical lists that denote the same set are the same list. */
  lemma {:induction false} CanonicalIsUnique(a: seq<Range>, b: seq<Range>)
    requires Canonical(a) && Canonical(b) && SameSet(a, b)
    ensures a == b
  {
    if a == [] || b == [] {
      if a != [] {
        CanonicalGap(a, 0);
      } else if b != [] {
        CanonicalGap(b, 0);
      }
    } else {
      FirstRangesAgree(a, b);
      FirstRangesAgree(b, a);
      assert a[0] == b[0];
      forall x
        ensures Member(a[1..], x) <==> Member(b[1..], x)
      {
        TailMember(a, x);
        TailMember(b, x);
      }
      TailMember(a, 0);
      TailMember(b, 0);
      CanonicalIsUnique(a[1..], b[1..]);
      assert a == [a[0]] + a[1..] && b == [b[0]] + b[1..];
    }
  }

  /** Which range of rs covers the start of each canonical range. */
  ghost function Cover(c: seq<Range>, rs: seq<Range>, k: nat): (i: nat)
    requires Canonical(c) && SameSet(c, rs) && k < |c|
    ensures i < |rs| && rs[i].lo <= c[k].lo <= rs[i].hi
  {
    CanonicalGap(c, k);
    assert Member(rs, c[k].lo);
    var i :| 0 <= i < |rs| && rs[i].lo <= c[k].lo <= rs[i].hi;
    i
  }

  lemma CoversDiffer(c: seq<Range>, rs: seq<Range>, j: nat, k: nat)
    requires Canonical(c) && SameSet(c, rs) && j < k < |c|
    ensures Cover(c, rs, j) != Cover(c, rs, k)
  {
    CanonicalGap(c, j);
    assert Apart(c[j], c[k]);
    assert !Member(rs, c[j].hi + 1);
    var i := Cover(c, rs, j);
    assert rs[i].lo <= c[j].hi + 1 ==> !(c[j].hi + 1 <= rs[i].hi);
  }

  /** No list denoting the same set is shorter than the canonical one. */
  lemma CanonicalIsShortest(c: seq<Range>, rs: seq<Range>)
    requires Canonical(c) && SameSet(c, rs)
    ensures |c| <= |rs|
  {
    var covers := set k | 0 <= k < |c| :: Cover(c, rs, k);
    DistinctCovers(c, rs, |c|);
    BoundedCount(covers, |rs|);
  }

  lemma {:induction false} DistinctCovers(c: seq<Range>, rs: seq<Range>, n: nat)
    requires Canonical(c) && SameSet(c, rs) && n <= |c|
    ensures |set k | 0 <= k < n :: Cover(c, rs, k)| == n
  {
    if n > 0 {
      DistinctCovers(c, rs, n - 1);
      var before := set k | 0 <= k < n - 1 :: Cover(c, rs, k);
      forall j | 0 <= j < n - 1
        ensures Cover(c, rs, j) != Cover(c, rs, n - 1)
      {
        CoversDiffer(c, rs, j, n - 1);
      }
      assert (set k | 0 <= k < n :: Cover(c, rs, k)) == before + {Cover(c, rs, n - 1)};
    }
  }

  lemma {:induction false} BoundedCount(s: set<nat>, n: nat)
    requires forall x :: x in s ==> x < n
    ensures |s| <= n
  {
    if n > 0 {
      BoundedCount(s - {n - 1}, n - 1);
    } else {
      assert s == {};
    }
  }

  // ---- union ----

  function Concatenated(groups: seq<seq<Range>>): seq<Range> {
    if groups == [] then [] else Concatenated(groups[..|groups| - 1]) + groups[|groups| - 1]
  }

  /** union: the groups one after the other, coalesced. */
  method Union(groups: seq<seq<Range>>, ordered: seq<Range>) returns (merged: seq<Range>)
    requires NonEmpty(Concatenated(groups))
    requires SortedRanges(ordered) && multiset(ordered) == multiset(Concatenated(groups))
    ensures Canonical(merged)
    ensures forall x :: Member(merged, x) <==> exists g :: 0 <= g < |groups| && Member(groups[g], x)
  {
    var out: seq<Range> := [];
    for g := 0 to |groups|
      invariant out == Concatenated(groups[..g])
    {
      assert groups[..g + 1][..g] == groups[..g];
      out := out + groups[g];
    }
    assert groups[..|groups|] == groups;
    merged := Coalesce(out, ordered);
    forall x
      ensures Member(merged, x) <==> exists g :: 0 <= g < |groups| && Member(groups[g], x)
    {
      MemberOfConcatenated(groups, x);
    }
  }

  lemma MemberConcat(a: seq<Range>, b: seq<Range>, x: int)
    ensures Member(a + b, x) <==> Member(a, x) || Member(b, x)
  {
    if Member(a, x) {
      var k :| 0 <= k < |a| && a[k].lo <= x <= a[k].hi;
      assert (a + b)[k] == a[k];
    }
    if Member(b, x) {
      var k :| 0 <= k < |b| && b[k].lo <= x <= b[k].hi;
      assert (a + b)[|a| + k] == b[k];
    }
  }

  lemma {:induction false} MemberOfConcatenated(groups: seq<seq<Range>>, x: int)
    ensures Member(Concatenated(groups), x) <==> exists g :: 0 <= g < |groups| && Member(groups[g], x)
  {
    if groups != [] {
      var n := |groups| - 1;
      MemberOfConcatenated(groups[..n], x);
      MemberConcat(Concatenated(groups[..n]), groups[n], x);
      assert forall g :: 0 <= g < n ==> groups[..n][g] == groups[g];
    }
  }

  /** union takes its groups in any order, any number of times over: two lists of groups
      that cover the same codepoints have the same union. */
  lemma UnionIgnoresOrder(a: seq<seq<Range>>, b: seq<seq<Range>>, ua: seq<Range>, ub: seq<Range>)
    requires Canonical(ua) && forall x :: Member(ua, x) <==> exists g :: 0 <= g < |a| && Member(a[g], x)
    requires Canonical(ub) && forall x :: Member(ub, x) <==> exists g :: 0 <= g < |b| && Member(b[g], x)
    requires forall g :: g in a <==> g in b
    ensures ua == ub
  {
    forall x
      ensures Member(ua, x) <==> Member(ub, x)
    {
      assert (exists g :: 0 <= g < |a| && Member(a[g], x)) <==> (exists r :: r in a && Member(r, x));
      assert (exists g :: 0 <= g < |b| && Member(b[g], x)) <==> (exists r :: r in b && Member(r, x));
    }
    CanonicalIsUnique(ua, ub);
  }

  // ---- the reader ----

  /** inRanges: a binary search, right on every canonical table. */
  method InRanges(rs: seq<Range>, x: int) returns (found: bool)
    requires Canonical(rs)
    ensures found <==> Member(rs, x)
  {
    var lo, hi := 0, |rs|;
    while lo < hi
      invariant 0 <= lo <= hi <= |rs|
      invariant forall k :: 0 <= k < lo ==> rs[k].hi < x
      invariant forall k :: hi <= k < |rs| ==> x < rs[k].lo
      decreases hi - lo
    {
      var mid := lo + (hi - lo) / 2;
      assert forall k :: 0 <= k < mid ==> Apart(rs[k], rs[mid]);
      assert forall k :: mid < k < |rs| ==> Apart(rs[mid], rs[k]);
      if x < rs[mid].lo {
        hi := mid;
      } else if x > rs[mid].hi {
        lo := mid + 1;
      } else {
        return true;
      }
    }
    return false;
  }
}
