/** Sums over sequences, and the fact that they do not depend on the order. */
module Sums {

  function SumBy<T>(f: T -> int, s: seq<T>): int {
    if s == [] then 0 else f(s[0]) + SumBy(f, s[1..])
  }

  lemma {:induction false} SumByConcat<T>(f: T -> int, a: seq<T>, b: seq<T>)
    ensures SumBy(f, a + b) == SumBy(f, a) + SumBy(f, b)
  {
    if a == [] {
      assert a + b == b;
    } else {
      assert (a + b)[1..] == a[1..] + b;
      SumByConcat(f, a[1..], b);
    }
  }

  lemma SumByStep<T>(f: T -> int, s: seq<T>, k: nat)
    requires k < |s|
    ensures SumBy(f, s[..k + 1]) == SumBy(f, s[..k]) + f(s[k])
  {
    assert s[..k + 1] == s[..k] + [s[k]];
    SumByConcat(f, s[..k], [s[k]]);
    assert SumBy(f, [s[k]]) == f(s[k]) + SumBy(f, []);
  }

  /** Two rearrangements of one another, the first not empty: its head occurs in the
      second, and without it they still are. */
  lemma HeadElsewhere<T>(s: seq<T>, t: seq<T>) returns (k: nat)
    requires s != [] && multiset(s) == multiset(t)
    ensures k < |t| && t[k] == s[0]
    ensures t == t[..k] + [t[k]] + t[k + 1..]
    ensures multiset(s[1..]) == multiset(t[..k] + t[k + 1..])
  {
    assert s[0] in multiset(t);
    k :| 0 <= k < |t| && t[k] == s[0];
    assert s == [s[0]] + s[1..];
    assert t == t[..k] + [t[k]] + t[k + 1..];
    assert multiset(t) == multiset(t[..k]) + multiset{t[k]} + multiset(t[k + 1..]);
    assert multiset(t[..k] + t[k + 1..]) == multiset(t) - multiset{s[0]};
    assert multiset(s) == multiset{s[0]} + multiset(s[1..]);
  }

  lemma {:induction false} SumByPermutes<T>(f: T -> int, s: seq<T>, t: seq<T>)
    requires multiset(s) == multiset(t)
    ensures SumBy(f, s) == SumBy(f, t)
  {
    if s == [] {
      assert |multiset(t)| == 0;
    } else {
      var k := HeadElsewhere(s, t);
      SumByPermutes(f, s[1..], t[..k] + t[k + 1..]);
      SumByConcat(f, t[..k], t[k + 1..]);
      SumByConcat(f, t[..k] + [t[k]], t[k + 1..]);
      SumByConcat(f, t[..k], [t[k]]);
      assert SumBy(f, [t[k]]) == f(t[k]) + SumBy(f, []);
    }
  }

  lemma {:induction false} SumByBound<T>(f: T -> int, s: seq<T>, bound: int)
    requires forall x :: x in s ==> f(x) <= bound
    ensures SumBy(f, s) <= |s| * bound
    ensures SumBy(f, s) == |s| * bound ==> forall x :: x in s ==> f(x) == bound
  {
    if s != [] {
      SumByBound(f, s[1..], bound);
      assert s == [s[0]] + s[1..];
      assert |s| * bound == bound + |s[1..]| * bound;
    }
  }

  lemma {:induction false} SumByConstant<T>(f: T -> int, s: seq<T>, c: int)
    requires forall x :: x in s ==> f(x) == c
    ensures SumBy(f, s) == |s| * c
  {
    if s != [] {
      SumByConstant(f, s[1..], c);
      assert |s| * c == c + |s[1..]| * c;
    }
  }

  lemma {:induction false} SumByAgrees<T>(f: T -> int, g: T -> int, s: seq<T>)
    requires forall x :: x in s ==> f(x) == g(x)
    ensures SumBy(f, s) == SumBy(g, s)
  {
    if s != [] {
      assert s[0] in s;
      SumByAgrees(f, g, s[1..]);
    }
  }

  lemma {:induction false} SumByNatural<T>(f: T -> int, s: seq<T>)
    requires forall x :: x in s ==> f(x) >= 0
    ensures SumBy(f, s) >= 0
  {
    if s != [] {
      SumByNatural(f, s[1..]);
    }
  }
}
