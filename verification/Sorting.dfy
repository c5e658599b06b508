/** A stable sort by key, which is what sorted does. */
module Sorting {

  /** x put behind everything it is not below. */
  function Insert<T>(key: T -> real, x: T, s: seq<T>): seq<T> {
    if s == [] || key(x) < key(s[0]) then [x] + s else [s[0]] + Insert(key, x, s[1..])
  }

  function SortBy<T>(key: T -> real, s: seq<T>): seq<T> {
    if s == [] then [] else Insert(key, s[|s| - 1], SortBy(key, s[..|s| - 1]))
  }

  predicate InOrder<T>(key: T -> real, s: seq<T>) {
    forall j, k :: 0 <= j < k < |s| ==> key(s[j]) <= key(s[k])
  }

  lemma MultisetCons<T>(x: T, s: seq<T>)
    ensures multiset([x] + s) == multiset{x} + multiset(s)
  {
  }

  lemma Exchange<T>(a: multiset<T>, b: multiset<T>, c: multiset<T>)
    ensures a + (b + c) == b + (a + c)
  {
  }

  lemma MultisetTail<T>(s: seq<T>)
    requires s != []
    ensures multiset(s[1..]) == multiset(s) - multiset{s[0]}
  {
    assert s == [s[0]] + s[1..];
    MultisetCons(s[0], s[1..]);
  }

  lemma MultisetSnoc<T>(s: seq<T>)
    requires s != []
    ensures multiset(s) == multiset{s[|s| - 1]} + multiset(s[..|s| - 1])
  {
    assert s == s[..|s| - 1] + [s[|s| - 1]];
  }

  lemma {:induction false} InsertPermutes<T>(key: T -> real, x: T, s: seq<T>)
    ensures multiset(Insert(key, x, s)) == multiset{x} + multiset(s)
  {
    if s == [] || key(x) < key(s[0]) {
      MultisetCons(x, s);
    } else {
      var first, rest := s[0], s[1..];
      assert s == [first] + rest;
      InsertPermutes(key, x, rest);
      MultisetCons(first, Insert(key, x, rest));
      MultisetCons(first, rest);
      Exchange(multiset{first}, multiset{x}, multiset(rest));
    }
  }

  /** Sorting only rearranges. */
  lemma {:induction false} SortPermutes<T>(key: T -> real, s: seq<T>)
    ensures multiset(SortBy(key, s)) == multiset(s)
  {
    if s != [] {
      var before, last := s[..|s| - 1], s[|s| - 1];
      SortPermutes(key, before);
      InsertPermutes(key, last, SortBy(key, before));
      MultisetSnoc(s);
    }
  }

  lemma InOrderBehind<T>(key: T -> real, x: T, s: seq<T>)
    requires InOrder(key, s) && forall y :: y in s ==> key(x) <= key(y)
    ensures InOrder(key, [x] + s)
  {
    var t := [x] + s;
    forall j, k | 0 <= j < k < |t|
      ensures key(t[j]) <= key(t[k])
    {
      assert t[k] == s[k - 1] && t[k] in s;
    }
  }

  lemma {:induction false} InsertKeepsOrder<T>(key: T -> real, x: T, s: seq<T>)
    requires InOrder(key, s)
    ensures InOrder(key, Insert(key, x, s))
  {
    if s == [] || key(x) < key(s[0]) {
      InOrderBehind(key, x, s);
    } else {
      InsertKeepsOrder(key, x, s[1..]);
      forall y | y in Insert(key, x, s[1..])
        ensures key(s[0]) <= key(y)
      {
        InsertPermutes(key, x, s[1..]);
        assert y in multiset(Insert(key, x, s[1..]));
      }
      InOrderBehind(key, s[0], Insert(key, x, s[1..]));
    }
  }

  /** And it does sort. */
  lemma {:induction false} SortOrders<T>(key: T -> real, s: seq<T>)
    ensures InOrder(key, SortBy(key, s))
  {
    if s != [] {
      SortOrders(key, s[..|s| - 1]);
      InsertKeepsOrder(key, s[|s| - 1], SortBy(key, s[..|s| - 1]));
    }
  }

  /** Rearrangements hold the same entries. */
  lemma Elsewhere<T>(s: seq<T>, t: seq<T>, n: nat) returns (i: nat)
    requires multiset(s) == multiset(t) && n < |s|
    ensures i < |t| && t[i] == s[n]
  {
    assert s[n] in multiset(t);
    i :| 0 <= i < |t| && t[i] == s[n];
  }
}
