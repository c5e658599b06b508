/** Joining parts with a separator, and splitting at it. */
module Joining {
  predicate Without<T(==)>(s: seq<T>, sep: T) {
    forall k :: 0 <= k < |s| ==> s[k] != sep
  }

  /** sep.join(parts) */
  function Join<T>(parts: seq<seq<T>>, sep: T): seq<T> {
    if parts == [] then []
    else if |parts| == 1 then parts[0]
    else parts[0] + [sep] + Join(parts[1..], sep)
  }

  lemma JoinCons<T>(first: seq<T>, rest: seq<seq<T>>, sep: T)
    requires rest != []
    ensures Join([first] + rest, sep) == first + [sep] + Join(rest, sep)
  {
    assert ([first] + rest)[1..] == rest;
  }

  /** Where the first separator is, at or after i; |s| if nowhere. */
  function SepAt<T(==)>(s: seq<T>, sep: T, i: nat): (k: nat)
    requires i <= |s|
    ensures i <= k <= |s| && (k < |s| ==> s[k] == sep)
    ensures forall j :: i <= j < k ==> s[j] != sep
    decreases |s| - i
  {
    if i == |s| || s[i] == sep then i else SepAt(s, sep, i + 1)
  }

  /** text.split(sep) */
  function SplitBy<T(==)>(s: seq<T>, sep: T): (parts: seq<seq<T>>)
    ensures |parts| >= 1
  {
    var k := SepAt(s, sep, 0);
    if k == |s| then [s] else [s[..k]] + SplitBy(s[k + 1..], sep)
  }

  lemma SplitOffFirst<T>(first: seq<T>, sep: T, rest: seq<T>)
    requires Without(first, sep)
    ensures SplitBy(first + [sep] + rest, sep) == [first] + SplitBy(rest, sep)
  {
    var s := first + [sep] + rest;
    assert s[|first|] == sep && forall j :: 0 <= j < |first| ==> s[j] == first[j];
    assert SepAt(s, sep, 0) == |first|;
    assert s[..|first|] == first && s[|first| + 1..] == rest;
  }

  /** Splitting undoes joining, as long as there is something to join and no part holds the
      separator. */
  lemma {:induction false} SplitUndoesJoin<T>(parts: seq<seq<T>>, sep: T)
    requires parts != [] && forall k :: 0 <= k < |parts| ==> Without(parts[k], sep)
    ensures SplitBy(Join(parts, sep), sep) == parts
  {
    if |parts| == 1 {
      assert SepAt(parts[0], sep, 0) == |parts[0]|;
    } else {
      SplitUndoesJoin(parts[1..], sep);
      SplitOffFirst(parts[0], sep, Join(parts[1..], sep));
      assert parts == [parts[0]] + parts[1..];
    }
  }

  lemma {:induction false} JoinWithout<T>(parts: seq<seq<T>>, sep: T, other: T)
    requires sep != other && forall k :: 0 <= k < |parts| ==> Without(parts[k], other)
    ensures Without(Join(parts, sep), other)
  {
    if |parts| > 1 {
      JoinWithout(parts[1..], sep, other);
    }
  }

  lemma {:induction false} JoinNotEmpty<T>(parts: seq<seq<T>>, sep: T)
    requires parts != [] && parts[0] != []
    ensures Join(parts, sep) != []
  {
  }
}
