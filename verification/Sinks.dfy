/** The two-pass buffer protocol of the variable-length verbs: a buffer that was too small learns
    from the first call how large to be for the second. */
module Sinks {
  import opened Basics

  /** What a verb would answer at some moment: a failure, or everything that exists. */
  datatype Answer<T> = Failed(status: int) | Exists(elements: seq<T>, status: int)

  predicate Sensible<T>(a: Answer<T>) {
    a.status < 0 <==> a.Failed?
  }

  /** A verb over something that may change between calls: at(k) is its answer at call k. */
  class Verb<T> {
    const at: nat -> Answer<T>
    var calls: nat

    constructor (at: nat -> Answer<T>)
      ensures this.at == at && calls == 0
    {
      this.at := at;
      calls := 0;
    }

    /** Fills the buffer as far as either goes, and reports how many elements exist. */
    method Run(buf: array<T>) returns (have: nat, st: int)
      modifies this, buf
      ensures calls == old(calls) + 1 && st == at(old(calls)).status
      ensures at(old(calls)).Exists? ==>
                && have == |at(old(calls)).elements|
                && forall k :: 0 <= k < have && k < buf.Length ==> buf[k] == at(old(calls)).elements[k]
    {
      var a := at(calls);
      calls := calls + 1;
      st := a.status;
      have := 0;
      if a.Exists? {
        have := |a.elements|;
        var n := Min(have, buf.Length);
        for i := 0 to n
          modifies buf
          invariant forall k :: 0 <= k < i ==> buf[k] == a.elements[k]
        {
          buf[i] := a.elements[i];
        }
      }
    }
  }

  /** What drain hands back, from the first answer and the one a second call would get. */
  function Drained<T>(want: int, first: Answer<T>, second: Answer<T>): (seq<T>, int) {
    if first.Failed? then ([], first.status)
    else if |first.elements| <= Max(want, 0) then (first.elements, first.status)
    else if second.Failed? then ([], second.status)
    else (second.elements[..Min(|second.elements|, |first.elements|)], first.status)
  }

  /** Need there be no second call? */
  predicate Sufficed<T>(want: int, first: Answer<T>) {
    first.Failed? || |first.elements| <= Max(want, 0)
  }

  /** Every outcome: a failure of either call is handed on with its status and no elements,
      and a success has the status of the first call. */
  lemma DrainedByCases<T>(want: int, first: Answer<T>, second: Answer<T>)
    ensures var (out, st) := Drained(want, first, second);
            && (first.Failed? ==> out == [] && st == first.status)
            && (first.Exists? && |first.elements| <= Max(want, 0) ==> out == first.elements && st == first.status)
            && (first.Exists? && |first.elements| > Max(want, 0) && second.Failed? ==> out == [] && st == second.status)
            && (first.Exists? && |first.elements| > Max(want, 0) && second.Exists? ==>
                  && st == first.status && |out| == Min(|first.elements|, |second.elements|)
                  && forall k :: 0 <= k < |out| ==> out[k] == second.elements[k])
  {
  }

  /** drain. */
  method Drain<T(0)>(want: int, verb: Verb<T>) returns (out: seq<T>, st: int)
    requires forall k :: Sensible(verb.at(k))
    modifies verb
    ensures (out, st) == Drained(want, verb.at(old(verb.calls)), verb.at(old(verb.calls) + 1))
    ensures verb.calls == old(verb.calls) + if Sufficed(want, verb.at(old(verb.calls))) then 1 else 2
  {
    var first, second := verb.at(verb.calls), verb.at(verb.calls + 1);
    assert Sensible(first) && Sensible(second);
    var buf := new T[Max(want, 0)];
    var have;
    have, st := verb.Run(buf);
    if st < 0 {
      return [], st;
    }
    if have > buf.Length {
      buf := new T[have];
      var again, st2 := verb.Run(buf);
      if st2 < 0 {
        return [], st2;
      }
      have := Min(again, buf.Length);
      assert buf[..have] == second.elements[..have];
    } else {
      assert buf[..have] == first.elements;
    }
    if have == 0 {
      return [], st;
    }
    out := buf[..have];
  }

  /** A guess that suffices gives everything that existed at the first call. Otherwise what
      comes back is everything that exists at the second, exactly when the answer has not
      grown in between; if it has, it is cut to as many elements as there were. */
  lemma DrainedIsCompleteIff<T>(want: int, first: Answer<T>, second: Answer<T>)
    requires first.Exists? && second.Exists?
    ensures var (out, _) := Drained(want, first, second);
            if |first.elements| <= Max(want, 0) then out == first.elements
            else
              && (out == second.elements <==> |second.elements| <= |first.elements|)
              && (|second.elements| > |first.elements| ==> out == second.elements[..|first.elements|])
  {
    var a, b := first.elements, second.elements;
    assert |b| <= |a| ==> b[..Min(|b|, |a|)] == b;
  }

  /** What comes back is the whole of neither answer only after growth, and then unless what
      existed first is still, by coincidence, what the second answer begins with. */
  lemma DrainedIsWholeIff<T>(want: int, first: Answer<T>, second: Answer<T>)
    requires first.Exists? && second.Exists?
    ensures var (out, _) := Drained(want, first, second);
            (out == first.elements || out == second.elements)
            <==> |first.elements| <= Max(want, 0) || |second.elements| <= |first.elements|
                 || second.elements[..|first.elements|] == first.elements
  {
    DrainedIsCompleteIff(want, first, second);
  }
}
