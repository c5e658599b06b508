/** Batched cursors: a corpus search's Cursor and a tree Walk, which differ only in that a
    Walk can be rewound. Both stand for a plain list with a position. */
module Batches {
  import opened Basics

  /** The foreign handle being pulled from. A batch pull consumes between one and cap
      records while any are left; how many is its own business. */
  class Source<T> {
    const items: seq<T>
    var pos: nat

    ghost predicate Valid()
      reads this
    {
      pos <= |items|
    }

    constructor (items: seq<T>)
      ensures this.items == items && pos == 0 && Valid()
    {
      this.items := items;
      pos := 0;
    }

    method NextOne() returns (got: Option<T>)
      requires Valid()
      modifies this
      ensures Valid()
      ensures old(pos) < |items| ==> got == Some(items[old(pos)]) && pos == old(pos) + 1
      ensures old(pos) == |items| ==> got == None && pos == old(pos)
    {
      if pos == |items| {
        return None;
      }
      got := Some(items[pos]);
      pos := pos + 1;
    }

    method NextBatch(cap: nat) returns (got: seq<T>)
      requires Valid() && cap > 0
      modifies this
      ensures Valid() && old(pos) <= pos && |got| <= cap
      ensures got == items[old(pos)..pos]
      ensures old(pos) < |items| ==> got != []
    {
      var most := Min(cap, |items| - pos);
      var n :| Min(1, most) <= n <= most;
      got := items[pos..pos + n];
      pos := pos + n;
    }

    method Rewind()
      modifies this
      ensures pos == 0 && Valid()
    {
      pos := 0;
    }
  }

  /** As many of the items as were promised. */
  function Promised<T>(items: seq<T>, promise: nat): (r: seq<T>)
    ensures |r| == Min(|items|, promise)
    ensures forall k :: 0 <= k < |r| ==> r[k] == items[k]
  {
    items[..Min(|items|, promise)]
  }

  /** What is promised from pos on, after n of it have been taken. */
  lemma PromisedFrom<T>(items: seq<T>, pos: nat, n: nat, promise: nat)
    requires pos + n <= |items| && n <= promise
    ensures Promised(items[pos..], promise) == items[pos..pos + n] + Promised(items[pos + n..], promise - n)
  {
    assert items[pos..][..n] == items[pos..pos + n] && items[pos..][n..] == items[pos + n..];
  }

  lemma HeadOfBatch<T>(raw: seq<T>, rest: seq<T>)
    requires raw != []
    ensures (raw + rest)[0] == raw[0] && (raw + rest)[1..] == raw[1..] + rest
  {
  }

  const BATCH_SIZE := 64

  lemma OneMoreOut<T>(all: seq<T>, out: seq<T>)
    requires |out| <= |all| && out == all[..|out|]
    ensures |out| < |all| ==>
              && all[|out|..] != [] && out + [all[|out|..][0]] == all[..|out| + 1]
              && all[|out|..][1..] == all[|out| + 1..]
    ensures |out| == |all| ==> all[|out|..] == [] && out == all
  {
  }

  class Cursor<T> {
    var ptr: Source?<T>
    var buf: seq<T>
    var at: nat
    var left: int
    var total: nat

    /** left is how many records the source still promises: those it does hold it will
        give, and it may hold fewer or more. */
    ghost predicate Valid()
      reads this, ptr
    {
      at <= |buf| && left >= 0 && (ptr != null ==> ptr.Valid())
    }

    /** What the cursor has still to yield: the buffer's unread part, and then, unless
        closed, what the source holds and has promised. */
    ghost function Pending(): seq<T>
      reads this, ptr
      requires Valid()
    {
      buf[at..] + (if ptr == null then [] else Promised(ptr.items[ptr.pos..], left))
    }

    constructor (source: Source<T>, total: nat)
      requires source.Valid()
      ensures Valid() && ptr == source && this.total == total
      ensures Pending() == Promised(source.items[source.pos..], total)
    {
      ptr := source;
      buf, at := [], 0;
      left, this.total := total, total;
    }

    /** The next pending record, if there is one, however the source cuts its batches. */
    method Next() returns (got: Option<T>)
      requires Valid()
      modifies this, ptr
      ensures Valid() && ptr == old(ptr) && total == old(total)
      ensures old(Pending()) == [] ==> got == None && Pending() == []
      ensures old(Pending()) != [] ==> got == Some(old(Pending())[0]) && Pending() == old(Pending())[1..]
    {
      if at < |buf| {
        got := Some(buf[at]);
        at := at + 1;
        return;
      }
      if ptr == null || left <= 0 {
        return None;
      }
      if left == 1 {
        got := One();
      } else {
        got := Refill();
      }
    }

    /** The tail case: a single record, with the buffer used up. */
    method One() returns (got: Option<T>)
      requires Valid() && ptr != null && at == |buf| && left > 0
      modifies this, ptr
      ensures Valid() && ptr == old(ptr) && total == old(total)
      ensures old(Pending()) == [] ==> got == None && Pending() == []
      ensures old(Pending()) != [] ==> got == Some(old(Pending())[0]) && Pending() == old(Pending())[1..]
    {
      got := ptr.NextOne();
      if got == None {
        left := 0;
        return;
      }
      left := left - 1;
    }

    /** A batch, of which the first record is handed back. */
    method Refill() returns (got: Option<T>)
      requires Valid() && ptr != null && at == |buf| && left > 0
      modifies this, ptr
      ensures Valid() && ptr == old(ptr) && total == old(total)
      ensures old(Pending()) == [] ==> got == None && Pending() == []
      ensures old(Pending()) != [] ==> got == Some(old(Pending())[0]) && Pending() == old(Pending())[1..]
    {
      ghost var pending, pos, promise := Pending(), ptr.pos, left;
      assert pending == Promised(ptr.items[pos..], promise);
      var raw := ptr.NextBatch(Min(BATCH_SIZE, left));
      if |raw| == 0 {
        left := 0;
        return None;
      }
      left := left - |raw|;
      buf := raw;
      at := 1;
      PromisedFrom(ptr.items, pos, |raw|, promise);
      assert pending == raw + Promised(ptr.items[ptr.pos..], left);
      HeadOfBatch(raw, Promised(ptr.items[ptr.pos..], left));
      return Some(buf[0]);
    }

    method All() returns (out: seq<T>)
      requires Valid()
      modifies this, ptr
      ensures Valid() && ptr == old(ptr) && total == old(total)
      ensures out == old(Pending()) && Pending() == []
    {
      ghost var all := Pending();
      out := [];
      while true
        invariant Valid() && ptr == old(ptr) && total == old(total)
        invariant |out| <= |all| && out == all[..|out|] && Pending() == all[|out|..]
        decreases |Pending()|
      {
        var got := Next();
        if got == None {
          return;
        }
        OneMoreOut(all, out);
        out := out + [got.value];
      }
    }

    /** A Walk's only: back to the first record, however far it had come. */
    method Rewind()
      requires Valid() && ptr != null
      modifies this, ptr
      ensures Valid() && ptr == old(ptr) && total == old(total)
      ensures Pending() == Promised(ptr.items, total)
    {
      ptr.Rewind();
      buf, at, left := [], 0, total;
      assert ptr.items[0..] == ptr.items;
    }

    /** Records already copied out of the source survive closing it. */
    method Close()
      requires Valid()
      modifies this
      ensures Valid() && ptr == null && total == old(total)
      ensures Pending() == old(buf[at..])
    {
      if ptr != null {
        ptr := null;
        left := 0;
      }
    }
  }

  // ---- the plain list a cursor stands for ----

  datatype Op = CallNext | CallAll | CallRewind | CallCount

  datatype Answer<T> = Got(record: Option<T>) | GotAll(records: seq<T>) | Rewound | Counted(count: nat)

  /** What a plain list at position i answers. */
  function Answered<T>(items: seq<T>, count: nat, i: nat, op: Op): Answer<T>
    requires i <= |items|
  {
    match op
    case CallNext => Got(if i < |items| then Some(items[i]) else None)
    case CallAll => GotAll(items[i..])
    case CallRewind => Rewound
    case CallCount => Counted(count)
  }

  /** The list's position after one more call. */
  function Moved(length: nat, i: nat, op: Op): (j: nat)
    requires i <= length
    ensures j <= length
  {
    match op
    case CallNext => if i < length then i + 1 else i
    case CallAll => length
    case CallRewind => 0
    case CallCount => i
  }

  function PositionAfter(length: nat, ops: seq<Op>, n: nat): (i: nat)
    requires n <= |ops|
    ensures i <= length
  {
    if n == 0 then 0 else Moved(length, PositionAfter(length, ops, n - 1), ops[n - 1])
  }

  /** The cursor stands for this list, at this position. */
  ghost predicate StandsFor<T>(cursor: Cursor<T>, items: seq<T>, count: nat, i: nat)
    reads cursor, cursor.ptr
  {
    && cursor.Valid() && cursor.ptr != null && cursor.total == count
    && i <= |items| && cursor.Pending() == items[i..] && items == Promised(cursor.ptr.items, count)
  }

  method Open<T>(held: seq<T>, count: nat) returns (cursor: Cursor<T>)
    ensures fresh(cursor) && fresh(cursor.ptr)
    ensures StandsFor(cursor, Promised(held, count), count, 0)
  {
    var source := new Source(held);
    cursor := new Cursor(source, count);
    assert held[0..] == held;
  }

  /** One call on a cursor is one call on the list. */
  method Call<T>(cursor: Cursor<T>, op: Op, ghost items: seq<T>, ghost count: nat, ghost i: nat)
      returns (answer: Answer<T>)
    requires StandsFor(cursor, items, count, i)
    modifies cursor, cursor.ptr
    ensures cursor.ptr == old(cursor.ptr)
    ensures StandsFor(cursor, items, count, Moved(|items|, i, op))
    ensures answer == Answered(items, count, i, op)
  {
    match op {
      case CallNext =>
        var got := cursor.Next();
        answer := Got(got);
      case CallAll =>
        var all := cursor.All();
        answer := GotAll(all);
      case CallRewind =>
        cursor.Rewind();
        answer := Rewound;
      case CallCount =>
        answer := Counted(cursor.total);
    }
  }

  /** The plain list's answers to the first n calls. */
  function ListAnswers<T>(items: seq<T>, count: nat, ops: seq<Op>, n: nat): (answers: seq<Answer<T>>)
    requires n <= |ops|
    ensures |answers| == n
  {
    if n == 0 then []
    else ListAnswers(items, count, ops, n - 1)
         + [Answered(items, count, PositionAfter(|items|, ops, n - 1), ops[n - 1])]
  }

  /** Refinement, over every sequence of calls and however the source cuts its batches: a
      fresh cursor answers what the plain list answers. */
  method Drive<T>(held: seq<T>, count: nat, ops: seq<Op>) returns (answers: seq<Answer<T>>)
    ensures answers == ListAnswers(Promised(held, count), count, ops, |ops|)
  {
    var cursor := Open(held, count);
    ghost var items := Promised(held, count);
    answers := [];
    for n := 0 to |ops|
      invariant fresh(cursor) && fresh(cursor.ptr)
      invariant StandsFor(cursor, items, count, PositionAfter(|items|, ops, n))
      invariant answers == ListAnswers(items, count, ops, n)
    {
      var answer := Call(cursor, ops[n], items, count, PositionAfter(|items|, ops, n));
      answers := answers + [answer];
    }
  }

  function Yielded<T>(answer: Answer<T>): seq<T> {
    match answer
    case Got(record) => if record.Some? then [record.value] else []
    case GotAll(records) => records
    case _ => []
  }

  /** Everything some answers yielded, in order. */
  function AllYielded<T>(answers: seq<Answer<T>>): seq<T> {
    if answers == [] then [] else AllYielded(answers[..|answers| - 1]) + Yielded(answers[|answers| - 1])
  }

  lemma AllYieldedSnoc<T>(answers: seq<Answer<T>>, answer: Answer<T>)
    ensures AllYielded(answers + [answer]) == AllYielded(answers) + Yielded(answer)
  {
    assert (answers + [answer])[..|answers|] == answers;
  }

  /** One call that does not rewind yields the list from one position to the next. */
  lemma OneCallYields<T>(items: seq<T>, count: nat, i: nat, op: Op)
    requires i <= |items| && op != CallRewind
    ensures items[..i] + Yielded(Answered(items, count, i, op)) == items[..Moved(|items|, i, op)]
  {
  }

  predicate NoRewind(ops: seq<Op>, n: nat)
    requires n <= |ops|
  {
    n == 0 || (NoRewind(ops, n - 1) && ops[n - 1] != CallRewind)
  }

  lemma {:induction false} NoRewindAmong(ops: seq<Op>, n: nat)
    requires n <= |ops| && CallRewind !in ops[..n]
    ensures NoRewind(ops, n)
  {
    if n > 0 {
      assert ops[..n] == ops[..n - 1] + [ops[n - 1]];
      NoRewindAmong(ops, n - 1);
    }
  }

  lemma {:induction false} YieldedIsAPrefix<T>(items: seq<T>, count: nat, ops: seq<Op>, n: nat)
    requires n <= |ops| && NoRewind(ops, n)
    ensures AllYielded(ListAnswers(items, count, ops, n)) == items[..PositionAfter(|items|, ops, n)]
  {
    if n > 0 {
      YieldedIsAPrefix(items, count, ops, n - 1);
      var i := PositionAfter(|items|, ops, n - 1);
      AllYieldedSnoc(ListAnswers(items, count, ops, n - 1), Answered(items, count, i, ops[n - 1]));
      OneCallYields(items, count, i, ops[n - 1]);
    }
  }

  /** Conservation: without a rewind, what has been yielded and what is still to come are
      always the whole list, each record once and in order. */
  lemma NothingLostOrRepeated<T>(items: seq<T>, count: nat, ops: seq<Op>, n: nat)
    requires n <= |ops| && CallRewind !in ops[..n]
    ensures AllYielded(ListAnswers(items, count, ops, n)) + items[PositionAfter(|items|, ops, n)..] == items
  {
    NoRewindAmong(ops, n);
    YieldedIsAPrefix(items, count, ops, n);
  }
}
