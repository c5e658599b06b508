/** The character-name table: a sorted list of names, front-coded in blocks of 32, and the
    lookup that binary-searches the block heads and rebuilds one block in place. */
module Names {
  import opened Basics

  const BIAS := 0x20

  /** Entries per block. */
  const BLOCK := 32

  /** Does entry i head a block? The first one does, and so does every one a whole block
      behind one that does. */
  predicate HeadsABlock(i: nat) {
    i == 0 || (i >= BLOCK && HeadsABlock(i - BLOCK))
  }

  lemma {:induction false} HeadsAreMultiples(i: nat)
    ensures HeadsABlock(i) <==> i % BLOCK == 0
  {
    if i >= BLOCK {
      HeadsAreMultiples(i - BLOCK);
    }
  }

  function HeadOf(block: nat): nat {
    BLOCK * block
  }

  /** How many leading bytes two names share, given that the first k agree. */
  function SharedFrom(prev: Bytes, name: Bytes, k: nat): (n: nat)
    requires k <= |prev| && k <= |name|
    ensures k <= n <= |prev| && n <= |name|
    decreases |name| - k
  {
    if k < |prev| && k < |name| && prev[k] == name[k] then SharedFrom(prev, name, k + 1) else k
  }

  function Shared(prev: Bytes, name: Bytes): (n: nat)
    ensures n <= |prev| && n <= |name|
  {
    SharedFrom(prev, name, 0)
  }

  lemma {:induction false} SharedFromAgrees(prev: Bytes, name: Bytes, k: nat)
    requires k <= |prev| && k <= |name| && prev[..k] == name[..k]
    ensures var n := SharedFrom(prev, name, k);
            prev[..n] == name[..n] && (n < |prev| && n < |name| ==> prev[n] != name[n])
    decreases |name| - k
  {
    if k < |prev| && k < |name| && prev[k] == name[k] {
      assert prev[..k + 1] == prev[..k] + [prev[k]] && name[..k + 1] == name[..k] + [name[k]];
      SharedFromAgrees(prev, name, k + 1);
    }
  }

  /** What is counted as shared is the longest common prefix. */
  lemma SharedIsCommon(prev: Bytes, name: Bytes)
    ensures var n := Shared(prev, name);
            prev[..n] == name[..n] && (n < |prev| && n < |name| ==> prev[n] != name[n])
  {
    SharedFromAgrees(prev, name, 0);
  }

  /** Lengths are stored in one biased byte, so they must fit it. */
  predicate Fits(names: seq<Bytes>) {
    forall k :: 0 <= k < |names| ==> |names[k]| + BIAS < 0x100
  }

  function Biased(n: nat): Byte
    requires n + BIAS < 0x100
  {
    (n + BIAS) as Byte
  }

  /** The bytes entry i contributes: the whole name at the head of a block, elsewhere what
      it shares with the name before it and its own tail. */
  function Entry(names: seq<Bytes>, i: nat): Bytes
    requires Fits(names) && i < |names|
  {
    if HeadsABlock(i) then HeadEntry(names[i]) else TailEntry(names[i - 1], names[i])
  }

  function HeadEntry(name: Bytes): Bytes
    requires |name| + BIAS < 0x100
  {
    [Biased(|name|)] + name
  }

  function TailEntry(prev: Bytes, name: Bytes): Bytes
    requires |name| + BIAS < 0x100
  {
    var shared := Shared(prev, name);
    [Biased(shared), Biased(|name| - shared)] + name[shared..]
  }

  /** The first n entries, end to end. */
  function Flat(entries: seq<Bytes>, n: nat): Bytes
    requires n <= |entries|
  {
    if n == 0 then [] else Flat(entries, n - 1) + entries[n - 1]
  }

  function Entries(names: seq<Bytes>): (entries: seq<Bytes>)
    requires Fits(names)
    ensures |entries| == |names|
  {
    seq(|names|, i requires 0 <= i < |names| => Entry(names, i))
  }

  /** The front-coded stream. */
  function Stream(names: seq<Bytes>): Bytes
    requires Fits(names)
  {
    Flat(Entries(names), |names|)
  }

  lemma SharedIs(common: Bytes, rest: Bytes, tail: Bytes)
    requires rest == [] || tail == [] || rest[0] != tail[0]
    ensures Shared(common + rest, common + tail) == |common|
  {
    SharedFromIs(common, rest, tail, 0);
  }

  lemma {:induction false} SharedFromIs(common: Bytes, rest: Bytes, tail: Bytes, k: nat)
    requires k <= |common| && (rest == [] || tail == [] || rest[0] != tail[0])
    ensures SharedFrom(common + rest, common + tail, k) == |common|
    decreases |common| - k
  {
    if k < |common| {
      assert (common + rest)[k] == common[k] == (common + tail)[k];
      SharedFromIs(common, rest, tail, k + 1);
    } else {
      assert rest != [] && tail != [] ==> (common + rest)[k] == rest[0] && (common + tail)[k] == tail[0];
    }
  }

  /** The bytes of an entry that heads a block: the length, 32 added to it, and the name. */
  lemma HeadEntryReads(names: seq<Bytes>, i: nat)
    requires Fits(names) && i < |names| && i % 32 == 0
    ensures Entry(names, i) == [(|names[i]| + 32) as Byte] + names[i]
  {
    HeadsAreMultiples(i);
  }

  /** And of any other: how much it shares with the name before it, how much it does not, 32
      added to each, and what it does not share. */
  lemma TailEntryReads(names: seq<Bytes>, i: nat, common: Bytes, rest: Bytes, tail: Bytes)
    requires Fits(names) && 0 < i < |names| && i % 32 != 0
    requires names[i - 1] == common + rest && names[i] == common + tail
    requires rest == [] || tail == [] || rest[0] != tail[0]
    ensures |names[i]| + 32 < 256
    ensures Entry(names, i) == [(|common| + 32) as Byte, (|tail| + 32) as Byte] + tail
  {
    HeadsAreMultiples(i);
    SharedIs(common, rest, tail);
    assert names[i][|common|..] == tail;
  }

  /** The stream is the entries, one behind the other. */
  lemma StreamOfOneMore(names: seq<Bytes>, last: Bytes)
    requires Fits(names + [last])
    ensures Fits(names) && Stream([]) == []
    ensures Stream(names + [last]) == Stream(names) + Entry(names + [last], |names|)
  {
    var all := names + [last];
    assert forall k :: 0 <= k < |names| ==> all[k] == names[k];
    FlatAgrees(names, all, |names|);
  }

  lemma {:induction false} FlatAgrees(names: seq<Bytes>, all: seq<Bytes>, n: nat)
    requires Fits(names) && Fits(all) && n <= |names| <= |all| && all[..|names|] == names
    ensures Flat(Entries(names), n) == Flat(Entries(all), n)
  {
    if n > 0 {
      FlatAgrees(names, all, n - 1);
      assert forall k :: 0 <= k < |names| ==> all[k] == all[..|names|][k];
      assert Entries(names)[n - 1] == Entries(all)[n - 1];
    }
  }

  /** Where each entry starts in the stream, and where the stream ends. */
  function Positions(entries: seq<Bytes>): seq<nat> {
    seq(|entries| + 1, i requires 0 <= i <= |entries| => |Flat(entries, i)|)
  }

  /** The positions of the block heads among the first n entries. */
  function Offsets(pos: seq<nat>, n: nat): seq<nat>
    requires n <= |pos|
  {
    if n == 0 then []
    else Offsets(pos, n - 1) + (if HeadsABlock(n - 1) then [pos[n - 1]] else [])
  }

  /** Between two neighbouring heads, the later one included, only that one heads a block. */
  lemma OnlyHead(count: nat, m: nat)
    requires m <= HeadOf(count) && (count > 0 ==> HeadOf(count - 1) < m)
    ensures HeadsABlock(m) <==> m == HeadOf(count)
  {
    HeadsAreMultiples(m);
  }

  lemma {:induction false} OffsetsCount(pos: seq<nat>, n: nat)
    requires n <= |pos|
    ensures var count := |Offsets(pos, n)|;
            n <= HeadOf(count) && (count > 0 ==> HeadOf(count - 1) < n)
  {
    if n > 0 {
      OffsetsCount(pos, n - 1);
      OnlyHead(|Offsets(pos, n - 1)|, n - 1);
    }
  }

  lemma {:induction false} OffsetAt(pos: seq<nat>, n: nat, b: nat)
    requires n <= |pos| && b < |Offsets(pos, n)|
    ensures HeadOf(b) < n && Offsets(pos, n)[b] == pos[HeadOf(b)]
  {
    var count := |Offsets(pos, n - 1)|;
    if b < count {
      OffsetAt(pos, n - 1, b);
    } else {
      OffsetsCount(pos, n - 1);
      OnlyHead(count, n - 1);
    }
  }

  lemma HeadsAscend(b: nat, c: nat)
    ensures b <= c <==> HeadOf(b) <= HeadOf(c)
  {
  }

  /** There is one offset per block, and it is where the block's head starts. */
  lemma OffsetsIndexHeads(pos: seq<nat>, n: nat)
    requires n <= |pos|
    ensures forall b :: 0 <= b ==> (b < |Offsets(pos, n)| <==> HeadOf(b) < n)
    ensures forall b :: 0 <= b < |Offsets(pos, n)| ==> Offsets(pos, n)[b] == pos[HeadOf(b)]
  {
    OffsetsCount(pos, n);
    forall b | 0 <= b
      ensures b < |Offsets(pos, n)| <==> HeadOf(b) < n
    {
      if b < |Offsets(pos, n)| {
        OffsetAt(pos, n, b);
      } else {
        HeadsAscend(|Offsets(pos, n)|, b);
      }
    }
    forall b | 0 <= b < |Offsets(pos, n)|
      ensures Offsets(pos, n)[b] == pos[HeadOf(b)]
    {
      OffsetAt(pos, n, b);
    }
  }

  lemma AppendHead(s: Bytes, b: Byte, name: Bytes)
    ensures s + [b] + name == s + ([b] + name)
  {
  }

  lemma AppendTail(s: Bytes, a: Byte, b: Byte, tail: Bytes)
    ensures s + [a] + [b] + tail == s + ([a, b] + tail)
  {
  }

  /** front_code's variables, and what they are after n rounds. */
  datatype Coded = Coded(out: Bytes, offsets: seq<nat>)

  function CodedUpTo(entries: seq<Bytes>, n: nat): Coded
    requires n <= |entries|
  {
    if n == 0 then Coded([], [])
    else
      var c := CodedUpTo(entries, n - 1);
      Coded(c.out + entries[n - 1], if HeadsABlock(n - 1) then c.offsets + [|c.out|] else c.offsets)
  }

  /** Entries end to end, and the places of those that head a block. */
  lemma {:induction false} CodedIsFlat(entries: seq<Bytes>, n: nat)
    requires n <= |entries|
    ensures CodedUpTo(entries, n) == Coded(Flat(entries, n), Offsets(Positions(entries), n))
  {
    if n > 0 {
      CodedIsFlat(entries, n - 1);
      NextOffset(entries, n - 1);
    }
  }

  lemma NextOffset(entries: seq<Bytes>, i: nat)
    requires i < |entries|
    ensures Offsets(Positions(entries), i + 1)
         == if HeadsABlock(i) then Offsets(Positions(entries), i) + [|Flat(entries, i)|] else Offsets(Positions(entries), i)
  {
    assert Positions(entries)[i] == |Flat(entries, i)|;
  }

  /** The inner loop of front_code. */
  method CountShared(prev: Bytes, name: Bytes) returns (shared: nat)
    ensures shared == Shared(prev, name)
  {
    shared := 0;
    var limit := Min(|prev|, |name|);
    while shared < limit && prev[shared] == name[shared]
      invariant shared <= limit
      invariant SharedFrom(prev, name, shared) == Shared(prev, name)
    {
      shared := shared + 1;
    }
  }

  /** The entries of these names. Only a mention of Entry asks for one. */
  ghost predicate AreEntries(entries: seq<Bytes>, names: seq<Bytes>)
    requires Fits(names)
  {
    |entries| == |names|
    && forall i {:trigger Entry(names, i)} :: 0 <= i < |names| ==> entries[i] == Entry(names, i)
  }

  /** front_code. */
  method FrontCode(names: seq<Bytes>) returns (out: Bytes, offsets: seq<nat>)
    requires Fits(names)
    ensures out == Stream(names)
    ensures offsets == Offsets(Positions(Entries(names)), |names|)
  {
    CodedIsFlat(Entries(names), |names|);
    out, offsets := CodeAll(names, Entries(names));
  }

  /** Its loop. */
  method CodeAll(names: seq<Bytes>, ghost entries: seq<Bytes>) returns (out: Bytes, offsets: seq<nat>)
    requires Fits(names) && AreEntries(entries, names)
    ensures Coded(out, offsets) == CodedUpTo(entries, |names|)
  {
    out, offsets := [], [];
    var prev: Bytes := [];
    for i := 0 to |names|
      invariant Coded(out, offsets) == CodedUpTo(entries, i)
      invariant i > 0 ==> prev == names[i - 1]
    {
      out, offsets := CodeOne(prev, names, i, out, offsets, entries);
      prev := names[i];
    }
  }

  /** And its round. */
  method CodeOne(prev: Bytes, names: seq<Bytes>, i: nat, out: Bytes, offsets: seq<nat>, ghost entries: seq<Bytes>)
    returns (out': Bytes, offsets': seq<nat>)
    requires Fits(names) && AreEntries(entries, names) && i < |names|
    requires (i > 0 ==> prev == names[i - 1]) && Coded(out, offsets) == CodedUpTo(entries, i)
    ensures Coded(out', offsets') == CodedUpTo(entries, i + 1)
  {
    assert entries[i] == Entry(names, i);
    if HeadsABlock(i) {
      offsets' := offsets + [|out|];
      out' := AppendHeadEntry(out, names, i);
    } else {
      offsets' := offsets;
      out' := AppendTailEntry(out, prev, names, i);
    }
  }

  /** The bytes of a round that heads a block. */
  method AppendHeadEntry(out: Bytes, names: seq<Bytes>, i: nat) returns (more: Bytes)
    requires Fits(names) && i < |names| && HeadsABlock(i)
    ensures more == out + Entry(names, i)
  {
    more := out;
    AppendHead(more, Biased(|names[i]|), names[i]);
    more := more + [Biased(|names[i]|)];
    more := more + names[i];
  }

  /** And of one that does not. */
  method AppendTailEntry(out: Bytes, prev: Bytes, names: seq<Bytes>, i: nat) returns (more: Bytes)
    requires Fits(names) && i < |names| && !HeadsABlock(i) && prev == names[i - 1]
    ensures more == out + Entry(names, i)
  {
    more := out;
    var shared := CountShared(prev, names[i]);
    var tail := names[i][shared..];
    AppendTail(more, Biased(shared), Biased(|tail|), tail);
    more := more + [Biased(shared)];
    more := more + [Biased(|tail|)];
    more := more + tail;
  }

  /** Entry i occupies blob[at..next]: a block head is stored whole, any other name as
      what it shares with its predecessor and its own tail. */
  predicate EntryAt(blob: Bytes, at: nat, next: nat, prev: Bytes, name: Bytes, head: bool) {
    if head then
      && next == at + 1 + |name| <= |blob|
      && blob[at] as int == |name| + BIAS
      && blob[at + 1..next] == name
    else
      var shared := Shared(prev, name);
      && next == at + 2 + (|name| - shared) <= |blob|
      && blob[at] as int == shared + BIAS && blob[at + 1] as int == |name| - shared + BIAS
      && blob[at + 2..next] == name[shared..]
  }

  function Before(names: seq<Bytes>, i: nat): Bytes
    requires i <= |names|
  {
    if i == 0 then [] else names[i - 1]
  }

  predicate Holds(blob: Bytes, names: seq<Bytes>, pos: seq<nat>, i: nat)
    requires i < |names| && |pos| == |names| + 1
  {
    EntryAt(blob, pos[i], pos[i + 1], Before(names, i), names[i], HeadsABlock(i))
  }

  /** Every entry is where pos says. */
  predicate Laid(blob: Bytes, names: seq<Bytes>, pos: seq<nat>) {
    && |pos| == |names| + 1 && pos[0] == 0
    && forall i {:trigger Holds(blob, names, pos, i)} :: 0 <= i < |names| ==> Holds(blob, names, pos, i)
  }

  lemma {:induction false} FlatGrows(entries: seq<Bytes>, i: nat, n: nat)
    requires i <= n <= |entries|
    ensures |Flat(entries, i)| <= |Flat(entries, n)|
    ensures Flat(entries, n)[..|Flat(entries, i)|] == Flat(entries, i)
    decreases n - i
  {
    if i < n {
      FlatGrows(entries, i, n - 1);
      PrefixOfAppend(Flat(entries, n - 1), entries[n - 1], |Flat(entries, i)|);
    }
  }

  lemma PrefixOfAppend(s: Bytes, e: Bytes, k: nat)
    requires k <= |s|
    ensures (s + e)[..k] == s[..k]
  {
  }

  lemma HeadAt(blob: Bytes, s: Bytes, b: Byte, name: Bytes)
    requires |s| + 1 + |name| <= |blob| && blob[..|s| + 1 + |name|] == s + ([b] + name)
    requires b as int == |name| + BIAS
    ensures EntryAt(blob, |s|, |s| + 1 + |name|, [], name, true)
  {
    var all := s + ([b] + name);
    assert all[|s|] == b && all[|s| + 1..] == name;
    assert blob[|s| + 1..|all|] == all[|s| + 1..];
  }

  lemma TailAt(blob: Bytes, s: Bytes, a: Byte, b: Byte, prev: Bytes, name: Bytes, tail: Bytes)
    requires |s| + 2 + |tail| <= |blob| && blob[..|s| + 2 + |tail|] == s + ([a, b] + tail)
    requires tail == name[Shared(prev, name)..]
    requires a as int == Shared(prev, name) + BIAS && b as int == |tail| + BIAS
    ensures EntryAt(blob, |s|, |s| + 2 + |tail|, prev, name, false)
  {
    var all := s + ([a, b] + tail);
    assert all[|s|] == a && all[|s| + 1] == b && all[|s| + 2..] == tail;
    assert blob[|s| + 2..|all|] == all[|s| + 2..];
  }

  lemma EntryIsLaid(names: seq<Bytes>, i: nat, s: Bytes, blob: Bytes)
    requires Fits(names) && i < |names|
    requires |s| + |Entry(names, i)| <= |blob| && blob[..|s| + |Entry(names, i)|] == s + Entry(names, i)
    ensures EntryAt(blob, |s|, |s| + |Entry(names, i)|, Before(names, i), names[i], HeadsABlock(i))
  {
    var name := names[i];
    if HeadsABlock(i) {
      HeadAt(blob, s, Biased(|name|), name);
    } else {
      var shared := Shared(names[i - 1], name);
      TailAt(blob, s, Biased(shared), Biased(|name| - shared), names[i - 1], name, name[shared..]);
    }
  }

  /** The stream lays every entry out where its prefix ends. */
  lemma StreamIsLaid(names: seq<Bytes>)
    requires Fits(names)
    ensures Laid(Stream(names), names, Positions(Entries(names)))
  {
    forall i | 0 <= i < |names|
      ensures Holds(Stream(names), names, Positions(Entries(names)), i)
    {
      EntryHolds(names, i);
    }
  }

  lemma EntryHolds(names: seq<Bytes>, i: nat)
    requires Fits(names) && i < |names|
    ensures Holds(Stream(names), names, Positions(Entries(names)), i)
  {
    var entries := Entries(names);
    FlatGrows(entries, i + 1, |names|);
    EntryIsLaid(names, i, Flat(entries, i), Stream(names));
  }

  /** The length stored at a position; 0 past the end of the stream. */
  function Stored(blob: Bytes, at: nat): int {
    if at < |blob| then blob[at] as int - BIAS else 0
  }

  /** Reading one entry: the name, and where the next entry starts. */
  function ReadEntry(blob: Bytes, at: nat, prev: Bytes, head: bool): (Bytes, int) {
    if head then
      var n := Stored(blob, at);
      (Slice(blob, at + 1, at + 1 + n), at + 1 + n)
    else
      var shared, tail := Stored(blob, at), Stored(blob, at + 1);
      (Slice(prev, 0, shared) + Slice(blob, at + 2, at + 2 + tail), at + 2 + tail)
  }

  /** Decoding front to back: entry i, and where the entry after it starts. */
  function Read(blob: Bytes, i: nat): (Bytes, int) {
    if i == 0 then ReadEntry(blob, 0, [], true)
    else
      var (prev, at) := Read(blob, i - 1);
      ReadEntry(blob, Max(at, 0), prev, HeadsABlock(i))
  }

  /** The first n names of a stream. */
  function Decode(blob: Bytes, n: nat): seq<Bytes> {
    seq(n, i requires 0 <= i => Read(blob, i).0)
  }

  /** An entry reads back, from the right predecessor. */
  lemma EntryReadsBack(blob: Bytes, at: nat, next: nat, prev: Bytes, name: Bytes, head: bool)
    requires EntryAt(blob, at, next, prev, name, head)
    ensures ReadEntry(blob, at, prev, head) == (name, next)
  {
    if !head {
      var shared := Shared(prev, name);
      SharedIsCommon(prev, name);
      assert Slice(prev, 0, shared) == prev[..shared] == name[..shared];
      assert name == name[..shared] + name[shared..];
    }
  }

  lemma HeldEntryReads(blob: Bytes, names: seq<Bytes>, pos: seq<nat>, i: nat)
    requires Laid(blob, names, pos) && i < |names|
    ensures ReadEntry(blob, pos[i], Before(names, i), HeadsABlock(i)) == (names[i], pos[i + 1])
  {
    assert Holds(blob, names, pos, i);
    EntryReadsBack(blob, pos[i], pos[i + 1], Before(names, i), names[i], HeadsABlock(i));
  }

  /** Entry i is read as name i, and ends where the next one starts. */
  predicate ReadsAt(blob: Bytes, names: seq<Bytes>, pos: seq<nat>, i: nat)
    requires i < |names| && |pos| == |names| + 1
  {
    Read(blob, i) == (names[i], pos[i + 1])
  }

  lemma ReadOne(blob: Bytes, names: seq<Bytes>, pos: seq<nat>, i: nat)
    requires Laid(blob, names, pos) && i < |names|
    requires i > 0 ==> ReadsAt(blob, names, pos, i - 1)
    ensures ReadsAt(blob, names, pos, i)
  {
    HeldEntryReads(blob, names, pos, i);
    assert Max(pos[i], 0) == pos[i];
  }

  predicate ReadsUpTo(blob: Bytes, names: seq<Bytes>, pos: seq<nat>, n: nat)
    requires n <= |names| && |pos| == |names| + 1
  {
    n == 0 || (ReadsUpTo(blob, names, pos, n - 1) && ReadsAt(blob, names, pos, n - 1))
  }

  lemma ReadsOneMore(blob: Bytes, names: seq<Bytes>, pos: seq<nat>, n: nat)
    requires Laid(blob, names, pos) && n < |names| && ReadsUpTo(blob, names, pos, n)
    ensures ReadsUpTo(blob, names, pos, n + 1)
  {
    ReadOne(blob, names, pos, n);
  }

  lemma {:induction false} ReadsEveryName(blob: Bytes, names: seq<Bytes>, pos: seq<nat>, n: nat)
    requires Laid(blob, names, pos) && n <= |names|
    ensures ReadsUpTo(blob, names, pos, n)
  {
    if n > 0 {
      ReadsEveryName(blob, names, pos, n - 1);
      ReadsOneMore(blob, names, pos, n - 1);
    }
  }

  lemma ReadsEach(blob: Bytes, names: seq<Bytes>, pos: seq<nat>, i: nat)
    requires Laid(blob, names, pos) && i < |names|
    ensures ReadsAt(blob, names, pos, i)
  {
    ReadsEveryName(blob, names, pos, i + 1);
  }

  lemma DecodeIsNames(blob: Bytes, names: seq<Bytes>, pos: seq<nat>)
    requires Laid(blob, names, pos)
    ensures Decode(blob, |names|) == names
  {
    forall i | 0 <= i < |names|
      ensures Decode(blob, |names|)[i] == names[i]
    {
      ReadsEach(blob, names, pos, i);
    }
  }

  lemma EntryEnds(blob: Bytes, names: seq<Bytes>, pos: seq<nat>, i: nat)
    requires |pos| == |names| + 1 == i + 2 && ReadsAt(blob, names, pos, i)
    ensures Read(blob, i).1 == pos[|names|]
  {
  }

  lemma EndsTheStream(names: seq<Bytes>, i: nat)
    requires Fits(names) && i + 1 == |names|
    ensures Read(Stream(names), i).1 == |Stream(names)|
  {
    var pos := Positions(Entries(names));
    StreamIsLaid(names);
    ReadsEach(Stream(names), names, pos, i);
    EntryEnds(Stream(names), names, pos, i);
    PositionsEnd(names);
  }

  /** Where the last of the names was read, the blob has been read to its end. */
  ghost predicate ReadToTheEnd(blob: Bytes, names: seq<Bytes>) {
    forall i {:trigger Read(blob, i)} :: 0 <= i && i + 1 == |names| ==> Read(blob, i).1 == |blob|
  }

  lemma LastEndsTheStream(names: seq<Bytes>)
    requires Fits(names)
    ensures ReadToTheEnd(Stream(names), names)
  {
    forall i {:trigger Read(Stream(names), i)} | 0 <= i && i + 1 == |names|
      ensures Read(Stream(names), i).1 == |Stream(names)|
    {
      EndsTheStream(names, i);
    }
  }

  /** Front coding loses nothing: decoding the stream gives back exactly the list, and
      the last entry ends where the stream does. */
  lemma DecodeRoundTrip(names: seq<Bytes>)
    requires Fits(names)
    ensures Decode(Stream(names), |names|) == names
    ensures ReadToTheEnd(Stream(names), names)
  {
    StreamIsLaid(names);
    DecodeIsNames(Stream(names), names, Positions(Entries(names)));
    LastEndsTheStream(names);
  }

  lemma PositionsEnd(names: seq<Bytes>)
    requires Fits(names)
    ensures Positions(Entries(names))[|names|] == |Stream(names)|
  {
  }

  predicate Printable(b: Byte) {
    0x20 <= b <= 0x7E
  }

  predicate AllPrintable(s: Bytes) {
    forall j :: 0 <= j < |s| ==> Printable(s[j])
  }

  lemma {:induction false} FlatIsPrintable(entries: seq<Bytes>, n: nat)
    requires n <= |entries| && forall k :: 0 <= k < |entries| ==> AllPrintable(entries[k])
    ensures AllPrintable(Flat(entries, n))
  {
    if n > 0 {
      FlatIsPrintable(entries, n - 1);
    }
  }

  /** Every byte of the stream is printable, given printable names of at most 94 bytes. */
  lemma StreamIsPrintable(names: seq<Bytes>)
    requires Fits(names)
    requires forall k :: 0 <= k < |names| ==> |names[k]| <= 94 && AllPrintable(names[k])
    ensures AllPrintable(Stream(names))
  {
    forall k | 0 <= k < |names|
      ensures AllPrintable(Entry(names, k))
    {
      assert AllPrintable(names[k]);
    }
    FlatIsPrintable(Entries(names), |names|);
  }

  // ---- the order of names ----

  /** Byte-lexicographic order. */
  predicate Less(a: Bytes, b: Bytes) {
    b != [] && (a == [] || a[0] < b[0] || (a[0] == b[0] && Less(a[1..], b[1..])))
  }

  lemma {:induction false} LessIsIrreflexive(a: Bytes)
    ensures !Less(a, a)
  {
    if a != [] {
      LessIsIrreflexive(a[1..]);
    }
  }

  lemma {:induction false} LessIsTotal(a: Bytes, b: Bytes)
    ensures a != b ==> Less(a, b) || Less(b, a)
    ensures !(Less(a, b) && Less(b, a))
  {
    if a != [] && b != [] {
      LessIsTotal(a[1..], b[1..]);
      if a[0] == b[0] && a[1..] == b[1..] {
        assert a == [a[0]] + a[1..] && b == [b[0]] + b[1..];
      }
    }
  }

  lemma {:induction false} LessIsTransitive(a: Bytes, b: Bytes, c: Bytes)
    requires Less(a, b) && Less(b, c)
    ensures Less(a, c)
  {
    if a != [] && a[0] == b[0] && b[0] == c[0] {
      LessIsTransitive(a[1..], b[1..], c[1..]);
    }
  }

  /** The first difference decides, the smaller byte first; a proper prefix comes first too. */
  lemma {:induction false} LessAtTheDifference(common: Bytes, x: Byte, s: Bytes, y: Byte, t: Bytes)
    requires x != y
    ensures Less(common + ([x] + s), common + ([y] + t)) <==> x < y
    ensures Less(common, common + ([y] + t)) && !Less(common + ([y] + t), common)
  {
    if common == [] {
      assert common + ([x] + s) == [x] + s && common + ([y] + t) == [y] + t;
    } else {
      assert (common + ([x] + s))[1..] == common[1..] + ([x] + s);
      assert (common + ([y] + t))[1..] == common[1..] + ([y] + t);
      LessAtTheDifference(common[1..], x, s, y, t);
    }
  }

  predicate StrictlySorted(names: seq<Bytes>) {
    forall j, k {:trigger Less(names[j], names[k])} :: 0 <= j < k < |names| ==> Less(names[j], names[k])
  }

  // ---- the lookup ----

  datatype Table = Table(blob: Bytes, offsets: seq<nat>, codepoints: seq<int>, longest: nat)

  /** A table of a list of names: strictly sorted, laid out at pos, its block heads indexed
      and its buffer long enough. */
  ghost predicate Encodes(t: Table, names: seq<Bytes>, pos: seq<nat>) {
    && StrictlySorted(names)
    && Laid(t.blob, names, pos)
    && |t.codepoints| == |names|
    && (forall b :: 0 <= b ==> (b < |t.offsets| <==> HeadOf(b) < |names|))
    && (forall b :: 0 <= b < |t.offsets| ==> t.offsets[b] == pos[HeadOf(b)])
    && (forall k :: 0 <= k < |names| ==> |names[k]| <= t.longest)
  }

  /** What front_code makes of a strictly sorted list is such a table. */
  lemma FrontCodeEncodes(names: seq<Bytes>, codepoints: seq<int>, longest: nat)
    requires Fits(names) && StrictlySorted(names) && |codepoints| == |names|
    requires forall k :: 0 <= k < |names| ==> |names[k]| <= longest
    ensures Encodes(Table(Stream(names), Offsets(Positions(Entries(names)), |names|), codepoints, longest), names, Positions(Entries(names)))
  {
    StreamIsLaid(names);
    OffsetsIndexHeads(Positions(Entries(names)), |names|);
  }

  lemma HeadIsHeld(t: Table, b: nat, names: seq<Bytes>, pos: seq<nat>)
    requires Encodes(t, names, pos) && b < |t.offsets|
    ensures HeadOf(b) < |names| && t.offsets[b] == pos[HeadOf(b)]
    ensures EntryAt(t.blob, t.offsets[b], pos[HeadOf(b) + 1], Before(names, HeadOf(b)), names[HeadOf(b)], true)
  {
    HeadsAreMultiples(HeadOf(b));
    assert Holds(t.blob, names, pos, HeadOf(b));
  }

  /** head: a block's first name, which is stored whole. */
  method Head(t: Table, b: nat, ghost names: seq<Bytes>, ghost pos: seq<nat>) returns (name: Bytes)
    requires Encodes(t, names, pos) && b < |t.offsets|
    ensures HeadOf(b) < |names| && name == names[HeadOf(b)]
  {
    HeadIsHeld(t, b, names, pos);
    var at := t.offsets[b];
    var n := t.blob[at] as int - BIAS;
    name := t.blob[at + 1..at + 1 + n];
  }

  predicate HeadExceeds(names: seq<Bytes>, want: Bytes, b: nat) {
    HeadOf(b) < |names| && Less(want, names[HeadOf(b)])
  }

  /** The binary search over the heads: how many of them do not exceed want. */
  method BlocksUpTo(t: Table, want: Bytes, ghost names: seq<Bytes>, ghost pos: seq<nat>) returns (lo: nat)
    requires Encodes(t, names, pos)
    ensures lo <= |t.offsets|
    ensures forall b :: 0 <= b < |t.offsets| ==> (b >= lo <==> HeadExceeds(names, want, b))
  {
    lo := 0;
    var hi := |t.offsets|;
    while lo < hi
      invariant lo <= hi <= |t.offsets|
      invariant forall b :: 0 <= b < lo ==> !HeadExceeds(names, want, b)
      invariant forall b :: hi <= b < |t.offsets| ==> HeadExceeds(names, want, b)
      decreases hi - lo
    {
      var mid := lo + (hi - lo) / 2;
      var name := Head(t, mid, names, pos);
      HeadsAreOrdered(t, names, pos, want, mid);
      if Less(want, name) {
        hi := mid;
      } else {
        lo := mid + 1;
      }
    }
  }

  lemma HeadsAreOrdered(t: Table, names: seq<Bytes>, pos: seq<nat>, want: Bytes, mid: nat)
    requires Encodes(t, names, pos) && mid < |t.offsets|
    ensures forall b :: mid <= b < |t.offsets| && HeadExceeds(names, want, mid) ==> HeadExceeds(names, want, b)
    ensures forall b :: 0 <= b <= mid && HeadExceeds(names, want, b) ==> HeadExceeds(names, want, mid)
  {
    forall b | mid < b < |t.offsets| && HeadExceeds(names, want, mid)
      ensures HeadExceeds(names, want, b)
    {
      LessIsTransitive(want, names[HeadOf(mid)], names[HeadOf(b)]);
    }
    forall b | 0 <= b < mid && HeadExceeds(names, want, b)
      ensures HeadExceeds(names, want, mid)
    {
      LessIsTransitive(want, names[HeadOf(b)], names[HeadOf(mid)]);
    }
  }

  /** stored: find the block, then walk it. */
  method Lookup(t: Table, want: Bytes, ghost names: seq<Bytes>, ghost pos: seq<nat>) returns (found: Option<int>)
    requires Encodes(t, names, pos)
    ensures found.Some? ==> exists k :: 0 <= k < |names| && names[k] == want && found.value == t.codepoints[k]
    ensures found.None? ==> want !in names
  {
    var lo := BlocksUpTo(t, want, names, pos);
    if lo == 0 {
      NotBeforeTheFirst(t, names, pos, want);
      return None;
    }
    var block := lo - 1;
    found := Scan(t, want, block, names, pos);
    if found == None {
      OnlyInItsBlock(t, names, pos, want, block);
    }
  }

  /** The walk over a block, rebuilding each name in one buffer out of what it shares
      with the name before it plus its own tail. */
  method Scan(t: Table, want: Bytes, block: nat, ghost names: seq<Bytes>, ghost pos: seq<nat>)
    returns (found: Option<int>)
    requires Encodes(t, names, pos) && block < |t.offsets|
    ensures found.Some? ==> exists k :: 0 <= k < |names| && names[k] == want && found.value == t.codepoints[k]
    ensures found.None? ==> NoneOf(names, want, HeadOf(block), HeadOf(block + 1))
  {
    var first := HeadOf(block);
    var buf := new Byte[t.longest](_ => 0);
    var len, at := HeadInPlace(t, block, names, pos, buf);
    var entries := Min(BLOCK, |t.codepoints| - first);
    var i := 0;
    while i < entries
      invariant 0 <= i <= entries
      invariant i < entries ==> InHand(names, pos, first + Max(i - 1, 0), buf[..], len, at)
      invariant NoneOf(names, want, first, first + i)
    {
      if i > 0 {
        InsideABlock(block, i);
        len, at := NextInPlace(t, names, pos, first + i, buf, len, at);
      }
      if buf[..len] == want {
        return Some(t.codepoints[first + i]);
      }
      i := i + 1;
    }
    return None;
  }

  lemma InsideABlock(block: nat, i: nat)
    requires 0 < i < BLOCK
    ensures !HeadsABlock(HeadOf(block) + i)
  {
    HeadsAreMultiples(HeadOf(block) + i);
  }

  /** The first name of a block into the buffer. */
  method HeadInPlace(t: Table, block: nat, ghost names: seq<Bytes>, ghost pos: seq<nat>, buf: array<Byte>)
    returns (len: nat, at: nat)
    requires Encodes(t, names, pos) && block < |t.offsets| && buf.Length == t.longest
    modifies buf
    ensures HeadOf(block) < |names| && InHand(names, pos, HeadOf(block), buf[..], len, at)
  {
    HeadIsHeld(t, block, names, pos);
    at := t.offsets[block] + 1;
    len := t.blob[t.offsets[block]] as int - BIAS;
    CopyIn(t.blob, at, len, buf, 0);
    at := at + len;
    assert buf[0..len] == buf[..len];
  }

  /** The buffer holds name k, and reading goes on where its entry ends. */
  ghost predicate InHand(names: seq<Bytes>, pos: seq<nat>, k: nat, buf: Bytes, len: int, at: int) {
    k < |names| && |pos| == |names| + 1 && 0 <= len <= |buf| && buf[..len] == names[k] && at == pos[k + 1]
  }

  predicate NoneOf(names: seq<Bytes>, want: Bytes, from: nat, to: nat) {
    forall k :: from <= k < to && k < |names| ==> names[k] != want
  }

  /** Copying bytes of the stream into the buffer. */
  method CopyIn(blob: Bytes, at: nat, n: nat, buf: array<Byte>, start: nat)
    requires at + n <= |blob| && start + n <= buf.Length
    modifies buf
    ensures buf[start..start + n] == blob[at..at + n]
    ensures buf[..start] == old(buf[..start]) && buf[start + n..] == old(buf[start + n..])
  {
    for k := 0 to n
      invariant buf[start..start + k] == blob[at..at + k]
      invariant buf[..start] == old(buf[..start]) && buf[start + n..] == old(buf[start + n..])
    {
      buf[start + k] := blob[at + k];
    }
  }

  /** One step of the walk: the tail of entry i overwrites the buffer after the shared
      prefix, which the entry before it has left in place. */
  method NextInPlace(t: Table, ghost names: seq<Bytes>, ghost pos: seq<nat>, ghost i: nat,
                     buf: array<Byte>, len: nat, at: nat)
    returns (len': nat, at': nat)
    requires Encodes(t, names, pos) && 0 < i < |names| && !HeadsABlock(i) && buf.Length == t.longest
    requires InHand(names, pos, i - 1, buf[..], len, at)
    modifies buf
    ensures InHand(names, pos, i, buf[..], len', at')
  {
    assert Holds(t.blob, names, pos, i);
    var shared := t.blob[at] as int - BIAS;
    var tail := t.blob[at + 1] as int - BIAS;
    ghost var name := names[i];
    SharedIsCommon(names[i - 1], name);
    assert buf[..shared] == buf[..len][..shared] == name[..shared];
    CopyIn(t.blob, at + 2, tail, buf, shared);
    len' := shared + tail;
    at' := at + 2 + tail;
    Overlaid(buf[..], name, shared);
  }

  lemma Overlaid(buf: Bytes, name: Bytes, shared: nat)
    requires shared <= |name| <= |buf|
    requires buf[..shared] == name[..shared] && buf[shared..|name|] == name[shared..]
    ensures buf[..|name|] == name
  {
    assert buf[..|name|] == buf[..shared] + buf[shared..|name|];
    assert name == name[..shared] + name[shared..];
  }

  lemma NotBeforeTheFirst(t: Table, names: seq<Bytes>, pos: seq<nat>, want: Bytes)
    requires Encodes(t, names, pos)
    requires |t.offsets| > 0 ==> HeadExceeds(names, want, 0)
    ensures want !in names
  {
    LessIsIrreflexive(want);
    forall k | 0 <= k < |names|
      ensures names[k] != want
    {
      assert HeadExceeds(names, want, 0);
      if k > 0 {
        LessIsTransitive(want, names[0], names[k]);
      }
    }
  }

  /** A name outside the block that the search chose is not want. */
  lemma OnlyInItsBlock(t: Table, names: seq<Bytes>, pos: seq<nat>, want: Bytes, block: nat)
    requires Encodes(t, names, pos) && block < |t.offsets|
    requires !HeadExceeds(names, want, block)
    requires block + 1 < |t.offsets| ==> HeadExceeds(names, want, block + 1)
    requires NoneOf(names, want, HeadOf(block), HeadOf(block + 1))
    ensures want !in names
  {
    var head, next := HeadOf(block), HeadOf(block + 1);
    LessIsIrreflexive(want);
    forall k | 0 <= k < |names|
      ensures names[k] != want
    {
      if k < head {
        assert Less(names[k], names[head]);
      } else if k >= next {
        assert HeadExceeds(names, want, block + 1);
        if k > next {
          LessIsTransitive(want, names[next], names[k]);
        }
      }
    }
  }
}
