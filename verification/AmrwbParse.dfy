/**
 * Push-mode framing of AMR-WB: after a nine-byte magic the stream is a sequence of blocks, whose sizes a
 * table gives for the mode in their first byte.
 */
module AmrwbParse {
  import opened Basics

  const HEADER: seq<byte> := [35, 33, 65, 77, 82, 45, 87, 66, 10]  // "#!AMR-WB\n"

  /** The time of one block: 320 samples at 16 kHz. */
  const BLOCK_TIME: nat := 20_000_000

  /** block_size: sixteen entries, one for each mode. */
  type SizeTable = t: seq<nat> | |t| == 16 witness seq(16, _ => 0)

  function Mode(b: byte): nat {
    b / 8 % 16
  }

  /** The block a first byte announces, that byte included. */
  function BlockBytes(table: SizeTable, first: byte): (n: nat)
    ensures n > 0
  {
    table[Mode(first)] + 1
  }

  predicate HasBlock(table: SizeTable, bytes: seq<byte>) {
    bytes != [] && |bytes| >= BlockBytes(table, bytes[0])
  }

  /** The complete blocks at the front of `bytes`, and what is left. */
  function Split(table: SizeTable, bytes: seq<byte>): (seq<seq<byte>>, seq<byte>)
    decreases |bytes|
  {
    if !HasBlock(table, bytes) then ([], bytes)
    else
      var n := BlockBytes(table, bytes[0]);
      var (blocks, rest) := Split(table, bytes[n..]);
      ([bytes[..n]] + blocks, rest)
  }

  datatype Frame = Frame(data: seq<byte>, ts: ClockTime)

  function NextTime(ts: ClockTime): ClockTime {
    if ts == CLOCK_TIME_NONE then ts else (ts + BLOCK_TIME) % TWO64
  }

  function TimeAfter(ts: ClockTime, n: nat): ClockTime {
    if n == 0 then ts else NextTime(TimeAfter(ts, n - 1))
  }

  /** The blocks with their times, the first at `ts`. */
  function Stamp(blocks: seq<seq<byte>>, ts: ClockTime): (r: seq<Frame>)
    ensures |r| == |blocks|
  {
    seq(|blocks|, k requires 0 <= k < |blocks| => Frame(blocks[k], TimeAfter(ts, k)))
  }

  /** Times advance by exactly one block each, unless they are unknown. */
  lemma {:induction false} ExactTimes(ts: ClockTime, n: nat)
    ensures ts == CLOCK_TIME_NONE ==> TimeAfter(ts, n) == CLOCK_TIME_NONE
    ensures ts != CLOCK_TIME_NONE && ts + n * BLOCK_TIME < CLOCK_TIME_NONE ==> TimeAfter(ts, n) == ts + n * BLOCK_TIME
  {
    if n > 0 {
      ExactTimes(ts, n - 1);
    }
  }

  /** Part-way through `all`: the blocks pushed so far, and what is left. */
  ghost predicate Progress(table: SizeTable, all: seq<byte>, start: ClockTime, left: seq<byte>, ts: ClockTime,
                           frames: seq<Frame>) {
    && |frames| <= |Split(table, all).0|
    && Split(table, left) == (Split(table, all).0[|frames|..], Split(table, all).1)
    && frames == Stamp(Split(table, all).0[..|frames|], start)
    && ts == TimeAfter(start, |frames|)
  }

  lemma ProgressStep(table: SizeTable, all: seq<byte>, start: ClockTime, left: seq<byte>, ts: ClockTime,
                     frames: seq<Frame>)
    requires Progress(table, all, start, left, ts, frames) && HasBlock(table, left)
    ensures var n := BlockBytes(table, left[0]);
            Progress(table, all, start, left[n..], NextTime(ts), frames + [Frame(left[..n], ts)])
  {
    var n, blocks, k := BlockBytes(table, left[0]), Split(table, all).0, |frames|;
    assert blocks[k] == blocks[k..][0] == left[..n];
    assert blocks[k..][1..] == blocks[k + 1..];
  }

  lemma ProgressStart(table: SizeTable, all: seq<byte>, start: ClockTime)
    ensures Progress(table, all, start, all, start, [])
  {
  }

  lemma ProgressEnd(table: SizeTable, all: seq<byte>, start: ClockTime, left: seq<byte>, ts: ClockTime,
                    frames: seq<Frame>)
    requires Progress(table, all, start, left, ts, frames) && !HasBlock(table, left)
    ensures left == Split(table, all).1 && frames == Stamp(Split(table, all).0, start)
    ensures ts == TimeAfter(start, |frames|)
  {
    var blocks := Split(table, all).0;
    assert |blocks[|frames|..]| == 0;
    assert blocks[..|frames|] == blocks;
  }

  datatype State = State(needHeader: bool, adapter: seq<byte>, ts: ClockTime)

  predicate HasHeader(bytes: seq<byte>) {
    |bytes| >= 9 && bytes[..9] == HEADER
  }

  /** One chain call on the values: the new state and the blocks pushed. */
  function Accept(table: SizeTable, s: State, data: seq<byte>, ts: ClockTime): (State, seq<Frame>) {
    var start := if ts != CLOCK_TIME_NONE then ts else s.ts;
    var bytes := s.adapter + data;
    if s.needHeader && !HasHeader(bytes) then (State(true, bytes, start), [])
    else
      var (blocks, rest) := Split(table, if s.needHeader then bytes[9..] else bytes);
      (State(false, rest, TimeAfter(start, |blocks|)), Stamp(blocks, start))
  }

  class Parser {
    const table: SizeTable
    var adapter: seq<byte>
    var needHeader: bool
    var ts: ClockTime
    var block: nat

    ghost function Now(): State
      reads this
    {
      State(needHeader, adapter, ts)
    }

    constructor (table: SizeTable)
      ensures this.table == table && Now() == State(true, [], CLOCK_TIME_NONE) && block == 0
    {
      this.table := table;
      adapter, needHeader, ts, block := [], true, CLOCK_TIME_NONE, 0;
    }

    /** gst_amrwbparse_chain; pushed(k) is what pushing the k-th block of this call returns. */
    method Chain(buffer: seq<byte>, timestamp: ClockTime, pushed: nat -> Flow) returns (res: Flow, frames: seq<Frame>)
      modifies this
      ensures (Now(), frames) == Accept(table, old(Now()), buffer, timestamp)
      ensures res == if frames == [] then FlowOk else pushed(|frames| - 1)
      ensures !needHeader && adapter != [] ==> block == BlockBytes(table, adapter[0]) > |adapter|
    {
      if timestamp != CLOCK_TIME_NONE {
        ts := timestamp;
      }
      adapter := adapter + buffer;
      if needHeader {
        if |adapter| < 9 {
          return FlowOk, [];
        }
        if adapter[..9] != HEADER {
          return FlowOk, [];
        }
        adapter := adapter[9..];
        needHeader := false;
      }
      res, frames := PushBlocks(pushed);
    }

    /** The loop: as long as the adapter holds a whole block, push it. */
    method PushBlocks(pushed: nat -> Flow) returns (res: Flow, frames: seq<Frame>)
      modifies `adapter, `ts, `block
      ensures adapter == Split(table, old(adapter)).1
      ensures ts == TimeAfter(old(ts), |frames|)
      ensures frames == Stamp(Split(table, old(adapter)).0, old(ts))
      ensures res == if frames == [] then FlowOk else pushed(|frames| - 1)
      ensures adapter != [] ==> block == BlockBytes(table, adapter[0]) > |adapter|
    {
      hide Split, Stamp, Progress;
      res, frames := FlowOk, [];
      ghost var all, start := adapter, ts;
      ProgressStart(table, all, start);
      while |adapter| >= 1
        invariant Progress(table, all, start, adapter, ts, frames)
        invariant res == if frames == [] then FlowOk else pushed(|frames| - 1)
        decreases |adapter|
      {
        block := table[Mode(adapter[0])] + 1;
        if |adapter| < block {
          break;
        }
        ProgressStep(table, all, start, adapter, ts, frames);
        var out := Frame(adapter[..block], ts);
        if ts != CLOCK_TIME_NONE {
          ts := (ts + BLOCK_TIME) % TWO64;
        }
        res := pushed(|frames|);
        frames := frames + [out];
        adapter := adapter[block..];
      }
      ProgressEnd(table, all, start, adapter, ts, frames);
    }
  }

  // ---------------------------------------------------------------------- splits

  /** Blocks can be split off before or after more bytes come in. */
  lemma {:induction false} SplitMore(table: SizeTable, a: seq<byte>, b: seq<byte>)
    ensures var (blocks, rest) := Split(table, a);
            Split(table, a + b) == (blocks + Split(table, rest + b).0, Split(table, rest + b).1)
    decreases |a|
  {
    if HasBlock(table, a) {
      var n := BlockBytes(table, a[0]);
      SplitMore(table, a[n..], b);
      assert (a + b)[n..] == a[n..] + b && (a + b)[..n] == a[..n];
      var (blocks, rest) := Split(table, a[n..]);
      var more := Split(table, rest + b).0;
      assert [a[..n]] + (blocks + more) == [a[..n]] + blocks + more;
    } else {
      assert [] + Split(table, a + b).0 == Split(table, a + b).0;
    }
  }

  /** Every block has the size its first byte announces, and what is left is less than a block. */
  lemma {:induction false} SplitBlocks(table: SizeTable, bytes: seq<byte>)
    ensures var (blocks, rest) := Split(table, bytes);
            && (forall k :: 0 <= k < |blocks| ==> blocks[k] != [] && |blocks[k]| == BlockBytes(table, blocks[k][0]))
            && !HasBlock(table, rest)
            && Concat(blocks) + rest == bytes
    decreases |bytes|
  {
    if HasBlock(table, bytes) {
      var n := BlockBytes(table, bytes[0]);
      SplitBlocks(table, bytes[n..]);
      var (blocks, rest) := Split(table, bytes[n..]);
      ConcatFront(bytes[..n], blocks, rest);
      assert bytes == bytes[..n] + bytes[n..];
    }
  }

  lemma ConcatFront(first: seq<byte>, blocks: seq<seq<byte>>, rest: seq<byte>)
    ensures Concat([first] + blocks) + rest == first + (Concat(blocks) + rest)
  {
    assert ([first] + blocks)[1..] == blocks;
  }

  datatype Input = Input(data: seq<byte>, ts: ClockTime)

  /** All frames of a run, and the state after it. */
  function Run(table: SizeTable, inputs: seq<Input>): (State, seq<Frame>) {
    if inputs == [] then (State(true, [], CLOCK_TIME_NONE), [])
    else
      var (s, frames) := Run(table, inputs[..|inputs| - 1]);
      var last := inputs[|inputs| - 1];
      var (t, more) := Accept(table, s, last.data, last.ts);
      (t, frames + more)
  }

  function Bytes(inputs: seq<Input>): seq<byte> {
    if inputs == [] then [] else Bytes(inputs[..|inputs| - 1]) + inputs[|inputs| - 1].data
  }

  function Data(frames: seq<Frame>): (r: seq<seq<byte>>)
    ensures |r| == |frames|
  {
    seq(|frames|, k requires 0 <= k < |frames| => frames[k].data)
  }

  /** Parsing the whole stream at once. */
  function OneShot(table: SizeTable, bytes: seq<byte>): (seq<seq<byte>>, seq<byte>) {
    if HasHeader(bytes) then Split(table, bytes[9..]) else ([], bytes)
  }

  lemma DataConcat(a: seq<Frame>, b: seq<Frame>)
    ensures Data(a + b) == Data(a) + Data(b)
  {
  }

  lemma StampData(blocks: seq<seq<byte>>, ts: ClockTime)
    ensures Data(Stamp(blocks, ts)) == blocks
  {
  }

  /** What holds of the state and the blocks so far, given the bytes so far. */
  ghost predicate Parsed(table: SizeTable, bytes: seq<byte>, s: State, blocks: seq<seq<byte>>) {
    && s.needHeader == !HasHeader(bytes)
    && OneShot(table, bytes) == (blocks, s.adapter)
  }

  lemma AcceptParses(table: SizeTable, bytes: seq<byte>, s: State, blocks: seq<seq<byte>>,
                     data: seq<byte>, ts: ClockTime)
    requires Parsed(table, bytes, s, blocks)
    ensures var (t, more) := Accept(table, s, data, ts); Parsed(table, bytes + data, t, blocks + Data(more))
  {
    var (t, more) := Accept(table, s, data, ts);
    var start := if ts != CLOCK_TIME_NONE then ts else s.ts;
    if s.needHeader {
      assert s.adapter + data == bytes + data;
      if HasHeader(bytes + data) {
        StampData(Split(table, (bytes + data)[9..]).0, start);
        assert [] + Data(more) == Data(more);
      } else {
        assert blocks + Data(more) == [];
      }
    } else {
      assert (bytes + data)[9..] == bytes[9..] + data && (bytes + data)[..9] == bytes[..9];
      SplitMore(table, bytes[9..], data);
      StampData(Split(table, s.adapter + data).0, start);
    }
  }

  /**
   * However the stream is cut into buffers, the blocks pushed are those a parse of the whole stream yields,
   * and the adapter keeps what that parse leaves; without the magic nothing is ever pushed.
   */
  lemma {:induction false} ChunkIndependent(table: SizeTable, inputs: seq<Input>)
    ensures var (s, frames) := Run(table, inputs);
            Parsed(table, Bytes(inputs), s, Data(frames))
  {
    if inputs != [] {
      var prefix, last := inputs[..|inputs| - 1], inputs[|inputs| - 1];
      hide Accept, Parsed;
      ChunkIndependent(table, prefix);
      var (s, frames) := Run(table, prefix);
      var (t, more) := Accept(table, s, last.data, last.ts);
      AcceptParses(table, Bytes(prefix), s, Data(frames), last.data, last.ts);
      DataConcat(frames, more);
    } else {
      assert Data([]) == [];
    }
  }

  lemma HeaderFirst(bytes: seq<byte>, blocks: seq<byte>, rest: seq<byte>)
    requires HasHeader(bytes) && blocks + rest == bytes[9..]
    ensures HEADER + blocks + rest == bytes
  {
    assert bytes == bytes[..9] + bytes[9..];
    assert HEADER + blocks + rest == HEADER + (blocks + rest);
  }

  /** Header, pushed blocks and leftover together are the input. */
  lemma NothingLost(table: SizeTable, inputs: seq<Input>)
    ensures var (s, frames) := Run(table, inputs);
            if s.needHeader then frames == [] && s.adapter == Bytes(inputs)
            else HEADER + Concat(Data(frames)) + s.adapter == Bytes(inputs) && !HasBlock(table, s.adapter)
  {
    hide Run, Split, Bytes, Data;
    ChunkIndependent(table, inputs);
    var bytes := Bytes(inputs);
    var (s, frames) := Run(table, inputs);
    if s.needHeader {
      assert |frames| == |Data(frames)| == 0;
    } else {
      SplitBlocks(table, bytes[9..]);
      HeaderFirst(bytes, Concat(Data(frames)), s.adapter);
    }
  }

  lemma {:induction false} TimeAfterSum(ts: ClockTime, a: nat, b: nat)
    ensures TimeAfter(TimeAfter(ts, a), b) == TimeAfter(ts, a + b)
  {
    if b > 0 {
      TimeAfterSum(ts, a, b - 1);
    }
  }

  lemma StampConcat(a: seq<seq<byte>>, b: seq<seq<byte>>, ts: ClockTime)
    ensures Stamp(a + b, ts) == Stamp(a, ts) + Stamp(b, TimeAfter(ts, |a|))
  {
    forall k: nat | k < |b|
      ensures TimeAfter(TimeAfter(ts, |a|), k) == TimeAfter(ts, |a| + k)
    {
      TimeAfterSum(ts, |a|, k);
    }
  }

  /** The frames of one call are stamped from the time the call starts with. */
  lemma AcceptStamps(table: SizeTable, s: State, data: seq<byte>, ts: ClockTime)
    ensures var (t, more) := Accept(table, s, data, ts);
            var start := if ts != CLOCK_TIME_NONE then ts else s.ts;
            more == Stamp(Data(more), start) && t.ts == TimeAfter(start, |more|)
  {
  }

  /** When only the first buffer has a time, the times do not depend on the cuts either. */
  lemma {:induction false} TimesChunkIndependent(table: SizeTable, inputs: seq<Input>)
    requires inputs != [] && forall i :: 1 <= i < |inputs| ==> inputs[i].ts == CLOCK_TIME_NONE
    ensures var (s, frames) := Run(table, inputs);
            && frames == Stamp(OneShot(table, Bytes(inputs)).0, inputs[0].ts)
            && s.ts == TimeAfter(inputs[0].ts, |frames|)
  {
    hide Accept, Split, Stamp, TimeAfter;
    ChunkIndependent(table, inputs);
    var prefix, last := inputs[..|inputs| - 1], inputs[|inputs| - 1];
    var (s, frames) := Run(table, prefix);
    var (t, more) := Accept(table, s, last.data, last.ts);
    DataConcat(frames, more);
    if prefix == [] {
      AcceptStamps(table, s, last.data, last.ts);
      assert frames + more == more;
    } else {
      TimesChunkIndependent(table, prefix);
      AcceptStamps(table, s, last.data, last.ts);
      StampConcat(Data(frames), Data(more), inputs[0].ts);
      TimeAfterSum(inputs[0].ts, |frames|, |more|);
      ChunkIndependent(table, prefix);
    }
  }

  // ----------------------------------------------------------- streams of coded blocks

  /** A block as an encoder writes it: one byte with the mode in its middle four bits, then the mode's payload. */
  datatype Coded = Coded(top: nat, mode: nat, low: nat, payload: seq<byte>) {
    predicate Valid(table: SizeTable) {
      top < 2 && mode < 16 && low < 8 && |payload| == table[mode]
    }

    function Block(table: SizeTable): (b: seq<byte>)
      requires Valid(table)
      ensures |b| == 1 + table[mode]
    {
      [128 * top + 8 * mode + low] + payload
    }
  }

  ghost predicate AllValid(table: SizeTable, coded: seq<Coded>) {
    forall k :: 0 <= k < |coded| ==> coded[k].Valid(table)
  }

  function Blocks(table: SizeTable, coded: seq<Coded>): (r: seq<seq<byte>>)
    requires AllValid(table, coded)
    ensures |r| == |coded|
    ensures forall k :: 0 <= k < |r| ==> r[k] == coded[k].Block(table)
  {
    seq(|coded|, k requires 0 <= k < |coded| => coded[k].Block(table))
  }

  /** The size of a block can be told from its first byte. */
  lemma CodedSize(table: SizeTable, c: Coded)
    requires c.Valid(table)
    ensures BlockBytes(table, c.Block(table)[0]) == |c.Block(table)|
  {
    ModeBits(16 * c.top + c.mode, c.low);
  }

  lemma ModeBits(n: nat, low: nat)
    requires low < 8
    ensures (8 * n + low) / 8 == n
  {
  }

  /** Only the front of a block is there. */
  lemma CodedTail(table: SizeTable, c: Coded, n: nat)
    requires c.Valid(table) && n < |c.Block(table)|
    ensures Split(table, c.Block(table)[..n]) == ([], c.Block(table)[..n])
  {
    CodedSize(table, c);
  }

  lemma SplitFirst(table: SizeTable, c: Coded, rest: seq<byte>)
    requires c.Valid(table)
    ensures Split(table, c.Block(table) + rest) == ([c.Block(table)] + Split(table, rest).0, Split(table, rest).1)
  {
    CodedSize(table, c);
    var block := c.Block(table);
    assert (block + rest)[..|block|] == block && (block + rest)[|block|..] == rest;
  }

  lemma {:induction false} SplitCoded(table: SizeTable, coded: seq<Coded>, tail: seq<byte>)
    requires AllValid(table, coded) && Split(table, tail) == ([], tail)
    ensures Split(table, Concat(Blocks(table, coded)) + tail) == (Blocks(table, coded), tail)
  {
    var blocks := Blocks(table, coded);
    if coded == [] {
      assert blocks == [] && Concat(blocks) + tail == tail;
    } else {
      hide Split, Coded.Block, Coded.Valid;
      var rest := Blocks(table, coded[1..]);
      SplitCoded(table, coded[1..], tail);
      assert blocks[1..] == rest && blocks == [blocks[0]] + rest;
      assert Concat(blocks) + tail == blocks[0] + (Concat(rest) + tail);
      SplitFirst(table, coded[0], Concat(rest) + tail);
    }
  }

  /** A stream: the magic, whole blocks, and the first n bytes of one more. */
  function Stream(table: SizeTable, coded: seq<Coded>, next: Coded, n: nat): seq<byte>
    requires AllValid(table, coded) && next.Valid(table) && n < |next.Block(table)|
  {
    [35, 33, 65, 77, 82, 45, 87, 66, 10] + (Concat(Blocks(table, coded)) + next.Block(table)[..n])
  }

  lemma StreamParses(table: SizeTable, coded: seq<Coded>, next: Coded, n: nat)
    requires AllValid(table, coded) && next.Valid(table) && n < |next.Block(table)|
    ensures HasHeader(Stream(table, coded, next, n))
    ensures OneShot(table, Stream(table, coded, next, n)) == (Blocks(table, coded), next.Block(table)[..n])
  {
    hide Split, Coded.Block, Coded.Valid, Concat;
    CodedTail(table, next, n);
    SplitCoded(table, coded, next.Block(table)[..n]);
    var bytes := Stream(table, coded, next, n);
    assert bytes[9..] == Concat(Blocks(table, coded)) + next.Block(table)[..n];
  }

  /**
   * However a stream of coded blocks is cut into buffers, the blocks pushed are those it was made of, and the start
   * of an incomplete one stays in the adapter.
   */
  lemma ParsesCoded(table: SizeTable, inputs: seq<Input>, coded: seq<Coded>, next: Coded, n: nat)
    requires AllValid(table, coded) && next.Valid(table) && n < |next.Block(table)|
    requires Bytes(inputs) == Stream(table, coded, next, n)
    ensures var (s, frames) := Run(table, inputs);
            Data(frames) == Blocks(table, coded) && s.adapter == next.Block(table)[..n] && !s.needHeader
  {
    hide Split, Coded.Block, Coded.Valid, Stream, Run, Bytes, Data, OneShot;
    ChunkIndependent(table, inputs);
    StreamParses(table, coded, next, n);
  }

  /** No later buffer than buffer j has a time; j has one, or is the first. */
  predicate LastTime(inputs: seq<Input>, j: nat) {
    && j < |inputs| && (j == 0 || inputs[j].ts != CLOCK_TIME_NONE)
    && forall i :: j < i < |inputs| ==> inputs[i].ts == CLOCK_TIME_NONE
  }

  /** The frames are stamped from `start` on, and so will be the next. */
  ghost predicate StampedFrom(frames: seq<Frame>, start: ClockTime, next: ClockTime) {
    frames == Stamp(Data(frames), start) && next == TimeAfter(start, |frames|)
  }

  lemma StampedMore(frames: seq<Frame>, more: seq<Frame>, start: ClockTime, next: ClockTime, after: ClockTime)
    requires StampedFrom(frames, start, next) && StampedFrom(more, next, after)
    ensures StampedFrom(frames + more, start, after)
  {
    hide TimeAfter, Stamp, Data;
    DataConcat(frames, more);
    StampConcat(Data(frames), Data(more), start);
    TimeAfterSum(start, |frames|, |more|);
  }

  /** The blocks pushed from a buffer with a time on are stamped from that time, block by block. */
  lemma {:induction false} TimesSinceLast(table: SizeTable, inputs: seq<Input>, j: nat)
    requires LastTime(inputs, j)
    ensures var before := Run(table, inputs[..j]).1;
            var (s, frames) := Run(table, inputs);
            before <= frames && StampedFrom(frames[|before|..], inputs[j].ts, s.ts)
    decreases |inputs|
  {
    hide Accept, StampedFrom;
    var prefix, last := inputs[..|inputs| - 1], inputs[|inputs| - 1];
    var before := Run(table, inputs[..j]).1;
    var (s, frames) := Run(table, prefix);
    AcceptStampsFrom(table, s, last);
    var (t, more) := Accept(table, s, last.data, last.ts);
    if j == |inputs| - 1 {
      assert (frames + more)[|before|..] == more;
    } else {
      assert prefix[..j] == inputs[..j];
      TimesSinceLast(table, prefix, j);
      StampedMore(frames[|before|..], more, inputs[j].ts, s.ts, t.ts);
      assert (frames + more)[|before|..] == frames[|before|..] + more;
    }
  }

  lemma AcceptStampsFrom(table: SizeTable, s: State, input: Input)
    ensures var (t, more) := Accept(table, s, input.data, input.ts);
            StampedFrom(more, if input.ts != CLOCK_TIME_NONE then input.ts else s.ts, t.ts)
  {
    hide Accept;
    AcceptStamps(table, s, input.data, input.ts);
  }

  /** Such a block starts exactly 20 ms for every block before it after that time. */
  lemma BlockTimes(table: SizeTable, inputs: seq<Input>, j: nat, k: nat)
    requires LastTime(inputs, j) && |Run(table, inputs[..j]).1| <= k < |Run(table, inputs).1|
    ensures var ts, start := Run(table, inputs).1[k].ts, inputs[j].ts;
            var exact := start + (k - |Run(table, inputs[..j]).1|) * 20_000_000;
            && (start == CLOCK_TIME_NONE ==> ts == CLOCK_TIME_NONE)
            && (exact < CLOCK_TIME_NONE ==> ts == exact)
  {
    TimesSinceLast(table, inputs, j);
    hide Run, TimeAfter;
    var from := |Run(table, inputs[..j]).1|;
    ExactTimes(inputs[j].ts, k - from);
    assert Run(table, inputs).1[from..][k - from] == Run(table, inputs).1[k];
  }
}
