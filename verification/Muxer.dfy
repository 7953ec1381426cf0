/**
 * The muxer's choice of the next buffer, and the order in which whole streams get written. Each queue
 * holds all buffers a pad still has to deliver; an empty queue is a pad at its end. (Collect-pads calls
 * back only when every pad that is not at its end has a buffer.)
 */
module Muxer {
  import opened Basics
  import opened TimeConversion

  datatype Buffer = Buffer(data: seq<byte>, ts: ClockTime, dur: ClockTime, delta: bool)

  /** An AVPacket; dts is always equal to pts. */
  datatype Packet = Packet(pad: nat, data: seq<byte>, pts: int, dts: int, duration: int, key: bool)

  type Queues = seq<seq<Buffer>>

  function PacketOf(pad: nat, b: Buffer, base: TimeBase): Packet
    requires base.Valid()
  {
    Packet(pad, b.data, GstToFf(b.ts, base), GstToFf(b.ts, base),
           if b.dur != CLOCK_TIME_NONE then GstToFf(b.dur, base) else 0, !b.delta)
  }

  ghost predicate AllEmpty(qs: Queues) {
    forall j :: 0 <= j < |qs| ==> qs[j] == []
  }

  ghost predicate IsFirst(qs: Queues, i: nat) {
    i < |qs| && qs[i] != [] && forall j :: 0 <= j < i ==> qs[j] == []
  }

  /** Among the first n pads pad i has the earliest head, and among equals it comes first. */
  ghost predicate IsLeastOf(qs: Queues, n: nat, i: nat) {
    && i < n <= |qs| && qs[i] != []
    && (forall j :: 0 <= j < n && qs[j] != [] ==> qs[i][0].ts <= qs[j][0].ts)
    && (forall j :: 0 <= j < i && qs[j] != [] ==> qs[i][0].ts < qs[j][0].ts)
  }

  ghost predicate IsLeast(qs: Queues, i: nat) {
    IsLeastOf(qs, |qs|, i)
  }

  /** The pad served next; an unknown time only goes first on the first pad that has a buffer. */
  ghost predicate IsChoice(qs: Queues, i: nat) {
    || (IsFirst(qs, i) && qs[i][0].ts == CLOCK_TIME_NONE)
    || (IsLeast(qs, i) && forall k: nat :: IsFirst(qs, k) ==> qs[k][0].ts != CLOCK_TIME_NONE)
  }

  function FirstNonEmpty(qs: Queues): (i: nat)
    ensures i <= |qs| && (i < |qs| ==> IsFirst(qs, i)) && (i == |qs| ==> AllEmpty(qs))
  {
    if qs == [] || qs[0] != [] then 0 else 1 + FirstNonEmpty(qs[1..])
  }

  function Least(qs: Queues): (i: nat)
    requires !AllEmpty(qs)
    ensures IsLeast(qs, i)
  {
    if FirstNonEmpty(qs[1..]) == |qs| - 1 then 0
    else
      var k := FirstNonEmpty(qs[1..]);
      assert qs[1..][k] != [];
      var rest := Least(qs[1..]);
      if qs[0] != [] && qs[0][0].ts <= qs[1..][rest][0].ts then 0 else rest + 1
  }

  function Choose(qs: Queues): (choice: Option<nat>)
    ensures choice.None? <==> AllEmpty(qs)
    ensures choice.Some? ==> IsChoice(qs, choice.value)
  {
    var k := FirstNonEmpty(qs);
    if k == |qs| then None
    else if qs[k][0].ts == CLOCK_TIME_NONE then Some(k)
    else
      assert forall j: nat :: IsFirst(qs, j) ==> j == k;
      Some(Least(qs))
  }

  lemma ChoiceUnique(qs: Queues, i: nat, j: nat)
    requires IsChoice(qs, i) && IsChoice(qs, j)
    ensures i == j
  {
  }

  function Pop(qs: Queues, i: nat): Queues
    requires i < |qs| && qs[i] != []
  {
    qs[i := qs[i][1..]]
  }

  /** What opening the output, setting the parameters and writing the header report. */
  datatype Opening = Opening(fileOpens: bool, parametersSet: bool, headerWritten: bool) {
    predicate Succeeds() {
      fileOpens && parametersSet && headerWritten
    }
  }

  class FFMpegMux {
    const bases: seq<TimeBase>
    var queues: Queues
    var isOpen: bool

    ghost predicate Valid()
      reads this
    {
      |bases| == |queues| && forall k :: 0 <= k < |bases| ==> bases[k].Valid()
    }

    constructor (queues: Queues, bases: seq<TimeBase>)
      requires |bases| == |queues| && forall k :: 0 <= k < |bases| ==> bases[k].Valid()
      ensures Valid() && this.queues == queues && this.bases == bases && !isOpen
    {
      this.queues, this.bases, isOpen := queues, bases, false;
    }

    /** The loop over the pads. */
    method BestPad() returns (best: Option<nat>)
      ensures best == Choose(queues)
    {
      var bestTime := CLOCK_TIME_NONE;
      best := None;
      ghost var first := 0;
      var p := 0;
      while p < |queues|
        invariant p <= |queues|
        invariant best == None ==> forall j :: 0 <= j < p ==> queues[j] == []
        invariant best.Some? ==>
                    && IsLeastOf(queues, p, best.value) && bestTime == queues[best.value][0].ts
                    && IsFirst(queues, first) && queues[first][0].ts != CLOCK_TIME_NONE && first < p
      {
        if queues[p] != [] {
          if best == None {
            best, bestTime, first := Some(p), queues[p][0].ts, p;
          } else if queues[p][0].ts < bestTime {
            best, bestTime := Some(p), queues[p][0].ts;
          }
          if bestTime == CLOCK_TIME_NONE {
            ChoiceUnique(queues, p, Choose(queues).value);
            return;
          }
        }
        p := p + 1;
      }
      if best.Some? {
        ChoiceUnique(queues, best.value, Choose(queues).value);
      }
    }

    /** The part that opens the output: every pad must have its caps, and each step must succeed. */
    method Open(caps: seq<bool>, opening: Opening) returns (ok: bool)
      requires |caps| == |queues|
      modifies `isOpen
      ensures ok <==> (forall p :: 0 <= p < |caps| ==> caps[p]) && opening.Succeeds()
      ensures isOpen == (old(isOpen) || ok)
    {
      for p := 0 to |caps|
        invariant forall k :: 0 <= k < p ==> caps[k]
      {
        if !caps[p] {
          return false;
        }
      }
      if !opening.fileOpens {
        return false;
      }
      if !opening.parametersSet {
        return false;
      }
      if !opening.headerWritten {
        return false;
      }
      isOpen := true;
      return true;
    }

    /**
     * gst_ffmpegmux_collected: opens the output if need be, then writes the earliest buffer, or the trailer when no
     * pad has one. `caps` says which pads have their caps, `opening` how opening goes.
     */
    method Collected(caps: seq<bool>, opening: Opening) returns (ret: Flow, packet: Option<Packet>)
      requires Valid() && |caps| == |queues|
      modifies this
      ensures Valid()
      ensures ret == FlowError
              <==> !old(isOpen) && !((forall p :: 0 <= p < |caps| ==> caps[p]) && opening.Succeeds())
      ensures ret == FlowError ==> packet == None && unchanged(this)
      ensures ret != FlowError ==>
                match Choose(old(queues))
                case None => ret == FlowUnexpected && packet == None && queues == old(queues) && !isOpen
                case Some(i) =>
                  && ret == FlowOk && isOpen && queues == Pop(old(queues), i)
                  && packet == Some(PacketOf(i, old(queues)[i][0], bases[i]))
    {
      if !isOpen {
        var ok := Open(caps, opening);
        if !ok {
          return FlowError, None;
        }
      }
      var best := BestPad();
      match best {
        case None =>
          isOpen := false;
          return FlowUnexpected, None;
        case Some(i) =>
          var buf := queues[i][0];
          queues := queues[i := queues[i][1..]];
          return FlowOk, Some(PacketOf(i, buf, bases[i]));
      }
    }
  }

  // ------------------------------------------------------------------ whole runs

  function Total(qs: Queues): nat {
    if qs == [] then 0 else |qs[0]| + Total(qs[1..])
  }

  lemma {:induction false} TotalPop(qs: Queues, i: nat)
    requires i < |qs| && qs[i] != []
    ensures Total(Pop(qs, i)) == Total(qs) - 1
  {
    if i > 0 {
      assert Pop(qs, i)[1..] == Pop(qs[1..], i - 1);
      TotalPop(qs[1..], i - 1);
    }
  }

  lemma {:induction false} TotalEmpty(qs: Queues)
    requires AllEmpty(qs)
    ensures Total(qs) == 0
  {
    if qs != [] {
      assert qs[0] == [];
      forall j | 0 <= j < |qs[1..]|
        ensures qs[1..][j] == []
      {
        assert qs[j + 1] == [];
      }
      TotalEmpty(qs[1..]);
    }
  }

  /** A buffer written, with its pad. */
  datatype Written = Written(pad: nat, buffer: Buffer)

  /** All buffers written when the callback runs until it returns UNEXPECTED. */
  function Mux(qs: Queues): (out: seq<Written>)
    decreases Total(qs)
  {
    match Choose(qs)
    case None => []
    case Some(i) =>
      TotalPop(qs, i);
      [Written(i, qs[i][0])] + Mux(Pop(qs, i))
  }

  /** How often the callback runs, the last time to write the trailer. */
  function Callbacks(qs: Queues): nat
    decreases Total(qs)
  {
    match Choose(qs)
    case None => 1
    case Some(i) =>
      TotalPop(qs, i);
      1 + Callbacks(Pop(qs, i))
  }

  /** The run ends after one callback for each buffer, and one more. */
  lemma {:induction false} CallbackCount(qs: Queues)
    ensures Callbacks(qs) == Total(qs) + 1 && |Mux(qs)| == Total(qs)
    decreases Total(qs)
  {
    match Choose(qs)
    case None => TotalEmpty(qs);
    case Some(i) =>
      TotalPop(qs, i);
      CallbackCount(Pop(qs, i));
  }

  function OfPad(out: seq<Written>, pad: nat): seq<Buffer> {
    if out == [] then []
    else (if out[0].pad == pad then [out[0].buffer] else []) + OfPad(out[1..], pad)
  }

  /** Each pad's buffers are all written, each once, in the pad's order. */
  lemma {:induction false} EachPadInOrder(qs: Queues, pad: nat)
    requires pad < |qs|
    ensures OfPad(Mux(qs), pad) == qs[pad]
    decreases Total(qs)
  {
    match Choose(qs)
    case None =>
    case Some(i) =>
      TotalPop(qs, i);
      EachPadInOrder(Pop(qs, i), pad);
      assert Mux(qs)[1..] == Mux(Pop(qs, i));
      if pad == i {
        assert qs[i] == [qs[i][0]] + qs[i][1..];
      }
  }

  /** Every pad's times are known and do not decrease. */
  ghost predicate Timed(qs: Queues) {
    forall p :: 0 <= p < |qs| ==> TimedQueue(qs[p])
  }

  ghost predicate TimedQueue(q: seq<Buffer>) {
    && (forall k :: 0 <= k < |q| ==> q[k].ts != CLOCK_TIME_NONE)
    && (forall j, k :: 0 <= j < k < |q| ==> q[j].ts <= q[k].ts)
  }

  /** Earlier in time, or at the same time on a pad that is not later. */
  predicate Before(a: Written, b: Written) {
    a.buffer.ts < b.buffer.ts || (a.buffer.ts == b.buffer.ts && a.pad <= b.pad)
  }

  lemma TimedPop(qs: Queues, i: nat)
    requires Timed(qs) && i < |qs| && qs[i] != []
    ensures Timed(Pop(qs, i))
  {
    forall p | 0 <= p < |qs|
      ensures TimedQueue(Pop(qs, i)[p])
    {
      assert TimedQueue(qs[p]);
    }
  }

  lemma {:induction false} MuxComesFromQueues(qs: Queues, k: nat)
    requires k < |Mux(qs)|
    ensures Mux(qs)[k].pad < |qs| && Mux(qs)[k].buffer in qs[Mux(qs)[k].pad]
    decreases Total(qs)
  {
    var i := Choose(qs).value;
    TotalPop(qs, i);
    if k > 0 {
      MuxComesFromQueues(Pop(qs, i), k - 1);
    }
  }

  lemma ChosenIsFirst(qs: Queues, w: Written)
    requires Timed(qs) && !AllEmpty(qs) && w.pad < |qs| && w.buffer in qs[w.pad]
    ensures var i := Choose(qs).value; Before(Written(i, qs[i][0]), w)
  {
    var i := Choose(qs).value;
    assert TimedQueue(qs[i]) && TimedQueue(qs[w.pad]);
    var k :| 0 <= k < |qs[w.pad]| && qs[w.pad][k] == w.buffer;
    assert qs[w.pad][0].ts <= w.buffer.ts;
  }

  lemma AfterFirst(qs: Queues) returns (rest: Queues)
    requires Timed(qs) && Mux(qs) != []
    ensures Timed(rest) && Total(rest) < Total(qs) && Mux(rest) == Mux(qs)[1..]
  {
    var i := Choose(qs).value;
    rest := Pop(qs, i);
    TotalPop(qs, i);
    TimedPop(qs, i);
  }

  lemma ChosenGoesFirst(qs: Queues, k: nat)
    requires Timed(qs) && k < |Mux(qs)|
    ensures Before(Mux(qs)[0], Mux(qs)[k])
  {
    MuxComesFromQueues(qs, k);
    ChosenIsFirst(qs, Mux(qs)[k]);
  }

  /**
   * With known, nondecreasing times on each pad the whole output is ordered by time, and buffers with
   * the same time are ordered by pad.
   */
  lemma {:induction false} OutputOrdered(qs: Queues, j: nat, k: nat)
    requires Timed(qs) && j < k < |Mux(qs)|
    ensures Before(Mux(qs)[j], Mux(qs)[k])
    decreases Total(qs)
  {
    hide *;
    if j > 0 {
      var rest := AfterFirst(qs);
      OutputOrdered(rest, j - 1, k - 1);
    } else {
      ChosenGoesFirst(qs, k);
    }
  }

  /**
   * So each stream of packets gets nondecreasing decoding times, but for times so large that they are taken for
   * negative ones.
   */
  lemma StreamTimesIff(qs: Queues, base: TimeBase, j: nat, k: nat)
    requires Timed(qs) && j < k < |Mux(qs)| && Mux(qs)[j].pad == Mux(qs)[k].pad
    requires base.Valid() && base.num > 0
    ensures var (t, u) := (Mux(qs)[j].buffer.ts, Mux(qs)[k].buffer.ts);
            PacketOf(Mux(qs)[j].pad, Mux(qs)[j].buffer, base).dts
            <= PacketOf(Mux(qs)[k].pad, Mux(qs)[k].buffer, base).dts
            <==> u < HALF || HALF <= t || (BelowHalfTick(t, base) && BelowHalfTick(TWO64 - u, base))
  {
    hide Mux, GstToFf, BelowHalfTick;
    OutputOrdered(qs, j, k);
    KnownTime(qs, k);
    TicksMonotoneIff(Mux(qs)[j].buffer.ts, Mux(qs)[k].buffer.ts, base);
  }

  lemma KnownTime(qs: Queues, k: nat)
    requires Timed(qs) && k < |Mux(qs)|
    ensures Mux(qs)[k].buffer.ts != CLOCK_TIME_NONE
  {
    MuxComesFromQueues(qs, k);
    var w := Mux(qs)[k];
    assert TimedQueue(qs[w.pad]);
  }

  // ------------------------------------------------------------------ the packets of a run

  /** All packets of a run. */
  function Packets(out: seq<Written>, bases: seq<TimeBase>): seq<Packet>
    requires forall k :: 0 <= k < |bases| ==> bases[k].Valid()
    requires forall k :: 0 <= k < |out| ==> out[k].pad < |bases|
  {
    seq(|out|, k requires 0 <= k < |out| => PacketOf(out[k].pad, out[k].buffer, bases[out[k].pad]))
  }

  function OfStream(packets: seq<Packet>, pad: nat): seq<Packet> {
    if packets == [] then []
    else (if packets[0].pad == pad then [packets[0]] else []) + OfStream(packets[1..], pad)
  }

  /** The packet holds the buffer: its data, its key mark, and its times in ticks; no duration is written as 0. */
  ghost predicate Holds(p: Packet, b: Buffer, base: TimeBase) {
    && p.data == b.data && (p.key <==> !b.delta)
    && IsTicks(b.ts, base, p.pts) && p.dts == p.pts
    && (if b.dur == CLOCK_TIME_NONE then p.duration == 0 else IsTicks(b.dur, base, p.duration))
  }

  lemma PacketHolds(pad: nat, b: Buffer, base: TimeBase)
    requires base.Valid()
    ensures Holds(PacketOf(pad, b, base), b, base)
  {
    hide IsTicks, GstToFf;
    TicksOfTimeIff(b.ts, base, GstToFf(b.ts, base));
    if b.dur != CLOCK_TIME_NONE {
      TicksOfTimeIff(b.dur, base, GstToFf(b.dur, base));
    }
  }

  /** One packet for each buffer, in order. */
  ghost predicate AllHold(sent: seq<Packet>, buffers: seq<Buffer>, base: TimeBase) {
    && |sent| == |buffers|
    && forall k :: 0 <= k < |sent| ==> Holds(sent[k], buffers[k], base)
  }

  lemma HoldMore(p: Packet, b: Buffer, sent: seq<Packet>, buffers: seq<Buffer>, base: TimeBase)
    requires Holds(p, b, base) && AllHold(sent, buffers, base)
    ensures AllHold([p] + sent, [b] + buffers, base)
  {
    hide Holds;
  }

  lemma {:induction false} StreamHolds(out: seq<Written>, bases: seq<TimeBase>, pad: nat)
    requires forall k :: 0 <= k < |bases| ==> bases[k].Valid()
    requires forall k :: 0 <= k < |out| ==> out[k].pad < |bases|
    requires pad < |bases|
    ensures AllHold(OfStream(Packets(out, bases), pad), OfPad(out, pad), bases[pad])
  {
    if out != [] {
      hide Holds, PacketOf, AllHold;
      StreamHolds(out[1..], bases, pad);
      var w, rest := out[0], OfStream(Packets(out[1..], bases), pad);
      assert Packets(out, bases)[1..] == Packets(out[1..], bases);
      PacketPad(w.pad, w.buffer, bases[w.pad]);
      if w.pad == pad {
        PacketHolds(pad, w.buffer, bases[pad]);
        HoldMore(PacketOf(pad, w.buffer, bases[pad]), w.buffer, rest, OfPad(out[1..], pad), bases[pad]);
      } else {
        assert [] + rest == rest && [] + OfPad(out[1..], pad) == OfPad(out[1..], pad);
      }
    }
  }

  lemma PacketPad(pad: nat, b: Buffer, base: TimeBase)
    requires base.Valid()
    ensures PacketOf(pad, b, base).pad == pad
  {
  }

  /** The packets of each stream hold the buffers of its pad, one each, in order. */
  lemma PacketsHoldBuffers(qs: Queues, bases: seq<TimeBase>, pad: nat)
    requires |bases| == |qs| && (forall k :: 0 <= k < |bases| ==> bases[k].Valid()) && pad < |qs|
    ensures forall k :: 0 <= k < |Mux(qs)| ==> Mux(qs)[k].pad < |bases|
    ensures AllHold(OfStream(Packets(Mux(qs), bases), pad), qs[pad], bases[pad])
  {
    hide Mux, Packets, AllHold;
    forall k | 0 <= k < |Mux(qs)|
      ensures Mux(qs)[k].pad < |bases|
    {
      MuxComesFromQueues(qs, k);
    }
    EachPadInOrder(qs, pad);
    StreamHolds(Mux(qs), bases, pad);
  }
}
