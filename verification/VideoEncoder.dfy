/**
 * The encoder's video side: an encoder may swallow some pictures before it outputs the first, so input
 * buffers wait in a queue and lend their times to the outputs in order.
 */
module VideoEncoder {
  import opened Basics

  datatype Picture = Picture(data: seq<byte>, ts: ClockTime, dur: ClockTime)

  /** What one call of the encoder returns: an error, or its output, which may be empty. */
  datatype Encoded = Failed | Produced(data: seq<byte>, key: bool)

  datatype Output = Output(data: seq<byte>, ts: ClockTime, dur: ClockTime, delta: bool)

  /** An output takes its times from an input. */
  function Stamped(e: Encoded, p: Picture): Output
    requires e.Produced?
  {
    Output(e.data, p.ts, p.dur, !e.key)
  }

  /** The number of successful encoder calls before the first failure, at most n. */
  function Successes(calls: nat -> Encoded, n: nat): (k: nat)
    ensures k <= n
    ensures forall i: nat :: i < k ==> calls(i).Produced?
    ensures k < n ==> calls(k).Failed?
  {
    if n == 0 then 0
    else
      var k := Successes(calls, n - 1);
      if k == n - 1 && calls(k).Produced? then n else k
  }

  /** The outputs for the first n queued pictures. */
  function Drained(queue: seq<Picture>, calls: nat -> Encoded, n: nat): (outs: seq<Output>)
    requires n <= |queue| && forall i: nat :: i < n ==> calls(i).Produced?
    ensures |outs| == n
  {
    seq(n, k requires 0 <= k < n => Stamped(calls(k), queue[k]))
  }

  lemma NothingYet(queue: seq<Picture>, calls: nat -> Encoded)
    ensures Successes(calls, 0) == 0 && Drained(queue, calls, 0) == []
  {
  }

  /** One more successful call. */
  lemma OneMore(queue: seq<Picture>, calls: nat -> Encoded, n: nat)
    requires n < |queue| && Successes(calls, n) == n && calls(n).Produced?
    ensures Successes(calls, n + 1) == n + 1
    ensures Drained(queue, calls, n + 1) == Drained(queue, calls, n) + [Stamped(calls(n), queue[n])]
  {
  }

  datatype Op =
    | Encode(inbuf: Picture, frameSize: nat, call: Encoded)
    | Flush(send: bool, calls: nat -> Encoded)

  /** An accepted picture that left the queue: its times went out with an output, or it was dropped. */
  datatype Left = Left(picture: Picture, output: Option<Output>)

  datatype State = State(isOpen: bool, delay: seq<Picture>, accepted: seq<Picture>, left: seq<Left>)

  function Leaving(queue: seq<Picture>, send: bool, calls: nat -> Encoded, n: nat): (r: seq<Left>)
    requires n <= |queue| && forall i: nat :: i < n ==> calls(i).Produced?
    ensures |r| == |queue|
  {
    seq(|queue|, k requires 0 <= k < |queue| =>
      Left(queue[k], if k < n && send then Some(Stamped(calls(k), queue[k])) else None))
  }

  function Step(s: State, op: Op): State {
    match op
    case Encode(inbuf, frameSize, call) =>
      if |inbuf.data| != frameSize || call.Failed? then s
      else
        var queue := s.delay + [inbuf];
        var t := s.(accepted := s.accepted + [inbuf]);
        if call.data == [] then t.(delay := queue)
        else t.(delay := queue[1..], left := s.left + [Left(queue[0], Some(Stamped(call, queue[0])))])
    case Flush(send, calls) =>
      var n := if s.isOpen then Successes(calls, |s.delay|) else 0;
      s.(delay := [], left := s.left + Leaving(s.delay, send, calls, n))
  }

  class Encoder {
    var isOpen: bool
    var delay: seq<Picture>

    // The pictures accepted so far, and what became of those that left the queue.
    ghost var accepted: seq<Picture>
    ghost var left: seq<Left>

    ghost function Now(): State
      reads this
    {
      State(isOpen, delay, accepted, left)
    }

    constructor (isOpen: bool)
      ensures Now() == State(isOpen, [], [], [])
    {
      this.isOpen := isOpen;
      delay, accepted, left := [], [], [];
    }

    /** gst_ffmpegenc_chain_video; a buffer of the wrong size is refused, a failed call loses its picture. */
    method Chain(inbuf: Picture, frameSize: nat, call: Encoded, pushed: Flow) returns (ret: Flow, out: Option<Output>)
      modifies this
      ensures Now() == Step(old(Now()), Encode(inbuf, frameSize, call))
      ensures |inbuf.data| != frameSize ==> ret == FlowError && out == None && delay == old(delay)
      ensures |inbuf.data| == frameSize && call.Failed? ==> ret == FlowOk && out == None && delay == old(delay)
      ensures |inbuf.data| == frameSize && call.Produced? ==>
                if call.data == [] then ret == FlowOk && out == None && delay == old(delay) + [inbuf]
                else
                  && ret == pushed && out.Some?
                  && (exists first :: [first] + delay == old(delay) + [inbuf] && out.value == Stamped(call, first))
    {
      if |inbuf.data| != frameSize {
        return FlowError, None;
      }
      if call.Failed? {
        return FlowOk, None;
      }
      delay := delay + [inbuf];
      accepted := accepted + [inbuf];
      if call.data == [] {
        return FlowOk, None;
      }
      var head := delay[0];
      delay := delay[1..];
      left := left + [Left(head, Some(Stamped(call, head)))];
      assert [head] + delay == old(delay) + [inbuf];
      return pushed, Some(Stamped(call, head));
    }

    /**
     * gst_ffmpegenc_flush_buffers: drains the encoder until the queue is empty or a call fails, then drops
     * what is left. The k-th call of the encoder returns calls(k).
     */
    method FlushBuffers(send: bool, calls: nat -> Encoded) returns (outs: seq<Output>)
      modifies this
      ensures Now() == Step(old(Now()), Flush(send, calls))
      ensures delay == []
      ensures !isOpen || !send ==> outs == []
      ensures isOpen && send ==>
                outs == Drained(old(delay), calls, Successes(calls, |old(delay)|))
    {
      ghost var queue, k := delay, 0;
      outs := [];
      if isOpen {
        outs, k := Send(send, calls);
        SuccessesStop(calls, k, |queue|);
      }
      left := left + Leaving(queue, send, calls, k);
      while delay != []
        invariant isOpen == old(isOpen) && unchanged(`accepted)
        invariant left == old(left) + Leaving(queue, send, calls, k)
        decreases |delay|
      {
        delay := delay[1..];
      }
    }

    /** The loop that drains the encoder; it stops at the first failed call. */
    method Send(send: bool, calls: nat -> Encoded) returns (outs: seq<Output>, ghost k: nat)
      modifies `delay
      ensures k <= |old(delay)| && delay == old(delay)[k..]
      ensures Successes(calls, k) == k && (k < |old(delay)| ==> calls(k).Failed?)
      ensures outs == if send then Drained(old(delay), calls, k) else []
    {
      hide Drained, Successes;
      outs := [];
      k := 0;
      var n := 0;
      ghost var queue := delay;
      NothingYet(queue, calls);
      while delay != []
        invariant k == n <= |old(delay)| && delay == old(delay)[k..]
        invariant Successes(calls, k) == k
        invariant outs == if send then Drained(old(delay), calls, k) else []
        decreases |delay|
      {
        var e := calls(n);
        if e.Failed? {
          break;
        }
        OneMore(queue, calls, n);
        var head := delay[0];
        delay := delay[1..];
        if send {
          outs := outs + [Stamped(e, head)];
        }
        n := n + 1;
        k := n;
      }
    }
  }

  lemma {:induction false} SuccessesStop(calls: nat -> Encoded, k: nat, n: nat)
    requires k <= n && Successes(calls, k) == k && (k < n ==> calls(k).Failed?)
    ensures Successes(calls, n) == k
  {
    if k < n - 1 {
      SuccessesStop(calls, k, n - 1);
    }
  }

  // ------------------------------------------------------------------ whole runs

  function Run(isOpen: bool, ops: seq<Op>): State {
    if ops == [] then State(isOpen, [], [], []) else Step(Run(isOpen, ops[..|ops| - 1]), ops[|ops| - 1])
  }

  function Pictures(left: seq<Left>): (r: seq<Picture>)
    ensures |r| == |left|
  {
    seq(|left|, k requires 0 <= k < |left| => left[k].picture)
  }

  /** A flush that loses nothing: it sends, the encoder is open, and none of the calls it makes fails. */
  ghost predicate Lossless(s: State, op: Op) {
    op.Flush? ==> op.send && s.isOpen && Successes(op.calls, |s.delay|) == |s.delay|
  }

  lemma PicturesConcat(a: seq<Left>, b: seq<Left>)
    ensures Pictures(a + b) == Pictures(a) + Pictures(b)
  {
  }

  lemma StepKeepsOrder(s: State, op: Op)
    requires Pictures(s.left) + s.delay == s.accepted
    ensures var t := Step(s, op); Pictures(t.left) + t.delay == t.accepted
  {
    match op
    case Encode(inbuf, frameSize, call) =>
      if |inbuf.data| == frameSize && call.Produced? && call.data != [] {
        var queue := s.delay + [inbuf];
        var l := Left(queue[0], Some(Stamped(call, queue[0])));
        PicturesConcat(s.left, [l]);
        assert Pictures([l]) == [queue[0]];
        assert [queue[0]] + queue[1..] == queue;
      }
    case Flush(send, calls) =>
      var n := if s.isOpen then Successes(calls, |s.delay|) else 0;
      PicturesConcat(s.left, Leaving(s.delay, send, calls, n));
      assert Pictures(Leaving(s.delay, send, calls, n)) == s.delay;
  }

  /** At every point of a run the accepted pictures are, in order, those that left the queue and those still in it. */
  lemma {:induction false} QueueOrder(isOpen: bool, ops: seq<Op>)
    ensures var s := Run(isOpen, ops); Pictures(s.left) + s.delay == s.accepted
  {
    if ops != [] {
      QueueOrder(isOpen, ops[..|ops| - 1]);
      StepKeepsOrder(Run(isOpen, ops[..|ops| - 1]), ops[|ops| - 1]);
    }
  }

  /** The picture's times went out. */
  predicate WentOut(l: Left) {
    l.output.Some? && l.output.value.ts == l.picture.ts && l.output.value.dur == l.picture.dur
  }

  /**
   * In a run of encoder calls and lossless flushes each picture that left the queue lent its times to one
   * output: the times put out are those of the accepted pictures, in order, each once.
   */
  lemma {:induction false} TimesGoOutInOrder(isOpen: bool, ops: seq<Op>)
    requires forall i :: 0 <= i < |ops| ==> Lossless(Run(isOpen, ops[..i]), ops[i])
    ensures var s := Run(isOpen, ops);
            && |s.left| <= |s.accepted|
            && (forall k :: 0 <= k < |s.left| ==> WentOut(s.left[k]) && s.left[k].picture == s.accepted[k])
  {
    QueueOrder(isOpen, ops);
    var s := Run(isOpen, ops);
    assert forall k :: 0 <= k < |s.left| ==> s.accepted[k] == Pictures(s.left)[k];
    if ops != [] {
      var prefix := ops[..|ops| - 1];
      forall i | 0 <= i < |prefix|
        ensures Lossless(Run(isOpen, prefix[..i]), prefix[i])
      {
        assert prefix[..i] == ops[..i] && prefix[i] == ops[i];
      }
      TimesGoOutInOrder(isOpen, prefix);
      assert Lossless(Run(isOpen, prefix), ops[|ops| - 1]);
    }
  }

  /** After a lossless flush every accepted picture has lent its times to an output. */
  lemma FlushEmpties(isOpen: bool, ops: seq<Op>)
    requires ops != [] && ops[|ops| - 1].Flush?
    requires forall i :: 0 <= i < |ops| ==> Lossless(Run(isOpen, ops[..i]), ops[i])
    ensures var s := Run(isOpen, ops); s.delay == [] && |s.left| == |s.accepted|
  {
    QueueOrder(isOpen, ops);
  }

  // ------------------------------------------------------------------ what the encoder made

  /** The encoder results that the outputs carry: the bytes, and a key picture exactly without the delta flag. */
  function Carried(left: seq<Left>): seq<Encoded> {
    if left == [] then []
    else
      Carried(left[..|left| - 1])
      + match left[|left| - 1].output
        case None => []
        case Some(out) => [Produced(out.data, !out.delta)]
  }

  /** The pictures of the right size that the encoder did not fail on. */
  function Taken(ops: seq<Op>): seq<Picture> {
    if ops == [] then []
    else
      Taken(ops[..|ops| - 1])
      + match ops[|ops| - 1]
        case Encode(inbuf, frameSize, Produced(_, _)) => if |inbuf.data| == frameSize then [inbuf] else []
        case _ => []
  }

  /** The results of the calls that `op` makes and sends on: no bytes means nothing to send, but when draining. */
  function ResultsOf(s: State, op: Op): seq<Encoded> {
    match op
    case Encode(inbuf, frameSize, call) =>
      if |inbuf.data| == frameSize && call.Produced? && call.data != [] then [call] else []
    case Flush(send, calls) =>
      if send && s.isOpen then First(calls, Successes(calls, |s.delay|)) else []
  }

  function First(calls: nat -> Encoded, n: nat): seq<Encoded> {
    seq(n, k requires 0 <= k < n => calls(k))
  }

  function Results(isOpen: bool, ops: seq<Op>): seq<Encoded> {
    if ops == [] then []
    else Results(isOpen, ops[..|ops| - 1]) + ResultsOf(Run(isOpen, ops[..|ops| - 1]), ops[|ops| - 1])
  }

  lemma {:induction false} CarriedConcat(a: seq<Left>, b: seq<Left>)
    ensures Carried(a + b) == Carried(a) + Carried(b)
  {
    if b == [] {
      assert a + b == a;
    } else {
      CarriedConcat(a, b[..|b| - 1]);
      assert (a + b)[..|a| + |b| - 1] == a + b[..|b| - 1];
    }
  }

  /** The first m pictures of a drained queue carry the first calls' results. */
  lemma {:induction false} CarriedByDrain(queue: seq<Picture>, send: bool, calls: nat -> Encoded, n: nat, m: nat)
    requires n <= |queue| && m <= |queue| && forall i: nat :: i < n ==> calls(i).Produced?
    ensures Carried(Leaving(queue, send, calls, n)[..m]) == if send then First(calls, Min(m, n)) else []
  {
    if m > 0 {
      var left := Leaving(queue, send, calls, n);
      CarriedByDrain(queue, send, calls, n, m - 1);
      TakeOne(left, m - 1);
      if send && m <= n {
        assert First(calls, m) == First(calls, m - 1) + [calls(m - 1)];
      }
    }
  }

  lemma StepCarries(s: State, op: Op)
    ensures Carried(Step(s, op).left) == Carried(s.left) + ResultsOf(s, op)
  {
    match op
    case Encode(inbuf, frameSize, call) =>
    case Flush(send, calls) =>
      var n := if s.isOpen then Successes(calls, |s.delay|) else 0;
      var leaving := Leaving(s.delay, send, calls, n);
      CarriedConcat(s.left, leaving);
      CarriedByDrain(s.delay, send, calls, n, |s.delay|);
      assert leaving[..|s.delay|] == leaving;
  }

  /**
   * The outputs of a run are exactly the results the encoder gave, in order, with the delta flag on all but key
   * pictures; and the accepted pictures are those of the right size that it did not fail on.
   */
  lemma {:induction false} ResultsGoOutInOrder(isOpen: bool, ops: seq<Op>)
    ensures Carried(Run(isOpen, ops).left) == Results(isOpen, ops)
    ensures Run(isOpen, ops).accepted == Taken(ops) && Run(isOpen, ops).isOpen == isOpen
  {
    if ops != [] {
      hide ResultsOf, Carried;
      var prefix, op := ops[..|ops| - 1], ops[|ops| - 1];
      ResultsGoOutInOrder(isOpen, prefix);
      StepCarries(Run(isOpen, prefix), op);
      assert Taken(ops) == Step(Run(isOpen, prefix), op).accepted;
    }
  }
}
