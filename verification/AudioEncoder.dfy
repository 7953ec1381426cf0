/**
 * The encoder's audio side: input bytes collect in an adapter and go to the encoder in frames of a fixed
 * number of samples. Times are guint64 and wrap.
 */
module AudioEncoder {
  import opened Basics
  import opened Floors
  import opened Interleaved

  datatype Settings = Settings(frameSize: nat, sampleBytes: nat, channels: nat, rate: nat) {
    predicate Valid() {
      sampleBytes > 0 && channels > 0 && rate > 0
    }

    function FrameBytes(): nat {
      frameSize * sampleBytes * channels
    }

    /** The bytes of k frames. */
    function Whole(k: nat): nat {
      if k == 0 then 0 else Whole(k - 1) + FrameBytes()
    }

    /** The samples of k frames. */
    function Samples(k: nat): nat {
      if k == 0 then 0 else Samples(k - 1) + frameSize
    }

    /** The time `samples` samples take. */
    function Time(samples: nat): nat
      requires rate > 0
    {
      Scale(samples, SECOND, rate)
    }
  }

  lemma FrameBytesPositive(cfg: Settings)
    requires cfg.Valid() && cfg.frameSize > 0
    ensures cfg.FrameBytes() > 0
  {
    assert cfg.frameSize * cfg.sampleBytes > 0;
  }

  lemma {:induction false} WholeIsProduct(cfg: Settings, k: nat)
    ensures cfg.Whole(k) == k * cfg.FrameBytes()
    ensures cfg.Samples(k) == k * cfg.frameSize
  {
    if k > 0 {
      WholeIsProduct(cfg, k - 1);
    }
  }

  lemma {:induction false} WholeSum(cfg: Settings, n: nat, m: nat)
    ensures cfg.Whole(n + m) == cfg.Whole(n) + cfg.Whole(m)
    ensures cfg.Samples(n + m) == cfg.Samples(n) + cfg.Samples(m)
  {
    if m > 0 {
      WholeSum(cfg, n, m - 1);
    }
  }

  /** The number of whole frames in some bytes. */
  lemma WholeFrames(cfg: Settings, bytes: nat)
    requires cfg.FrameBytes() > 0
    ensures cfg.Whole(bytes / cfg.FrameBytes()) <= bytes < cfg.Whole(bytes / cfg.FrameBytes()) + cfg.FrameBytes()
  {
    DivBounds(bytes, cfg.FrameBytes());
    WholeIsProduct(cfg, bytes / cfg.FrameBytes());
  }

  /** What the encoder is given, and the times put on what it makes of it. */
  datatype Frame = Frame(data: seq<byte>, ts: int, dur: int, discont: bool)

  datatype State = State(adapter: seq<byte>, lock: ClockTime, consumed: nat, discont: bool)

  /** A frame that starts and ends the given numbers of samples after the lock; times are guint64. */
  function Stamped(cfg: Settings, data: seq<byte>, lock: ClockTime, from: nat, to: nat, discont: bool): Frame
    requires cfg.rate > 0
  {
    Frame(data, (lock + cfg.Time(from)) % TWO64, (cfg.Time(to) - cfg.Time(from)) % TWO64, discont)
  }

  /** Frame k of `bytes` when `consumed` samples were taken since the lock on time `lock`. */
  function FrameAt(cfg: Settings, bytes: seq<byte>, lock: ClockTime, consumed: nat, discont: bool, k: nat): Frame
    requires cfg.rate > 0 && cfg.Whole(k + 1) <= |bytes|
  {
    Stamped(cfg, bytes[cfg.Whole(k)..cfg.Whole(k + 1)], lock,
            consumed + cfg.Samples(k), consumed + cfg.Samples(k + 1), discont && k == 0)
  }

  lemma Enough(cfg: Settings, k: nat, n: nat)
    requires k < n
    ensures cfg.Whole(k + 1) <= cfg.Whole(n)
  {
    WholeSum(cfg, k + 1, n - k - 1);
  }

  function FramesOf(cfg: Settings, bytes: seq<byte>, lock: ClockTime, consumed: nat, discont: bool, n: nat)
    : (r: seq<Frame>)
    requires cfg.rate > 0 && cfg.Whole(n) <= |bytes|
    ensures |r| == n
  {
    seq(n, k requires 0 <= k < n => Enough(cfg, k, n); FrameAt(cfg, bytes, lock, consumed, discont, k))
  }

  /** The state in which a chain call starts to cut frames: a discontinuity drops what was queued. */
  function Entered(s: State, buf: seq<byte>, ts: ClockTime, discont: bool): State {
    var kept := if discont then [] else s.adapter;
    State(kept + buf, if kept == [] then ts else s.lock, if kept == [] then 0 else s.consumed, discont || s.discont)
  }

  /** `now` and `frames` are what cutting |frames| frames off state `s` leaves and yields. */
  ghost predicate CutFrom(cfg: Settings, s: State, now: State, frames: seq<Frame>)
    requires cfg.rate > 0
  {
    var n := |frames|;
    && cfg.Whole(n) <= |s.adapter|
    && frames == FramesOf(cfg, s.adapter, s.lock, s.consumed, s.discont, n)
    && now.adapter == s.adapter[cfg.Whole(n)..]
    && now.lock == s.lock && now.consumed == s.consumed + cfg.Samples(n)
  }

  /** How many frames a call hands to the encoder out of n: it stops after the first whose push fails. */
  function Attempts(pushes: nat -> Flow, n: nat): (k: nat)
    ensures k <= n
    ensures forall i: nat :: i + 1 < k ==> pushes(i) == FlowOk
    ensures k < n ==> k > 0 && pushes(k - 1) != FlowOk
  {
    if n == 0 then 0
    else
      var k := Attempts(pushes, n - 1);
      if k == n - 1 && (k == 0 || pushes(k - 1) == FlowOk) then n else k
  }

  /** Cutting the frames of one call off the state it starts from. */
  function CutAll(cfg: Settings, e: State, pushes: nat -> Flow): (State, seq<Frame>)
    requires cfg.Valid() && cfg.frameSize > 1
  {
    FrameBytesPositive(cfg);
    WholeFrames(cfg, |e.adapter|);
    var n := Attempts(pushes, |e.adapter| / cfg.FrameBytes());
    WholeSum(cfg, n, |e.adapter| / cfg.FrameBytes() - n);
    (State(e.adapter[cfg.Whole(n)..], e.lock, e.consumed + cfg.Samples(n),
           e.discont && (n == 0 || (n == 1 && pushes(0) != FlowOk))),
     FramesOf(cfg, e.adapter, e.lock, e.consumed, e.discont, n))
  }

  class Encoder {
    const cfg: Settings
    var adapter: seq<byte>
    var adapterTs: ClockTime
    var adapterConsumed: nat
    var discont: bool

    function Now(): State
      reads this
    {
      State(adapter, adapterTs, adapterConsumed, discont)
    }

    constructor (cfg: Settings)
      ensures this.cfg == cfg && Now() == State([], 0, 0, false)
    {
      this.cfg := cfg;
      adapter, adapterTs, adapterConsumed, discont := [], 0, 0, false;
    }

    /**
     * gst_ffmpegenc_chain_audio. `outcome` is what encoding and pushing the k-th frame of this call returns
     * (an encoder failure counts as OK and pushes nothing).
     */
    method Chain(inbuf: seq<byte>, inTs: ClockTime, inDur: ClockTime, inDiscont: bool, outcome: nat -> Flow)
      returns (ret: Flow, frames: seq<Frame>)
      requires cfg.Valid()
      modifies this
      ensures cfg.frameSize <= 1 ==>
                unchanged(this) && frames == [Frame(inbuf, inTs, inDur, inDiscont)] && ret == outcome(0)
      ensures cfg.frameSize > 1 ==>
                && (Now(), frames) == CutAll(cfg, Entered(old(Now()), inbuf, inTs, inDiscont), outcome)
                && ret == (if frames == [] then FlowOk else outcome(|frames| - 1))
                && (ret == FlowOk ==> |adapter| < cfg.FrameBytes())
    {
      frames := [];
      if cfg.frameSize <= 1 {
        return outcome(0), [Frame(inbuf, inTs, inDur, inDiscont)];
      }
      if inDiscont {
        adapter := [];
        discont := true;
      }
      var timestamp := inTs;
      if |adapter| == 0 {
        adapterTs := inTs;
        adapterConsumed := 0;
      } else {
        timestamp := (adapterTs + Scale(adapterConsumed, SECOND, cfg.rate)) % TWO64;
      }
      adapter := adapter + inbuf;
      ghost var e := Now();
      ret, frames := CutFrames(timestamp, outcome);
      CutIsCutAll(cfg, e, Now(), frames, ret, outcome);
    }

    /** The loop: while there is a whole frame, encode it, push it and flush it. */
    method CutFrames(start: int, outcome: nat -> Flow) returns (ret: Flow, frames: seq<Frame>)
      requires cfg.Valid() && cfg.frameSize > 1
      requires start == (adapterTs + cfg.Time(adapterConsumed)) % TWO64
      modifies this
      ensures CutFrom(cfg, old(Now()), Now(), frames)
      ensures discont <==> old(discont) && (|frames| == 0 || (|frames| == 1 && ret != FlowOk))
      ensures forall k :: 0 <= k < |frames| - 1 ==> outcome(k) == FlowOk
      ensures |frames| > 0 ==> outcome(|frames| - 1) == ret
      ensures ret == FlowOk ==> |adapter| < cfg.FrameBytes()
      ensures ret != FlowOk ==> |frames| > 0
    {
      hide Scale;
      ghost var s := Now();
      var timestamp, fb := start, cfg.FrameBytes();
      frames := [];
      FrameBytesPositive(cfg);
      while |adapter| >= fb
        invariant CutFrom(cfg, s, Now(), frames)
        invariant timestamp == (adapterTs + cfg.Time(adapterConsumed)) % TWO64
        invariant discont <==> s.discont && |frames| == 0
        invariant forall k :: 0 <= k < |frames| ==> outcome(k) == FlowOk
        decreases |adapter|
      {
        var k := |frames|;
        timestamp, frames := CutOne(timestamp, frames, s);
        ret := outcome(k);
        if ret != FlowOk {
          return;
        }
        discont := false;
      }
      ret := FlowOk;
    }

    /** One round of the loop, up to the push. */
    method CutOne(timestamp: int, frames: seq<Frame>, ghost s: State) returns (next: int, frames': seq<Frame>)
      requires cfg.Valid() && cfg.frameSize > 1
      requires CutFrom(cfg, s, Now(), frames) && |adapter| >= cfg.FrameBytes()
      requires timestamp == (adapterTs + cfg.Time(adapterConsumed)) % TWO64
      requires discont <==> s.discont && |frames| == 0
      modifies `adapter, `adapterConsumed
      ensures CutFrom(cfg, s, Now(), frames') && |frames'| == |frames| + 1
      ensures next == (adapterTs + cfg.Time(adapterConsumed)) % TWO64
      ensures adapter == old(adapter)[cfg.FrameBytes()..]
    {
      hide CutFrom, Scale;
      CutNext(cfg, s, Now(), frames, timestamp);
      var data := adapter[..cfg.FrameBytes()];
      adapterConsumed := adapterConsumed + cfg.frameSize;
      var duration := (Scale(adapterConsumed, SECOND, cfg.rate) - (timestamp - adapterTs)) % TWO64;
      frames' := frames + [Frame(data, timestamp, duration, discont)];
      adapter := adapter[cfg.FrameBytes()..];
      next := (timestamp + duration) % TWO64;
    }
  }

  /** The length of the next frame, computed in guint64. */
  function NextDuration(cfg: Settings, now: State, timestamp: int): int
    requires cfg.rate > 0
  {
    (cfg.Time(now.consumed + cfg.frameSize) - (timestamp - now.lock)) % TWO64
  }

  lemma NextTimes(cfg: Settings, now: State, timestamp: int)
    requires cfg.rate > 0 && timestamp == (now.lock + cfg.Time(now.consumed)) % TWO64
    ensures var duration := NextDuration(cfg, now, timestamp);
            && (timestamp + duration) % TWO64 == (now.lock + cfg.Time(now.consumed + cfg.frameSize)) % TWO64
            && forall data, d :: Frame(data, timestamp, duration, d)
                 == Stamped(cfg, data, now.lock, now.consumed, now.consumed + cfg.frameSize, d)
  {
    hide Scale;
    WrapDuration(now.lock, cfg.Time(now.consumed), cfg.Time(now.consumed + cfg.frameSize));
  }

  /** One round of the loop on values. */
  lemma CutNext(cfg: Settings, s: State, now: State, frames: seq<Frame>, timestamp: int)
    requires cfg.rate > 0 && CutFrom(cfg, s, now, frames) && |now.adapter| >= cfg.FrameBytes()
    requires timestamp == (now.lock + cfg.Time(now.consumed)) % TWO64
    requires now.discont <==> s.discont && |frames| == 0
    ensures var fb, duration := cfg.FrameBytes(), NextDuration(cfg, now, timestamp);
            && CutFrom(cfg, s, State(now.adapter[fb..], now.lock, now.consumed + cfg.frameSize, now.discont),
                       frames + [Frame(now.adapter[..fb], timestamp, duration, now.discont)])
            && (timestamp + duration) % TWO64 == (now.lock + cfg.Time(now.consumed + cfg.frameSize)) % TWO64
  {
    hide Scale, FramesOf, Stamped, NextDuration, Settings.Time;
    CutMore(cfg, s, |frames|);
    NextTimes(cfg, now, timestamp);
  }

  /** Cutting one more frame off the front of what is left. */
  lemma CutMore(cfg: Settings, s: State, n: nat)
    requires cfg.rate > 0 && cfg.Whole(n) <= |s.adapter|
    requires |s.adapter| - cfg.Whole(n) >= cfg.FrameBytes()
    ensures var fb := cfg.FrameBytes();
            && cfg.Whole(n + 1) == cfg.Whole(n) + fb <= |s.adapter|
            && cfg.Samples(n + 1) == cfg.Samples(n) + cfg.frameSize
            && s.adapter[cfg.Whole(n)..][..fb] == s.adapter[cfg.Whole(n)..cfg.Whole(n + 1)]
            && s.adapter[cfg.Whole(n)..][fb..] == s.adapter[cfg.Whole(n + 1)..]
            && FramesOf(cfg, s.adapter, s.lock, s.consumed, s.discont, n + 1)
               == FramesOf(cfg, s.adapter, s.lock, s.consumed, s.discont, n)
                  + [FrameAt(cfg, s.adapter, s.lock, s.consumed, s.discont, n)]
  {
    assert cfg.Whole(n + 1) == cfg.Whole(n) + cfg.FrameBytes();
  }

  /** The guint64 difference is the distance of the two times, and adding it steps to the second. */
  lemma WrapDuration(lock: nat, from: nat, to: nat)
    ensures (to - ((lock + from) % TWO64 - lock)) % TWO64 == (to - from) % TWO64
    ensures ((lock + from) % TWO64 + (to - from) % TWO64) % TWO64 == (lock + to) % TWO64
  {
    var q := (lock + from) / TWO64;
    assert (lock + from) % TWO64 == lock + from - q * TWO64;
    SameModulo(to - ((lock + from) % TWO64 - lock), to - from, q);
    var p := (to - from) / TWO64;
    assert (to - from) % TWO64 == to - from - p * TWO64;
    SameModulo((lock + from) % TWO64 + (to - from) % TWO64, lock + to, -q - p);
  }

  lemma SameModulo(x: int, y: int, q: int)
    requires x == y + q * TWO64
    ensures x % TWO64 == y % TWO64
  {
  }

  /** The number of attempts is fixed by where the first push fails. */
  lemma {:induction false} AttemptsUnique(pushes: nat -> Flow, n: nat, k: nat)
    requires k <= n && (forall i: nat :: i + 1 < k ==> pushes(i) == FlowOk)
    requires k < n ==> k > 0 && pushes(k - 1) != FlowOk
    ensures Attempts(pushes, n) == k
  {
    if k < n {
      AttemptsUnique(pushes, n - 1, k);
    } else if n > 0 {
      AttemptsUnique(pushes, n - 1, n - 1);
      assert n > 1 ==> pushes(n - 2) == FlowOk;
    }
  }

  /** What the loop leaves and returns is what CutAll says, whichever push fails. */
  lemma CutIsCutAll(cfg: Settings, e: State, now: State, frames: seq<Frame>, ret: Flow, pushes: nat -> Flow)
    requires cfg.Valid() && cfg.frameSize > 1 && CutFrom(cfg, e, now, frames)
    requires now.discont <==> e.discont && (|frames| == 0 || (|frames| == 1 && ret != FlowOk))
    requires forall k :: 0 <= k < |frames| - 1 ==> pushes(k) == FlowOk
    requires ret == if frames == [] then FlowOk else pushes(|frames| - 1)
    requires ret == FlowOk ==> |now.adapter| < cfg.FrameBytes()
    ensures (now, frames) == CutAll(cfg, e, pushes)
  {
    hide Stamped;
    var n, fb := |frames|, cfg.FrameBytes();
    FrameBytesPositive(cfg);
    WholeIsProduct(cfg, n);
    WholeIsProduct(cfg, n + 1);
    DivMax(|e.adapter|, fb, n);
    if ret == FlowOk {
      DivLess(|e.adapter|, fb, n + 1);
    }
    AttemptsUnique(pushes, |e.adapter| / fb, n);
  }

  // ------------------------------------------------------------------ whole runs

  /** One input buffer, and what pushing the k-th frame of its call returns. */
  datatype Input = Input(data: seq<byte>, ts: ClockTime, discont: bool, pushes: nat -> Flow)

  /** A chain call. */
  function Accept(cfg: Settings, s: State, input: Input): (State, seq<Frame>)
    requires cfg.Valid() && cfg.frameSize > 1
  {
    CutAll(cfg, Entered(s, input.data, input.ts, input.discont), input.pushes)
  }

  /** The state after a run of calls from state `s`, all frames, and what pushing each of them returned. */
  function Run(cfg: Settings, s: State, inputs: seq<Input>): (State, seq<Frame>, seq<Flow>)
    requires cfg.Valid() && cfg.frameSize > 1
    decreases |inputs|
  {
    if inputs == [] then (s, [], [])
    else
      var (before, frames, results) := Run(cfg, s, inputs[..|inputs| - 1]);
      var last := inputs[|inputs| - 1];
      var (after, more) := Accept(cfg, before, last);
      (after, frames + more, results + Results(last.pushes, |more|))
  }

  function Results(pushes: nat -> Flow, n: nat): (r: seq<Flow>)
    ensures |r| == n
  {
    seq(n, k requires 0 <= k < n => pushes(k))
  }

  function Bytes(inputs: seq<Input>): seq<byte> {
    if inputs == [] then [] else Bytes(inputs[..|inputs| - 1]) + inputs[|inputs| - 1].data
  }

  /** The first n frames of `bytes`, as data only. */
  function Chunks(cfg: Settings, bytes: seq<byte>, n: nat): (r: seq<seq<byte>>)
    requires cfg.Whole(n) <= |bytes|
    ensures |r| == n
  {
    seq(n, k requires 0 <= k < n => Enough(cfg, k, n); ChunkAt(cfg, bytes, k))
  }

  function ChunkAt(cfg: Settings, bytes: seq<byte>, k: nat): seq<byte>
    requires cfg.Whole(k + 1) <= |bytes|
  {
    assert cfg.Whole(k) + cfg.FrameBytes() == cfg.Whole(k + 1);
    bytes[cfg.Whole(k)..cfg.Whole(k + 1)]
  }

  function Data(frames: seq<Frame>): (r: seq<seq<byte>>)
    ensures |r| == |frames|
  {
    seq(|frames|, k requires 0 <= k < |frames| => frames[k].data)
  }

  /** The frames without the discontinuity mark. */
  function Unmarked(frames: seq<Frame>): (r: seq<Frame>)
    ensures |r| == |frames|
  {
    seq(|frames|, k requires 0 <= k < |frames| => frames[k].(discont := false))
  }

  predicate AllFailed(results: seq<Flow>) {
    forall k :: 0 <= k < |results| ==> results[k] != FlowOk
  }

  /** A frame carries the mark when there was a discontinuity and no frame has been pushed since. */
  ghost predicate Marks(frames: seq<Frame>, results: seq<Flow>, d: bool) {
    && |results| == |frames|
    && forall k :: 0 <= k < |frames| ==> (frames[k].discont <==> d && AllFailed(results[..k]))
  }

  /** The inputs after the first go on where the earlier ones stopped. */
  ghost predicate Continued(inputs: seq<Input>) {
    forall i :: 0 < i < |inputs| ==> !inputs[i].discont
  }

  /** The first input finds an empty adapter, or empties it. */
  predicate Locks(s: State, input: Input) {
    s.adapter == [] || input.discont
  }

  // -------------------------------------------------------- frames of the whole stream

  /** Frame k of the bytes from frame n on is frame n + k, times included. */
  lemma ShiftedFrame(cfg: Settings, bytes: seq<byte>, lock: ClockTime, n: nat, k: nat)
    requires cfg.rate > 0 && cfg.Whole(n + k + 1) <= |bytes|
    ensures cfg.Whole(n) + cfg.Whole(k + 1) == cfg.Whole(n + k + 1)
    ensures FrameAt(cfg, bytes[cfg.Whole(n)..], lock, cfg.Samples(n), false, k)
            == FrameAt(cfg, bytes, lock, 0, false, n + k)
  {
    hide Stamped;
    WholeSum(cfg, n, k);
    WholeSum(cfg, n, k + 1);
    SliceOfDrop(bytes, cfg.Whole(n), cfg.Whole(k), cfg.Whole(k + 1));
  }

  lemma SliceOfDrop(a: seq<byte>, at: nat, from: nat, to: nat)
    requires from <= to && at + to <= |a|
    ensures a[at..][from..to] == a[at + from..at + to]
  {
  }

  lemma SameSlice(a: seq<byte>, b: seq<byte>, from: nat, to: nat)
    requires from <= to <= |a|
    ensures (a + b)[from..to] == a[from..to]
  {
  }

  /** Frame k does not depend on the bytes that come after it. */
  lemma EarlyFrame(cfg: Settings, bytes: seq<byte>, data: seq<byte>, lock: ClockTime, k: nat)
    requires cfg.rate > 0 && cfg.Whole(k + 1) <= |bytes|
    ensures FrameAt(cfg, bytes + data, lock, 0, false, k) == FrameAt(cfg, bytes, lock, 0, false, k)
  {
    hide Stamped;
    WholeSum(cfg, k, 1);
    SameSlice(bytes, data, cfg.Whole(k), cfg.Whole(k + 1));
  }

  /** The frames of the earlier bytes, then those cut off what is left with the new data, are those of all bytes. */
  lemma JoinFrames(cfg: Settings, bytes: seq<byte>, data: seq<byte>, lock: ClockTime, n: nat, m: nat)
    requires cfg.rate > 0 && cfg.Whole(n) <= |bytes|
    requires cfg.Whole(m) <= |(bytes + data)[cfg.Whole(n)..]|
    ensures cfg.Whole(n + m) <= |bytes + data|
    ensures FramesOf(cfg, bytes + data, lock, 0, false, n + m)
            == FramesOf(cfg, bytes, lock, 0, false, n)
               + FramesOf(cfg, (bytes + data)[cfg.Whole(n)..], lock, cfg.Samples(n), false, m)
  {
    hide Stamped, FrameAt;
    var all := bytes + data;
    WholeSum(cfg, n, m);
    var joined := FramesOf(cfg, bytes, lock, 0, false, n)
                  + FramesOf(cfg, all[cfg.Whole(n)..], lock, cfg.Samples(n), false, m);
    forall k | 0 <= k < n + m
      ensures FramesOf(cfg, all, lock, 0, false, n + m)[k] == joined[k]
    {
      Enough(cfg, k, n + m);
      if k < n {
        Enough(cfg, k, n);
        EarlyFrame(cfg, bytes, data, lock, k);
      } else {
        Enough(cfg, k - n, m);
        ShiftedFrame(cfg, all, lock, n, k - n);
      }
    }
    SameElements(FramesOf(cfg, all, lock, 0, false, n + m), joined);
  }

  lemma UnmarkedFrames(cfg: Settings, e: State, n: nat)
    requires cfg.rate > 0 && cfg.Whole(n) <= |e.adapter|
    ensures Unmarked(FramesOf(cfg, e.adapter, e.lock, e.consumed, e.discont, n))
         == FramesOf(cfg, e.adapter, e.lock, e.consumed, false, n)
  {
    forall k | 0 <= k < n
      ensures Unmarked(FramesOf(cfg, e.adapter, e.lock, e.consumed, e.discont, n))[k]
           == FramesOf(cfg, e.adapter, e.lock, e.consumed, false, n)[k]
    {
      Enough(cfg, k, n);
    }
  }

  lemma UnmarkedConcat(a: seq<Frame>, b: seq<Frame>)
    ensures Unmarked(a + b) == Unmarked(a) + Unmarked(b)
  {
  }

  // ------------------------------------------------------------------ no drift

  /**
   * What a stretch of calls since a lock has done: the frames so far are those at the front of all `bytes` since
   * then, stamped from the lock, the rest is queued, and the marks are right (`d`: there was a discontinuity).
   */
  ghost predicate CutSinceLock(cfg: Settings, bytes: seq<byte>, lock: ClockTime, d: bool, s: State,
                               frames: seq<Frame>, results: seq<Flow>)
    requires cfg.rate > 0
  {
    && cfg.Whole(|frames|) <= |bytes| && s.adapter == bytes[cfg.Whole(|frames|)..]
    && s.lock == lock && s.consumed == cfg.Samples(|frames|)
    && Unmarked(frames) == FramesOf(cfg, bytes, lock, 0, false, |frames|)
    && Marks(frames, results, d) && (s.discont <==> d && AllFailed(results))
  }

  /** The frames of one call, marks included, continue those before. */
  lemma MarksContinue(frames: seq<Frame>, results: seq<Flow>, d: bool, more: seq<Frame>, pushes: nat -> Flow, e: bool)
    requires Marks(frames, results, d) && (e <==> d && AllFailed(results))
    requires forall k :: 0 <= k < |more| ==> (more[k].discont <==> e && k == 0)
    requires forall k :: 0 <= k < |more| - 1 ==> pushes(k) == FlowOk
    ensures Marks(frames + more, results + Results(pushes, |more|), d)
    ensures d && AllFailed(results + Results(pushes, |more|))
            <==> e && (|more| == 0 || (|more| == 1 && pushes(0) != FlowOk))
  {
    var all := results + Results(pushes, |more|);
    forall k | 0 <= k < |frames + more|
      ensures (frames + more)[k].discont <==> d && AllFailed(all[..k])
    {
      if k <= |frames| {
        assert all[..k] == results[..k];
        assert results[..|frames|] == results;
      } else {
        assert all[..k][|frames|] == pushes(0) == FlowOk;
      }
    }
    FailedConcat(results, Results(pushes, |more|));
    FailedCall(pushes, |more|);
  }

  lemma FailedConcat(a: seq<Flow>, b: seq<Flow>)
    ensures AllFailed(a + b) <==> AllFailed(a) && AllFailed(b)
  {
    if AllFailed(a + b) {
      assert forall k :: 0 <= k < |a| ==> a[k] == (a + b)[k];
      assert forall k :: 0 <= k < |b| ==> b[k] == (a + b)[|a| + k];
    }
  }

  /** A call pushes at most one frame in vain, its last. */
  lemma FailedCall(pushes: nat -> Flow, n: nat)
    requires forall k :: 0 <= k < n - 1 ==> pushes(k) == FlowOk
    ensures AllFailed(Results(pushes, n)) <==> n == 0 || (n == 1 && pushes(0) != FlowOk)
  {
    if n > 0 {
      assert Results(pushes, n)[0] == pushes(0);
    }
  }

  /** What one call does, in one place. */
  lemma CutShape(cfg: Settings, e: State, pushes: nat -> Flow)
    requires cfg.Valid() && cfg.frameSize > 1
    ensures var (after, more) := CutAll(cfg, e, pushes);
            var m := |more|;
            && cfg.Whole(m) <= |e.adapter|
            && more == FramesOf(cfg, e.adapter, e.lock, e.consumed, e.discont, m)
            && after == State(e.adapter[cfg.Whole(m)..], e.lock, e.consumed + cfg.Samples(m),
                              e.discont && (m == 0 || (m == 1 && pushes(0) != FlowOk)))
            && (forall k :: 0 <= k < m - 1 ==> pushes(k) == FlowOk)
            && ((m == 0 || pushes(m - 1) == FlowOk) ==> |after.adapter| < cfg.FrameBytes())
  {
    hide FramesOf, Scale;
    FrameBytesPositive(cfg);
    WholeFrames(cfg, |e.adapter|);
    var most := |e.adapter| / cfg.FrameBytes();
    var n := Attempts(pushes, most);
    WholeSum(cfg, n, most - n);
  }

  /** One call, from the state in which it starts to cut. */
  lemma CutContinues(cfg: Settings, bytes: seq<byte>, data: seq<byte>, lock: ClockTime, d: bool, s: State, e: State,
                     frames: seq<Frame>, results: seq<Flow>, pushes: nat -> Flow)
    requires cfg.Valid() && cfg.frameSize > 1 && CutSinceLock(cfg, bytes, lock, d, s, frames, results)
    requires e == s.(adapter := s.adapter + data)
    ensures var (after, more) := CutAll(cfg, e, pushes);
            CutSinceLock(cfg, bytes + data, lock, d, after, frames + more, results + Results(pushes, |more|))
  {
    hide CutAll, FramesOf, Marks, AllFailed, Unmarked;
    var n := |frames|;
    var (after, more) := CutAll(cfg, e, pushes);
    var m := |more|;
    CutShape(cfg, e, pushes);
    DropThenMore(bytes, cfg.Whole(n), data, cfg.Whole(m));
    WholeSum(cfg, n, m);
    JoinFrames(cfg, bytes, data, lock, n, m);
    UnmarkedFrames(cfg, e, m);
    UnmarkedConcat(frames, more);
    MarkedFrames(cfg, e, m);
    MarksContinue(frames, results, d, more, pushes, e.discont);
  }

  lemma MarkedFrames(cfg: Settings, e: State, n: nat)
    requires cfg.rate > 0 && cfg.Whole(n) <= |e.adapter|
    ensures forall k :: 0 <= k < n ==>
      (FramesOf(cfg, e.adapter, e.lock, e.consumed, e.discont, n)[k].discont <==> e.discont && k == 0)
  {
    forall k | 0 <= k < n
      ensures FramesOf(cfg, e.adapter, e.lock, e.consumed, e.discont, n)[k].discont <==> e.discont && k == 0
    {
      Enough(cfg, k, n);
    }
  }

  /** The queue after more data, and after taking some of it, as parts of all data. */
  lemma DropThenMore(a: seq<byte>, n: nat, data: seq<byte>, m: nat)
    requires n <= |a|
    ensures a[n..] + data == (a + data)[n..]
    ensures n + m <= |a + data| ==> (a[n..] + data)[m..] == (a + data)[n + m..]
  {
  }

  /** The adapter is not empty when a later buffer comes in, so no call locks on a new time. */
  ghost predicate LockHeld(cfg: Settings, s: State, inputs: seq<Input>)
    requires cfg.Valid() && cfg.frameSize > 1
  {
    forall i :: 0 < i < |inputs| ==> Run(cfg, s, inputs[..i]).0.adapter != []
  }

  lemma LockHeldPrefix(cfg: Settings, s: State, inputs: seq<Input>)
    requires cfg.Valid() && cfg.frameSize > 1 && LockHeld(cfg, s, inputs) && |inputs| > 1
    ensures LockHeld(cfg, s, inputs[..|inputs| - 1])
    ensures Run(cfg, s, inputs[..|inputs| - 1]).0.adapter != []
  {
    var prefix := inputs[..|inputs| - 1];
    forall i | 0 < i < |prefix|
      ensures Run(cfg, s, prefix[..i]).0.adapter != []
    {
      assert prefix[..i] == inputs[..i];
    }
  }

  /** The state that the first call of a stretch starts to cut from, as a stretch without frames. */
  lemma StretchStarts(cfg: Settings, s: State, input: Input)
    requires cfg.Valid() && Locks(s, input)
    ensures var d := s.discont || input.discont;
            && State([], input.ts, 0, d).adapter + input.data == input.data
            && CutSinceLock(cfg, [], input.ts, d, State([], input.ts, 0, d), [], [])
  {
    assert [] + input.data == input.data;
  }

  /**
   * Across chain calls that keep the lock, and whichever pushes fail, the frames are those of the whole stream,
   * stamped from the time of the first buffer and the number of samples consumed since.
   */
  lemma {:induction false} NoDrift(cfg: Settings, s: State, inputs: seq<Input>)
    requires cfg.Valid() && cfg.frameSize > 1 && inputs != []
    requires Locks(s, inputs[0]) && Continued(inputs) && LockHeld(cfg, s, inputs)
    ensures var (after, frames, results) := Run(cfg, s, inputs);
            CutSinceLock(cfg, Bytes(inputs), inputs[0].ts, s.discont || inputs[0].discont, after, frames, results)
    decreases |inputs|
  {
    hide *;
    var prefix, last := inputs[..|inputs| - 1], inputs[|inputs| - 1];
    var lock, d := inputs[0].ts, s.discont || inputs[0].discont;
    if |inputs| == 1 {
      StretchStarts(cfg, s, last);
      var start := State([], lock, 0, d);
      CutContinues(cfg, [], last.data, lock, d, start, State(last.data, lock, 0, d), [], [], last.pushes);
      FirstCall(cfg, s, last);
      assert inputs == [last];
    } else {
      LockHeldPrefix(cfg, s, inputs);
      ContinuedPrefix(inputs);
      NoDrift(cfg, s, prefix);
      var (before, frames, results) := Run(cfg, s, prefix);
      NextCall(cfg, s, inputs);
      CutContinues(cfg, Bytes(prefix), last.data, lock, d, before, before.(adapter := before.adapter + last.data),
                   frames, results, last.pushes);
    }
  }

  lemma ContinuedPrefix(inputs: seq<Input>)
    requires Continued(inputs) && |inputs| > 1
    ensures Continued(inputs[..|inputs| - 1]) && !inputs[|inputs| - 1].discont
  {
  }

  /** A later call of a stretch only adds its data to the queue. */
  lemma NextCall(cfg: Settings, s: State, inputs: seq<Input>)
    requires cfg.Valid() && cfg.frameSize > 1 && |inputs| > 1 && !inputs[|inputs| - 1].discont
    requires Run(cfg, s, inputs[..|inputs| - 1]).0.adapter != []
    ensures var prefix, last := inputs[..|inputs| - 1], inputs[|inputs| - 1];
            var (before, frames, results) := Run(cfg, s, prefix);
            var (after, more) := CutAll(cfg, before.(adapter := before.adapter + last.data), last.pushes);
            && Run(cfg, s, inputs) == (after, frames + more, results + Results(last.pushes, |more|))
            && Bytes(inputs) == Bytes(prefix) + last.data
  {
    hide CutAll, Results;
    var last := inputs[|inputs| - 1];
    var before := Run(cfg, s, inputs[..|inputs| - 1]).0;
    assert Entered(before, last.data, last.ts, last.discont) == before.(adapter := before.adapter + last.data);
  }

  lemma FirstCall(cfg: Settings, s: State, input: Input)
    requires cfg.Valid() && cfg.frameSize > 1
    requires Locks(s, input)
    ensures var (after, more) := CutAll(cfg, State(input.data, input.ts, 0, s.discont || input.discont), input.pushes);
            && Run(cfg, s, [input]) == (after, [] + more, [] + Results(input.pushes, |more|))
            && Bytes([input]) == [] + input.data
  {
    hide CutAll, Results;
    assert [input][..0] == [];
    assert [] + input.data == input.data;
  }

  // --------------------------------------------------------- frames from the bytes alone

  /** The frames so far are the first ones of `bytes`, and the rest is queued. */
  ghost predicate CutsBytes(cfg: Settings, bytes: seq<byte>, s: State, frames: seq<Frame>) {
    && cfg.Whole(|frames|) <= |bytes| && s.adapter == bytes[cfg.Whole(|frames|)..]
    && Data(frames) == Chunks(cfg, bytes, |frames|)
  }

  /** Frame k of the bytes from frame n on is frame n + k. */
  lemma ShiftedChunk(cfg: Settings, bytes: seq<byte>, n: nat, k: nat)
    requires cfg.Whole(n + k + 1) <= |bytes|
    ensures cfg.Whole(n) + cfg.Whole(k + 1) == cfg.Whole(n + k + 1)
    ensures ChunkAt(cfg, bytes[cfg.Whole(n)..], k) == ChunkAt(cfg, bytes, n + k)
  {
    WholeSum(cfg, n, k);
    WholeSum(cfg, n, k + 1);
    SliceOfDrop(bytes, cfg.Whole(n), cfg.Whole(k), cfg.Whole(k + 1));
  }

  lemma EarlyChunk(cfg: Settings, bytes: seq<byte>, data: seq<byte>, k: nat)
    requires cfg.Whole(k + 1) <= |bytes|
    ensures ChunkAt(cfg, bytes + data, k) == ChunkAt(cfg, bytes, k)
  {
    WholeSum(cfg, k, 1);
    SameSlice(bytes, data, cfg.Whole(k), cfg.Whole(k + 1));
  }

  lemma JoinChunks(cfg: Settings, bytes: seq<byte>, data: seq<byte>, n: nat, m: nat)
    requires cfg.Whole(n) <= |bytes| && cfg.Whole(m) <= |(bytes + data)[cfg.Whole(n)..]|
    ensures cfg.Whole(n + m) <= |bytes + data|
    ensures Chunks(cfg, bytes + data, n + m)
            == Chunks(cfg, bytes, n) + Chunks(cfg, (bytes + data)[cfg.Whole(n)..], m)
  {
    hide ChunkAt;
    var all := bytes + data;
    WholeSum(cfg, n, m);
    var joined := Chunks(cfg, bytes, n) + Chunks(cfg, all[cfg.Whole(n)..], m);
    forall k | 0 <= k < n + m
      ensures Chunks(cfg, all, n + m)[k] == joined[k]
    {
      Enough(cfg, k, n + m);
      if k < n {
        Enough(cfg, k, n);
        EarlyChunk(cfg, bytes, data, k);
      } else {
        Enough(cfg, k - n, m);
        ShiftedChunk(cfg, all, n, k - n);
      }
    }
    SameElements(Chunks(cfg, all, n + m), joined);
  }

  lemma DataOfFrames(cfg: Settings, e: State, n: nat)
    requires cfg.rate > 0 && cfg.Whole(n) <= |e.adapter|
    ensures Data(FramesOf(cfg, e.adapter, e.lock, e.consumed, e.discont, n)) == Chunks(cfg, e.adapter, n)
  {
    forall k | 0 <= k < n
      ensures Data(FramesOf(cfg, e.adapter, e.lock, e.consumed, e.discont, n))[k] == Chunks(cfg, e.adapter, n)[k]
    {
      Enough(cfg, k, n);
    }
    SameElements(Data(FramesOf(cfg, e.adapter, e.lock, e.consumed, e.discont, n)), Chunks(cfg, e.adapter, n));
  }

  lemma DataConcat(a: seq<Frame>, b: seq<Frame>)
    ensures Data(a + b) == Data(a) + Data(b)
  {
  }

  lemma BytesContinue(cfg: Settings, bytes: seq<byte>, s: State, frames: seq<Frame>, e: State, data: seq<byte>,
                      pushes: nat -> Flow)
    requires cfg.Valid() && cfg.frameSize > 1 && CutsBytes(cfg, bytes, s, frames)
    requires e.adapter == s.adapter + data
    ensures var (after, more) := CutAll(cfg, e, pushes);
            CutsBytes(cfg, bytes + data, after, frames + more)
  {
    hide CutAll, FramesOf, Chunks, Data;
    var n := |frames|;
    var (after, more) := CutAll(cfg, e, pushes);
    CutShape(cfg, e, pushes);
    DropThenMore(bytes, cfg.Whole(n), data, cfg.Whole(|more|));
    WholeSum(cfg, n, |more|);
    JoinChunks(cfg, bytes, data, n, |more|);
    DataOfFrames(cfg, e, |more|);
    DataConcat(frames, more);
  }

  /**
   * The frames given to the encoder depend only on the concatenated input: however it is divided into buffers,
   * and whichever pushes fail, they are its consecutive frames from the first on.
   */
  lemma {:induction false} FramesFromBytesAlone(cfg: Settings, s: State, inputs: seq<Input>)
    requires cfg.Valid() && cfg.frameSize > 1 && inputs != [] && Locks(s, inputs[0]) && Continued(inputs)
    ensures var (after, frames, _) := Run(cfg, s, inputs);
            CutsBytes(cfg, Bytes(inputs), after, frames)
    decreases |inputs|
  {
    hide CutAll, CutsBytes;
    var prefix, last := inputs[..|inputs| - 1], inputs[|inputs| - 1];
    if |inputs| == 1 {
      var e := State(last.data, last.ts, 0, s.discont || last.discont);
      NothingCut(cfg, e.(adapter := []));
      assert [] + last.data == last.data;
      BytesContinue(cfg, [], e.(adapter := []), [], e, last.data, last.pushes);
      FirstCall(cfg, s, last);
      assert inputs == [last];
    } else {
      FramesFromBytesAlone(cfg, s, prefix);
      var (before, frames, _) := Run(cfg, s, prefix);
      var e := Entered(before, last.data, last.ts, false);
      BytesContinue(cfg, Bytes(prefix), before, frames, e, last.data, last.pushes);
    }
  }

  lemma NothingCut(cfg: Settings, s: State)
    requires s.adapter == []
    ensures CutsBytes(cfg, [], s, [])
  {
    hide FrameAt, ChunkAt;
    assert Data([]) == [] && Chunks(cfg, [], 0) == [];
  }

  /** So after a call that returned OK every whole frame of the input has gone to the encoder. */
  lemma AllWholeFrames(cfg: Settings, s: State, inputs: seq<Input>)
    requires cfg.Valid() && cfg.frameSize > 1 && inputs != [] && Locks(s, inputs[0]) && Continued(inputs)
    requires var (_, _, results) := Run(cfg, s, inputs[..|inputs| - 1]);
             var (_, _, all) := Run(cfg, s, inputs);
             |all| == |results| || all[|all| - 1] == FlowOk
    ensures cfg.FrameBytes() > 0
    ensures |Run(cfg, s, inputs).1| == |Bytes(inputs)| / cfg.FrameBytes()
  {
    hide CutAll, Chunks, Data;
    var (before, frames, results) := Run(cfg, s, inputs[..|inputs| - 1]);
    var last := inputs[|inputs| - 1];
    FrameBytesPositive(cfg);
    CutShape(cfg, Entered(before, last.data, last.ts, last.discont), last.pushes);
    FramesFromBytesAlone(cfg, s, inputs);
    CountWhole(cfg, |Bytes(inputs)|, |Run(cfg, s, inputs).1|);
  }

  lemma CountWhole(cfg: Settings, bytes: nat, n: nat)
    requires cfg.FrameBytes() > 0 && cfg.Whole(n) <= bytes < cfg.Whole(n) + cfg.FrameBytes()
    ensures n == bytes / cfg.FrameBytes()
  {
    WholeIsProduct(cfg, n);
    WholeIsProduct(cfg, n + 1);
    DivMax(bytes, cfg.FrameBytes(), n);
    DivLess(bytes, cfg.FrameBytes(), n + 1);
  }

  // ------------------------------------------------------------------ exact times

  function SumDurations(frames: seq<Frame>): int {
    if frames == [] then 0 else SumDurations(frames[..|frames| - 1]) + frames[|frames| - 1].dur
  }

  /** Frame k starts exactly at the lock time plus the floored time of the samples before it, and ends likewise. */
  predicate ExactAt(cfg: Settings, lock: ClockTime, f: Frame, k: nat)
    requires cfg.rate > 0
  {
    && f.ts == lock + cfg.Time(cfg.Samples(k))
    && f.ts + f.dur == lock + cfg.Time(cfg.Samples(k + 1))
  }

  /** The time frame k takes fits 64 bits. */
  predicate FrameFits(cfg: Settings, k: nat)
    requires cfg.rate > 0
  {
    cfg.Time(cfg.Samples(k + 1)) - cfg.Time(cfg.Samples(k)) < TWO64
  }

  lemma ModuloSame(x: nat)
    ensures x % TWO64 == x <==> x < TWO64
  {
  }

  /** A frame has its exact times exactly when neither its start nor its length wraps. */
  lemma ExactAtIff(cfg: Settings, bytes: seq<byte>, lock: ClockTime, d: bool, k: nat)
    requires cfg.rate > 0 && cfg.Whole(k + 1) <= |bytes|
    ensures ExactAt(cfg, lock, FrameAt(cfg, bytes, lock, 0, d, k), k)
            <==> lock + cfg.Time(cfg.Samples(k)) < TWO64 && FrameFits(cfg, k)
  {
    TimeMonotone(cfg, k, k + 1);
    hide Scale;
    ModuloSame(lock + cfg.Time(cfg.Samples(k)));
    ModuloSame(cfg.Time(cfg.Samples(k + 1)) - cfg.Time(cfg.Samples(k)));
  }

  /** All frames since a lock have their exact times, so that they abut, exactly when the last start does not wrap. */
  lemma ExactTimesIff(cfg: Settings, bytes: seq<byte>, lock: ClockTime, d: bool, n: nat)
    requires cfg.rate > 0 && 0 < n && cfg.Whole(n) <= |bytes|
    ensures (forall k :: 0 <= k < n ==> ExactAt(cfg, lock, FramesOf(cfg, bytes, lock, 0, d, n)[k], k))
            <==> lock + cfg.Time(cfg.Samples(n - 1)) < TWO64 && forall k :: 0 <= k < n ==> FrameFits(cfg, k)
  {
    hide Scale, FrameFits, ExactAt;
    var frames := FramesOf(cfg, bytes, lock, 0, d, n);
    forall k | 0 <= k < n
      ensures ExactAt(cfg, lock, frames[k], k) <==> lock + cfg.Time(cfg.Samples(k)) < TWO64 && FrameFits(cfg, k)
      ensures cfg.Time(cfg.Samples(k)) <= cfg.Time(cfg.Samples(n - 1))
    {
      Enough(cfg, k, n);
      ExactAtIff(cfg, bytes, lock, d, k);
      TimeMonotone(cfg, k, n - 1);
    }
    if forall k :: 0 <= k < n ==> ExactAt(cfg, lock, frames[k], k) {
      assert ExactAt(cfg, lock, frames[n - 1], n - 1);
    }
  }

  /** Durations add up to the floored time of all samples, whatever the lock. */
  lemma {:induction false} DurationsAddUp(cfg: Settings, bytes: seq<byte>, lock: ClockTime, d: bool, n: nat)
    requires cfg.rate > 0 && cfg.Whole(n) <= |bytes| && forall k :: 0 <= k < n ==> FrameFits(cfg, k)
    ensures SumDurations(FramesOf(cfg, bytes, lock, 0, d, n)) == cfg.Time(cfg.Samples(n))
  {
    hide *;
    if n == 0 {
      NothingLasts(cfg, bytes, lock, d);
    } else {
      WholeSum(cfg, n - 1, 1);
      FramesInit(cfg, bytes, lock, d, n);
      DurationsAddUp(cfg, bytes, lock, d, n - 1);
      SumLast(FramesOf(cfg, bytes, lock, 0, d, n));
      LastDuration(cfg, bytes, lock, d, n - 1);
    }
  }

  lemma NothingLasts(cfg: Settings, bytes: seq<byte>, lock: ClockTime, d: bool)
    requires cfg.rate > 0 && cfg.Whole(0) <= |bytes|
    ensures SumDurations(FramesOf(cfg, bytes, lock, 0, d, 0)) == cfg.Time(cfg.Samples(0))
  {
    TimeOfNothing(cfg);
  }

  lemma SumLast(frames: seq<Frame>)
    requires frames != []
    ensures SumDurations(frames) == SumDurations(frames[..|frames| - 1]) + frames[|frames| - 1].dur
  {
  }

  lemma FramesInit(cfg: Settings, bytes: seq<byte>, lock: ClockTime, d: bool, n: nat)
    requires cfg.rate > 0 && n > 0 && cfg.Whole(n) <= |bytes|
    ensures cfg.Whole(n - 1) <= |bytes|
    ensures FramesOf(cfg, bytes, lock, 0, d, n)[..n - 1] == FramesOf(cfg, bytes, lock, 0, d, n - 1)
    ensures FramesOf(cfg, bytes, lock, 0, d, n)[n - 1] == FrameAt(cfg, bytes, lock, 0, d, n - 1)
  {
    hide FrameAt;
    WholeSum(cfg, n - 1, 1);
    SameElements(FramesOf(cfg, bytes, lock, 0, d, n)[..n - 1], FramesOf(cfg, bytes, lock, 0, d, n - 1));
  }

  lemma LastDuration(cfg: Settings, bytes: seq<byte>, lock: ClockTime, d: bool, k: nat)
    requires cfg.rate > 0 && cfg.Whole(k + 1) <= |bytes| && FrameFits(cfg, k)
    ensures FrameAt(cfg, bytes, lock, 0, d, k).dur == cfg.Time(cfg.Samples(k + 1)) - cfg.Time(cfg.Samples(k))
  {
    TimeMonotone(cfg, k, k + 1);
    hide Scale;
    ModuloSame(cfg.Time(cfg.Samples(k + 1)) - cfg.Time(cfg.Samples(k)));
  }

  lemma TimeOfNothing(cfg: Settings)
    requires cfg.rate > 0
    ensures cfg.Time(0) == 0
  {
  }

  lemma TimeMonotone(cfg: Settings, a: nat, b: nat)
    requires cfg.rate > 0 && a <= b
    ensures cfg.Time(cfg.Samples(a)) <= cfg.Time(cfg.Samples(b))
  {
    WholeSum(cfg, a, b - a);
    ScaleMonotone(cfg.Samples(a), cfg.Samples(b), SECOND, cfg.rate);
  }

  /**
   * A buffer without a time locks on "unknown": frames are exact only as long as no time has passed since, and later
   * ones get times near 0.
   */
  lemma UnknownLockWraps(cfg: Settings, bytes: seq<byte>, d: bool, k: nat)
    requires cfg.rate > 0 && cfg.Whole(k + 1) <= |bytes|
    ensures ExactAt(cfg, CLOCK_TIME_NONE, FrameAt(cfg, bytes, CLOCK_TIME_NONE, 0, d, k), k)
            <==> cfg.Time(cfg.Samples(k)) == 0 && FrameFits(cfg, k)
    ensures 0 < cfg.Time(cfg.Samples(k)) < TWO64 ==>
              FrameAt(cfg, bytes, CLOCK_TIME_NONE, 0, d, k).ts == cfg.Time(cfg.Samples(k)) - 1
  {
    hide Scale, ExactAt, FrameFits;
    ExactAtIff(cfg, bytes, CLOCK_TIME_NONE, d, k);
    UnknownPlus(cfg.Time(cfg.Samples(k)));
  }

  lemma UnknownPlus(x: nat)
    ensures 0 < x < TWO64 ==> (CLOCK_TIME_NONE + x) % TWO64 == x - 1
  {
    if 0 < x < TWO64 {
      SameModulo(CLOCK_TIME_NONE + x, x - 1, 1);
    }
  }

  /** Over a whole run of calls: frame k of the stretch has its exact times exactly under that condition. */
  lemma RunTimesIff(cfg: Settings, s: State, inputs: seq<Input>, k: nat)
    requires cfg.Valid() && cfg.frameSize > 1 && inputs != []
    requires Locks(s, inputs[0]) && Continued(inputs) && LockHeld(cfg, s, inputs)
    requires k < |Run(cfg, s, inputs).1|
    ensures ExactAt(cfg, inputs[0].ts, Run(cfg, s, inputs).1[k], k)
            <==> inputs[0].ts + cfg.Time(cfg.Samples(k)) < TWO64 && FrameFits(cfg, k)
  {
    NoDrift(cfg, s, inputs);
    hide Run, Scale, FrameFits;
    var frames := Run(cfg, s, inputs).1;
    Enough(cfg, k, |frames|);
    ExactAtIff(cfg, Bytes(inputs), inputs[0].ts, false, k);
    assert Unmarked(frames)[k] == FrameAt(cfg, Bytes(inputs), inputs[0].ts, 0, false, k);
  }

  // ------------------------------------------------------------------ samples and frames

  /** Frame k holds the samples from k * n to (k + 1) * n, and those after the last frame are left. */
  ghost predicate HoldSamples(frames: seq<Frame>, left: seq<byte>, samples: seq<Sample>, n: nat) {
    && 0 <= |frames| * n <= |samples| && left == Flat(samples[|frames| * n..])
    && forall k :: 0 <= k < |frames| ==> k * n + n <= |samples| && frames[k].data == Piece(samples, n, k)
  }

  /** Frame k starts the floored time of k * n samples after the lock, and lasts until the next one starts. */
  ghost predicate TimedBySamples(frames: seq<Frame>, lock: ClockTime, n: nat, rate: nat)
    requires rate > 0
  {
    forall k :: 0 <= k < |frames| ==> TimedAt(frames[k], lock, n, rate, k)
  }

  predicate TimedAt(f: Frame, lock: ClockTime, n: nat, rate: nat, k: nat)
    requires rate > 0
  {
    && f.ts == (lock + k * n * SECOND / rate) % TWO64
    && f.dur == ((k + 1) * n * SECOND / rate - k * n * SECOND / rate) % TWO64
  }

  lemma WholeSamples(cfg: Settings, k: nat)
    ensures cfg.Whole(k) == (k * cfg.frameSize) * (cfg.channels * cfg.sampleBytes)
  {
    WholeIsProduct(cfg, k);
    var a, b, c := cfg.frameSize, cfg.sampleBytes, cfg.channels;
    assert a * b * c == a * (c * b);
    MulAssociates(k, a, c * b);
  }

  /** As many bytes as n samples have are the bytes of that many samples. */
  lemma EnoughSamples(samples: seq<Sample>, channels: nat, width: nat, n: nat)
    requires Interleaves(samples, channels, width) && channels > 0 && width > 0
    requires n * (channels * width) <= |Flat(samples)|
    ensures n <= |samples|
  {
    hide Flat, Interleaves;
    FlatLength(samples, channels, width);
    SampleSize(channels, width);
    var size := channels * width;
    assert (|samples| + 1) * size == |samples| * size + size;
    if n > |samples| {
      MulLe(|samples| + 1, n, size);
    }
  }

  lemma SampleSize(channels: nat, width: nat)
    requires channels > 0 && width > 0
    ensures channels * width > 0
  {
  }

  /** Chunk k of interleaved samples is the bytes of its samples. */
  lemma ChunkHoldsSamples(cfg: Settings, samples: seq<Sample>, k: nat)
    requires cfg.Valid() && Interleaves(samples, cfg.channels, cfg.sampleBytes)
    requires cfg.Whole(k + 1) <= |Flat(samples)|
    ensures k * cfg.frameSize + cfg.frameSize <= |samples|
    ensures ChunkAt(cfg, Flat(samples), k) == Piece(samples, cfg.frameSize, k)
  {
    hide Flat, Interleaves;
    var n := cfg.frameSize;
    WholeSamples(cfg, k);
    WholeSamples(cfg, k + 1);
    assert (k + 1) * n == k * n + n;
    EnoughSamples(samples, cfg.channels, cfg.sampleBytes, k * n + n);
    FlatSlice(samples, cfg.channels, cfg.sampleBytes, k * n, k * n + n);
  }

  /**
   * For interleaved input frame k is the bytes of samples k * frameSize to (k + 1) * frameSize, however the input is
   * divided and whichever pushes fail, and the samples after the last frame are queued.
   */
  lemma FramesHoldSamples(cfg: Settings, s: State, inputs: seq<Input>, samples: seq<Sample>)
    requires cfg.Valid() && cfg.frameSize > 1 && inputs != [] && Locks(s, inputs[0]) && Continued(inputs)
    requires Interleaves(samples, cfg.channels, cfg.sampleBytes) && Bytes(inputs) == Flat(samples)
    ensures var (after, frames, _) := Run(cfg, s, inputs);
            HoldSamples(frames, after.adapter, samples, cfg.frameSize)
  {
    FramesFromBytesAlone(cfg, s, inputs);
    hide Run, Flat, Interleaves, Locks, Continued, Bytes, ChunkAt, Piece;
    var (after, frames, _) := Run(cfg, s, inputs);
    CutSamples(cfg, samples, after, frames);
  }

  lemma CutSamples(cfg: Settings, samples: seq<Sample>, s: State, frames: seq<Frame>)
    requires cfg.Valid() && Interleaves(samples, cfg.channels, cfg.sampleBytes)
    requires CutsBytes(cfg, Flat(samples), s, frames)
    ensures HoldSamples(frames, s.adapter, samples, cfg.frameSize)
  {
    hide Flat, Interleaves, ChunkAt, Piece;
    var m := |frames|;
    WholeSamples(cfg, m);
    EnoughSamples(samples, cfg.channels, cfg.sampleBytes, m * cfg.frameSize);
    FlatSlice(samples, cfg.channels, cfg.sampleBytes, m * cfg.frameSize, m * cfg.frameSize);
    forall k | 0 <= k < m
      ensures k * cfg.frameSize + cfg.frameSize <= |samples|
      ensures frames[k].data == Piece(samples, cfg.frameSize, k)
    {
      Enough(cfg, k, m);
      ChunkHoldsSamples(cfg, samples, k);
      assert Data(frames)[k] == Chunks(cfg, Flat(samples), m)[k];
    }
  }

  /** And its times are those of the samples in the frames before it. */
  lemma TimesOfSamples(cfg: Settings, s: State, inputs: seq<Input>)
    requires cfg.Valid() && cfg.frameSize > 1 && inputs != []
    requires Locks(s, inputs[0]) && Continued(inputs) && LockHeld(cfg, s, inputs)
    ensures TimedBySamples(Run(cfg, s, inputs).1, inputs[0].ts, cfg.frameSize, cfg.rate)
  {
    NoDrift(cfg, s, inputs);
    var (_, frames, _) := Run(cfg, s, inputs);
    hide Run, Scale, FramesOf, TimedBySamples, Locks, LockHeld, Continued, Marks;
    StampedFromSamples(cfg, Bytes(inputs), inputs[0].ts, frames);
  }

  lemma StampedFromSamples(cfg: Settings, bytes: seq<byte>, lock: ClockTime, frames: seq<Frame>)
    requires cfg.rate > 0 && cfg.Whole(|frames|) <= |bytes|
    requires Unmarked(frames) == FramesOf(cfg, bytes, lock, 0, false, |frames|)
    ensures TimedBySamples(frames, lock, cfg.frameSize, cfg.rate)
  {
    hide FrameAt, Settings.Time;
    forall k | 0 <= k < |frames|
      ensures TimedAt(frames[k], lock, cfg.frameSize, cfg.rate, k)
    {
      Enough(cfg, k, |frames|);
      assert Unmarked(frames)[k] == FrameAt(cfg, bytes, lock, 0, false, k);
      hide *;
      FrameTimedAt(cfg, bytes, lock, k);
      SameTimes(frames[k], FrameAt(cfg, bytes, lock, 0, false, k), lock, cfg.frameSize, cfg.rate, k);
    }
  }

  lemma SameTimes(f: Frame, g: Frame, lock: ClockTime, n: nat, rate: nat, k: nat)
    requires rate > 0 && f.(discont := false) == g && TimedAt(g, lock, n, rate, k)
    ensures TimedAt(f, lock, n, rate, k)
  {
  }

  lemma FrameTimedAt(cfg: Settings, bytes: seq<byte>, lock: ClockTime, k: nat)
    requires cfg.rate > 0 && cfg.Whole(k + 1) <= |bytes|
    ensures TimedAt(FrameAt(cfg, bytes, lock, 0, false, k), lock, cfg.frameSize, cfg.rate, k)
  {
    hide Settings.Time;
    TimeOfSamples(cfg, k);
    TimeOfSamples(cfg, k + 1);
  }

  lemma TimeOfSamples(cfg: Settings, k: nat)
    requires cfg.rate > 0
    ensures cfg.Time(cfg.Samples(k)) == k * cfg.frameSize * SECOND / cfg.rate
  {
    WholeIsProduct(cfg, k);
  }

  /** After a call that returned OK fewer samples than a frame holds are left. */
  lemma AllWholeSamples(cfg: Settings, s: State, inputs: seq<Input>, samples: seq<Sample>)
    requires cfg.Valid() && cfg.frameSize > 1 && inputs != [] && Locks(s, inputs[0]) && Continued(inputs)
    requires Interleaves(samples, cfg.channels, cfg.sampleBytes) && Bytes(inputs) == Flat(samples)
    requires var (_, _, results) := Run(cfg, s, inputs[..|inputs| - 1]);
             var (_, _, all) := Run(cfg, s, inputs);
             |all| == |results| || all[|all| - 1] == FlowOk
    ensures |Run(cfg, s, inputs).1| == |samples| / cfg.frameSize
  {
    AllWholeFrames(cfg, s, inputs);
    hide *;
    FlatLength(samples, cfg.channels, cfg.sampleBytes);
    FramesInSamples(cfg, |samples|);
  }

  lemma FramesInSamples(cfg: Settings, n: nat)
    requires cfg.Valid() && cfg.frameSize > 0
    ensures n * (cfg.channels * cfg.sampleBytes) / cfg.FrameBytes() == n / cfg.frameSize
  {
    var size, f := cfg.channels * cfg.sampleBytes, cfg.frameSize;
    SampleSize(cfg.channels, cfg.sampleBytes);
    FrameBytesPositive(cfg);
    WholeSamples(cfg, 1);
    assert cfg.FrameBytes() == cfg.Whole(1) == f * size;
    hide *;
    DivCancel(n, f, size);
  }
}
