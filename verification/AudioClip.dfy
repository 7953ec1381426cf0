/**
 * Decoded audio: its duration is the floor of its length in time, and clipping to the segment turns
 * time cut off at either end back into whole sample frames, again rounding down.
 */
module AudioClip {
  import opened Basics
  import opened Floors
  import opened Interleaved

  /** The format of decoded audio: bytes per sample, channels and rate. */
  datatype Format = Format(depth: nat, channels: nat, rate: nat) {
    predicate Valid() {
      depth > 0 && channels > 0 && rate > 0
    }

    function FrameBytes(): nat {
      depth * channels
    }

    function BytesPerSecond(): nat {
      depth * channels * rate
    }
  }

  /** No TIME segment to clip to, or what gst_segment_clip gives back for it. */
  datatype Clip = Unclipped | Outside | Inside(start: nat, stop: nat)

  predicate ClipContract(clip: Clip, start: nat, stop: nat) {
    clip.Inside? ==> start <= clip.start <= clip.stop <= stop
  }

  function Duration(bytes: nat, f: Format): nat
    requires f.Valid()
  {
    Positive(f);
    Scale(bytes, SECOND, f.BytesPerSecond())
  }

  lemma Positive(f: Format)
    requires f.Valid()
    ensures f.FrameBytes() > 0 && f.BytesPerSecond() > 0
  {
    assert f.depth * f.channels > 0;
    assert f.depth * f.channels * f.rate > 0;
  }

  /** Whole sample frames in a stretch of time. */
  function Frames(time: nat, f: Format): nat {
    Scale(time, f.rate, SECOND)
  }

  /** The frames in the floored duration of `bytes` are not more than the frames in `bytes`. */
  lemma DurationFrames(bytes: nat, f: Format)
    requires f.Valid()
    ensures Frames(Duration(bytes, f), f) * f.FrameBytes() <= bytes
    ensures Duration(bytes, f) * f.rate * f.FrameBytes() <= bytes * SECOND
    ensures bytes * SECOND < (Duration(bytes, f) + 1) * f.rate * f.FrameBytes()
  {
    Positive(f);
    var d, fb, r := Duration(bytes, f), f.FrameBytes(), f.rate;
    DivBounds(bytes * SECOND, f.BytesPerSecond());
    assert d * (fb * r) <= bytes * SECOND < d * (fb * r) + fb * r;
    var n := Frames(d, f);
    DivBounds(d * r, SECOND);
    assert n * SECOND <= d * r;
    MulLe(n * SECOND, d * r, fb);
    assert n * SECOND * fb == n * fb * SECOND && d * r * fb == d * (fb * r);
    assert n * fb * SECOND <= bytes * SECOND;
    DivMax(bytes * SECOND, SECOND, n * fb);
    assert bytes * SECOND / SECOND == bytes;
    assert (d + 1) * r * fb == d * (fb * r) + fb * r;
  }

  /** An output buffer: a window of `size` bytes at `start` into the decoded data, with its times. */
  class AudioBuffer {
    const data: seq<byte>
    var start: int
    var size: int
    var timestamp: nat
    var duration: nat

    constructor (data: seq<byte>, timestamp: nat, duration: nat)
      ensures this.data == data && start == 0 && size == |data|
      ensures this.timestamp == timestamp && this.duration == duration
    {
      this.data := data;
      start, size := 0, |data|;
      this.timestamp, this.duration := timestamp, duration;
    }

    /**
     * clip_audio_buffer. `dur` is the floored duration of the whole buffer, as the caller computed it.
     */
    method ClipTo(f: Format, inTs: nat, dur: nat, clip: Clip) returns (keep: bool)
      requires f.Valid() && ClipContract(clip, inTs, inTs + dur)
      requires start == 0 && size == |data| && dur == Duration(|data|, f)
      modifies this
      ensures keep <==> !clip.Outside?
      ensures !clip.Inside? ==> unchanged(this)
      ensures clip.Inside? ==> timestamp == clip.start && duration == clip.stop - clip.start
      ensures clip.Inside? ==> KeepsEnough(|data|, f, inTs, dur, clip, start, size)
    {
      var stop := inTs + dur;
      if clip.Unclipped? {
        return true;
      }
      if clip.Outside? {
        return false;
      }
      CutsFit(|data|, f, inTs, dur, clip);
      var diff := clip.start - inTs;
      if diff > 0 {
        diff := Scale(diff, f.rate, SECOND) * (f.depth * f.channels);
        size := size - diff;
        start := start + diff;
      }
      diff := stop - clip.stop;
      if diff > 0 {
        diff := Scale(diff, f.rate, SECOND) * (f.depth * f.channels);
        size := size - diff;
      }
      timestamp := clip.start;
      duration := clip.stop - clip.start;
      return true;
    }
  }

  /** What is left lies inside the decoded data, and both cuts are whole sample frames. */
  ghost predicate CutsFrames(bytes: nat, f: Format, head: nat, tail: nat, start: int, size: int) {
    && 0 <= start && 0 <= size && start + size <= bytes
    && start == Frames(head, f) * f.FrameBytes()
    && bytes - (start + size) == Frames(tail, f) * f.FrameBytes()
  }

  /** And what is left covers the clipped time, with less than two frames (and one time unit) to spare. */
  ghost predicate KeepsEnough(bytes: nat, f: Format, inTs: nat, dur: nat, clip: Clip, start: int, size: int)
    requires clip.Inside? && ClipContract(clip, inTs, inTs + dur)
  {
    && CutsFrames(bytes, f, clip.start - inTs, inTs + dur - clip.stop, start, size)
    && size * SECOND >= (clip.stop - clip.start) * f.rate * f.FrameBytes()
    && size * SECOND < ((clip.stop - clip.start + 1) * f.rate + 2 * SECOND) * f.FrameBytes()
  }

  lemma TwoCuts(head: nat, tail: nat, all: nat, fb: nat, bytes: nat)
    requires head + tail <= all && all * fb <= bytes
    ensures head * fb + tail * fb == (head + tail) * fb <= bytes
  {
    MulLe(head + tail, all, fb);
  }

  lemma CutsFit(bytes: nat, f: Format, inTs: nat, dur: nat, clip: Clip)
    requires f.Valid() && clip.Inside? && ClipContract(clip, inTs, inTs + dur) && dur == Duration(bytes, f)
    ensures Frames(0, f) == 0
    ensures var head, tail := Frames(clip.start - inTs, f), Frames(inTs + dur - clip.stop, f);
            KeepsEnough(bytes, f, inTs, dur, clip, head * f.FrameBytes(), bytes - (head + tail) * f.FrameBytes())
  {
    Positive(f);
    var a, b, left := clip.start - inTs, inTs + dur - clip.stop, clip.stop - clip.start;
    var head, tail, fb, r := Frames(a, f), Frames(b, f), f.FrameBytes(), f.rate;
    ScaleSum(a, b, r, SECOND);
    ScaleMonotone(a + b, dur, r, SECOND);
    DurationFrames(bytes, f);
    CoversTime(bytes, f, dur, a, b, left);
    hide Duration, Frames, Scale, Format.FrameBytes;
    TwoCuts(head, tail, Frames(dur, f), fb, bytes);
  }

  lemma CoversLinear(fb: nat, cutTime: int, left: int, r: nat, cut: nat, bytes: nat)
    requires cutTime - 2 * SECOND < cut * SECOND <= cutTime
    requires (cutTime + left) * fb <= bytes * SECOND < (cutTime + left + r) * fb
    ensures left * fb <= (bytes - cut * fb) * SECOND < (left + r + 2 * SECOND) * fb
  {
    var x := cutTime - cut * SECOND;
    assert (bytes - cut * fb) * SECOND == bytes * SECOND - (cutTime - x) * fb by {
      assert cut * fb * SECOND == cut * SECOND * fb;
    }
    assert (cutTime + left) * fb - (cutTime - x) * fb == (left + x) * fb;
    assert (cutTime + left + r) * fb - (cutTime - x) * fb == (left + r + x) * fb;
    MulLe(left, left + x, fb);
    MulLe(left + r + x, left + r + 2 * SECOND, fb);
  }

  lemma CoversTime(bytes: nat, f: Format, dur: nat, a: nat, b: nat, left: nat)
    requires f.Valid() && dur == Duration(bytes, f) == a + b + left
    ensures var fb := f.FrameBytes();
            var size := bytes - (Frames(a, f) + Frames(b, f)) * fb;
            left * f.rate * fb <= size * SECOND < ((left + 1) * f.rate + 2 * SECOND) * fb
  {
    Positive(f);
    var fb, r := f.FrameBytes(), f.rate;
    var cut := Frames(a, f) + Frames(b, f);
    DivBounds(a * r, SECOND);
    DivBounds(b * r, SECOND);
    DurationFrames(bytes, f);
    hide Frames, Duration, Format.FrameBytes;
    ThreeParts(a, b, left, r);
    CoversLinear(fb, a * r + b * r, left * r, r, cut, bytes);
  }

  lemma ThreeParts(a: nat, b: nat, left: nat, r: nat)
    ensures (a + b + left) * r == a * r + b * r + left * r
    ensures (a + b + left + 1) * r == a * r + b * r + left * r + r
    ensures (left + 1) * r == left * r + r
  {
  }

  /** Clipping never removes more than was decoded, and removes whole sample frames at each end. */
  lemma ClippingIsSafe(bytes: nat, f: Format, inTs: nat, clip: Clip)
    requires f.Valid() && clip.Inside? && ClipContract(clip, inTs, inTs + Duration(bytes, f))
    ensures var stop := inTs + Duration(bytes, f);
            (Frames(clip.start - inTs, f) + Frames(stop - clip.stop, f)) * f.FrameBytes() <= bytes
  {
    CutsFit(bytes, f, inTs, Duration(bytes, f), clip);
  }

  /** The time the next buffer is stamped with if it has none: the end of this one, which has its own or that time. */
  function NextTime(next: ClockTime, inTs: ClockTime, bytes: nat, f: Format): ClockTime
    requires f.Valid()
  {
    ((if inTs != CLOCK_TIME_NONE then inTs else next) + Duration(bytes, f)) % TWO64
  }

  /** The decoder's part that stamps decoded audio: it interpolates from the previous buffer when it must. */
  class AudioDecoder {
    const format: Format
    var nextTs: ClockTime

    constructor (format: Format)
      ensures this.format == format && nextTs == CLOCK_TIME_NONE
    {
      this.format := format;
      nextTs := CLOCK_TIME_NONE;
    }

    /**
     * gst_ffmpegdec_audio_frame after the codec produced `decoded`. The sum of time and duration is a guint64.
     */
    method AudioFrame(decoded: seq<byte>, inTs: ClockTime, segment: (nat, nat) -> Clip) returns (outbuf: AudioBuffer?)
      requires format.Valid() && decoded != []
      requires forall a, b :: ClipContract(segment(a, b), a, b)
      modifies this`nextTs
      ensures outbuf != null ==> fresh(outbuf) && outbuf.data == decoded
      ensures var ts := if inTs != CLOCK_TIME_NONE then inTs else old(nextTs);
              var dur := Duration(|decoded|, format);
              var clip := if ts == CLOCK_TIME_NONE then Unclipped else segment(ts, ts + dur);
              && nextTs == NextTime(old(nextTs), inTs, |decoded|, format)
              && (outbuf == null <==> clip.Outside?)
              && (outbuf != null && clip.Unclipped? ==>
                    outbuf.timestamp == ts && outbuf.duration == dur && outbuf.start == 0 && outbuf.size == |decoded|)
              && (outbuf != null && clip.Inside? ==>
                    && outbuf.timestamp == clip.start && outbuf.duration == clip.stop - clip.start
                    && KeepsEnough(|decoded|, format, ts, dur, clip, outbuf.start, outbuf.size))
    {
      var ts := if inTs != CLOCK_TIME_NONE then inTs else nextTs;
      var dur := Duration(|decoded|, format);
      var buf := new AudioBuffer(decoded, ts, dur);
      nextTs := (ts + dur) % TWO64;
      var clip := if ts == CLOCK_TIME_NONE then Unclipped else segment(ts, ts + dur);
      var keep := buf.ClipTo(format, ts, dur, clip);
      return if keep then buf else null;
    }
  }

  // ------------------------------------------------------------------ samples

  /** The duration of n samples, however wide and with however many channels. */
  lemma DurationOfSamples(n: nat, f: Format)
    requires f.Valid()
    ensures Duration(n * (f.depth * f.channels), f) == n * SECOND / f.rate
  {
    Positive(f);
    var m := f.depth * f.channels;
    assert n * m * SECOND == n * SECOND * m && f.BytesPerSecond() == f.rate * m;
    hide Format.BytesPerSecond;
    DivCancel(n * SECOND, f.rate, m);
  }

  /**
   * Of interleaved audio clipping drops the samples that lie wholly in the time cut off at either end (`head` and
   * `tail`), and keeps all others.
   */
  lemma ClipKeepsSamples(samples: seq<Sample>, f: Format, head: nat, tail: nat, start: int, size: int)
    requires f.Valid() && Interleaves(samples, f.channels, f.depth)
    requires CutsFrames(|Flat(samples)|, f, head, tail, start, size)
    ensures var first, last := head * f.rate / SECOND, |samples| - tail * f.rate / SECOND;
            && 0 <= first <= last <= |samples|
            && Flat(samples)[start..start + size] == Flat(samples[first..last])
  {
    hide Interleaves, Flat, Format.FrameBytes;
    MiddleSamples(samples, f, Frames(head, f), Frames(tail, f), start, size);
  }

  lemma LengthOfSamples(samples: seq<Sample>, f: Format)
    requires Interleaves(samples, f.channels, f.depth)
    ensures |Flat(samples)| == |samples| * f.FrameBytes() == |samples| * (f.depth * f.channels)
  {
    FlatLength(samples, f.channels, f.depth);
    assert f.channels * f.depth == f.depth * f.channels;
  }

  lemma MiddleSamples(samples: seq<Sample>, f: Format, head: nat, tail: nat, start: nat, size: nat)
    requires f.Valid() && Interleaves(samples, f.channels, f.depth)
    requires start == head * f.FrameBytes() && start + size + tail * f.FrameBytes() == |Flat(samples)|
    ensures head <= |samples| - tail
    ensures Flat(samples)[start..start + size] == Flat(samples[head..|samples| - tail])
  {
    hide Interleaves, Flat;
    var n, m := |samples|, f.FrameBytes();
    Positive(f);
    LengthOfSamples(samples, f);
    CutSamples(head, tail, n, m);
    assert m == f.channels * f.depth;
    MulLess(n, tail, m);
    FlatSlice(samples, f.channels, f.depth, head, n - tail);
  }

  lemma MulLess(a: int, b: int, m: int)
    ensures (a - b) * m == a * m - b * m
  {
  }

  lemma CutSamples(head: nat, tail: nat, n: nat, m: nat)
    requires m > 0 && head * m + tail * m <= n * m
    ensures head + tail <= n
  {
    if head + tail > n {
      MulLe(n + 1, head + tail, m);
    }
  }

  // ------------------------------------------------------------------ interpolation

  /** A decoded buffer: the time of its input, and its samples. */
  datatype Decoded = Decoded(ts: ClockTime, samples: nat)

  function Samples(run: seq<Decoded>): nat {
    if run == [] then 0 else Samples(run[..|run| - 1]) + run[|run| - 1].samples
  }

  /** The time kept after a run of buffers, for the next one without a time. */
  function Kept(next: ClockTime, run: seq<Decoded>, f: Format): ClockTime
    requires f.Valid()
  {
    if run == [] then next
    else
      var last := run[|run| - 1];
      NextTime(Kept(next, run[..|run| - 1], f), last.ts, last.samples * (f.depth * f.channels), f)
  }

  /** Only the first buffer of the run has a time. */
  predicate TimeFirst(run: seq<Decoded>) {
    run != [] && forall k :: 0 < k < |run| ==> run[k].ts == CLOCK_TIME_NONE
  }

  /**
   * A buffer interpolated after others starts no later than the time of the first of them and the exact time of the
   * samples since, and earlier by less than one time unit for each of those buffers. The first may have its own time
   * or have been interpolated itself.
   */
  lemma {:induction false} InterpolationDrift(next: ClockTime, run: seq<Decoded>, f: Format)
    requires f.Valid() && TimeFirst(run)
    ensures var start := if run[0].ts == CLOCK_TIME_NONE then next else run[0].ts;
            var exact := start + Samples(run) * SECOND / f.rate;
            exact < CLOCK_TIME_NONE ==> Kept(next, run, f) <= exact < Kept(next, run, f) + |run|
  {
    hide Duration;
    var init, last := run[..|run| - 1], run[|run| - 1];
    DurationOfSamples(last.samples, f);
    ScaleSum(Samples(init), last.samples, SECOND, f.rate);
    if init == [] {
      assert Kept(next, init, f) == next;
      var start := if last.ts == CLOCK_TIME_NONE then next else last.ts;
      NoWrap(start + last.samples * SECOND / f.rate);
    } else {
      InterpolationDrift(next, init, f);
      NoWrap(Kept(next, init, f) + last.samples * SECOND / f.rate);
    }
  }

  lemma NoWrap(x: nat)
    ensures x < TWO64 ==> x % TWO64 == x
  {
  }
}
