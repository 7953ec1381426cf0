/**
 * Conversion between GStreamer clock times (guint64 nanoseconds) and FFmpeg timestamps (gint64 ticks
 * of a rational time base).
 */
module TimeConversion {
  import opened Basics
  import opened Floors

  /** AV_NOPTS_VALUE. */
  const NOPTS: int := -0x8000_0000_0000_0000

  /** An AVRational holds two ints. */
  datatype TimeBase = TimeBase(num: nat, den: nat) {
    predicate Valid() {
      num < 0x8000_0000 && 0 < den < 0x8000_0000
    }
  }

  /** av_rescale: a * b / c rounded to nearest, halves away from zero. */
  function Rescale(a: int, b: nat, c: nat): int
    requires c > 0
  {
    if a >= 0 then (a * b + c / 2) / c else -((-a * b + c / 2) / c)
  }

  predicate IsInt64(x: int) {
    -0x8000_0000_0000_0000 <= x < 0x8000_0000_0000_0000
  }

  function ToUint64(x: int): ClockTime {
    x % TWO64
  }

  function ToInt64(t: ClockTime): int {
    if t < 0x8000_0000_0000_0000 then t else t - TWO64
  }

  /** gst_ffmpeg_time_ff_to_gst. */
  function FfToGst(pts: int, base: TimeBase): ClockTime
    requires base.Valid()
  {
    if pts == NOPTS then CLOCK_TIME_NONE else ToUint64(Rescale(pts, base.num * SECOND, base.den))
  }

  /** gst_ffmpeg_time_gst_to_ff. */
  function GstToFf(time: ClockTime, base: TimeBase): int
    requires base.Valid()
  {
    if time == CLOCK_TIME_NONE || base.num == 0 then NOPTS
    else
      assert SECOND * base.num > 0;
      Rescale(ToInt64(time), base.den, SECOND * base.num)
  }

  // ------------------------------------------------------------------ what the conversions compute

  /** Of the multiples of c, x is the nearest to n, and of two equally near ones that further from zero. */
  predicate NearestMultiple(n: int, c: nat, x: int) {
    if n >= 0 then 2 * x - c <= 2 * n < 2 * x + c else 2 * x - c < 2 * n <= 2 * x + c
  }

  /** q is n / c rounded to the nearest integer. */
  predicate IsNearest(n: int, c: nat, q: int) {
    NearestMultiple(n, c, q * c)
  }

  lemma OneNearest(n: int, c: nat, p: int, q: int)
    requires c > 0 && IsNearest(n, c, p) && IsNearest(n, c, q)
    ensures p == q
  {
    if p < q {
      MulLe(p + 1, q, c);
      NextMultiple(p, c);
    } else if q < p {
      MulLe(q + 1, p, c);
      NextMultiple(q, c);
    }
  }

  lemma RoundedUp(n: nat, c: nat)
    requires c > 0
    ensures (n + c / 2) / c >= 0 && IsNearest(n, c, (n + c / 2) / c)
  {
    var q := Rounded(n, c);
  }

  lemma NegateProduct(a: int, b: int)
    ensures -a * b == -(a * b)
  {
  }

  lemma RescaleIsNearest(a: int, b: nat, c: nat)
    requires c > 0
    ensures IsNearest(a * b, c, Rescale(a, b, c))
  {
    if a >= 0 {
      MulLe(0, a, b);
      RoundedUp(a * b, c);
    } else {
      NegateProduct(a, b);
      MulLe(0, -a, b);
      RoundedUp(-(a * b), c);
      NegateProduct(Rescale(a, b, c), c);
    }
  }

  /** `ticks` is what a clock time is worth in ticks: the nearest number of them, or the mark of the unknown time. */
  predicate IsTicks(time: ClockTime, base: TimeBase, ticks: int) {
    if time == CLOCK_TIME_NONE || base.num == 0 then ticks == -0x8000_0000_0000_0000
    else
      var signed := if time < 0x8000_0000_0000_0000 then time else time - 0x1_0000_0000_0000_0000;
      IsNearest(signed * base.den, 1_000_000_000 * base.num, ticks)
  }

  /** An unknown time, or any in a base without length, becomes the unknown number of ticks, any other the nearest. */
  lemma TicksOfTimeIff(time: ClockTime, base: TimeBase, ticks: int)
    requires base.Valid()
    ensures GstToFf(time, base) == ticks <==> IsTicks(time, base, ticks)
  {
    if time != CLOCK_TIME_NONE && base.num > 0 {
      var c := SECOND * base.num;
      assert c > 0;
      RescaleIsNearest(ToInt64(time), base.den, c);
      if IsTicks(time, base, ticks) {
        hide *;
        OneNearest(ToInt64(time) * base.den, c, GstToFf(time, base), ticks);
      }
    }
  }

  /** The unknown number of ticks becomes the unknown time, any other the nearest clock time, reduced to 64 bits. */
  lemma TimeOfTicksIff(pts: int, base: TimeBase, time: ClockTime)
    requires base.Valid()
    ensures FfToGst(pts, base) == time
            <==> if pts == -0x8000_0000_0000_0000 then time == CLOCK_TIME_NONE
                 else exists x: int ::
                   IsNearest(pts * (base.num * 1_000_000_000), base.den, x) && x % 0x1_0000_0000_0000_0000 == time
  {
    if pts != NOPTS {
      var n, x := base.num * SECOND, Rescale(pts, base.num * SECOND, base.den);
      RescaleIsNearest(pts, n, base.den);
      forall y | IsNearest(pts * n, base.den, y)
        ensures y == x
      {
        hide *;
        OneNearest(pts * n, base.den, x, y);
      }
    }
  }

  lemma {:induction false} RescaleMonotone(a: int, a': int, b: nat, c: nat)
    requires a <= a' && c > 0
    ensures Rescale(a, b, c) <= Rescale(a', b, c)
  {
    if a >= 0 {
      MulLe(a, a', b);
      FloorMonotone(a * b + c / 2, a' * b + c / 2, c);
    } else if a' >= 0 {
      MulLe(0, -a, b);
      MulLe(0, a', b);
      FloorMonotone(0, -a * b + c / 2, c);
      FloorMonotone(0, a' * b + c / 2, c);
      assert 0 / c == 0;
    } else {
      MulLe(-a', -a, b);
      FloorMonotone(-a' * b + c / 2, -a * b + c / 2, c);
    }
  }

  lemma FloorMonotone(x: int, y: int, c: nat)
    requires c > 0 && x <= y
    ensures x / c <= y / c
  {
    DivBounds(x, c);
    DivMax(y, c, x / c);
  }

  /** Clock times from here on are taken for negative ones. */
  const HALF: ClockTime := 0x8000_0000_0000_0000

  /** So little time that it rounds to no tick at all. */
  predicate BelowHalfTick(x: nat, base: TimeBase) {
    x * base.den + SECOND * base.num / 2 < SECOND * base.num
  }

  lemma RoundsToNothing(x: nat, base: TimeBase)
    requires base.Valid() && base.num > 0
    ensures Rescale(x, base.den, SECOND * base.num) >= 0
    ensures Rescale(x, base.den, SECOND * base.num) == 0 <==> BelowHalfTick(x, base)
  {
    var c := SECOND * base.num;
    var y := x * base.den + c / 2;
    if y < c {
      DivLess(y, c, 1);
      DivMax(y, c, 0);
    } else {
      DivMax(y, c, 1);
    }
  }

  lemma NegativeTicks(u: ClockTime, base: TimeBase)
    requires base.Valid() && base.num > 0 && HALF <= u < CLOCK_TIME_NONE
    ensures GstToFf(u, base) == -Rescale(TWO64 - u, base.den, SECOND * base.num)
  {
  }

  /**
   * Later clock times never get earlier ticks, unless only the later one is so large that it is taken for a
   * negative time and one of the two is at least half a tick away from 0.
   */
  lemma TicksMonotoneIff(t: ClockTime, u: ClockTime, base: TimeBase)
    requires base.Valid() && base.num > 0 && t <= u < CLOCK_TIME_NONE
    ensures GstToFf(t, base) <= GstToFf(u, base)
            <==> u < HALF || HALF <= t || (BelowHalfTick(t, base) && BelowHalfTick(TWO64 - u, base))
  {
    var c := SECOND * base.num;
    assert c > 0;
    if u < HALF {
      RescaleMonotone(t, u, base.den, c);
    } else if HALF <= t {
      NegativeTicks(t, base);
      NegativeTicks(u, base);
      RescaleMonotone(TWO64 - u, TWO64 - t, base.den, c);
    } else {
      NegativeTicks(u, base);
      RoundsToNothing(t, base);
      RoundsToNothing(TWO64 - u, base);
    }
  }

  /** With ticks of n/d time units, n >= d, going to the nearest unit and back is the identity. */
  lemma RescaleBack(p: int, n: nat, d: nat)
    requires 0 < d <= n
    ensures Rescale(Rescale(p, n, d), d, n) == p
  {
    if p >= 0 {
      RescaleBackPositive(p, n, d);
    } else {
      RescaleBackPositive(-p, n, d);
      var x := Rescale(-p, n, d);
      assert Rescale(p, n, d) == -x;
    }
  }

  lemma RescaleBackPositive(p: nat, n: nat, d: nat)
    requires 0 < d <= n
    ensures Rescale(p, n, d) >= 0 && Rescale(Rescale(p, n, d), d, n) == p
  {
    NextMultiple(p, n);
    if d == n {
      Nearest(p * n, n, p);
    } else {
      var x := Rounded(p * n, d);
      WithinHalf(p * n, x * d, n, d);
      Nearest(x * d, n, p);
    }
  }

  lemma Rounded(exact: nat, d: nat) returns (x: nat)
    requires d > 0
    ensures x == (exact + d / 2) / d && x * d <= exact + d / 2 < x * d + d
  {
    DivBounds(exact + d / 2, d);
    DivMax(exact + d / 2, d, 0);
    x := (exact + d / 2) / d;
  }

  lemma Nearest(y: nat, n: nat, p: nat)
    requires n > 0 && p * n <= y + n / 2 < (p + 1) * n
    ensures (y + n / 2) / n == p
  {
    DivMax(y + n / 2, n, p);
    DivLess(y + n / 2, n, p + 1);
  }

  lemma NextMultiple(p: int, n: nat)
    ensures (p + 1) * n == p * n + n
  {
  }

  /** What was rounded to a multiple of d is at most half a d away, and so less than half an n. */
  lemma WithinHalf(exact: nat, rounded: nat, n: nat, d: nat)
    requires 0 < d < n && rounded <= exact + d / 2 < rounded + d
    ensures exact <= rounded + n / 2 < exact + n
  {
  }

  /** The conversion to a clock time neither overflows nor gives the value that means "unknown". */
  predicate Representable(pts: int, base: TimeBase)
    requires base.Valid()
  {
    var x := Rescale(pts, base.num * SECOND, base.den);
    pts != NOPTS && IsInt64(x) && x != -1
  }

  predicate RoundTrips(pts: int, base: TimeBase)
    requires base.Valid()
  {
    GstToFf(FfToGst(pts, base), base) == pts
  }

  lemma ThereAndBack(pts: int, base: TimeBase)
    requires base.Valid() && base.num > 0 && Representable(pts, base)
    ensures var n := base.num * SECOND;
            GstToFf(FfToGst(pts, base), base) == Rescale(Rescale(pts, n, base.den), base.den, n)
  {
    var x := Rescale(pts, base.num * SECOND, base.den);
    assert ToInt64(ToUint64(x)) == x by {
      if x < 0 {
        assert x % TWO64 == x + TWO64;
      }
    }
  }

  /** Going from ticks to clock time and back is exact for every representable time stamp ... */
  lemma ExactTicks(pts: int, base: TimeBase)
    requires base.Valid() && base.num > 0 && base.den <= base.num * SECOND && Representable(pts, base)
    ensures RoundTrips(pts, base)
  {
    ThereAndBack(pts, base);
    RescaleBack(pts, base.num * SECOND, base.den);
  }

  ghost predicate AllRoundTrip(base: TimeBase)
    requires base.Valid()
  {
    forall pts :: Representable(pts, base) ==> RoundTrips(pts, base)
  }

  /** The clock time of tick k when a tick is n/d time units. */
  function Clock(base: TimeBase, k: nat): int
    requires base.Valid()
  {
    Rescale(k, base.num * SECOND, base.den)
  }

  lemma ClockEnds(base: TimeBase)
    requires base.Valid()
    ensures Clock(base, 0) == 0 && Clock(base, base.den) == base.num * SECOND
  {
    var n, d := base.num * SECOND, base.den;
    assert 0 * n == 0 && d * n == n * d;
    DivMax(d / 2, d, 0);
    DivLess(d / 2, d, 1);
    DivMax(n * d + d / 2, d, n);
    NextMultiple(n, d);
    DivLess(n * d + d / 2, d, n + 1);
  }

  /** Ticks that outnumber the clock times they fall on: two neighbours share one. */
  lemma {:induction false} Collision(base: TimeBase, j: nat) returns (k: nat)
    requires base.Valid() && Clock(base, j) < j
    ensures 0 < k <= j && Clock(base, k) == Clock(base, k - 1)
  {
    hide Rescale;
    ClockEnds(base);
    assert j > 0;
    ClockMonotone(base, j);
    if Clock(base, j) == Clock(base, j - 1) {
      k := j;
    } else {
      k := Collision(base, j - 1);
    }
  }

  lemma ClockMonotone(base: TimeBase, k: nat)
    requires base.Valid() && k > 0
    ensures Clock(base, k - 1) <= Clock(base, k)
  {
    RescaleMonotone(k - 1, k, base.num * SECOND, base.den);
  }

  /** Two ticks with the same clock time cannot both come back. */
  lemma OnlyOneComesBack(base: TimeBase, k: nat)
    requires base.Valid() && 0 < k && Clock(base, k) == Clock(base, k - 1)
    ensures !(RoundTrips(k, base) && RoundTrips(k - 1, base))
  {
    hide Rescale;
    assert FfToGst(k, base) == FfToGst(k - 1, base);
  }

  /** ... exactly when a tick is at least one nanosecond. */
  lemma ExactTicksIff(base: TimeBase)
    requires base.Valid() && base.num > 0
    ensures AllRoundTrip(base) <==> base.den <= base.num * SECOND
  {
    hide Rescale, Representable, RoundTrips;
    if base.den <= base.num * SECOND {
      forall pts | Representable(pts, base)
        ensures RoundTrips(pts, base)
      {
        ExactTicks(pts, base);
      }
    } else {
      ClockEnds(base);
      var k := Collision(base, base.den);
      SmallTicks(base, k);
      SmallTicks(base, k - 1);
      OnlyOneComesBack(base, k);
    }
  }

  lemma SmallTicks(base: TimeBase, k: nat)
    requires base.Valid() && 0 < base.num && base.num * SECOND < base.den && k <= base.den
    ensures Representable(k, base)
  {
    var n, d := base.num * SECOND, base.den;
    MulLe(k, d, n);
    DivMax(k * n + d / 2, d, 0);
    assert (n + 1) * d == d * n + d;
    DivLess(k * n + d / 2, d, n + 1);
  }
}
