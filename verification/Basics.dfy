/** Types and small facts shared by the models of the individual elements. */
module Basics {

  datatype Option<+T> = None | Some(value: T)

  type byte = x: int | 0 <= x < 256

  /** The GstFlowReturn values the modelled code distinguishes. */
  datatype Flow = FlowOk | FlowUnexpected | FlowWrongState | FlowError | FlowNotLinked

  /** One second in GstClockTime units. */
  const SECOND: nat := 1_000_000_000

  const TWO64: nat := 0x1_0000_0000_0000_0000

  /** A GstClockTime is a guint64; its largest value marks an unknown time. */
  type ClockTime = t: int | 0 <= t < 0x1_0000_0000_0000_0000

  const CLOCK_TIME_NONE: ClockTime := 0xFFFF_FFFF_FFFF_FFFF

  function Min(a: nat, b: nat): nat {
    if a < b then a else b
  }

  function Concat<T>(parts: seq<seq<T>>): seq<T> {
    if parts == [] then [] else parts[0] + Concat(parts[1..])
  }

  lemma SameElements<T>(a: seq<T>, b: seq<T>)
    requires |a| == |b| && forall i :: 0 <= i < |a| ==> a[i] == b[i]
    ensures a == b
  {
  }

  lemma TakeOne<T>(s: seq<T>, n: nat)
    requires n < |s|
    ensures s[..n + 1] == s[..n] + [s[n]] && s[..n + 1][..n] == s[..n]
  {
  }

  lemma InitLast<T>(s: seq<T>)
    requires s != []
    ensures s == s[..|s| - 1] + [s[|s| - 1]]
  {
  }

  lemma {:induction false} ConcatAppend<T>(parts: seq<seq<T>>, last: seq<T>)
    ensures Concat(parts + [last]) == Concat(parts) + last
  {
    if parts == [] {
      assert parts + [last] == [last];
    } else {
      assert (parts + [last])[1..] == parts[1..] + [last];
      ConcatAppend(parts[1..], last);
    }
  }
}

/** Facts about rounding down. */
module Floors {
  lemma DivBounds(n: int, d: int)
    requires d > 0
    ensures n / d * d <= n < n / d * d + d
  {
  }

  lemma MulLe(a: int, b: int, c: int)
    requires a <= b && c >= 0
    ensures a * c <= b * c
  {
  }

  /** The quotient is the largest q with q * d <= n. */
  lemma DivMax(n: int, d: int, q: int)
    requires d > 0 && q * d <= n
    ensures q <= n / d
  {
    DivBounds(n, d);
    if q >= n / d + 1 {
      MulLe(n / d + 1, q, d);
    }
  }

  lemma DivLess(n: int, d: int, q: int)
    requires d > 0 && n < q * d
    ensures n / d < q
  {
    DivBounds(n, d);
    if q <= n / d {
      MulLe(q, n / d, d);
    }
  }

  /** gst_util_uint64_scale: floor(a * b / c). */
  function Scale(a: nat, b: nat, c: nat): nat
    requires c > 0
  {
    a * b / c
  }

  /** Rounding down twice removes no more than rounding down once. */
  lemma ScaleSum(a: nat, b: nat, r: nat, c: nat)
    requires c > 0
    ensures Scale(a, r, c) + Scale(b, r, c) <= Scale(a + b, r, c)
    ensures Scale(a + b, r, c) <= Scale(a, r, c) + Scale(b, r, c) + 1
  {
    var x, y := a * r, b * r;
    assert (a + b) * r == x + y;
    DivBounds(x, c);
    DivBounds(y, c);
    DivBounds(x + y, c);
    assert (x / c + y / c) * c == x / c * c + y / c * c;
    DivMax(x + y, c, x / c + y / c);
    assert (x / c + y / c + 2) * c == x / c * c + y / c * c + 2 * c;
    DivLess(x + y, c, x / c + y / c + 2);
  }

  lemma ScaleMonotone(a: nat, b: nat, r: nat, c: nat)
    requires a <= b && c > 0
    ensures Scale(a, r, c) <= Scale(b, r, c)
  {
    MulLe(a, b, r);
    DivBounds(a * r, c);
    DivMax(b * r, c, a * r / c);
  }

  lemma MulAssociates(a: int, b: int, c: int)
    ensures a * (b * c) == (a * b) * c
  {
  }

  lemma MulAdd(a: int, b: int, c: int)
    ensures a * c + b * c == (a + b) * c
  {
  }

  /** A common factor cancels. */
  lemma DivCancel(n: nat, f: nat, size: nat)
    requires f > 0 && size > 0 && f * size > 0
    ensures n * size / (f * size) == n / f
  {
    var q := n / f;
    DivBounds(n, f);
    MulLe(q * f, n, size);
    MulLe(n + 1, (q + 1) * f, size);
    MulAssociates(q, f, size);
    MulAssociates(q + 1, f, size);
    assert (n + 1) * size == n * size + size;
    DivMax(n * size, f * size, q);
    DivLess(n * size, f * size, q + 1);
  }
}
