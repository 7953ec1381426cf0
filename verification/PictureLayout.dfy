/**
 * Where the planes of a picture lie in one buffer: strides are rounded up with bit masks, and the demuxers,
 * encoders and the postprocessor must agree on the result.
 */
module Bits {
  import opened Basics
  import opened Floors

  /** Bitwise and of two non-negative numbers. */
  function And(a: nat, b: nat): nat {
    if a == 0 || b == 0 then 0 else 2 * And(a / 2, b / 2) + if a % 2 == 1 && b % 2 == 1 then 1 else 0
  }

  function Pow2(n: nat): (r: nat)
    ensures r > 0
  {
    if n == 0 then 1 else 2 * Pow2(n - 1)
  }

  lemma AndEven(a: nat, h: nat)
    ensures And(a, 2 * h) == 2 * And(a / 2, h)
  {
    if a != 0 && h != 0 {
      assert 2 * h / 2 == h && 2 * h % 2 == 0;
    } else {
      assert And(0, h) == 0 && And(a / 2, 0) == 0;
    }
  }

  lemma {:induction false} AndAllOnes(a: nat, w: nat)
    requires a < Pow2(w)
    ensures And(a, Pow2(w) - 1) == a
    decreases w
  {
    if a > 0 {
      assert (Pow2(w) - 1) / 2 == Pow2(w - 1) - 1 && (Pow2(w) - 1) % 2 == 1;
      AndAllOnes(a / 2, w - 1);
    }
  }

  lemma DoubleMask(a: nat, h: nat, d: nat)
    requires d > 0 && And(a / 2, h) == a / 2 / d * d
    ensures And(a, 2 * h) == a / (2 * d) * (2 * d)
  {
    hide And;
    AndEven(a, h);
    HalfQuotient(a, d);
    TwiceMultiple(a / (2 * d), d);
  }

  lemma TwiceMultiple(q: nat, d: nat)
    ensures 2 * (q * d) == q * (2 * d)
  {
  }

  /** A mask of the bits x to w - 1 keeps the multiple of 2^x below a. */
  lemma {:induction false} AndHighMask(a: nat, w: nat, x: nat)
    requires x <= w && a < Pow2(w)
    ensures Pow2(x) <= Pow2(w)
    ensures And(a, Pow2(w) - Pow2(x)) == a / Pow2(x) * Pow2(x)
    decreases w
  {
    if x == 0 {
      AndAllOnes(a, w);
    } else {
      AndHighMask(a / 2, w - 1, x - 1);
      DoubleMask(a, Pow2(w - 1) - Pow2(x - 1), Pow2(x - 1));
    }
  }

  lemma HalfQuotient(a: nat, d: nat)
    requires d > 0
    ensures a / 2 / d == a / (2 * d)
  {
    DivBounds(a / 2, d);
    var q := a / 2 / d;
    assert q * (2 * d) == 2 * (q * d);
    DivMax(a, 2 * d, q);
    assert (q + 1) * (2 * d) == 2 * (q * d + d);
    DivLess(a, 2 * d, q + 1);
  }

  lemma Pow2Values()
    ensures Pow2(0) == 1 && Pow2(1) == 2 && Pow2(2) == 4 && Pow2(3) == 8 && Pow2(32) == 0x1_0000_0000
  {
    assert Pow2(4) == 16;
    assert Pow2(6) == 64;
    assert Pow2(8) == 256;
    assert Pow2(10) == 1024;
    assert Pow2(12) == 4096;
    assert Pow2(14) == 16384;
    assert Pow2(16) == 65536;
    assert Pow2(18) == 262144;
    assert Pow2(20) == 1048576;
    assert Pow2(22) == 4194304;
    assert Pow2(24) == 16777216;
    assert Pow2(26) == 67108864;
    assert Pow2(28) == 268435456;
    assert Pow2(30) == 1073741824;
  }

  /** 1 << x for the shifts that occur. */
  function Unit(x: nat): nat
    requires x <= 3
  {
    if x == 0 then 1 else if x == 1 then 2 else if x == 2 then 4 else 8
  }

  /** DIV_ROUND_UP_X: the number of units of 2^x needed for v. */
  function DivRoundUp(v: nat, x: nat): nat
    requires x <= 3
  {
    if x == 0 then v else if x == 1 then (v + 1) / 2 else if x == 2 then (v + 3) / 4 else (v + 7) / 8
  }

  /** The least multiple of 2^x that is not below v. */
  function RoundUp(v: nat, x: nat): nat
    requires x <= 3
  {
    if x == 0 then v
    else if x == 1 then (v + 1) / 2 * 2
    else if x == 2 then (v + 3) / 4 * 4
    else (v + 7) / 8 * 8
  }

  /** ROUND_UP_X as the macro computes it: add GEN_MASK(x), then clear its bits, on 32-bit words. */
  function RoundUpMask(v: nat, x: nat): nat
    requires x <= 3
  {
    And(v + (Unit(x) - 1), 0xFFFF_FFFF - (Unit(x) - 1))
  }

  /** DIV_ROUND_UP_X as the macro computes it: a right shift. */
  function DivRoundUpShift(v: nat, x: nat): nat
    requires x <= 3
  {
    (v + (Unit(x) - 1)) / Unit(x)
  }

  lemma MaskClears(a: nat, x: nat)
    requires x <= 3 && a < 0x1_0000_0000
    ensures And(a, 0xFFFF_FFFF - (Unit(x) - 1)) == a / Unit(x) * Unit(x)
  {
    Pow2Values();
    AndHighMask(a, 32, x);
  }

  /** The macros compute the rounding the layouts below are written with. */
  lemma MacrosRoundUp(v: nat, x: nat)
    requires x <= 3 && v < 0x8000_0000
    ensures RoundUpMask(v, x) == RoundUp(v, x) && DivRoundUpShift(v, x) == DivRoundUp(v, x)
  {
    MaskClears(v + (Unit(x) - 1), x);
  }
}

module PictureLayout {
  import opened Basics
  import opened Floors
  import opened Bits

  datatype PixelFormat =
    | YUV420P | YUV422P | YUV444P | YUV410P | YUV411P | YUVJ420P | YUVJ422P | YUVJ444P
    | RGB24 | BGR24 | RGB32 | RGB555 | RGB565 | YUYV422 | UYVY422 | UYYVYY411
    | GRAY8 | MONOWHITE | MONOBLACK | PAL8
    | OtherFormat

  predicate IsPlanar(f: PixelFormat) {
    f.YUV420P? || f.YUV422P? || f.YUV444P? || f.YUV410P? || f.YUV411P? || f.YUVJ420P? || f.YUVJ422P? || f.YUVJ444P?
  }

  /** The chroma planes have 2^-x times the width and 2^-y times the height. */
  function XShift(f: PixelFormat): (x: nat)
    ensures x <= 2
  {
    match f
    case YUV420P | YUV422P | YUVJ420P | YUVJ422P => 1
    case YUV410P | YUV411P => 2
    case _ => 0
  }

  function YShift(f: PixelFormat): (y: nat)
    ensures y <= 2
  {
    match f
    case YUV420P | YUVJ420P => 1
    case YUV410P => 2
    case _ => 0
  }

  /** Offsets of the planes from the start of the buffer (None for NULL), their strides if set, and the total size. */
  datatype Layout = Layout(data: seq<Option<nat>>, stride: seq<nat>, size: int)

  function OnePlane(stride: nat, size: nat): Layout {
    Layout([Some(0), None, None, None], [stride, 0, 0, 0], size)
  }

  function Packed(stride: nat, height: nat): Layout {
    OnePlane(stride, stride * height)
  }

  /** Luma, then the two chroma planes. */
  function Planar(stride: nat, rows: nat, stride2: nat, rows2: nat): Layout {
    var size, size2 := stride * rows, stride2 * rows2;
    Layout([Some(0), Some(size), Some(size + size2), None], [stride, stride2, stride2, 0], size + 2 * size2)
  }

  /** A palette of 256 words of 32 bits follows the picture. */
  function Paletted(stride: nat, height: nat): Layout {
    var size := stride * height;
    Layout([Some(0), Some(size), None, None], [stride, 4, 0, 0], size + 256 * 4)
  }

  /** Twelve bits for each pixel; the stride is not the one the size is computed from. */
  function Uyyvyy(stride: nat, width: nat, height: nat): Layout {
    var size := stride * height;
    OnePlane(width + width / 2, size + size / 2)
  }

  /** gst_ffmpeg_avpicture_fill. */
  function Fill(f: PixelFormat, width: nat, height: nat): Layout {
    match f
    case YUV420P | YUV422P | YUV444P | YUV410P | YUV411P | YUVJ420P | YUVJ422P | YUVJ444P =>
      Planar(RoundUp(width, 2), RoundUp(height, YShift(f)),
             RoundUp(DivRoundUp(width, XShift(f)), 2), DivRoundUp(height, YShift(f)))
    case RGB24 | BGR24 => Packed(RoundUp(width * 3, 2), height)
    case RGB32 => Packed(width * 4, height)
    case RGB555 | RGB565 | YUYV422 | UYVY422 => Packed(RoundUp(width * 2, 2), height)
    case UYYVYY411 => Uyyvyy(RoundUp(width, 2), width, height)
    case GRAY8 => Packed(RoundUp(width, 2), height)
    case MONOWHITE | MONOBLACK => Packed(RoundUp((width + 7) / 8, 2), height)
    case PAL8 => Paletted(RoundUp(width, 2), height)
    case OtherFormat => Layout([None, None, None, None], [], -1)
  }

  /** There is no size exactly for the formats without a case, which get no plane either. */
  lemma NoLayoutIff(f: PixelFormat, width: nat, height: nat)
    ensures var l := Fill(f, width, height);
            && (l.size == -1 <==> f.OtherFormat?) && (l.size < 0 <==> f.OtherFormat?)
            && (f.OtherFormat? <==> l.data == [None, None, None, None])
  {
    hide RoundUp, DivRoundUp, Planar, Packed, Paletted, Uyyvyy;
    SizesOfPlanes();
    SizesOfRows();
  }

  predicate HasSize(l: Layout) {
    l.size >= 0 && l.data != [None, None, None, None]
  }

  lemma SizesOfPlanes()
    ensures forall s: nat, h: nat, s2: nat, h2: nat :: HasSize(Planar(s, h, s2, h2))
  {
    forall s: nat, h: nat, s2: nat, h2: nat
      ensures HasSize(Planar(s, h, s2, h2))
    {
      assert Planar(s, h, s2, h2).data[0] == Some(0);
    }
  }

  lemma SizesOfRows()
    ensures forall s: nat, h: nat :: HasSize(Packed(s, h))
    ensures forall s: nat, h: nat :: HasSize(Paletted(s, h))
    ensures forall s: nat, w: nat, h: nat :: HasSize(Uyyvyy(s, w, h))
  {
    forall s: nat, w: nat, h: nat
      ensures HasSize(Packed(s, h)) && HasSize(Paletted(s, h)) && HasSize(Uyyvyy(s, w, h))
    {
      assert Packed(s, h).data[0] == Paletted(s, h).data[0] == Uyyvyy(s, w, h).data[0] == Some(0);
    }
  }

  // -------------------------------------------------------------- planar pictures

  /** How many columns and rows of the picture share a chroma sample. */
  function Columns(f: PixelFormat): (n: nat)
    ensures n == 1 || n == 2 || n == 4
  {
    match f
    case YUV420P | YUVJ420P | YUV422P | YUVJ422P => 2
    case YUV410P | YUV411P => 4
    case _ => 1
  }

  function RowsShared(f: PixelFormat): (n: nat)
    ensures n == 1 || n == 2 || n == 4
  {
    match f
    case YUV420P | YUVJ420P => 2
    case YUV410P => 4
    case _ => 1
  }

  /** A sample of a planar picture: which plane, column and row. */
  datatype Sample = Sample(plane: nat, x: nat, y: nat)

  /** The columns and rows that a chroma sample stands for may be cut at the edges of the picture. */
  ghost predicate InPicture(f: PixelFormat, width: nat, height: nat, s: Sample) {
    && s.plane < 3
    && (if s.plane == 0 then s.x < width && s.y < height
        else s.x * Columns(f) < width && s.y * RowsShared(f) < height)
  }

  predicate HasPlanes(l: Layout) {
    |l.data| == 4 && |l.stride| == 4 && l.data[0].Some? && l.data[1].Some? && l.data[2].Some?
  }

  /** The address a sample has in the buffer. */
  ghost function Address(l: Layout, s: Sample): int
    requires HasPlanes(l) && s.plane < 3
  {
    l.data[s.plane].value + s.y * l.stride[s.plane] + s.x
  }

  /** Rows in a plane. */
  function Rows(f: PixelFormat, height: nat, plane: nat): nat {
    if plane == 0 then RoundUp(height, YShift(f)) else DivRoundUp(height, YShift(f))
  }

  /** Strides of planar pictures are 4-aligned and hold a row of samples; the planes hold all rows. */
  lemma SampleInPlane(f: PixelFormat, width: nat, height: nat, s: Sample)
    requires IsPlanar(f) && InPicture(f, width, height, s)
    ensures s.x < Fill(f, width, height).stride[s.plane] && s.y < Rows(f, height, s.plane)
  {
  }

  lemma StridesAligned(f: PixelFormat, width: nat, height: nat)
    requires IsPlanar(f)
    ensures HasPlanes(Fill(f, width, height))
    ensures forall p :: 0 <= p < 3 ==> Fill(f, width, height).stride[p] % 4 == 0
  {
    hide RoundUp, DivRoundUp;
    MultipleOf4(width);
    MultipleOf4(DivRoundUp(width, XShift(f)));
  }

  lemma MultipleOf4(v: nat)
    ensures RoundUp(v, 2) % 4 == 0 && v <= RoundUp(v, 2)
  {
  }

  lemma RowOffset(x: nat, y: nat, stride: nat, rows: nat)
    requires x < stride && y < rows
    ensures 0 <= y * stride + x < stride * rows
  {
    MulLe(y + 1, rows, stride);
    assert (y + 1) * stride == y * stride + stride;
  }

  lemma RowOffsetInjective(x: nat, y: nat, x': nat, y': nat, stride: nat)
    requires x < stride && x' < stride && y * stride + x == y' * stride + x'
    ensures x == x' && y == y'
  {
    assert (y + 1) * stride == y * stride + stride && (y' + 1) * stride == y' * stride + stride;
    if y < y' {
      MulLe(y + 1, y', stride);
    } else if y' < y {
      MulLe(y' + 1, y, stride);
    }
  }

  /** The bytes of a plane of the given number of rows. */
  ghost predicate InPlane(l: Layout, rows: nat, plane: nat, address: int)
    requires HasPlanes(l) && plane < 3
  {
    l.data[plane].value <= address < l.data[plane].value + l.stride[plane] * rows
  }

  lemma AddressInPlane(f: PixelFormat, width: nat, height: nat, s: Sample)
    requires IsPlanar(f) && InPicture(f, width, height, s)
    ensures var l := Fill(f, width, height);
            HasPlanes(l) && InPlane(l, Rows(f, height, s.plane), s.plane, Address(l, s))
  {
    SampleInPlane(f, width, height, s);
    RowOffset(s.x, s.y, Fill(f, width, height).stride[s.plane], Rows(f, height, s.plane));
  }

  /** The planes lie end to end and fill the returned size exactly. */
  lemma PlanesEndToEnd(f: PixelFormat, width: nat, height: nat)
    requires IsPlanar(f)
    ensures var l := Fill(f, width, height);
            && HasPlanes(l) && l.data[0].value == 0
            && l.data[1].value == l.data[0].value + l.stride[0] * Rows(f, height, 0)
            && l.data[2].value == l.data[1].value + l.stride[1] * Rows(f, height, 1)
            && l.size == l.data[2].value + l.stride[2] * Rows(f, height, 2)
  {
  }

  /** So each byte of the buffer belongs to exactly one plane. */
  lemma PlanesPartition(f: PixelFormat, width: nat, height: nat, address: nat)
    requires IsPlanar(f)
    ensures var l := Fill(f, width, height);
            && HasPlanes(l)
            && (address < l.size <==> exists p: nat :: p < 3 && InPlane(l, Rows(f, height, p), p, address))
            && (forall p: nat, q: nat :: p < q < 3 ==>
                  !(InPlane(l, Rows(f, height, p), p, address) && InPlane(l, Rows(f, height, q), q, address)))
  {
    PlanesEndToEnd(f, width, height);
    var l := Fill(f, width, height);
    var at1, at2, size := l.data[1].value, l.data[2].value, l.size;
    assert at1 <= at2 <= size;
    assert InPlane(l, Rows(f, height, 0), 0, address) <==> address < at1;
    assert InPlane(l, Rows(f, height, 1), 1, address) <==> at1 <= address < at2;
    assert InPlane(l, Rows(f, height, 2), 2, address) <==> at2 <= address < size;
  }

  /** Every sample of a planar picture has an address inside the returned size ... */
  lemma SamplesFit(f: PixelFormat, width: nat, height: nat, s: Sample)
    requires IsPlanar(f) && InPicture(f, width, height, s)
    ensures var l := Fill(f, width, height);
            HasPlanes(l) && 0 <= Address(l, s) < l.size
  {
    AddressInPlane(f, width, height, s);
    PlanesEndToEnd(f, width, height);
    PlanesPartition(f, width, height, Address(Fill(f, width, height), s));
  }

  /** ... and no two samples share one, within a plane or across planes. */
  lemma SamplesDisjoint(f: PixelFormat, width: nat, height: nat, a: Sample, b: Sample)
    requires IsPlanar(f) && InPicture(f, width, height, a) && InPicture(f, width, height, b) && a != b
    ensures var l := Fill(f, width, height);
            HasPlanes(l) && Address(l, a) != Address(l, b)
  {
    SamplesFit(f, width, height, a);
    AddressInPlane(f, width, height, a);
    AddressInPlane(f, width, height, b);
    var l := Fill(f, width, height);
    if Address(l, a) == Address(l, b) {
      PlanesPartition(f, width, height, Address(l, a));
      SampleInPlane(f, width, height, a);
      SampleInPlane(f, width, height, b);
      RowOffsetInjective(a.x, a.y, b.x, b.y, l.stride[a.plane]);
    }
  }

  // ------------------------------------------------------------------ least layouts

  /** The least multiple of 4 bytes with one byte for every c of `width` columns. */
  predicate LeastStride(stride: nat, c: nat, width: nat) {
    stride % 4 == 0 && c * stride - 4 * c < width <= c * stride
  }

  lemma RoundedStride(width: nat, x: nat)
    requires x <= 2
    ensures LeastStride(RoundUp(DivRoundUp(width, x), 2), Unit(x), width)
  {
  }

  /** The least number of rows with one for every c of `height` rows. */
  predicate LeastRows(rows: nat, c: nat, height: nat) {
    c * rows - c < height <= c * rows
  }

  /** A planar layout with chroma planes of `rows` rows. */
  predicate HasLayout(l: Layout, stride: nat, chroma: nat, rows: nat, shared: nat) {
    && l.stride == [stride, chroma, chroma, 0]
    && l.data == [Some(0), Some(stride * (shared * rows)), Some(stride * (shared * rows) + chroma * rows), None]
    && l.size == stride * (shared * rows) + 2 * (chroma * rows)
  }

  /**
   * The strides are the least multiples of 4 that hold a row of luma and of chroma samples, and no chroma row is too
   * many; there are as many luma rows as the chroma rows stand for.
   */
  lemma PlanarLayout(f: PixelFormat, width: nat, height: nat) returns (stride: nat, chroma: nat, rows: nat)
    requires IsPlanar(f)
    ensures HasLayout(Fill(f, width, height), stride, chroma, rows, RowsShared(f))
    ensures LeastStride(stride, 1, width) && LeastStride(chroma, Columns(f), width)
    ensures LeastRows(rows, RowsShared(f), height)
  {
    hide HasLayout, LeastStride;
    var x, y := XShift(f), YShift(f);
    assert Columns(f) == Unit(x) && RowsShared(f) == Unit(y);
    stride, chroma, rows := RoundUp(width, 2), RoundUp(DivRoundUp(width, x), 2), DivRoundUp(height, y);
    RoundedStride(width, 0);
    RoundedStride(width, x);
    assert RoundUp(height, y) == Unit(y) * rows;
    PlanarHasLayout(stride, chroma, rows, Unit(y));
  }

  lemma PlanarHasLayout(stride: nat, chroma: nat, rows: nat, shared: nat)
    requires shared * rows >= 0
    ensures HasLayout(Planar(stride, shared * rows, chroma, rows), stride, chroma, rows, shared)
  {
  }

  /** The bits of a picture, chroma included, that one of its pixels takes. */
  function PixelBits(f: PixelFormat): nat {
    match f
    case YUV420P | YUVJ420P | YUV411P | UYYVYY411 => 12
    case YUV422P | YUVJ422P | RGB555 | RGB565 | YUYV422 | UYVY422 => 16
    case YUV444P | YUVJ444P | RGB24 | BGR24 => 24
    case YUV410P => 9
    case RGB32 => 32
    case GRAY8 | PAL8 => 8
    case MONOWHITE | MONOBLACK => 1
    case OtherFormat => 0
  }

  /** A planar picture that needs no rounding has exactly that many bits. */
  lemma PlanarSize(f: PixelFormat, width: nat, height: nat)
    requires IsPlanar(f) && width % (4 * Columns(f)) == 0 && height % RowsShared(f) == 0
    ensures 8 * Fill(f, width, height).size == PixelBits(f) * (width * height)
  {
    var stride, chroma, rows := PlanarLayout(f, width, height);
    var c, r := Columns(f), RowsShared(f);
    ExactFit(stride, chroma, c, width);
    ExactRows(rows, r, height);
    SharedSamples(c, chroma, r, rows);
    PixelSum(f);
    hide *;
    WholeBits(c * r, chroma * rows, PixelBits(f));
    SizeOf(Fill(f, width, height), stride, chroma, rows, r);
  }

  lemma PixelSum(f: PixelFormat)
    requires IsPlanar(f)
    ensures PixelBits(f) * (Columns(f) * RowsShared(f)) == 8 * (Columns(f) * RowsShared(f)) + 16
  {
  }

  lemma SizeOf(l: Layout, stride: nat, chroma: nat, rows: nat, shared: nat)
    requires HasLayout(l, stride, chroma, rows, shared)
    ensures l.size == stride * (shared * rows) + 2 * (chroma * rows)
  {
  }

  /** Strides of pictures that need no rounding. */
  lemma ExactFit(stride: nat, chroma: nat, c: nat, width: nat)
    requires c == 1 || c == 2 || c == 4
    requires LeastStride(stride, 1, width) && LeastStride(chroma, c, width) && width % (4 * c) == 0
    ensures stride == width && c * chroma == width
  {
    if c == 1 {
      FitOne(chroma, width);
    } else if c == 2 {
      FitTwo(chroma, width);
    } else {
      FitFour(chroma, width);
    }
    assert chroma % 4 == 0 && width == c * chroma;
    hide *;
    FitLuma(stride, chroma, c, width);
  }

  lemma FitLuma(stride: nat, chroma: nat, c: nat, width: nat)
    requires c == 1 || c == 2 || c == 4
    requires LeastStride(stride, 1, width) && chroma % 4 == 0 && width == c * chroma
    ensures stride == width
  {
    var m := chroma / 4;
    assert width == 4 * (c * m);
    FitOf(stride, c * m);
  }

  lemma FitOf(s: nat, m: nat)
    requires s % 4 == 0 && s - 4 < 4 * m <= s
    ensures s == 4 * m
  {
  }

  lemma FitOne(s: nat, w: nat)
    ensures s % 4 == 0 && s - 4 < w <= s && w % 4 == 0 ==> s == w
  {
  }

  lemma FitTwo(s: nat, w: nat)
    ensures s % 4 == 0 && 2 * s - 8 < w <= 2 * s && w % 8 == 0 ==> 2 * s == w
  {
  }

  lemma FitFour(s: nat, w: nat)
    ensures s % 4 == 0 && 4 * s - 16 < w <= 4 * s && w % 16 == 0 ==> 4 * s == w
  {
  }

  lemma ExactRows(rows: nat, r: nat, height: nat)
    requires (r == 1 || r == 2 || r == 4) && LeastRows(rows, r, height) && height % r == 0
    ensures r * rows == height
  {
  }

  lemma SharedSamples(c: nat, chroma: nat, r: nat, rows: nat)
    ensures c * chroma * (r * rows) == c * r * (chroma * rows)
  {
  }

  lemma WholeBits(shared: nat, samples: nat, bits: nat)
    requires bits * shared == 8 * shared + 16
    ensures 8 * (shared * samples + 2 * samples) == bits * (shared * samples)
  {
    assert bits * (shared * samples) == bits * shared * samples;
  }

  // --------------------------------------------------------------- packed pictures

  predicate IsPacked(f: PixelFormat) {
    !IsPlanar(f) && !f.OtherFormat?
  }

  /** The least multiple of 4 bytes that holds the bits of `width` pixels. */
  predicate LeastPacked(stride: nat, bits: nat, width: nat) {
    stride % 4 == 0 && 8 * stride - 32 < bits * width <= 8 * stride
  }

  lemma RoundedBytes(width: nat)
    ensures LeastPacked(RoundUp(width, 2), 8, width) && LeastPacked(RoundUp(width * 2, 2), 16, width)
    ensures LeastPacked(RoundUp(width * 3, 2), 24, width) && LeastPacked(width * 4, 32, width)
    ensures LeastPacked(RoundUp((width + 7) / 8, 2), 1, width)
  {
    hide RoundUp, LeastPacked;
    RoundedRow(width, 8, width);
    RoundedRow(width * 2, 16, width);
    RoundedRow(width * 3, 24, width);
    RoundedRow(width * 4, 32, width);
    RoundedRow((width + 7) / 8, 1, width);
    WholeRow(width);
  }

  /** A row of n bytes, the last of them at least partly used. */
  lemma RoundedRow(n: nat, bits: nat, width: nat)
    requires 8 * n - 8 < bits * width <= 8 * n
    ensures LeastPacked(RoundUp(n, 2), bits, width)
  {
    DivBounds(n + 3, 4);
  }

  lemma WholeRow(width: nat)
    ensures RoundUp(width * 4, 2) == width * 4
  {
  }

  /**
   * The stride of a packed picture is the least multiple of 4 that holds its pixels, the size is that of its rows,
   * and a palette adds 256 words. One format has its twelve bits for each pixel rounded down, in a buffer of one and
   * a half times the width rounded up to a multiple of 4.
   */
  lemma PackedLayout(f: PixelFormat, width: nat, height: nat) returns (stride: nat)
    requires IsPacked(f)
    ensures var l := Fill(f, width, height);
            && l.stride == [stride, if f.PAL8? then 4 else 0, 0, 0]
            && l.data == [Some(0), if f.PAL8? then Some(stride * height) else None, None, None]
            && (!f.UYYVYY411? ==> LeastPacked(stride, PixelBits(f), width))
            && (!f.UYYVYY411? ==> l.size == stride * height + if f.PAL8? then 4 * 256 else 0)
            && (f.UYYVYY411? ==> 8 * stride <= PixelBits(f) * width < 8 * stride + 8)
    ensures f.UYYVYY411? ==>
              exists w: nat :: LeastStride(w, 1, width) && Fill(f, width, height).size == w * height + w * height / 2
  {
    hide RoundUp, DivRoundUp, LeastPacked, LeastStride;
    stride := Fill(f, width, height).stride[0];
    if f.UYYVYY411? {
      UyyvyySize(width, height);
    } else {
      RoundedBytes(width);
    }
  }

  lemma UyyvyySize(width: nat, height: nat)
    ensures exists w: nat ::
              LeastStride(w, 1, width) && Fill(UYYVYY411, width, height).size == w * height + w * height / 2
  {
    RoundedStride(width, 0);
    assert LeastStride(RoundUp(width, 2), 1, width);
  }

  /** Rows of packed pixels fit their stride and the buffer; strides are 4-aligned but for one format. */
  lemma PackedRowsFit(f: PixelFormat, width: nat, height: nat)
    requires IsPacked(f)
    ensures var l := Fill(f, width, height);
            && |l.stride| == 4
            && (if f.UYYVYY411? then width + width / 2 else (PixelBits(f) * width + 7) / 8) <= l.stride[0]
            && l.stride[0] * height <= l.size
            && (l.stride[0] % 4 == 0 <==> !f.UYYVYY411? || (width + width / 2) % 4 == 0)
  {
    var stride := PackedLayout(f, width, height);
    if f.UYYVYY411? {
      HalfMore(width, RoundUp(width, 2), height);
    }
  }

  lemma HalfMore(w: nat, stride: nat, h: nat)
    requires w <= stride
    ensures (w + w / 2) * h <= stride * h + stride * h / 2
  {
    MulLe(w, stride, h);
    MulLe(w / 2 * 2, stride, h);
    assert w / 2 * 2 * h == w / 2 * h * 2;
    DivMax(stride * h, 2, w / 2 * h);
    assert (w + w / 2) * h == w * h + w / 2 * h;
  }
}

/** The postprocessor computes its own strides and sizes for YUV 4:2:0. */
module PostProc {
  import opened Basics
  import opened Floors
  import opened Bits
  import opened PictureLayout

  /** The planes it passes on: offsets from the strides and sizes it keeps. */
  ghost predicate AgreesWithFill(width: nat, height: nat, ystride: nat, ustride: nat, vstride: nat,
                                 ysize: int, usize: int, vsize: int)
  {
    var l := Fill(YUV420P, width, height);
    && l.stride == [ystride, ustride, vstride, 0]
    && l.data == [Some(0), Some(ysize), Some(ysize + usize), None]
    && l.size == ysize + usize + vsize
  }

  class PostProcessor {
    var width: nat
    var height: nat
    var ystride: nat
    var ustride: nat
    var vstride: nat
    var ysize: nat
    var usize: nat
    var vsize: nat

    ghost predicate Valid()
      reads this
    {
      AgreesWithFill(width, height, ystride, ustride, vstride, ysize, usize, vsize)
    }

    constructor ()
      ensures Valid() && width == 0 && height == 0
    {
      width, height, ystride, ustride, vstride, ysize, usize, vsize := 0, 0, 0, 0, 0, 0, 0, 0;
      new;
      SameLayout(width, height);
    }

    /**
     * change_context. Strides and sizes always agree with the picture layout for the stored size; the stored
     * size is the new one unless exactly one of width and height changed, because both must differ for a rebuild.
     */
    method ChangeContext(width: nat, height: nat)
      requires Valid()
      modifies this
      ensures Valid()
      ensures (this.width == width && this.height == height)
              <==> ((width != old(this.width)) <==> (height != old(this.height)))
      ensures !(width != old(this.width) && height != old(this.height)) ==> unchanged(this)
    {
      if width != this.width && height != this.height {
        Rebuild(width, height);
      }
    }

    /** The rebuild, once change_context has decided on it. */
    method Rebuild(width: nat, height: nat)
      modifies this
      ensures Valid() && this.width == width && this.height == height
    {
      hide AgreesWithFill, RoundUp;
      SameLayout(width, height);
      this.width := width;
      this.height := height;
      ystride := RoundUp(width, 2);
      ustride := RoundUp(width, 3) / 2;
      vstride := RoundUp(ystride, 3) / 2;
      ysize := ystride * RoundUp(height, 1);
      usize := ustride * RoundUp(height, 1) / 2;
      vsize := vstride * RoundUp(height, 1) / 2;
    }
  }

  /** Two ways to get the chroma stride and size: they agree for every width and height. */
  lemma SameLayout(width: nat, height: nat)
    ensures var ystride := RoundUp(width, 2);
            var ustride := RoundUp(width, 3) / 2;
            var vstride := RoundUp(ystride, 3) / 2;
            var h2 := RoundUp(height, 1);
            AgreesWithFill(width, height, ystride, ustride, vstride, ystride * h2, ustride * h2 / 2, vstride * h2 / 2)
  {
    ChromaStride(width);
    var ustride, rows := RoundUp(width, 3) / 2, DivRoundUp(height, 1);
    assert ustride * (rows * 2) == ustride * rows * 2;
  }

  /** round8(w) / 2 is round4(ceil(w / 2)), also when w was rounded to a multiple of 4 first. */
  lemma ChromaStride(width: nat)
    ensures RoundUp(width, 3) / 2 == RoundUp(DivRoundUp(width, 1), 2)
    ensures RoundUp(RoundUp(width, 2), 3) == RoundUp(width, 3)
  {
    Halves(width);
    Quarters(width);
  }

  lemma DivShift(q: nat, k: nat, d: nat)
    requires d > 0
    ensures (q * d + k) / d == q + k / d
  {
    DivBounds(k, d);
    var m := q + k / d;
    assert m * d == q * d + k / d * d;
    assert (m + 1) * d == m * d + d;
    DivMax(q * d + k, d, m);
    DivLess(q * d + k, d, m + 1);
  }

  lemma Halves(w: nat)
    ensures ((w + 1) / 2 + 3) / 4 == (w + 7) / 8
  {
    var q, r := w / 8, w % 8;
    DivShift(4 * q, r + 1, 2);
    DivShift(q, (r + 1) / 2 + 3, 4);
    DivShift(q, r + 7, 8);
    HalvesSmall(r);
  }

  lemma HalvesSmall(r: nat)
    requires r < 8
    ensures ((r + 1) / 2 + 3) / 4 == (r + 7) / 8
  {
  }

  lemma Quarters(w: nat)
    ensures ((w + 3) / 4 * 4 + 7) / 8 == (w + 7) / 8
  {
    var q, r := w / 8, w % 8;
    DivShift(2 * q, r + 3, 4);
    DivShift(q, (r + 3) / 4 * 4 + 7, 8);
    DivShift(q, r + 7, 8);
    QuartersSmall(r);
  }

  lemma QuartersSmall(r: nat)
    requires r < 8
    ensures ((r + 3) / 4 * 4 + 7) / 8 == (r + 7) / 8
  {
  }

  /** After a change of only the width the postprocessor keeps the old strides, which are wrong for the new one. */
  method StaleAfterWidthChange() returns (p: PostProcessor)
    ensures p.width == 4 && p.height == 4 && p.ystride == 4
    ensures Fill(YUV420P, 16, 4).stride[0] == 16
  {
    p := new PostProcessor();
    p.ChangeContext(4, 4);
    p.ChangeContext(16, 4);
  }
}
