/**
 * The decoder configuration record of section 5.2.4.1 of ISO/IEC 14496-15, whose NAL units are escaped
 * before the decoder sees them. Lengths are two big-endian bytes in front of each NAL.
 */
module AvcConfig {
  import opened Basics
  import opened NalEscape

  datatype Record = Record(head: seq<byte>, sps: seq<seq<byte>>, pps: seq<seq<byte>>)

  function FieldValue(hi: byte, lo: byte): nat {
    hi * 256 + lo
  }

  /** Splits `count` length-prefixed NALs off `s`; None when `s` ends too early. */
  function ReadNals(s: seq<byte>, count: nat): Option<(seq<seq<byte>>, seq<byte>)> {
    if count == 0 then Some(([], s))
    else if |s| < 2 || |s| < 2 + FieldValue(s[0], s[1]) then None
    else
      var n := FieldValue(s[0], s[1]);
      match ReadNals(s[2 + n..], count - 1)
      case None => None
      case Some((nals, rest)) => Some(([s[2..2 + n]] + nals, rest))
  }

  /** The two branches of the version and size check. */
  predicate IsRecord(s: seq<byte>) {
    |s| >= 7 && s[0] == 1
  }

  /** The record and the bytes after the last PPS. */
  function Parse(s: seq<byte>): Option<(Record, seq<byte>)> {
    if !IsRecord(s) then None
    else match ReadNals(s[6..], s[5] % 32)
      case None => None
      case Some((sps, rest)) =>
        if rest == [] then None
        else match ReadNals(rest[1..], rest[0])
          case None => None
          case Some((pps, tail)) => Some((Record(s[..6], sps, pps), tail))
  }

  /** A length field keeps the low sixteen bits. */
  function LengthField(n: nat): seq<byte> {
    [n / 256 % 256, n % 256]
  }

  function WriteNals(nals: seq<seq<byte>>): seq<byte> {
    if nals == [] then [] else LengthField(|Escape(nals[0])|) + Escape(nals[0]) + WriteNals(nals[1..])
  }

  function EscapedRecord(r: Record): seq<byte>
    requires |r.pps| < 256
  {
    r.head + WriteNals(r.sps) + [|r.pps|] + WriteNals(r.pps)
  }

  /** The bytes handed to the decoder: anything unexpected is copied as it is. */
  function Copied(src: seq<byte>): seq<byte>
    requires IsRecord(src) ==> Parse(src).Some?
  {
    if IsRecord(src) then ParsedShape(src); EscapedRecord(Parse(src).value.0) else src
  }

  lemma {:induction false} ReadNalsShape(s: seq<byte>, count: nat)
    requires ReadNals(s, count).Some?
    ensures var (nals, rest) := ReadNals(s, count).value;
            && |nals| == count
            && (forall k :: 0 <= k < count ==> |nals[k]| <= 0xFFFF)
            && |WriteNals(nals)| + 2 * |rest| <= 2 * |s|
            && IsTail(rest, s)
  {
    if count > 0 {
      var n := FieldValue(s[0], s[1]);
      ReadNalsShape(s[2 + n..], count - 1);
      var (nals, rest) := ReadNals(s, count).value;
      assert nals[1..] == ReadNals(s[2 + n..], count - 1).value.0;
      if n > 0 {
        LengthBound(nals[0]);
      }
    }
  }

  predicate IsTail(a: seq<byte>, b: seq<byte>) {
    |a| <= |b| && a == b[|b| - |a|..]
  }

  lemma ParsedShape(src: seq<byte>)
    requires Parse(src).Some?
    ensures var (r, _) := Parse(src).value;
            && |r.head| == 6 && r.head[0] == 1
            && |r.sps| == r.head[5] % 32 && |r.pps| < 256
            && |EscapedRecord(r)| <= 2 * |src|
  {
    ReadNalsShape(src[6..], src[5] % 32);
    var (sps, rest) := ReadNals(src[6..], src[5] % 32).value;
    ReadNalsShape(rest[1..], rest[0]);
  }

  /** Twice the input size is always enough room. */
  lemma CopiedFits(src: seq<byte>)
    requires IsRecord(src) ==> Parse(src).Some?
    ensures |Copied(src)| <= 2 * |src|
  {
    if IsRecord(src) {
      ParsedShape(src);
    }
  }

  // ------------------------------------------------------------------ staying inside the input

  /** The input as the first `size` bytes of what the source pointer runs over. */
  function Image(mem: nat -> byte, size: nat): (s: seq<byte>)
    ensures |s| == size
  {
    seq(size, i requires 0 <= i => mem(i))
  }

  /** Where the source pointer is after `count` NALs; the code checks no bound on the way. */
  function NalsEnd(mem: nat -> byte, at: nat, count: nat): (end: nat)
    ensures end >= at
    decreases count
  {
    if count == 0 then at else NalsEnd(mem, at + 2 + FieldValue(mem(at), mem(at + 1)), count - 1)
  }

  /** Where it ends up after both loops. */
  function RecordEnd(mem: nat -> byte): (end: nat)
    ensures end > 6
  {
    var p := NalsEnd(mem, 6, mem(5) % 32);
    NalsEnd(mem, p + 1, mem(p))
  }

  lemma {:induction false} NalsInside(mem: nat -> byte, size: nat, at: nat, count: nat)
    requires at <= size
    ensures var got := ReadNals(Image(mem, size)[at..], count);
            && (got.Some? <==> NalsEnd(mem, at, count) <= size)
            && (got.Some? ==> got.value.1 == Image(mem, size)[NalsEnd(mem, at, count)..])
    decreases count
  {
    var s := Image(mem, size)[at..];
    if count > 0 && at + 2 <= size {
      var n := FieldValue(s[0], s[1]);
      if at + 2 + n <= size {
        NalsInside(mem, size, at + 2 + n, count - 1);
        assert s[2 + n..] == Image(mem, size)[at + 2 + n..];
      }
    }
  }

  /** For an announced record the code reads only its input exactly when the record is complete. */
  lemma InsideIff(mem: nat -> byte, size: nat)
    requires IsRecord(Image(mem, size))
    ensures Parse(Image(mem, size)).Some? <==> RecordEnd(mem) <= size
  {
    hide ReadNals, NalsEnd;
    var s := Image(mem, size);
    NalsInside(mem, size, 6, s[5] % 32);
    var p := NalsEnd(mem, 6, mem(5) % 32);
    if p < size {
      NalsInside(mem, size, p + 1, mem(p));
      assert s[p..][0] == mem(p) && s[p..][1..] == s[p + 1..];
    }
  }

  // ------------------------------------------------------------------ re-parsing

  /** The escaped NAL still fits the two-byte length. */
  predicate Fits(nal: seq<byte>) {
    |Escape(nal)| <= 0xFFFF
  }

  function EscapeAll(nals: seq<seq<byte>>): seq<seq<byte>> {
    seq(|nals|, k requires 0 <= k < |nals| => Escape(nals[k]))
  }

  function UnescapeAll(nals: seq<seq<byte>>): seq<seq<byte>> {
    seq(|nals|, k requires 0 <= k < |nals| => Unescape(nals[k]))
  }

  /** Reading starts by splitting off the first NAL when its length was not truncated. */
  lemma ReadFirst(e: seq<byte>, after: seq<byte>, count: nat)
    requires count > 0 && |e| <= 0xFFFF
    ensures ReadNals(LengthField(|e|) + e + after, count)
            == match ReadNals(after, count - 1)
               case None => None
               case Some((nals, rest)) => Some(([e] + nals, rest))
  {
    var s := LengthField(|e|) + e + after;
    assert FieldValue(s[0], s[1]) == |e|;
    assert s[2 + |e|..] == after && s[2..2 + |e|] == e;
  }

  lemma FitsTail(nals: seq<seq<byte>>, k: nat)
    requires 0 < k <= |nals| && forall j :: 0 <= j < k ==> Fits(nals[j])
    ensures forall j :: 0 <= j < k - 1 ==> Fits(nals[1..][j])
  {
    forall j | 0 <= j < k - 1
      ensures Fits(nals[1..][j])
    {
      assert Fits(nals[j + 1]);
    }
  }

  lemma {:induction false} ReadBack(nals: seq<seq<byte>>, rest: seq<byte>)
    requires forall k :: 0 <= k < |nals| ==> Fits(nals[k])
    ensures ReadNals(WriteNals(nals) + rest, |nals|) == Some((EscapeAll(nals), rest))
  {
    hide ReadNals, Escape, LengthField;
    if nals == [] {
      ReadNone(rest);
      assert WriteNals(nals) + rest == rest;
    } else {
      var e, after := Escape(nals[0]), WriteNals(nals[1..]) + rest;
      assert Fits(nals[0]);
      WriteFirst(nals, rest);
      ReadFirst(e, after, |nals|);
      FitsTail(nals, |nals|);
      ReadBack(nals[1..], rest);
      assert EscapeAll(nals) == [e] + EscapeAll(nals[1..]);
    }
  }

  lemma ReadNone(rest: seq<byte>)
    ensures ReadNals(rest, 0) == Some(([], rest)) && EscapeAll([]) == []
  {
  }

  lemma WriteFirst(nals: seq<seq<byte>>, rest: seq<byte>)
    requires nals != []
    ensures var e := Escape(nals[0]);
            WriteNals(nals) + rest == LengthField(|e|) + e + (WriteNals(nals[1..]) + rest)
  {
  }

  lemma {:induction false} UnescapeShorter(s: seq<byte>, i: nat)
    requires i <= |s|
    ensures |UnescapeAt(s, i)| <= |s| - i
    decreases |s| - i
  {
    if i < |s| {
      UnescapeShorter(s, i + 1);
    }
  }

  lemma FieldOfLength(n: nat)
    ensures FieldValue(LengthField(n)[0], LengthField(n)[1]) == n % 0x1_0000
  {
    var low, rest := n % 0x1_0000, n / 0x1_0000;
    assert n == rest * 0x1_0000 + low;
    assert n / 256 == rest * 256 + low / 256;
  }

  /** The first NAL read is as long as its length field says. */
  lemma FirstLength(n: nat, after: seq<byte>, count: nat)
    requires count > 0 && ReadNals(LengthField(n) + after, count).Some?
    ensures var nals := ReadNals(LengthField(n) + after, count).value.0;
            |nals| == count && |nals[0]| == n % 0x1_0000
  {
    FieldOfLength(n);
    ReadNalsShape(LengthField(n) + after, count);
    assert (LengthField(n) + after)[0] == LengthField(n)[0] && (LengthField(n) + after)[1] == LengthField(n)[1];
  }

  lemma TruncatedLength(nal: seq<byte>)
    requires |nal| <= 0xFFFF && !Fits(nal)
    ensures |Escape(nal)| % 0x1_0000 < |nal|
  {
    hide Escape;
    if nal == [] {
      EscapeNothing();
    } else {
      LengthBound(nal);
    }
  }

  lemma EscapeNothing()
    ensures Fits([])
  {
  }

  lemma TruncatedHead(nal: seq<byte>, after: seq<byte>, count: nat)
    requires |nal| <= 0xFFFF && !Fits(nal) && count > 0
    ensures var got := ReadNals(LengthField(|Escape(nal)|) + Escape(nal) + after, count);
            got.Some? ==> |got.value.0| == count && Unescape(got.value.0[0]) != nal
  {
    hide Escape, ReadNals, LengthField, UnescapeAt;
    var e := Escape(nal);
    var got := ReadNals(LengthField(|e|) + (e + after), count);
    assert LengthField(|e|) + (e + after) == LengthField(|e|) + e + after;
    if got.Some? {
      FirstLength(|e|, e + after, count);
      TruncatedLength(nal);
      UnescapeShorter(got.value.0[0], 0);
    }
  }

  /** Where a length was truncated, re-parsing gives back a shorter NAL or fails. */
  lemma {:induction false} ReadTruncated(nals: seq<seq<byte>>, rest: seq<byte>, k: nat)
    requires forall j :: 0 <= j < |nals| ==> |nals[j]| <= 0xFFFF
    requires k < |nals| && !Fits(nals[k]) && forall j :: 0 <= j < k ==> Fits(nals[j])
    ensures var got := ReadNals(WriteNals(nals) + rest, |nals|);
            got.Some? ==> |got.value.0| == |nals| && Unescape(got.value.0[k]) != nals[k]
  {
    hide ReadNals, WriteNals, Escape, LengthField, Unescape;
    var e, after := Escape(nals[0]), WriteNals(nals[1..]) + rest;
    WriteFirst(nals, rest);
    if k == 0 {
      TruncatedHead(nals[0], after, |nals|);
    } else {
      assert Fits(nals[0]);
      ReadFirst(e, after, |nals|);
      FitsTail(nals, k);
      ReadTruncated(nals[1..], rest, k - 1);
    }
  }

  ghost predicate AllFit(nals: seq<seq<byte>>) {
    forall k :: 0 <= k < |nals| ==> Fits(nals[k])
  }

  lemma FirstMisfit(nals: seq<seq<byte>>) returns (k: nat)
    requires !AllFit(nals)
    ensures k < |nals| && !Fits(nals[k]) && forall j :: 0 <= j < k ==> Fits(nals[j])
  {
    k := 0;
    while Fits(nals[k])
      invariant k < |nals| && forall j :: 0 <= j < k ==> Fits(nals[j])
      decreases |nals| - k
    {
      k := k + 1;
    }
  }

  /** Re-parsing the copy and removing the escapes gives the SPS and PPS of the input. */
  ghost predicate GivesBack(out: seq<byte>, r: Record) {
    && Parse(out).Some?
    && (var (got, tail) := Parse(out).value;
        got.head == r.head && UnescapeAll(got.sps) == r.sps && UnescapeAll(got.pps) == r.pps && tail == [])
  }

  lemma UnescapeEscapeAll(nals: seq<seq<byte>>)
    ensures UnescapeAll(EscapeAll(nals)) == nals
  {
    forall k | 0 <= k < |nals|
      ensures UnescapeAll(EscapeAll(nals))[k] == nals[k]
    {
      RoundTrip(nals[k]);
    }
  }

  /**
   * Re-parsing and unescaping the copy restores the same SPS and PPS lists exactly when every escaped NAL
   * still fits its two-byte length. Bytes after the last PPS are dropped.
   */
  lemma ReparseIff(src: seq<byte>)
    requires Parse(src).Some?
    ensures var r := Parse(src).value.0;
            GivesBack(Copied(src), r) <==> AllFit(r.sps) && AllFit(r.pps)
  {
    hide Fits, Escape, WriteNals, ReadNals;
    var r := Parse(src).value.0;
    ParsedShape(src);
    NalSizes(src);
    var out := Copied(src);
    var afterSps := [|r.pps|] + WriteNals(r.pps);
    assert out[..6] == r.head && out[6..] == WriteNals(r.sps) + afterSps;
    if AllFit(r.sps) {
      ReadBack(r.sps, afterSps);
      UnescapeEscapeAll(r.sps);
      assert afterSps[1..] == WriteNals(r.pps) + [];
      if AllFit(r.pps) {
        ReadBack(r.pps, []);
        UnescapeEscapeAll(r.pps);
      } else {
        var k := FirstMisfit(r.pps);
        ReadTruncated(r.pps, [], k);
      }
    } else {
      var k := FirstMisfit(r.sps);
      ReadTruncated(r.sps, afterSps, k);
    }
  }

  lemma NalSizes(src: seq<byte>)
    requires Parse(src).Some?
    ensures var r := Parse(src).value.0;
            && (forall k :: 0 <= k < |r.sps| ==> |r.sps[k]| <= 0xFFFF)
            && (forall k :: 0 <= k < |r.pps| ==> |r.pps[k]| <= 0xFFFF)
  {
    ReadNalsShape(src[6..], src[5] % 32);
    var (sps, rest) := ReadNals(src[6..], src[5] % 32).value;
    ReadNalsShape(rest[1..], rest[0]);
  }

  /** NALs of at most 43690 bytes always fit; at 43691 bytes there is one that does not. */
  lemma SizeThatFits(nal: seq<byte>)
    ensures |nal| <= 43690 ==> Fits(nal)
    ensures !Fits(Zeros(43691)) && LengthField(|Escape(Zeros(43691))|) == [0, 0]
  {
    hide Escape;
    if nal == [] {
      EscapeNothing();
    } else {
      LengthBound(nal);
    }
    BoundReached(43691);
  }

  // ------------------------------------------------------------------ records as they are built

  /** NALs one after another, each behind its length in two big-endian bytes. */
  function Framed(nals: seq<seq<byte>>): seq<byte> {
    if nals == [] then []
    else [|nals[0]| / 256 % 256, |nals[0]| % 256] + nals[0] + Framed(nals[1..])
  }

  /** A decoder configuration record with the given parts, and more bytes after it. */
  function Built(head: seq<byte>, sps: seq<seq<byte>>, pps: seq<seq<byte>>, tail: seq<byte>): seq<byte>
    requires |pps| < 256
  {
    head + (Framed(sps) + ([|pps|] + (Framed(pps) + tail)))
  }

  lemma {:induction false} ReadFramed(nals: seq<seq<byte>>, rest: seq<byte>)
    requires forall k :: 0 <= k < |nals| ==> |nals[k]| <= 0xFFFF
    ensures ReadNals(Framed(nals) + rest, |nals|) == Some((nals, rest))
  {
    if nals == [] {
      ReadNone(rest);
      assert Framed(nals) + rest == rest;
    } else {
      hide *;
      var first, after := nals[0], Framed(nals[1..]) + rest;
      FramedFirst(nals, rest);
      ReadFramed(nals[1..], rest);
      ReadFirst(first, after, |nals|);
      assert nals == [first] + nals[1..];
    }
  }

  lemma FramedFirst(nals: seq<seq<byte>>, rest: seq<byte>)
    requires nals != []
    ensures Framed(nals) + rest == LengthField(|nals[0]|) + nals[0] + (Framed(nals[1..]) + rest)
  {
  }

  lemma {:induction false} WritesFramed(nals: seq<seq<byte>>)
    ensures WriteNals(nals) == Framed(EscapeAll(nals))
  {
    if nals != [] {
      hide Escape;
      WritesFramed(nals[1..]);
      assert EscapeAll(nals)[1..] == EscapeAll(nals[1..]);
    }
  }

  /** The number of SPS in the header is right, and every NAL fits its length field. */
  ghost predicate WellBuilt(head: seq<byte>, sps: seq<seq<byte>>, pps: seq<seq<byte>>) {
    && |head| == 6 && head[0] == 1 && head[5] % 32 == |sps| && |pps| < 256
    && (forall k :: 0 <= k < |sps| ==> |sps[k]| <= 0xFFFF) && (forall k :: 0 <= k < |pps| ==> |pps[k]| <= 0xFFFF)
  }

  lemma BuiltParses(head: seq<byte>, sps: seq<seq<byte>>, pps: seq<seq<byte>>, tail: seq<byte>)
    requires WellBuilt(head, sps, pps)
    ensures Parse(Built(head, sps, pps, tail)) == Some((Record(head, sps, pps), tail))
  {
    hide ReadNals, Framed;
    var rest := [|pps|] + (Framed(pps) + tail);
    var src := Built(head, sps, pps, tail);
    assert src[..6] == head && src[6..] == Framed(sps) + rest && rest[1..] == Framed(pps) + tail;
    ReadFramed(sps, rest);
    ReadFramed(pps, tail);
  }

  /** A record of any NALs is copied with each of them escaped, in the same frame; what follows it is dropped. */
  lemma CopiesBuilt(head: seq<byte>, sps: seq<seq<byte>>, pps: seq<seq<byte>>, tail: seq<byte>)
    requires WellBuilt(head, sps, pps)
    ensures var src := Built(head, sps, pps, tail);
            && Parse(src).Some?
            && Copied(src) == head + Framed(EscapeAll(sps)) + [|pps|] + Framed(EscapeAll(pps))
  {
    hide Built, Framed, WriteNals, EscapeAll;
    BuiltParses(head, sps, pps, tail);
    WritesFramed(sps);
    WritesFramed(pps);
  }

  /** Anything too short, or of another version, is copied as it is. */
  lemma CopiesOthers(src: seq<byte>)
    requires |src| < 7 || src[0] != 1
    ensures Copied(src) == src
  {
  }

  // ------------------------------------------------------------------ the copy

  lemma {:induction false} WriteNalsAppend(nals: seq<seq<byte>>, nal: seq<byte>)
    ensures WriteNals(nals + [nal]) == WriteNals(nals) + LengthField(|Escape(nal)|) + Escape(nal)
  {
    if nals == [] {
      assert nals + [nal] == [nal] && [nal][1..] == [];
    } else {
      assert (nals + [nal])[1..] == nals[1..] + [nal];
      WriteNalsAppend(nals[1..], nal);
    }
  }

  lemma WriteNalsTake(nals: seq<seq<byte>>, i: nat)
    requires i < |nals|
    ensures WriteNals(nals[..i + 1]) == WriteNals(nals[..i]) + LengthField(|Escape(nals[i])|) + Escape(nals[i])
    ensures |WriteNals(nals[..i + 1])| <= |WriteNals(nals)|
  {
    assert nals[..i + 1] == nals[..i] + [nals[i]];
    WriteNalsAppend(nals[..i], nals[i]);
    WriteNalsSplit(nals, i + 1);
  }

  lemma {:induction false} WriteNalsSplit(nals: seq<seq<byte>>, i: nat)
    requires i <= |nals|
    ensures WriteNals(nals) == WriteNals(nals[..i]) + WriteNals(nals[i..])
  {
    if i > 0 {
      WriteNalsSplit(nals[1..], i - 1);
      assert nals[1..][..i - 1] == nals[..i][1..] && nals[1..][i - 1..] == nals[i..];
    } else {
      assert nals[..0] == [] && nals[0..] == nals;
    }
  }

  method PutBytes(dst: array<byte>, at: nat, bytes: seq<byte>)
    requires at + |bytes| <= dst.Length
    modifies dst
    ensures Holds(dst, old(dst[..]), at, bytes)
  {
    forall k | 0 <= k < |bytes| {
      dst[at + k] := bytes[k];
    }
  }

  lemma NalPatched(before: seq<byte>, at: nat, written: seq<byte>, field: seq<byte>, e: seq<byte>)
    requires at + |written| + |field| + |e| <= |before|
    ensures var dstp := at + |written|;
            Patch(Patch(Patch(before, at, written), dstp + |field|, e), dstp, field)
            == Patch(before, at, written + field + e)
  {
    PatchTwice(Patch(before, at, written), at + |written|, field, e);
    PatchTwice(before, at, written, field + e);
    assert written + field + e == written + (field + e);
  }

  /** The body of either loop: one NAL, its length in front. */
  method CopyNal(dst: array<byte>, dstp: nat, src: seq<byte>, srcp: nat, nalsize: nat,
                 ghost before: seq<byte>, ghost at: nat, ghost written: seq<byte>)
    returns (esize: nat)
    requires srcp + 2 + nalsize <= |src|
    requires Holds(dst, before, at, written) && dstp == at + |written|
    requires dstp + 2 + |Escape(src[srcp + 2..srcp + 2 + nalsize])| <= dst.Length
    modifies dst
    ensures esize == |Escape(src[srcp + 2..srcp + 2 + nalsize])|
    ensures Holds(dst, before, at, written + LengthField(esize) + Escape(src[srcp + 2..srcp + 2 + nalsize]))
  {
    hide Escape, Patch;
    ghost var e := Escape(src[srcp + 2..srcp + 2 + nalsize]);
    ghost var field := LengthField(|e|);
    ghost var d0 := dst[..];
    esize := WriteEscaped(dst, dstp + 2, src, srcp + 2, nalsize);
    ghost var d1 := dst[..];
    assert d1 == Patch(d0, dstp + |field|, e);
    PutBytes(dst, dstp, LengthField(esize));
    assert dst[..] == Patch(Patch(d0, dstp + |field|, e), dstp, field);
    NalPatched(before, at, written, field, e);
  }

  lemma CopyStep(nals: seq<seq<byte>>, i: nat)
    requires i < |nals|
    ensures WriteNals(nals[..i + 1]) == WriteNals(nals[..i]) + LengthField(|Escape(nals[i])|) + Escape(nals[i])
    ensures |WriteNals(nals[..i])| + 2 + |Escape(nals[i])| <= |WriteNals(nals)|
    ensures nals[i..][0] == nals[i] && nals[i..][1..] == nals[i + 1..]
  {
    WriteNalsTake(nals, i);
  }

  /** One of the two loops: escapes `count` NALs from src[from..] to dst[at..]. */
  method CopyNals(dst: array<byte>, at: nat, src: seq<byte>, from: nat, count: nat) returns (dstp: nat, srcp: nat)
    requires from <= |src| && ReadNals(src[from..], count).Some?
    requires at + |WriteNals(ReadNals(src[from..], count).value.0)| <= dst.Length
    modifies dst
    ensures var (nals, rest) := ReadNals(src[from..], count).value;
            && dstp == at + |WriteNals(nals)|
            && Holds(dst, old(dst[..]), at, WriteNals(nals))
            && srcp <= |src| && rest == src[srcp..]
  {
    hide Holds, WriteNals, ReadNals, Escape;
    ghost var before := dst[..];
    ghost var (nals, rest) := ReadNals(src[from..], count).value;
    ghost var done, todo := [], nals;
    dstp, srcp := at, from;
    var i := 0;
    NalsFrom(src, from, count);
    NothingCopied(dst, at, nals);
    while i < count
      invariant 0 <= i <= count == |nals| && srcp <= |src|
      invariant done == WriteNals(nals[..i]) && todo == nals[i..]
      invariant ReadNals(src[srcp..], count - i) == Some((todo, rest))
      invariant dstp == at + |done|
      invariant Holds(dst, before, at, done)
    {
      CopyStep(nals, i);
      NalsFrom(src, srcp, count - i);
      var nalsize := FieldValue(src[srcp], src[srcp + 1]);
      var esize := CopyNal(dst, dstp, src, srcp, nalsize, before, at, done);
      dstp := dstp + esize + 2;
      srcp := srcp + nalsize + 2;
      i := i + 1;
      done, todo := WriteNals(nals[..i]), todo[1..];
    }
    NalsFrom(src, srcp, 0);
    assert nals[..count] == nals;
  }

  lemma NothingCopied(dst: array<byte>, at: nat, nals: seq<seq<byte>>)
    requires at <= dst.Length
    ensures WriteNals(nals[..0]) == [] && nals[0..] == nals && Holds(dst, dst[..], at, [])
  {
    NothingWritten(dst, at);
  }

  lemma NalsFrom(src: seq<byte>, from: nat, count: nat)
    requires from <= |src| && ReadNals(src[from..], count).Some?
    ensures var (nals, rest) := ReadNals(src[from..], count).value;
            && |nals| == count
            && (count == 0 ==> rest == src[from..])
            && (count > 0 ==>
                  && from + 2 <= |src|
                  && var n := FieldValue(src[from], src[from + 1]);
                     && from + 2 + n <= |src|
                     && nals[0] == src[from + 2..from + 2 + n]
                     && ReadNals(src[from + 2 + n..], count - 1) == Some((nals[1..], rest)))
  {
    hide WriteNals, IsTail;
    ReadNalsShape(src[from..], count);
    if count > 0 {
      var n := FieldValue(src[from], src[from + 1]);
      assert src[from..][2 + n..] == src[from + 2 + n..];
    }
  }

  /** The whole record from its parts, for the method below. */
  lemma Assemble(before: seq<byte>, r: Record, d1: seq<byte>, d2: seq<byte>, d3: seq<byte>, d4: seq<byte>)
    requires |r.head| == 6 && |r.pps| < 256 && |EscapedRecord(r)| <= |before|
    requires d1 == Patch(before, 0, r.head)
    requires d2 == Patch(d1, 6, WriteNals(r.sps))
    requires d3 == Patch(d2, 6 + |WriteNals(r.sps)|, [|r.pps|])
    requires d4 == Patch(d3, 7 + |WriteNals(r.sps)|, WriteNals(r.pps))
    ensures d4 == Patch(before, 0, EscapedRecord(r))
  {
    hide WriteNals, Patch;
    PatchTwice(before, 0, r.head, WriteNals(r.sps));
    PatchTwice(before, 0, r.head + WriteNals(r.sps), [|r.pps|]);
    PatchTwice(before, 0, r.head + WriteNals(r.sps) + [|r.pps|], WriteNals(r.pps));
  }

  /** copy_config: fills dst with the escaped record, or with a plain copy of anything else. */
  method CopyConfig(dst: array<byte>, src: seq<byte>) returns (destsize: nat)
    requires IsRecord(src) ==> Parse(src).Some?
    requires dst.Length >= 2 * |src|
    modifies dst
    ensures destsize == |Copied(src)| <= 2 * |src|
    ensures Holds(dst, old(dst[..]), 0, Copied(src))
  {
    CopiedFits(src);
    if IsRecord(src) {
      ParsedShape(src);
    }
    if |src| < 7 || src[0] != 1 {
      PutBytes(dst, 0, src);
      return |src|;
    }
    destsize := CopyRecord(dst, src);
  }

  /** How the record divides into the parts the code walks over. */
  lemma RecordParts(src: seq<byte>)
    requires Parse(src).Some?
    ensures ReadNals(src[6..], src[5] % 32).Some?
    ensures var r := Parse(src).value.0;
            var (sps, rest) := ReadNals(src[6..], src[5] % 32).value;
            && r.head == src[..6] && r.sps == sps && rest != []
            && ReadNals(rest[1..], rest[0]).Some?
            && r.pps == ReadNals(rest[1..], rest[0]).value.0
            && |r.pps| == rest[0] && |r.head| == 6
            && |EscapedRecord(r)| == 7 + |WriteNals(r.sps)| + |WriteNals(r.pps)| <= 2 * |src|
  {
    ParsedShape(src);
    var (sps, rest) := ReadNals(src[6..], src[5] % 32).value;
    ReadNalsShape(rest[1..], rest[0]);
  }

  /** The rest of copy_config, past the size and version checks. */
  method CopyRecord(dst: array<byte>, src: seq<byte>) returns (destsize: nat)
    requires Parse(src).Some? && dst.Length >= 2 * |src|
    modifies dst
    ensures var r := Parse(src).value.0;
            |r.pps| < 256 && destsize == |EscapedRecord(r)| && Holds(dst, old(dst[..]), 0, EscapedRecord(r))
  {
    RecordParts(src);
    ghost var before, r := dst[..], Parse(src).value.0;
    PutBytes(dst, 0, src[..6]);
    ghost var d1 := dst[..];
    var dstp, srcp := CopyNals(dst, 6, src, 6, src[5] % 32);
    ghost var d2 := dst[..];
    var count := src[srcp];
    PutBytes(dst, dstp, [count]);
    ghost var d3 := dst[..];
    assert src[srcp..][1..] == src[srcp + 1..];
    dstp, srcp := CopyNals(dst, dstp + 1, src, srcp + 1, count);
    Assemble(before, r, d1, d2, d3, dst[..]);
    destsize := dstp;
  }
}
