/**
 * Emulation prevention for H.264 NAL units (section 7.4.1 of ITU-T H.264): a 03 goes before
 * each byte of at most 03 that follows two zero bytes.
 */
module NalEscape {
  import opened Basics

  predicate NeedsEscape(count: nat, b: byte) {
    count == 2 && b <= 3
  }

  function NextCount(count: nat, b: byte): nat {
    if b != 0 then 0 else if NeedsEscape(count, b) then 1 else count + 1
  }

  /** What the loop body writes for one byte. */
  function Head(count: nat, b: byte): seq<byte> {
    if NeedsEscape(count, b) then [3, b] else [b]
  }

  function HeadMarks(count: nat, b: byte): seq<bool> {
    if NeedsEscape(count, b) then [true, false] else [false]
  }

  /** What the loop still writes when `count` zeros were just written. */
  function EscapeFrom(s: seq<byte>, count: nat): seq<byte> {
    if s == [] then []
    else Head(count, s[0]) + EscapeFrom(s[1..], NextCount(count, s[0]))
  }

  function Escape(s: seq<byte>): seq<byte> {
    EscapeFrom(s, 0)
  }

  /** For each byte written, whether it was inserted. */
  function Inserted(s: seq<byte>, count: nat): seq<bool> {
    if s == [] then []
    else HeadMarks(count, s[0]) + Inserted(s[1..], NextCount(count, s[0]))
  }

  /** A 03 right after two zeros. */
  predicate IsEscape(s: seq<byte>, i: nat) {
    2 <= i < |s| && s[i] == 3 && s[i - 1] == 0 && s[i - 2] == 0
  }

  /** `s` from position `i` on without the 03s that follow two zeros. */
  function UnescapeAt(s: seq<byte>, i: nat): seq<byte>
    requires i <= |s|
    decreases |s| - i
  {
    if i == |s| then [] else (if IsEscape(s, i) then [] else [s[i]]) + UnescapeAt(s, i + 1)
  }

  function Unescape(s: seq<byte>): seq<byte> {
    UnescapeAt(s, 0)
  }

  /** `count` is the number of zeros at the end of what was written, up to two. */
  predicate CountsZeros(pre: seq<byte>, count: nat) {
    && count <= 2
    && (count >= 1 <==> |pre| >= 1 && pre[|pre| - 1] == 0)
    && (count == 2 <==> |pre| >= 2 && pre[|pre| - 1] == 0 && pre[|pre| - 2] == 0)
  }

  predicate AfterTwoZeros(s: seq<byte>, i: nat) {
    2 <= i < |s| && s[i - 1] == 0 && s[i - 2] == 0
  }

  /** Position i is an escape exactly if it is marked, and nothing below 03 follows two zeros. */
  ghost predicate PositionOk(out: seq<byte>, i: nat, mark: bool) {
    i < |out| && (mark <==> IsEscape(out, i)) && (AfterTwoZeros(out, i) ==> out[i] >= 3)
  }

  ghost predicate Marked(out: seq<byte>, from: nat, marks: seq<bool>) {
    forall k: nat :: k < |marks| ==> PositionOk(out, from + k, marks[k])
  }

  lemma MarkedConcat(out: seq<byte>, from: nat, a: seq<bool>, b: seq<bool>)
    requires Marked(out, from, a) && Marked(out, from + |a|, b)
    ensures Marked(out, from, a + b)
  {
    forall k: nat | k < |a + b|
      ensures PositionOk(out, from + k, (a + b)[k])
    {
      if k >= |a| {
        assert PositionOk(out, from + |a| + (k - |a|), b[k - |a|]);
      }
    }
  }

  /** What the loop body writes for byte `b` is as it should be, whatever comes after it. */
  lemma HeadOk(pre: seq<byte>, b: byte, count: nat, tail: seq<byte>)
    requires CountsZeros(pre, count)
    ensures CountsZeros(pre + Head(count, b), NextCount(count, b))
    ensures Marked(pre + Head(count, b) + tail, |pre|, HeadMarks(count, b))
    ensures var out := pre + Head(count, b) + tail;
            UnescapeAt(out, |pre|) == [b] + UnescapeAt(out, |pre + Head(count, b)|)
  {
    var out := pre + Head(count, b) + tail;
    assert PositionOk(out, |pre|, NeedsEscape(count, b));
    if NeedsEscape(count, b) {
      assert PositionOk(out, |pre| + 1, false);
      assert UnescapeAt(out, |pre| + 1) == [b] + UnescapeAt(out, |pre| + 2);
    }
  }

  lemma HeadSizes(count: nat, b: byte)
    ensures |HeadMarks(count, b)| == |Head(count, b)|
  {
  }

  lemma EscapeHead(pre: seq<byte>, s: seq<byte>, count: nat)
    requires s != []
    ensures pre + EscapeFrom(s, count) == pre + Head(count, s[0]) + EscapeFrom(s[1..], NextCount(count, s[0]))
  {
  }

  lemma {:induction false} EscapeMarked(pre: seq<byte>, s: seq<byte>, count: nat)
    requires CountsZeros(pre, count)
    ensures |EscapeFrom(s, count)| == |Inserted(s, count)|
    ensures Marked(pre + EscapeFrom(s, count), |pre|, Inserted(s, count))
    decreases s
  {
    hide PositionOk, Head, NextCount, CountsZeros;
    if s == [] {
    } else {
      var head, next := Head(count, s[0]), NextCount(count, s[0]);
      HeadSizes(count, s[0]);
      HeadOk(pre, s[0], count, EscapeFrom(s[1..], next));
      EscapeMarked(pre + head, s[1..], next);
      EscapeHead(pre, s, count);
      MarkedConcat(pre + EscapeFrom(s, count), |pre|, HeadMarks(count, s[0]), Inserted(s[1..], next));
    }
  }

  lemma {:induction false} EscapeUndone(pre: seq<byte>, s: seq<byte>, count: nat)
    requires CountsZeros(pre, count)
    ensures UnescapeAt(pre + EscapeFrom(s, count), |pre|) == s
    decreases s
  {
    hide Head, NextCount, CountsZeros, IsEscape, Marked;
    if s == [] {
      assert pre + EscapeFrom(s, count) == pre;
    } else {
      var next := NextCount(count, s[0]);
      HeadOk(pre, s[0], count, EscapeFrom(s[1..], next));
      EscapeUndone(pre + Head(count, s[0]), s[1..], next);
      EscapeHead(pre, s, count);
    }
  }

  /** Removing each 03 that follows two zeros undoes the escaping, for every input. */
  lemma RoundTrip(s: seq<byte>)
    ensures Unescape(Escape(s)) == s
  {
    EscapeUndone([], s, 0);
    assert [] + Escape(s) == Escape(s);
  }

  /**
   * The output never contains 00 00 00, 00 00 01 or 00 00 02, and its 00 00 03 are exactly the
   * inserted bytes.
   */
  lemma NoForbiddenPattern(s: seq<byte>)
    ensures |Inserted(s, 0)| == |Escape(s)|
    ensures forall i: nat :: i < |Escape(s)| && AfterTwoZeros(Escape(s), i) ==> Escape(s)[i] >= 3
    ensures forall i: nat :: i < |Escape(s)| ==> (Inserted(s, 0)[i] <==> IsEscape(Escape(s), i))
  {
    EscapeMarked([], s, 0);
    assert [] + Escape(s) == Escape(s);
    forall i: nat | i < |Escape(s)|
      ensures Inserted(s, 0)[i] <==> IsEscape(Escape(s), i)
      ensures AfterTwoZeros(Escape(s), i) ==> Escape(s)[i] >= 3
    {
      assert PositionOk(Escape(s), 0 + i, Inserted(s, 0)[i]);
    }
  }

  // ------------------------------------------------------------------ no more and no less

  /** What follows two zeros is above 03, or is a 03 that guards a byte of at most 03. */
  ghost predicate StandardAt(out: seq<byte>, i: nat) {
    AfterTwoZeros(out, i) ==> out[i] > 3 || (out[i] == 3 && i + 1 < |out| && out[i + 1] <= 3)
  }

  ghost predicate Standard(out: seq<byte>) {
    forall i: nat :: i < |out| ==> StandardAt(out, i)
  }

  lemma HeadStandard(pre: seq<byte>, b: byte, count: nat, tail: seq<byte>)
    requires CountsZeros(pre, count)
    ensures var head := Head(count, b);
            forall i: nat :: |pre| <= i < |pre + head| ==> StandardAt(pre + head + tail, i)
  {
    var out := pre + Head(count, b) + tail;
    assert StandardAt(out, |pre|);
    if NeedsEscape(count, b) {
      assert StandardAt(out, |pre| + 1);
    }
  }

  lemma HeadCounts(pre: seq<byte>, b: byte, count: nat)
    requires CountsZeros(pre, count)
    ensures CountsZeros(pre + Head(count, b), NextCount(count, b))
  {
  }

  lemma {:induction false} EscapeStandardFrom(pre: seq<byte>, s: seq<byte>, count: nat)
    requires CountsZeros(pre, count)
    ensures forall i: nat :: |pre| <= i < |pre + EscapeFrom(s, count)| ==> StandardAt(pre + EscapeFrom(s, count), i)
    decreases s
  {
    hide StandardAt, Head, NextCount, CountsZeros;
    if s != [] {
      var head, next := Head(count, s[0]), NextCount(count, s[0]);
      HeadStandard(pre, s[0], count, EscapeFrom(s[1..], next));
      HeadCounts(pre, s[0], count);
      EscapeStandardFrom(pre + head, s[1..], next);
      EscapeHead(pre, s, count);
    }
  }

  lemma StepCounts(out: seq<byte>, i: nat, count: nat)
    requires i < |out| && CountsZeros(out[..i], count)
    ensures AfterTwoZeros(out, i) <==> count == 2
    ensures CountsZeros(out[..i + 1], if out[i] != 0 then 0 else if count == 2 then 2 else count + 1)
  {
    assert forall k :: 0 <= k < i ==> out[..i][k] == out[k] == out[..i + 1][k];
  }

  lemma EscapeFront(b: byte, rest: seq<byte>, count: nat)
    ensures EscapeFrom([b] + rest, count) == Head(count, b) + EscapeFrom(rest, NextCount(count, b))
  {
    assert ([b] + rest)[1..] == rest;
  }

  lemma SplitOff(s: seq<byte>, i: nat, n: nat)
    requires i + n <= |s|
    ensures s[i..] == s[i..i + n] + s[i + n..]
  {
  }

  /** From any point between two writes on, a standard output is what escaping its own content gives. */
  lemma {:induction false} StandardIsEscaped(out: seq<byte>, i: nat, count: nat)
    requires Standard(out) && i <= |out| && CountsZeros(out[..i], count)
    ensures out[i..] == EscapeFrom(UnescapeAt(out, i), count)
    decreases |out| - i
  {
    hide CountsZeros, EscapeFrom;
    if i == |out| {
      assert EscapeFrom([], count) == [] by {
        NothingToEscape(count);
      }
    } else {
      StepCounts(out, i, count);
      assert StandardAt(out, i);
      if IsEscape(out, i) {
        var b := out[i + 1];
        StepCounts(out, i + 1, 0);
        StandardIsEscaped(out, i + 2, if b != 0 then 0 else 1);
        EscapeFront(b, UnescapeAt(out, i + 2), count);
        assert UnescapeAt(out, i) == UnescapeAt(out, i + 1) == [b] + UnescapeAt(out, i + 2);
        SplitOff(out, i, 2);
        assert out[i..i + 2] == [3, b];
      } else {
        StandardIsEscaped(out, i + 1, if out[i] != 0 then 0 else count + 1);
        EscapeFront(out[i], UnescapeAt(out, i + 1), count);
        SplitOff(out, i, 1);
      }
    }
  }

  lemma NothingToEscape(count: nat)
    ensures EscapeFrom([], count) == []
  {
  }

  /**
   * The output is determined by its input: it is the only byte sequence in which everything that follows two zeros
   * is above 03, or a 03 before a byte of at most 03, and from which removing those 03s gives the input.
   */
  lemma EscapeIff(s: seq<byte>, out: seq<byte>)
    ensures out == Escape(s) <==> Standard(out) && Unescape(out) == s
  {
    if Standard(out) && Unescape(out) == s {
      assert out[..0] == [] && out[0..] == out;
      StandardIsEscaped(out, 0, 0);
    }
    if out == Escape(s) {
      RoundTrip(s);
      EscapeStandardFrom([], s, 0);
      assert [] + Escape(s) == Escape(s);
    }
  }

  lemma {:induction false} UnescapeRemoves(s: seq<byte>, i: nat)
    requires i <= |s|
    ensures |UnescapeAt(s, i)| <= |s| - i
    ensures UnescapeAt(s, i) == s[i..] <==> forall k: nat :: i <= k < |s| ==> !IsEscape(s, k)
    ensures (exists k: nat :: i <= k < |s| && IsEscape(s, k)) ==> |UnescapeAt(s, i)| < |s| - i
    decreases |s| - i
  {
    hide IsEscape;
    if i < |s| {
      UnescapeRemoves(s, i + 1);
      assert s[i..] == [s[i]] + s[i + 1..];
    }
  }

  /** An input needs no escape exactly when nothing of at most 03 follows two zeros in it. */
  lemma UnchangedIff(s: seq<byte>)
    ensures Escape(s) == s <==> forall i: nat :: AfterTwoZeros(s, i) ==> s[i] > 3
  {
    UnescapeRemoves(s, 0);
    assert s[0..] == s;
    EscapeIff(s, s);
    if Escape(s) == s {
      forall i: nat | AfterTwoZeros(s, i) ensures s[i] > 3 {
        assert StandardAt(s, i);
        assert !IsEscape(s, i);
      }
    }
  }

  lemma {:induction false} LengthFrom(s: seq<byte>, count: nat)
    requires count <= 2
    ensures |s| <= |EscapeFrom(s, count)|
    ensures s != [] ==> |EscapeFrom(s, count)| <= |s| + (|s| + count - 1) / 2
  {
    if s != [] {
      LengthFrom(s[1..], NextCount(count, s[0]));
    }
  }

  /** A non-empty NAL of n bytes grows by at most (n - 1) / 2. */
  lemma LengthBound(s: seq<byte>)
    ensures |s| <= |Escape(s)|
    ensures s != [] ==> |Escape(s)| <= |s| + (|s| - 1) / 2
  {
    LengthFrom(s, 0);
  }

  function Zeros(n: nat): seq<byte> {
    seq(n, _ => 0)
  }

  lemma {:induction false} ZerosLength(n: nat, count: nat)
    requires count <= 2 && n > 0
    ensures |EscapeFrom(Zeros(n), count)| == n + (n + count - 1) / 2
    decreases n
  {
    assert Zeros(n)[1..] == Zeros(n - 1);
    if n > 1 {
      ZerosLength(n - 1, NextCount(count, 0));
    } else {
      assert EscapeFrom(Zeros(0), NextCount(count, 0)) == [];
    }
  }

  /** The bound is exact: all-zero NALs reach it. */
  lemma BoundReached(n: nat)
    requires n > 0
    ensures |Escape(Zeros(n))| == n + (n - 1) / 2
  {
    ZerosLength(n, 0);
  }

  lemma EscapeStep(s: seq<byte>, from: nat, end: nat, count: nat) returns (head: seq<byte>)
    requires from < end <= |s|
    ensures head == Head(count, s[from]) && head <= EscapeFrom(s[from..end], count)
    ensures EscapeFrom(s[from..end], count)[|head|..] == EscapeFrom(s[from + 1..end], NextCount(count, s[from]))
  {
    head := Head(count, s[from]);
    assert s[from..end][1..] == s[from + 1..end];
  }

  /** `s` with `bytes` written over it at position `at`. */
  function Patch(s: seq<byte>, at: nat, bytes: seq<byte>): (r: seq<byte>)
    requires at + |bytes| <= |s|
    ensures |r| == |s|
  {
    s[..at] + bytes + s[at + |bytes|..]
  }

  lemma PatchTwice(s: seq<byte>, at: nat, a: seq<byte>, b: seq<byte>)
    requires at + |a| + |b| <= |s|
    ensures Patch(Patch(s, at, a), at + |a|, b) == Patch(s, at, a + b)
    ensures Patch(Patch(s, at + |a|, b), at, a) == Patch(s, at, a + b)
  {
  }

  lemma NothingWritten(dst: array<byte>, at: nat)
    requires at <= dst.Length
    ensures Holds(dst, dst[..], at, [])
  {
  }

  /** dst holds `bytes` at `at`; elsewhere it is as `before`. */
  ghost predicate Holds(dst: array<byte>, before: seq<byte>, at: nat, bytes: seq<byte>)
    reads dst
  {
    |before| == dst.Length && at + |bytes| <= dst.Length && dst[..] == Patch(before, at, bytes)
  }

  lemma MoveHead(written: seq<byte>, todo: seq<byte>, head: seq<byte>)
    requires head <= todo
    ensures written + todo == (written + head) + todo[|head|..]
  {
  }

  /** The body of the loop: one byte of the source, with its escape if it needs one. */
  method WriteByte(dst: array<byte>, at: nat, b: byte, count: nat,
                   ghost start: nat, ghost written: seq<byte>, ghost before: seq<byte>)
    returns (next: nat, zeros: nat)
    requires at == start + |written| && at + |Head(count, b)| <= dst.Length
    requires Holds(dst, before, start, written)
    modifies dst
    ensures next == at + |Head(count, b)| && zeros == NextCount(count, b)
    ensures Holds(dst, before, start, written + Head(count, b))
  {
    next, zeros := at, count;
    if count == 2 && b <= 3 {
      dst[next] := 3;
      next := next + 1;
      zeros := 0;
    }
    if b == 0 {
      zeros := zeros + 1;
    } else {
      zeros := 0;
    }
    dst[next] := b;
    next := next + 1;
  }

  /** nal_escape: writes the escaped bytes of src[start..start+size] at dst[at..] and nothing else. */
  method WriteEscaped(dst: array<byte>, at: nat, src: seq<byte>, start: nat, size: nat) returns (destsize: nat)
    requires start + size <= |src|
    requires at + |Escape(src[start..start + size])| <= dst.Length
    modifies dst
    ensures destsize == |Escape(src[start..start + size])|
    ensures Holds(dst, old(dst[..]), at, Escape(src[start..start + size]))
  {
    hide Holds, Head, NextCount;
    ghost var goal := Escape(src[start..start + size]);
    NothingWritten(dst, at);
    ghost var before, written, todo := dst[..], [], goal;
    var dstp, srcp, end := at, start, start + size;
    var count := 0;
    while srcp < end
      invariant start <= srcp <= end && dstp == at + |written|
      invariant todo == EscapeFrom(src[srcp..end], count)
      invariant |written| + |todo| == |goal| && written + todo == goal
      invariant Holds(dst, before, at, written)
    {
      ghost var head := EscapeStep(src, srcp, end, count);
      dstp, count := WriteByte(dst, dstp, src[srcp], count, at, written, before);
      srcp := srcp + 1;
      MoveHead(written, todo, head);
      todo := todo[|head|..];
      written := written + head;
    }
    assert todo == [] && written + [] == written;
    destsize := dstp - at;
  }
}
