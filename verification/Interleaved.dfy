/** Interleaved audio: samples one after another, each holding one value of `width` bytes for every channel. */
module Interleaved {
  import opened Basics
  import opened Floors

  type Sample = seq<seq<byte>>

  ghost predicate Interleaves(samples: seq<Sample>, channels: nat, width: nat) {
    forall i :: 0 <= i < |samples| ==> Fits(samples[i], channels, width)
  }

  ghost predicate Fits(sample: Sample, channels: nat, width: nat) {
    |sample| == channels && forall c :: 0 <= c < channels ==> |sample[c]| == width
  }

  /** The bytes of some samples. */
  function Flat(samples: seq<Sample>): seq<byte> {
    if samples == [] then [] else Concat(samples[0]) + Flat(samples[1..])
  }

  /** The bytes of piece k when samples are cut into pieces of n. */
  ghost function Piece(samples: seq<Sample>, n: nat, k: nat): seq<byte>
    requires k * n + n <= |samples|
  {
    Flat(samples[k * n..k * n + n])
  }

  lemma {:induction false} ValuesLength(values: seq<seq<byte>>, width: nat)
    requires forall c :: 0 <= c < |values| ==> |values[c]| == width
    ensures |Concat(values)| == |values| * width
  {
    if values != [] {
      ValuesLength(values[1..], width);
      assert |values| * width == width + (|values| - 1) * width;
    }
  }

  lemma {:induction false} FlatLength(samples: seq<Sample>, channels: nat, width: nat)
    requires Interleaves(samples, channels, width)
    ensures |Flat(samples)| == |samples| * (channels * width)
  {
    if samples != [] {
      ValuesLength(samples[0], width);
      FlatLength(samples[1..], channels, width);
      assert |samples| * (channels * width) == channels * width + (|samples| - 1) * (channels * width);
    }
  }

  lemma {:induction false} FlatConcat(a: seq<Sample>, b: seq<Sample>)
    ensures Flat(a + b) == Flat(a) + Flat(b)
  {
    if a == [] {
      assert a + b == b && Flat(a) == [];
    } else {
      hide *;
      assert (a + b)[1..] == a[1..] + b && (a + b)[0] == a[0];
      FlatFirst(a);
      FlatFirst(a + b);
      FlatConcat(a[1..], b);
      SumsAssociate(Concat(a[0]), Flat(a[1..]), Flat(b));
    }
  }

  lemma FlatFirst(samples: seq<Sample>)
    requires samples != []
    ensures Flat(samples) == Concat(samples[0]) + Flat(samples[1..])
  {
  }

  lemma SumsAssociate(a: seq<byte>, b: seq<byte>, c: seq<byte>)
    ensures a + (b + c) == a + b + c
  {
  }

  /** Where the parts of some samples begin. */
  lemma PartLengths(samples: seq<Sample>, channels: nat, width: nat, from: nat, to: nat)
    requires Interleaves(samples, channels, width) && from <= to <= |samples|
    ensures |Flat(samples[..from])| == from * (channels * width)
    ensures |Flat(samples[..from])| + |Flat(samples[from..to])| == to * (channels * width)
  {
    FlatLength(samples[..from], channels, width);
    FlatLength(samples[from..to], channels, width);
    hide *;
    MulAdd(from, to - from, channels * width);
  }

  lemma InThree(samples: seq<Sample>, from: nat, to: nat)
    requires from <= to <= |samples|
    ensures samples[..from] + samples[from..to] + samples[to..] == samples
  {
  }

  lemma FlatThree(a: seq<Sample>, b: seq<Sample>, c: seq<Sample>)
    ensures Flat(a + b + c) == Flat(a) + Flat(b) + Flat(c)
  {
    hide *;
    FlatConcat(a, b);
    FlatConcat(a + b, c);
  }

  /** Cutting the bytes between whole samples cuts the samples. */
  lemma FlatSlice(samples: seq<Sample>, channels: nat, width: nat, from: nat, to: nat)
    requires Interleaves(samples, channels, width) && from <= to <= |samples|
    ensures var size := channels * width;
            && 0 <= from * size <= to * size <= |Flat(samples)|
            && Flat(samples)[from * size..to * size] == Flat(samples[from..to])
            && Flat(samples)[to * size..] == Flat(samples[to..])
  {
    hide *;
    var size := channels * width;
    PartLengths(samples, channels, width, from, to);
    InThree(samples, from, to);
    FlatThree(samples[..from], samples[from..to], samples[to..]);
    Middle(Flat(samples), Flat(samples[..from]), Flat(samples[from..to]), Flat(samples[to..]), from * size, to * size);
  }

  lemma Middle(all: seq<byte>, a: seq<byte>, b: seq<byte>, c: seq<byte>, from: int, to: int)
    requires all == a + b + c && |a| == from && |a| + |b| == to
    ensures 0 <= from <= to <= |all| && all[from..to] == b && all[to..] == c
  {
  }
}
