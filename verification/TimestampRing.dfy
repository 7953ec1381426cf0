/**
 * The decoder's record of which input buffer, and so which timestamp, each byte it has not consumed yet
 * belongs to: a ring of 256 entries.
 */
module TimestampQueue {
  import opened Basics

  /** ts and offset of a buffer, and how many of its bytes are left. */
  datatype Entry = Entry(ts: ClockTime, offset: int, size: int)

  /** What memset to -1 leaves in a slot. */
  const CLEARED: Entry := Entry(CLOCK_TIME_NONE, -1, -1)

  predicate Valid(ts: ClockTime) {
    ts != CLOCK_TIME_NONE
  }

  /** Appending a buffer: one without a timestamp extends the last entry unless there is none. */
  function Append(q: seq<Entry>, ts: ClockTime, offset: int, size: nat): seq<Entry> {
    if Valid(ts) || q == [] then q + [Entry(ts, offset, size)]
    else q[|q| - 1 := q[|q| - 1].(size := q[|q| - 1].size + size)]
  }

  /** Consuming k bytes from the front. */
  function Consume(q: seq<Entry>, k: int): seq<Entry>
    decreases |q|
  {
    if k <= 0 || q == [] then q
    else if k >= q[0].size then Consume(q[1..], k - q[0].size)
    else [q[0].(size := q[0].size - k)] + q[1..]
  }

  /** A length of -1 from the decoder drops one buffer, whatever is left of it. */
  function ConsumeOrDrop(q: seq<Entry>, k: int): seq<Entry> {
    if k == -1 && q != [] then q[1..] else Consume(q, k)
  }

  /** Reading the timestamp of the front entry clears it. */
  function Taken(q: seq<Entry>): seq<Entry>
    requires q != []
  {
    q[0 := q[0].(ts := CLOCK_TIME_NONE, offset := -1)]
  }

  ghost predicate Sized(q: seq<Entry>) {
    forall i :: 0 <= i < |q| ==> q[i].size >= 0
  }

  function Total(q: seq<Entry>): int {
    if q == [] then 0 else q[0].size + Total(q[1..])
  }

  // --------------------------------------------- which buffer a byte belongs to

  type Owner = (ClockTime, int)

  function Repeat(o: Owner, n: nat): seq<Owner> {
    seq(n, _ => o)
  }

  /** For each byte not consumed yet, the timestamp and offset of the buffer it came in. */
  function Owners(q: seq<Entry>): seq<Owner>
    requires Sized(q)
  {
    if q == [] then [] else Repeat((q[0].ts, q[0].offset), q[0].size) + Owners(q[1..])
  }

  lemma {:induction false} OwnersLength(q: seq<Entry>)
    requires Sized(q)
    ensures |Owners(q)| == Total(q)
  {
    if q != [] {
      OwnersLength(q[1..]);
    }
  }

  lemma {:induction false} OwnersAppend(q: seq<Entry>, e: Entry)
    requires Sized(q) && e.size >= 0
    ensures Sized(q + [e])
    ensures Owners(q + [e]) == Owners(q) + Repeat((e.ts, e.offset), e.size)
  {
    if q == [] {
      assert q + [e] == [e] && [e][1..] == [];
    } else {
      assert (q + [e])[1..] == q[1..] + [e];
      OwnersAppend(q[1..], e);
    }
  }

  /** The owner the bytes of an appended buffer get. */
  function OwnerOfNew(q: seq<Entry>, ts: ClockTime, offset: int): Owner {
    if Valid(ts) || q == [] then (ts, offset) else (q[|q| - 1].ts, q[|q| - 1].offset)
  }

  lemma AppendOwners(q: seq<Entry>, ts: ClockTime, offset: int, size: nat)
    requires Sized(q)
    ensures Sized(Append(q, ts, offset, size))
    ensures Owners(Append(q, ts, offset, size)) == Owners(q) + Repeat(OwnerOfNew(q, ts, offset), size)
  {
    if Valid(ts) || q == [] {
      OwnersAppend(q, Entry(ts, offset, size));
    } else {
      var n := |q| - 1;
      var last := q[n];
      var grown := last.(size := last.size + size);
      OwnersAppend(q[..n], last);
      OwnersAppend(q[..n], grown);
      assert q[..n] + [last] == q && q[..n] + [grown] == Append(q, ts, offset, size);
    }
  }

  /** Consuming k bytes removes exactly the first k bytes: the entry at the front owns byte k. */
  lemma {:induction false} ConsumeOwners(q: seq<Entry>, k: nat)
    requires Sized(q) && k <= Total(q)
    ensures Sized(Consume(q, k))
    ensures k <= |Owners(q)| && Owners(Consume(q, k)) == Owners(q)[k..]
  {
    OwnersLength(q);
    if k > 0 && q != [] {
      var front := Repeat((q[0].ts, q[0].offset), q[0].size);
      assert Owners(q) == front + Owners(q[1..]);
      if k >= q[0].size {
        ConsumeOwners(q[1..], k - q[0].size);
      } else {
        var left := q[0].(size := q[0].size - k);
        assert ([left] + q[1..])[1..] == q[1..];
        assert Repeat((left.ts, left.offset), left.size) == front[k..];
      }
    }
  }

  lemma TotalTake(q: seq<Entry>, n: nat)
    requires 0 < n <= |q|
    ensures Total(q[..n]) == q[0].size + Total(q[1..][..n - 1])
  {
    assert q[..n][0] == q[0] && q[..n][1..] == q[1..][..n - 1];
  }

  /**
   * Which entries go: the first n, all of them used up; the next one loses what is left of k, and the rest
   * are untouched. Consuming stops as soon as k bytes are gone, so a zero-size entry may stay in front.
   */
  lemma {:induction false} ConsumeShape(q: seq<Entry>, k: nat) returns (n: nat)
    requires Sized(q) && k <= Total(q)
    ensures n <= |q| && Total(q[..n]) <= k
    ensures Consume(q, k) == if n == |q| then [] else [q[n].(size := q[n].size - (k - Total(q[..n])))] + q[n + 1..]
    ensures n < |q| ==> k - Total(q[..n]) < q[n].size || k == Total(q[..n])
    ensures n > 0 ==> Total(q[..n - 1]) < k
  {
    n := 0;
    if k > 0 && q != [] && k >= q[0].size {
      var m := ConsumeShape(q[1..], k - q[0].size);
      n := m + 1;
      TotalTake(q, n);
      if m > 0 {
        TotalTake(q, m);
      }
      if n < |q| {
        assert q[1..][m + 1..] == q[n + 1..];
      }
    } else if q != [] {
      assert q == [q[0]] + q[1..];
    }
  }

  /** Consuming at least all there is leaves no byte. */
  lemma {:induction false} ConsumeAll(q: seq<Entry>, k: int)
    requires Sized(q) && Total(q) <= k
    ensures Sized(Consume(q, k)) && Owners(Consume(q, k)) == []
  {
    OwnersLength(q);
    if k > 0 && q != [] {
      TotalSized(q[1..]);
      ConsumeAll(q[1..], k - q[0].size);
    }
  }

  lemma TotalSized(q: seq<Entry>)
    requires Sized(q)
    ensures Total(q) >= 0
  {
    OwnersLength(q);
  }

  /** Appending a buffer, gst_ts_handler_consume with any number, and reading a timestamp. */
  datatype Op = Add(ts: ClockTime, offset: int, size: nat) | Use(bytes: int) | Take

  /** The queue after a run, all bytes that ever came in (by owner), and how many of them are gone. */
  datatype RunState = RunState(q: seq<Entry>, arrived: seq<Owner>, gone: int)

  /** From now on nobody knows the owner of n bytes from `from` on. */
  function Forget(arrived: seq<Owner>, from: int, n: int): (r: seq<Owner>)
    ensures |r| == |arrived|
  {
    seq(|arrived|, i requires 0 <= i < |arrived| =>
      if from <= i < from + n then (CLOCK_TIME_NONE, -1) else arrived[i])
  }

  /**
   * Consuming takes as many bytes as asked for, or all there are; -1 takes those of the front entry; and reading
   * the timestamp makes the front entry's bytes nobody's.
   */
  function Run(ops: seq<Op>): RunState {
    if ops == [] then RunState([], [], 0)
    else
      var s := Run(ops[..|ops| - 1]);
      var left := |s.arrived| - s.gone;
      match ops[|ops| - 1]
      case Add(ts, offset, size) =>
        s.(q := Append(s.q, ts, offset, size), arrived := s.arrived + Repeat(OwnerOfNew(s.q, ts, offset), size))
      case Use(k) =>
        var n := if k == -1 && s.q != [] then s.q[0].size else if k <= 0 then 0 else if k < left then k else left;
        s.(q := ConsumeOrDrop(s.q, k), gone := s.gone + n)
      case Take =>
        if s.q == [] then s else s.(q := Taken(s.q), arrived := Forget(s.arrived, s.gone, s.q[0].size))
  }

  /** The queue describes exactly the bytes that came in and are not gone. */
  ghost predicate Describes(s: RunState) {
    && Sized(s.q) && 0 <= s.gone <= |s.arrived|
    && Owners(s.q) == s.arrived[s.gone..]
  }

  lemma UseDescribes(s: RunState, k: int)
    requires Describes(s)
    ensures var left := |s.arrived| - s.gone;
            var n := if k == -1 && s.q != [] then s.q[0].size else if k <= 0 then 0 else if k < left then k else left;
            Describes(s.(q := ConsumeOrDrop(s.q, k), gone := s.gone + n))
  {
    OwnersLength(s.q);
    if k == -1 && s.q != [] {
      DropOwners(s.q);
      DropTwice(s.arrived, s.gone, s.q[0].size);
    } else if 0 < k < |s.arrived| - s.gone {
      hide Owners, Total, Consume;
      ConsumeOwners(s.q, k);
      DropTwice(s.arrived, s.gone, k);
    } else if k > 0 {
      hide Owners, Total, Consume;
      ConsumeAll(s.q, k);
    } else {
      ConsumeNone(s.q, k);
      hide *;
    }
  }

  lemma DropOwners(q: seq<Entry>)
    requires Sized(q) && q != []
    ensures Sized(q[1..]) && q[0].size <= |Owners(q)| && Owners(q[1..]) == Owners(q)[q[0].size..]
  {
  }

  lemma ConsumeNone(q: seq<Entry>, k: int)
    requires k <= 0
    ensures Consume(q, k) == q
  {
  }

  lemma DropTwice(a: seq<Owner>, m: int, n: int)
    requires 0 <= m && 0 <= n && m + n <= |a|
    ensures a[m..][n..] == a[m + n..]
  {
  }

  lemma TakeDescribes(s: RunState)
    requires Describes(s) && s.q != []
    ensures Describes(s.(q := Taken(s.q), arrived := Forget(s.arrived, s.gone, s.q[0].size)))
  {
    var q, n := s.q, s.q[0].size;
    var after := Forget(s.arrived, s.gone, n);
    OwnersLength(q);
    OwnersLength(q[1..]);
    assert Taken(q)[1..] == q[1..];
    forall i | 0 <= i < |after| - s.gone
      ensures Owners(Taken(q))[i] == after[s.gone..][i]
    {
      assert i >= n ==> Owners(q)[i] == Owners(q[1..])[i - n];
    }
    SameElements(Owners(Taken(q)), after[s.gone..]);
  }

  /** At every point of a run the queue describes exactly the bytes that came in and are not gone. */
  lemma {:induction false} RunOwners(ops: seq<Op>)
    ensures Describes(Run(ops))
  {
    if ops != [] {
      RunOwners(ops[..|ops| - 1]);
      hide Owners, Append, ConsumeOrDrop, Forget, Taken;
      var s := Run(ops[..|ops| - 1]);
      match ops[|ops| - 1]
      case Add(ts, offset, size) =>
        AppendOwners(s.q, ts, offset, size);
        AppendDrop(s.arrived, Repeat(OwnerOfNew(s.q, ts, offset), size), s.gone);
      case Use(k) => UseDescribes(s, k);
      case Take =>
        if s.q != [] {
          TakeDescribes(s);
        }
    } else {
      assert Owners([]) == [];
    }
  }

  lemma AppendDrop(a: seq<Owner>, b: seq<Owner>, n: int)
    requires 0 <= n <= |a|
    ensures (a + b)[n..] == a[n..] + b
  {
  }

  // ------------------------------------------------------- timestamps handed out

  /** Every entry but the one in front has a valid timestamp. */
  ghost predicate Stamped(q: seq<Entry>) {
    forall i :: 0 < i < |q| ==> Valid(q[i].ts)
  }

  /** What a buffer came in with: its timestamp, or its offset (-1 if it has none). */
  datatype Mark = Time | Offset

  function Marks(m: Mark, ts: ClockTime, offset: int): seq<int> {
    match m
    case Time => if Valid(ts) then [ts] else []
    case Offset => if offset != -1 then [offset] else []
  }

  function Queued(m: Mark, q: seq<Entry>): seq<int> {
    if q == [] then [] else Marks(m, q[0].ts, q[0].offset) + Queued(m, q[1..])
  }

  /** `a` is `b` with some elements left out. */
  predicate Subsequence(a: seq<int>, b: seq<int>) {
    a == [] || (b != [] && ((a[0] == b[0] && Subsequence(a[1..], b[1..])) || Subsequence(a, b[1..])))
  }

  lemma {:induction false} SubsequenceSame(a: seq<int>)
    ensures Subsequence(a, a)
  {
    if a != [] {
      SubsequenceSame(a[1..]);
    }
  }

  lemma {:induction false} SubsequenceTail(a: seq<int>, b: seq<int>)
    requires a != [] && Subsequence(a, b)
    ensures Subsequence(a[1..], b)
  {
    if !(a[0] == b[0] && Subsequence(a[1..], b[1..])) {
      SubsequenceTail(a, b[1..]);
    }
  }

  lemma {:induction false} SubsequenceTransitive(a: seq<int>, b: seq<int>, c: seq<int>)
    requires Subsequence(a, b) && Subsequence(b, c)
    ensures Subsequence(a, c)
    decreases |b| + |c|
  {
    if a != [] {
      if b[0] == c[0] && Subsequence(b[1..], c[1..]) {
        if a[0] == b[0] && Subsequence(a[1..], b[1..]) {
          SubsequenceTransitive(a[1..], b[1..], c[1..]);
        } else {
          SubsequenceTransitive(a, b[1..], c[1..]);
        }
      } else {
        SubsequenceTransitive(a, b, c[1..]);
      }
    }
  }

  lemma {:induction false} SubsequencePrefix(p: seq<int>, a: seq<int>, b: seq<int>)
    requires Subsequence(a, b)
    ensures Subsequence(p + a, p + b)
  {
    if p == [] {
      assert p + a == a && p + b == b;
    } else {
      SubsequencePrefix(p[1..], a, b);
      assert (p + a)[1..] == p[1..] + a && (p + b)[1..] == p[1..] + b;
    }
  }

  lemma {:induction false} SubsequenceExtend(a: seq<int>, b: seq<int>, t: int)
    requires Subsequence(a, b)
    ensures Subsequence(a + [t], b + [t])
  {
    if b == [] {
      assert a + [t] == [t] && b + [t] == [t];
      assert [t][1..] == [];
    } else {
      assert (b + [t])[1..] == b[1..] + [t];
      if a == [] {
        SubsequenceExtend(a, b[1..], t);
      } else if a[0] == b[0] && Subsequence(a[1..], b[1..]) {
        assert (a + [t])[1..] == a[1..] + [t];
        SubsequenceExtend(a[1..], b[1..], t);
      } else {
        SubsequenceExtend(a, b[1..], t);
      }
    }
  }

  lemma {:induction false} SubsequenceSkip(a: seq<int>, b: seq<int>, more: seq<int>)
    requires Subsequence(a, b)
    ensures Subsequence(a, b + more)
  {
    if a != [] {
      assert (b + more)[1..] == b[1..] + more;
      if a[0] == b[0] && Subsequence(a[1..], b[1..]) {
        SubsequenceSkip(a[1..], b[1..], more);
      } else {
        SubsequenceSkip(a, b[1..], more);
      }
    }
  }

  lemma {:induction false} QueuedAppend(m: Mark, q: seq<Entry>, e: Entry)
    ensures Queued(m, q + [e]) == Queued(m, q) + Marks(m, e.ts, e.offset)
  {
    if q == [] {
      assert q + [e] == [e] && [e][1..] == [];
    } else {
      var more := q + [e];
      assert more[0] == q[0] && more[1..] == q[1..] + [e];
      QueuedAppend(m, q[1..], e);
      assert Queued(m, more) == Marks(m, q[0].ts, q[0].offset) + Queued(m, q[1..] + [e]);
    }
  }

  lemma DropFront(m: Mark, q: seq<Entry>, a: seq<int>)
    requires q != [] && Subsequence(a, Queued(m, q[1..]))
    ensures Subsequence(a, Queued(m, q))
  {
    var front := Marks(m, q[0].ts, q[0].offset);
    if front != [] {
      assert Queued(m, q)[1..] == Queued(m, q[1..]);
    } else {
      assert Queued(m, q) == Queued(m, q[1..]);
    }
  }

  lemma {:induction false} ConsumeStamped(m: Mark, q: seq<Entry>, k: int)
    requires Stamped(q)
    ensures Stamped(Consume(q, k))
    ensures Subsequence(Queued(m, Consume(q, k)), Queued(m, q))
    decreases |q|
  {
    if k > 0 && q != [] && k >= q[0].size {
      ConsumeStamped(m, q[1..], k - q[0].size);
      DropFront(m, q, Queued(m, Consume(q, k)));
    } else {
      SubsequenceSame(Queued(m, q));
      if k > 0 && q != [] {
        assert Consume(q, k)[1..] == q[1..];
      }
    }
  }

  /** The queue, the marks that came in, and the marks handed out. */
  datatype Served = Served(q: seq<Entry>, given: seq<int>, taken: seq<int>)

  /** One operation; reading a timestamp is only looked at for a queue with an entry. */
  function Serve(m: Mark, s: Served, op: Op): Served {
    match op
    case Add(ts, offset, size) => Served(Append(s.q, ts, offset, size), s.given + Marks(m, ts, offset), s.taken)
    case Use(k) => s.(q := ConsumeOrDrop(s.q, k))
    case Take =>
      if s.q == [] then s else Served(Taken(s.q), s.given, s.taken + Marks(m, s.q[0].ts, s.q[0].offset))
  }

  function ServeAll(m: Mark, ops: seq<Op>): Served {
    if ops == [] then Served([], [], []) else Serve(m, ServeAll(m, ops[..|ops| - 1]), ops[|ops| - 1])
  }

  ghost predicate HandedOutInOrder(m: Mark, s: Served) {
    Stamped(s.q) && Subsequence(s.taken + Queued(m, s.q), s.given)
  }

  lemma AddMarks(m: Mark, q: seq<Entry>, ts: ClockTime, offset: int, size: nat)
    requires Stamped(q)
    ensures Stamped(Append(q, ts, offset, size))
    ensures Queued(m, Append(q, ts, offset, size))
         == Queued(m, q) + if Valid(ts) || q == [] then Marks(m, ts, offset) else []
  {
    if Valid(ts) || q == [] {
      QueuedAppend(m, q, Entry(ts, offset, size));
    } else {
      var n := |q| - 1;
      var grown := q[n].(size := q[n].size + size);
      QueuedAppend(m, q[..n], q[n]);
      QueuedAppend(m, q[..n], grown);
      assert q[..n] + [q[n]] == q && q[..n] + [grown] == Append(q, ts, offset, size);
    }
  }

  lemma UseMarks(m: Mark, q: seq<Entry>, k: int)
    requires Stamped(q)
    ensures Stamped(ConsumeOrDrop(q, k))
    ensures Subsequence(Queued(m, ConsumeOrDrop(q, k)), Queued(m, q))
  {
    if k == -1 && q != [] {
      SubsequenceSame(Queued(m, q[1..]));
      DropFront(m, q, Queued(m, q[1..]));
    } else {
      ConsumeStamped(m, q, k);
    }
  }

  lemma TakeMarks(m: Mark, q: seq<Entry>)
    requires Stamped(q) && q != []
    ensures Stamped(Taken(q)) && Queued(m, q) == Marks(m, q[0].ts, q[0].offset) + Queued(m, Taken(q))
  {
    assert Taken(q)[1..] == q[1..];
    assert Queued(m, Taken(q)) == [] + Queued(m, q[1..]);
  }

  lemma AddInOrder(m: Mark, s: Served, ts: ClockTime, offset: int, size: nat)
    requires HandedOutInOrder(m, s)
    ensures HandedOutInOrder(m, Serve(m, s, Add(ts, offset, size)))
  {
    var all, came := s.taken + Queued(m, s.q), Marks(m, ts, offset);
    AddMarks(m, s.q, ts, offset, size);
    SubsequenceSkip(all, s.given, came);
    if (Valid(ts) || s.q == []) && came != [] {
      SubsequenceExtend(all, s.given, came[0]);
      assert s.taken + (Queued(m, s.q) + came) == all + came;
    } else {
      assert Queued(m, s.q) + [] == Queued(m, s.q);
    }
  }

  lemma UseInOrder(m: Mark, s: Served, k: int)
    requires HandedOutInOrder(m, s)
    ensures HandedOutInOrder(m, Serve(m, s, Use(k)))
  {
    var q := ConsumeOrDrop(s.q, k);
    UseMarks(m, s.q, k);
    SubsequencePrefix(s.taken, Queued(m, q), Queued(m, s.q));
    SubsequenceTransitive(s.taken + Queued(m, q), s.taken + Queued(m, s.q), s.given);
  }

  lemma TakeInOrder(m: Mark, s: Served)
    requires HandedOutInOrder(m, s)
    ensures HandedOutInOrder(m, Serve(m, s, Take))
  {
    if s.q != [] {
      TakeMarks(m, s.q);
      assert s.taken + Marks(m, s.q[0].ts, s.q[0].offset) + Queued(m, Taken(s.q)) == s.taken + Queued(m, s.q);
    }
  }

  /**
   * Over any run every entry but the front one has a valid timestamp, and the valid timestamps handed out,
   * followed by those still queued, are a subsequence of those that came in: each at most once, in order. The same
   * goes for the offsets.
   */
  lemma {:induction false} TimestampsInOrder(m: Mark, ops: seq<Op>)
    ensures HandedOutInOrder(m, ServeAll(m, ops))
    ensures Subsequence(ServeAll(m, ops).taken, ServeAll(m, ops).given)
  {
    if ops != [] {
      TimestampsInOrder(m, ops[..|ops| - 1]);
      var s := ServeAll(m, ops[..|ops| - 1]);
      match ops[|ops| - 1]
      case Add(ts, offset, size) => AddInOrder(m, s, ts, offset, size);
      case Use(k) => UseInOrder(m, s, k);
      case Take => TakeInOrder(m, s);
    }
    var s := ServeAll(m, ops);
    SubsequenceFront(s.taken, Queued(m, s.q), s.given);
  }

  lemma {:induction false} SubsequenceFront(a: seq<int>, tail: seq<int>, b: seq<int>)
    requires Subsequence(a + tail, b)
    ensures Subsequence(a, b)
  {
    if a != [] {
      assert (a + tail)[1..] == a[1..] + tail;
      if (a + tail)[0] == b[0] && Subsequence((a + tail)[1..], b[1..]) {
        SubsequenceFront(a[1..], tail, b[1..]);
      } else {
        SubsequenceFront(a, tail, b[1..]);
      }
    }
  }
}

/** The ring on values: its operations, the queue it stands for, and what an empty one answers. */
module TimestampRing {
  import opened Basics
  import Q = TimestampQueue

  const SLOTS: nat := 256

  function Slot(tail: nat, i: nat): (s: nat)
    ensures s < SLOTS
  {
    (tail + i) % SLOTS
  }

  // ------------------------------------------------------------------ the ring as a value

  datatype Ring = Ring(slots: seq<Q.Entry>, head: nat, tail: nat, count: nat)

  /** The indices are in range, and the tail plus the count is one past the head. */
  ghost predicate Valid(r: Ring) {
    && |r.slots| == SLOTS && r.head < SLOTS && r.tail < SLOTS
    && Slot(r.tail, r.count) == (r.head + 1) % SLOTS
  }

  /** What memset to 0 leaves. */
  const ZEROED: Q.Entry := Q.Entry(0, 0, 0)

  /** gst_ts_handler_init. */
  function Fresh(): Ring {
    Ring(seq(SLOTS, _ => ZEROED), 0, 1, 0)
  }

  lemma SlotAfter(tail: nat, i: nat)
    ensures Slot(tail, i + 1) == (Slot(tail, i) + 1) % SLOTS
  {
  }

  lemma NextSlot(tail: nat, i: nat)
    ensures Slot(Slot(tail, 1), i) == Slot(tail, i + 1)
  {
  }

  function AddEntry(r: Ring, e: Q.Entry): (after: Ring)
    requires Valid(r)
    ensures Valid(after)
  {
    SlotAfter(r.tail, r.count);
    var ind := (r.head + 1) % SLOTS;
    Ring(r.slots[ind := e], ind, r.tail, r.count + 1)
  }

  function ExtendLast(r: Ring, size: nat): (after: Ring)
    requires Valid(r)
    ensures Valid(after)
  {
    var e := r.slots[r.head];
    r.(slots := r.slots[r.head := e.(size := e.size + size)])
  }

  function Append(r: Ring, ts: ClockTime, offset: int, size: nat): (after: Ring)
    requires Valid(r)
    ensures Valid(after)
  {
    if ts != CLOCK_TIME_NONE || r.count == 0 then AddEntry(r, Q.Entry(ts, offset, size)) else ExtendLast(r, size)
  }

  function Pop(r: Ring): (after: Ring)
    requires Valid(r) && r.count > 0
    ensures Valid(after)
  {
    NextSlot(r.tail, r.count - 1);
    Ring(r.slots[r.tail := Q.CLEARED], r.head, (r.tail + 1) % SLOTS, r.count - 1)
  }

  function Reduce(r: Ring, size: int): (after: Ring)
    requires Valid(r)
    ensures Valid(after)
  {
    var e := r.slots[r.tail];
    r.(slots := r.slots[r.tail := e.(size := e.size - size)])
  }

  /** The loop of consume; a slot that an overfull ring has lost may have size -1. */
  function Use(r: Ring, k: int): (after: Ring)
    requires Valid(r)
    ensures Valid(after) && after.count <= r.count
    decreases r.count
  {
    if k <= 0 || r.count == 0 then r
    else if k >= r.slots[r.tail].size then Use(Pop(r), k - r.slots[r.tail].size)
    else Reduce(r, k)
  }

  function Consume(r: Ring, k: int): (after: Ring)
    requires Valid(r)
    ensures Valid(after)
  {
    if k == -1 && r.count > 0 then Pop(r) else Use(r, k)
  }

  /** What get_ts leaves behind. */
  function Taken(r: Ring): (after: Ring)
    requires Valid(r)
    ensures Valid(after)
  {
    r.(slots := r.slots[r.tail := r.slots[r.tail].(ts := CLOCK_TIME_NONE, offset := -1)])
  }

  // ------------------------------------------------------------------ the queue it stands for

  /** The `count` entries from `tail` on, wrapping around. */
  function WindowOf(slots: seq<Q.Entry>, tail: nat, count: nat): (w: seq<Q.Entry>)
    requires |slots| == SLOTS
    ensures |w| == count
  {
    seq(count, i requires 0 <= i => slots[Slot(tail, i)])
  }

  /** The live entries, oldest first. */
  function Window(r: Ring): (w: seq<Q.Entry>)
    requires Valid(r)
    ensures |w| == r.count
  {
    WindowOf(r.slots, r.tail, r.count)
  }

  lemma SlotInjective(tail: nat, i: nat, j: nat)
    requires i < SLOTS && j < SLOTS && i != j
    ensures Slot(tail, i) != Slot(tail, j)
  {
  }

  lemma TailSlot(r: Ring)
    requires Valid(r)
    ensures Slot(r.tail, 0) == r.tail && (r.count > 0 ==> Slot(r.tail, r.count - 1) == r.head)
  {
    if r.count > 0 {
      SlotAfter(r.tail, r.count - 1);
      SamePlace(Slot(r.tail, r.count - 1), r.head);
    }
  }

  lemma SamePlace(a: nat, b: nat)
    requires a < SLOTS && b < SLOTS && (a + 1) % SLOTS == (b + 1) % SLOTS
    ensures a == b
  {
  }

  lemma WriteSlot(slots: seq<Q.Entry>, tail: nat, count: nat, i: nat, e: Q.Entry)
    requires |slots| == SLOTS && i < count <= SLOTS
    ensures WindowOf(slots[Slot(tail, i) := e], tail, count) == WindowOf(slots, tail, count)[i := e]
  {
    forall j: nat | j < SLOTS && j != i
      ensures Slot(tail, j) != Slot(tail, i)
    {
      SlotInjective(tail, i, j);
    }
  }

  lemma GrowWindow(slots: seq<Q.Entry>, tail: nat, count: nat, e: Q.Entry)
    requires |slots| == SLOTS && count < SLOTS
    ensures WindowOf(slots[Slot(tail, count) := e], tail, count + 1) == WindowOf(slots, tail, count) + [e]
  {
    WriteSlot(slots, tail, count + 1, count, e);
  }

  /** With all slots live the next one is the tail: what it held is gone. */
  lemma OverfullWindow(slots: seq<Q.Entry>, tail: nat, e: Q.Entry)
    requires |slots| == SLOTS && tail < SLOTS
    ensures var w, after := WindowOf(slots, tail, SLOTS), slots[Slot(tail, SLOTS) := e];
            WindowOf(after, tail, SLOTS + 1) == [e] + w[1..] + [e]
  {
    var w, after := WindowOf(slots, tail, SLOTS), slots[Slot(tail, SLOTS) := e];
    WriteSlot(slots, tail, SLOTS, 0, e);
    assert WindowOf(after, tail, SLOTS + 1) == WindowOf(after, tail, SLOTS) + [e];
  }

  lemma ShrinkWindow(slots: seq<Q.Entry>, tail: nat, count: nat)
    requires |slots| == SLOTS && 0 < count
    ensures WindowOf(slots, Slot(tail, 1), count - 1) == WindowOf(slots, tail, count)[1..]
  {
    forall i: nat
      ensures Slot(Slot(tail, 1), i) == Slot(tail, i + 1)
    {
      NextSlot(tail, i);
    }
  }

  /** The entry that an append makes takes the place of the oldest one when all slots are live. */
  lemma AddWindow(r: Ring, e: Q.Entry)
    requires Valid(r) && r.count <= SLOTS
    ensures Window(AddEntry(r, e))
         == if r.count < SLOTS then Window(r) + [e] else [e] + Window(r)[1..] + [e]
  {
    hide WindowOf;
    if r.count < SLOTS {
      GrowWindow(r.slots, r.tail, r.count, e);
    } else {
      OverfullWindow(r.slots, r.tail, e);
    }
  }

  lemma ExtendWindow(r: Ring, size: nat)
    requires Valid(r) && 0 < r.count <= SLOTS
    ensures var w, n := Window(r), r.count - 1;
            Window(ExtendLast(r, size)) == w[n := w[n].(size := w[n].size + size)]
  {
    hide Slot, WindowOf;
    TailSlot(r);
    var e := r.slots[r.head];
    HeadEntry(r);
    WriteSlot(r.slots, r.tail, r.count, r.count - 1, e.(size := e.size + size));
  }

  lemma HeadEntry(r: Ring)
    requires Valid(r) && r.count > 0
    ensures Window(r)[r.count - 1] == r.slots[r.head]
  {
    TailSlot(r);
    hide Slot;
  }

  lemma PopWindow(r: Ring)
    requires Valid(r) && 0 < r.count <= SLOTS
    ensures Window(Pop(r)) == Window(r)[1..]
  {
    hide WindowOf;
    assert Slot(r.tail, 0) == r.tail;
    WriteSlot(r.slots, r.tail, r.count, 0, Q.CLEARED);
    ShrinkWindow(Pop(r).slots, r.tail, r.count);
  }

  lemma ReduceWindow(r: Ring, size: int)
    requires Valid(r) && 0 < r.count <= SLOTS
    ensures Window(Reduce(r, size)) == [Window(r)[0].(size := Window(r)[0].size - size)] + Window(r)[1..]
  {
    assert Slot(r.tail, 0) == r.tail;
    var e := r.slots[r.tail];
    WriteSlot(r.slots, r.tail, r.count, 0, e.(size := e.size - size));
  }

  /**
   * Appending refines the queue's append exactly as long as a slot is free, or none is needed, or the oldest entry,
   * whose slot is taken, equals the new one.
   */
  lemma AppendRefinesIff(r: Ring, ts: ClockTime, offset: int, size: nat)
    requires Valid(r) && r.count <= SLOTS
    ensures Window(Append(r, ts, offset, size)) == Q.Append(Window(r), ts, offset, size)
            <==> r.count < SLOTS || !Q.Valid(ts) || Window(r)[0] == Q.Entry(ts, offset, size)
  {
    hide WindowOf;
    var w, e := Window(r), Q.Entry(ts, offset, size);
    if ts != CLOCK_TIME_NONE || r.count == 0 {
      AddWindow(r, e);
      if r.count == SLOTS {
        LostFront(w, e);
      }
    } else {
      ExtendWindow(r, size);
    }
  }

  lemma LostFront(w: seq<Q.Entry>, e: Q.Entry)
    requires w != []
    ensures [e] + w[1..] + [e] == w + [e] <==> w[0] == e
  {
    assert ([e] + w[1..] + [e])[0] == e && (w + [e])[0] == w[0];
    assert w == [w[0]] + w[1..];
  }

  lemma {:induction false} UseRefines(r: Ring, k: int)
    requires Valid(r) && r.count <= SLOTS && Q.Sized(Window(r))
    ensures Window(Use(r, k)) == Q.Consume(Window(r), k)
    decreases r.count
  {
    hide WindowOf;
    if k > 0 && r.count > 0 {
      assert Window(r)[0] == r.slots[r.tail] by {
        FrontSlot(r);
      }
      if k >= r.slots[r.tail].size {
        PopWindow(r);
        UseRefines(Pop(r), k - r.slots[r.tail].size);
      } else {
        ReduceWindow(r, k);
      }
    }
  }

  lemma FrontSlot(r: Ring)
    requires Valid(r) && r.count > 0
    ensures Window(r)[0] == r.slots[r.tail]
  {
    assert Slot(r.tail, 0) == r.tail;
  }

  /** While at most 256 entries are live, consuming refines the queue's. */
  lemma ConsumeRefines(r: Ring, k: int)
    requires Valid(r) && r.count <= SLOTS && Q.Sized(Window(r))
    ensures Window(Consume(r, k)) == Q.ConsumeOrDrop(Window(r), k)
  {
    hide WindowOf;
    if k == -1 && r.count > 0 {
      PopWindow(r);
    } else {
      UseRefines(r, k);
    }
  }

  /** And so does reading a timestamp. */
  lemma TakeRefines(r: Ring)
    requires Valid(r) && 0 < r.count <= SLOTS
    ensures Window(r)[0] == r.slots[r.tail] && Window(Taken(r)) == Q.Taken(Window(r))
  {
    FrontSlot(r);
    assert Slot(r.tail, 0) == r.tail;
    WriteSlot(r.slots, r.tail, r.count, 0, r.slots[r.tail].(ts := CLOCK_TIME_NONE, offset := -1));
  }

  // ------------------------------------------------------------------ the empty ring

  datatype Op = Push(ts: ClockTime, offset: int, size: nat) | Drop(k: int) | Take

  /**
   * A ring with its history: the entries ever added and ever dropped, and whether a timestamp has been read from the
   * empty ring since it last became empty or was initialised.
   */
  datatype History = History(r: Ring, added: nat, dropped: int, read: bool)

  function Step(h: History, op: Op): (after: History)
    requires Valid(h.r)
    ensures Valid(after.r)
  {
    match op
    case Push(ts, offset, size) =>
      var r := Append(h.r, ts, offset, size);
      History(r, h.added + (r.count - h.r.count), h.dropped, false)
    case Drop(k) =>
      var r := Consume(h.r, k);
      History(r, h.added, h.dropped + (h.r.count - r.count), h.read)
    case Take => History(Taken(h.r), h.added, h.dropped, h.read || h.r.count == 0)
  }

  /** The ring after a run from its initialisation. */
  function Run(ops: seq<Op>): (h: History)
    ensures Valid(h.r)
  {
    if ops == [] then History(Fresh(), 0, 0, false)
    else Step(Run(ops[..|ops| - 1]), ops[|ops| - 1])
  }

  /** What a slot outside the window holds for a time: 0 if it was never written nor read, otherwise "unknown". */
  ghost predicate Outside(r: Ring, dropped: int, read: bool) {
    forall i: nat :: r.count <= i < SLOTS ==>
      |r.slots| == SLOTS
      && r.slots[Slot(r.tail, i)].ts == if dropped + i >= SLOTS || (i == 0 && read) then CLOCK_TIME_NONE else 0
  }

  ghost predicate Inv(h: History) {
    && Valid(h.r) && h.dropped >= 0 && h.dropped + h.r.count == h.added
    && (h.read ==> h.r.count == 0)
    && Outside(h.r, h.dropped, h.read)
  }

  lemma OutsideWrite(r: Ring, dropped: int, read: bool, i: nat, e: Q.Entry)
    requires Valid(r) && i < r.count && Outside(r, dropped, read)
    ensures Outside(r.(slots := r.slots[Slot(r.tail, i) := e]), dropped, read)
  {
    forall j: nat | r.count <= j < SLOTS
      ensures Slot(r.tail, j) != Slot(r.tail, i)
    {
      SlotInjective(r.tail, i, j);
    }
  }

  lemma OutsideAdd(r: Ring, dropped: int, read: bool, e: Q.Entry)
    requires Valid(r) && Outside(r, dropped, read)
    ensures Outside(AddEntry(r, e), dropped, false)
  {
    var after := AddEntry(r, e);
    forall j: nat | after.count <= j < SLOTS
      ensures Slot(r.tail, j) != Slot(r.tail, r.count)
    {
      SlotInjective(r.tail, r.count, j);
    }
  }

  /** Where a slot is found after the tail has moved on. */
  lemma PopSlot(r: Ring, i: nat)
    requires Valid(r) && r.count > 0 && i < SLOTS
    ensures Pop(r).slots[Slot(Pop(r).tail, i)]
         == if i == SLOTS - 1 then Q.CLEARED else r.slots[Slot(r.tail, i + 1)]
  {
    NextSlot(r.tail, i);
    TailSlot(r);
    if i == SLOTS - 1 {
      FullCircle(r.tail);
    } else {
      SlotInjective(r.tail, 0, i + 1);
    }
  }

  lemma FullCircle(tail: nat)
    requires tail < SLOTS
    ensures Slot(tail, SLOTS) == tail
  {
  }

  lemma OutsidePop(r: Ring, dropped: int)
    requires Valid(r) && r.count > 0 && dropped >= 0 && Outside(r, dropped, false)
    ensures Outside(Pop(r), dropped + 1, false)
  {
    hide Slot;
    var after := Pop(r);
    forall i: nat | after.count <= i < SLOTS
      ensures after.slots[Slot(after.tail, i)].ts == if dropped + 1 + i >= SLOTS then CLOCK_TIME_NONE else 0
    {
      PopSlot(r, i);
    }
  }

  lemma InvPop(h: History)
    requires Inv(h) && h.r.count > 0
    ensures Inv(History(Pop(h.r), h.added, h.dropped + 1, h.read))
  {
    hide Outside;
    OutsidePop(h.r, h.dropped);
  }

  /** A live slot may change as it likes. */
  lemma InvWrite(h: History, i: nat, e: Q.Entry)
    requires Inv(h) && i < h.r.count
    ensures Inv(h.(r := h.r.(slots := h.r.slots[Slot(h.r.tail, i) := e])))
  {
    hide Outside;
    OutsideWrite(h.r, h.dropped, false, i, e);
  }

  lemma {:induction false} InvUse(h: History, k: int)
    requires Inv(h)
    ensures var r := Use(h.r, k);
            Inv(History(r, h.added, h.dropped + (h.r.count - r.count), h.read))
    decreases h.r.count
  {
    hide Outside;
    var r := h.r;
    if k > 0 && r.count > 0 {
      if k >= r.slots[r.tail].size {
        InvPop(h);
        InvUse(History(Pop(r), h.added, h.dropped + 1, h.read), k - r.slots[r.tail].size);
      } else {
        TailSlot(r);
        InvWrite(h, 0, r.slots[r.tail].(size := r.slots[r.tail].size - k));
      }
    }
  }

  lemma InvPush(h: History, ts: ClockTime, offset: int, size: nat)
    requires Inv(h)
    ensures Inv(Step(h, Push(ts, offset, size)))
  {
    hide Outside;
    var r := h.r;
    if ts != CLOCK_TIME_NONE || r.count == 0 {
      OutsideAdd(r, h.dropped, h.read, Q.Entry(ts, offset, size));
    } else {
      TailSlot(r);
      InvWrite(h, r.count - 1, r.slots[r.head].(size := r.slots[r.head].size + size));
    }
  }

  lemma InvTake(h: History)
    requires Inv(h)
    ensures Inv(Step(h, Take))
  {
    hide Outside;
    var e := h.r.slots[h.r.tail].(ts := CLOCK_TIME_NONE, offset := -1);
    TailSlot(h.r);
    if h.r.count > 0 {
      InvWrite(h, 0, e);
    } else {
      OutsideTaken(h.r, h.dropped, h.read);
    }
  }

  lemma OutsideTaken(r: Ring, dropped: int, read: bool)
    requires Valid(r) && r.count == 0 && Outside(r, dropped, read)
    ensures Outside(Taken(r), dropped, true)
  {
    TailSlot(r);
    forall i: nat | 0 < i < SLOTS
      ensures Slot(r.tail, i) != r.tail
    {
      SlotInjective(r.tail, 0, i);
    }
  }

  lemma InvStep(h: History, op: Op)
    requires Inv(h)
    ensures Inv(Step(h, op))
  {
    hide Inv, Outside;
    match op
    case Push(ts, offset, size) => InvPush(h, ts, offset, size);
    case Drop(k) =>
      if k == -1 && h.r.count > 0 {
        InvPop(h);
      } else {
        InvUse(h, k);
      }
    case Take => InvTake(h);
  }

  lemma {:induction false} InvRun(ops: seq<Op>)
    ensures Inv(Run(ops))
  {
    if ops == [] {
    } else {
      hide Inv, Step;
      InvRun(ops[..|ops| - 1]);
      InvStep(Run(ops[..|ops| - 1]), ops[|ops| - 1]);
    }
  }

  /**
   * After any run that leaves the ring empty, reading a timestamp yields time 0 exactly when fewer than 256 entries
   * were ever added and none was read since the ring last became empty; otherwise it yields "unknown".
   */
  lemma EmptyRingAnswer(ops: seq<Op>)
    requires Run(ops).r.count == 0
    ensures var h := Run(ops);
            h.r.slots[h.r.tail].ts == if h.added < SLOTS && !h.read then 0 else CLOCK_TIME_NONE
  {
    hide Run;
    InvRun(ops);
    EmptyAnswer(Run(ops));
  }

  lemma EmptyAnswer(h: History)
    requires Inv(h) && h.r.count == 0
    ensures h.r.slots[h.r.tail].ts == if h.added < SLOTS && !h.read then 0 else CLOCK_TIME_NONE
  {
    TailSlot(h.r);
    hide Slot;
    assert Slot(h.r.tail, 0) == h.r.tail;
  }
}

/** The handler as the decoder keeps it: a fixed array with head and tail indices and a count. */
module TimestampHandler {
  import opened Basics
  import Q = TimestampQueue
  import R = TimestampRing

  class TsHandler {
    const buffers: array<Q.Entry>
    var head: nat
    var tail: nat
    var count: nat

    ghost predicate Valid()
      reads this, buffers
    {
      R.Valid(Now())
    }

    ghost function Now(): R.Ring
      reads this, buffers
    {
      R.Ring(buffers[..], head, tail, count)
    }

    /** The live entries, oldest first. */
    ghost function Window(): (w: seq<Q.Entry>)
      requires Valid()
      reads this, buffers
    {
      R.Window(Now())
    }

    constructor ()
      ensures Valid() && fresh(buffers) && Now() == R.Fresh() && Window() == []
    {
      buffers := new Q.Entry[R.SLOTS](_ => R.ZEROED);
      head, tail, count := 0, 1, 0;
      new;
      assert buffers[..] == R.Fresh().slots;
    }

    method Append(ts: ClockTime, offset: int, size: nat)
      requires Valid()
      modifies this, buffers
      ensures Valid() && Now() == R.Append(old(Now()), ts, offset, size)
      ensures old(count) < R.SLOTS || (old(count) == R.SLOTS && !Q.Valid(ts)) ==>
                Window() == Q.Append(old(Window()), ts, offset, size)
      // A full ring: the new entry also takes the place of the oldest one.
      ensures old(count) == R.SLOTS && Q.Valid(ts) ==>
                Window() == [Q.Entry(ts, offset, size)] + old(Window())[1..] + [Q.Entry(ts, offset, size)]
    {
      hide R.WindowOf, R.Slot;
      ghost var r := Now();
      if r.count <= R.SLOTS {
        R.AppendRefinesIff(r, ts, offset, size);
        R.AddWindow(r, Q.Entry(ts, offset, size));
      }
      var ind := head;
      if ts != CLOCK_TIME_NONE || count == 0 {
        ind := (ind + 1) % R.SLOTS;
        buffers[ind] := Q.Entry(ts, offset, size);
        head := ind;
        count := count + 1;
      } else {
        buffers[ind] := buffers[ind].(size := buffers[ind].size + size);
      }
      assert Now() == R.Append(r, ts, offset, size);
    }

    method Consume(k: int)
      requires Valid()
      modifies this, buffers
      ensures Valid() && Now() == R.Consume(old(Now()), k)
      ensures old(count) <= R.SLOTS && old(Q.Sized(Window())) ==> Window() == Q.ConsumeOrDrop(old(Window()), k)
    {
      ghost var r := Now();
      if r.count <= R.SLOTS && Q.Sized(R.Window(r)) {
        R.ConsumeRefines(r, k);
      }
      var size := k;
      while size > 0 && count > 0
        invariant Valid() && count <= r.count
        invariant R.Use(Now(), size) == R.Use(r, k)
        invariant k > 0 ==> size >= 0
        invariant k <= 0 ==> size == k && Now() == r
        decreases count, if size > 0 then size else 0
      {
        size := ConsumeStep(size);
      }
      if size == -1 && count > 0 {
        PopTail();
      }
    }

    /** One round of the loop: uses up the entry at the tail, or part of it. */
    method ConsumeStep(size: int) returns (left: int)
      requires Valid() && size > 0 && count > 0
      modifies this, buffers
      ensures Valid() && left >= 0
      ensures (count < old(count) || (count == old(count) && left == 0))
      ensures R.Use(Now(), left) == R.Use(old(Now()), size)
    {
      if size >= buffers[tail].size {
        left := size - buffers[tail].size;
        PopTail();
      } else {
        buffers[tail] := buffers[tail].(size := buffers[tail].size - size);
        left := 0;
      }
    }

    /** Drops the entry at the tail. */
    method PopTail()
      requires Valid() && count > 0
      modifies this, buffers
      ensures Valid() && Now() == R.Pop(old(Now()))
      ensures old(count) <= R.SLOTS ==> Window() == old(Window())[1..]
    {
      hide R.WindowOf, R.Slot;
      ghost var r := Now();
      if r.count <= R.SLOTS {
        R.PopWindow(r);
      }
      buffers[tail] := Q.CLEARED;
      tail := (tail + 1) % R.SLOTS;
      count := count - 1;
      assert Now() == R.Pop(r);
    }

    method GetTs() returns (ts: ClockTime, offset: int)
      requires Valid()
      modifies buffers
      ensures Valid() && Now() == R.Taken(old(Now()))
      ensures (ts, offset) == (old(buffers[tail].ts), old(buffers[tail].offset))
      ensures 0 < count <= R.SLOTS ==>
                ts == old(Window())[0].ts && offset == old(Window())[0].offset && Window() == Q.Taken(old(Window()))
    {
      ghost var r := Now();
      if 0 < r.count <= R.SLOTS {
        R.TakeRefines(r);
      }
      ts, offset := buffers[tail].ts, buffers[tail].offset;
      buffers[tail] := buffers[tail].(ts := CLOCK_TIME_NONE, offset := -1);
    }
  }

  /**
   * Reading from an empty ring yields time 0, not "unknown", once for a fresh ring, and again after an entry came and
   * went.
   */
  method EmptyRingYieldsZero() returns (first: ClockTime, second: ClockTime, third: ClockTime)
    ensures first == 0 && second == CLOCK_TIME_NONE && third == 0
  {
    var h := new TsHandler();
    var offset: int;
    first, offset := h.GetTs();
    second, offset := h.GetTs();
    h.Append(5, 0, 1);
    ghost var r := h.Now();
    h.Consume(1);
    assert R.Use(r, 1) == R.Use(R.Pop(r), 0) == R.Pop(r);
    third, offset := h.GetTs();
  }
}
