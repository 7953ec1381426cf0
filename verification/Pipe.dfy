/**
 * The byte pipe between the upstream streaming thread and the demuxer task.
 *
 * The two threads share one mutex and one condition variable. Between taking
 * the lock (or coming back from a wait) and the next wait or unlock a thread runs
 * without interference, so each such critical section is one step here. A thread in
 * the wait set is `...Wait`; one that was taken out of it but does not hold
 * the lock again yet is `...Woken`.
 */
module PipeProtocol {
  import opened Basics

  /** Where the demuxer task is with respect to the pipe. */
  datatype Reader =
    | Off                    // never started, or cleaned up on the way to READY
    | Running                // the task runs, outside pipe_read
    | ReadWait(size: nat)    // in the wait set of a read of `size` bytes
    | ReadWoken(size: nat)
    | Paused                 // the task paused itself
    | Joined                 // the task ended after de-activation

  /** Where the streaming thread is; it waits in chain or on a serialized event. */
  datatype Producer = Outside | ChainWait | ChainWoken | EventWait | EventWoken

  /**
   * The shared fields, the position of both threads, and two records of the past:
   * the bytes accepted by chain and the bytes handed to readers since the last flush.
   */
  datatype Pipe = Pipe(
    adapter: seq<byte>, needed: nat, eos: bool, srcresult: Flow, active: bool,
    reader: Reader, producer: Producer,
    pushed: seq<byte>, delivered: seq<byte>)

  datatype Action =
    | Read(size: nat) | ReadResume
    | Chain(buffer: seq<byte>) | ChainResume
    | SerializedEvent | EventResume
    | Eos | FlushStart | FlushStop
    | PauseTask(ret: Flow)
    | Activate | Deactivate | JoinTask | ToReady
    | SpuriousWakeup

  /** Which waiters the condition variable lets go. */
  datatype Wake = WakeNone | WakeReader | WakeProducer | WakeBoth

  datatype Step = Step(act: Action, wake: Wake)

  const INITIAL: Pipe := Pipe([], 0, false, FlowOk, false, Off, Outside, [], [])

  predicate ReaderWaits(s: Pipe) {
    s.reader.ReadWait?
  }

  predicate ProducerWaits(s: Pipe) {
    s.producer.ChainWait? || s.producer.EventWait?
  }

  function WakeUp(s: Pipe, w: Wake): Pipe {
    var r := if (w == WakeReader || w == WakeBoth) && s.reader.ReadWait? then ReadWoken(s.reader.size) else s.reader;
    var p := if w == WakeProducer || w == WakeBoth then
               (match s.producer
                case ChainWait => ChainWoken
                case EventWait => EventWoken
                case _ => s.producer)
             else s.producer;
    s.(reader := r, producer := p)
  }

  /** A wake-up only concerns threads that are in the wait set. */
  predicate WakesWaiters(s: Pipe, w: Wake) {
    match w
    case WakeNone => true
    case WakeReader => ReaderWaits(s)
    case WakeProducer => ProducerWaits(s)
    case WakeBoth => ReaderWaits(s) && ProducerWaits(s)
  }

  /** g_cond_signal lets at least one waiter go when there is one. */
  predicate SignalAllows(s: Pipe, w: Wake) {
    WakesWaiters(s, w) && (w == WakeNone ==> !ReaderWaits(s) && !ProducerWaits(s))
  }

  /** The guard of the loop in pipe_read. */
  predicate ReadBlocks(s: Pipe, size: nat) {
    |s.adapter| < size && !s.eos
  }

  predicate ChainRefuses(s: Pipe) {
    s.eos || s.srcresult != FlowOk
  }

  function ReadSection(s: Pipe, size: nat, w: Wake): Pipe {
    if ReadBlocks(s, size) then
      WakeUp(s.(needed := size), w).(reader := ReadWait(size))
    else
      var n := Min(|s.adapter|, size);
      s.(reader := Running, adapter := s.adapter[n..],
         needed := if n > 0 then 0 else s.needed,
         delivered := s.delivered + s.adapter[..n])
  }

  function ChainLoop(s: Pipe, w: Wake): Pipe {
    if |s.adapter| >= s.needed then WakeUp(s, w).(producer := ChainWait) else s.(producer := Outside)
  }

  function Pushed(s: Pipe, buffer: seq<byte>): Pipe {
    s.(adapter := s.adapter + buffer, pushed := s.pushed + buffer)
  }

  function EventLoop(s: Pipe): Pipe {
    s.(producer := if s.needed == 0 then EventWait else Outside)
  }

  /** Whether the critical section signals the condition variable. */
  predicate Signals(s: Pipe, a: Action) {
    match a
    case Read(size) => ReadBlocks(s, size)
    case ReadResume => s.reader.ReadWoken? && ReadBlocks(s, s.reader.size)
    case Chain(buffer) => !ChainRefuses(s) && |s.adapter| + |buffer| >= s.needed
    case ChainResume => s.srcresult == FlowOk && |s.adapter| >= s.needed
    case Eos | FlushStart | Deactivate => true
    case _ => false
  }

  /**
   * When a step may happen. Upstream holds the stream lock of the sink pad around chain,
   * serialized events (EOS is one) and FLUSH_STOP; FLUSH_START and de-activation come from
   * any thread. The task is joined only after de-activation, and the adapter is
   * cleared on PAUSED->READY after that.
   */
  predicate Guard(s: Pipe, a: Action) {
    match a
    case Read(_) => s.reader.Running?
    case ReadResume => s.reader.ReadWoken?
    case Chain(_) | SerializedEvent | Eos => s.producer.Outside? && !s.reader.Off?
    case ChainResume => s.producer.ChainWoken?
    case EventResume => s.producer.EventWoken?
    case FlushStart => s.active
    case FlushStop => s.active && s.producer.Outside?
    case PauseTask(ret) => s.reader.Running? && ret != FlowOk
    case Activate => s.reader.Off? && s.producer.Outside?
    case Deactivate => s.active
    case JoinTask => !s.active && (s.reader.Running? || s.reader.Paused?)
    case ToReady => s.reader.Joined? && s.producer.Outside?
    case SpuriousWakeup => true
  }

  predicate Enabled(s: Pipe, st: Step) {
    && Guard(s, st.act)
    && (if Signals(s, st.act) then SignalAllows(s, st.wake)
        else if st.act.SpuriousWakeup? then WakesWaiters(s, st.wake)
        else st.wake == WakeNone)
  }

  function Apply(s: Pipe, st: Step): Pipe
    requires Enabled(s, st)
  {
    var w := st.wake;
    match st.act
    case Read(size) => ReadSection(s, size, w)
    case ReadResume => ReadSection(s, s.reader.size, w)
    case Chain(buffer) => if ChainRefuses(s) then s else ChainLoop(Pushed(s, buffer), w)
    case ChainResume => if s.srcresult != FlowOk then s.(producer := Outside) else ChainLoop(s, w)
    case SerializedEvent => EventLoop(s)
    case EventResume => EventLoop(s)
    case Eos => WakeUp(s.(eos := true), w)
    case FlushStart => WakeUp(s.(srcresult := FlowWrongState), w)
    case FlushStop =>
      s.(adapter := [], srcresult := FlowOk, pushed := [], delivered := [],
         reader := if s.reader.Paused? then Running else s.reader)
    case PauseTask(ret) => s.(srcresult := ret, reader := Paused)
    case Activate => s.(eos := false, srcresult := FlowOk, needed := 0, active := true, reader := Running)
    case Deactivate => WakeUp(s.(srcresult := FlowWrongState, eos := true, active := false), w)
    case JoinTask => s.(reader := Joined)
    case ToReady => s.(reader := Off, adapter := [], pushed := [], delivered := [])
    case SpuriousWakeup => WakeUp(s, w)
  }

  /** A run: each state follows from the one before by an enabled step. */
  ghost predicate Execution(tr: seq<Pipe>, steps: seq<Step>) {
    && |tr| == |steps| + 1
    && forall i :: 0 <= i < |steps| ==> Enabled(tr[i], steps[i]) && tr[i + 1] == Apply(tr[i], steps[i])
  }

  /** A run can be continued by an enabled step. */
  lemma RunMore(tr: seq<Pipe>, steps: seq<Step>, st: Step) returns (tr': seq<Pipe>, steps': seq<Step>)
    requires Execution(tr, steps) && Enabled(tr[|tr| - 1], st)
    ensures Execution(tr', steps') && tr' == tr + [Apply(tr[|tr| - 1], st)] && steps' == steps + [st]
  {
    hide Apply, Enabled;
    tr', steps' := tr + [Apply(tr[|tr| - 1], st)], steps + [st];
  }

  lemma RunStep(tr: seq<Pipe>, steps: seq<Step>, i: nat)
    requires Execution(tr, steps) && (i + 1 < |tr| || i < |steps|)
    ensures |tr| == |steps| + 1 && Enabled(tr[i], steps[i]) && tr[i + 1] == Apply(tr[i], steps[i])
  {
  }

  // ---------------------------------------------------------------- invariant

  /** What holds of the state whichever thread ran last. */
  ghost predicate Inv(s: Pipe) {
    && (s.reader.ReadWait? ==> |s.adapter| < s.reader.size && !s.eos)
    && (s.reader.ReadWait? || s.reader.ReadWoken? ==> s.needed == s.reader.size > 0)
    && (!s.reader.ReadWait? && !s.reader.ReadWoken? ==> s.needed == 0 || s.eos)
    && (s.producer.ChainWait? ==> |s.adapter| >= s.needed && !s.eos)
    && (s.producer.ChainWait? && s.srcresult != FlowOk ==> s.reader.Paused?)
    && (s.producer.EventWait? ==> s.needed == 0)
    && (s.producer.ChainWoken? && s.eos ==> s.srcresult != FlowOk)
    && (s.reader.Joined? || s.reader.Off? ==> !s.active)
    && (s.reader.Off? ==> s.adapter == [] && s.producer.Outside?)
    && (!s.active && !s.reader.Off? ==> s.eos && s.srcresult != FlowOk)
    && (s.reader.Paused? ==> s.srcresult != FlowOk)
    && s.pushed == s.delivered + s.adapter
  }

  lemma TakeThenDrop(a: seq<byte>, b: seq<byte>, n: nat)
    requires n <= |b|
    ensures (a + b[..n]) + b[n..] == a + b
  {
  }

  lemma InvReadTakes(s: Pipe, size: nat)
    requires Inv(s) && (s.reader.Running? || s.reader == ReadWoken(size)) && !ReadBlocks(s, size)
    ensures Inv(ReadSection(s, size, WakeNone))
  {
    TakeThenDrop(s.delivered, s.adapter, Min(|s.adapter|, size));
  }

  lemma InvReadWaits(s: Pipe, size: nat, w: Wake)
    requires Inv(s) && (s.reader.Running? || s.reader == ReadWoken(size)) && ReadBlocks(s, size)
    requires SignalAllows(s, w)
    ensures Inv(ReadSection(s, size, w))
  {
  }

  lemma InvChain(s: Pipe, w: Wake)
    requires Inv(s) && (s.producer.Outside? || s.producer.ChainWoken?)
    requires s.srcresult == FlowOk && !s.eos && !s.reader.Off?
    requires |s.adapter| >= s.needed ==> SignalAllows(s, w)
    ensures Inv(ChainLoop(s, w))
  {
  }

  lemma InvPush(s: Pipe, buffer: seq<byte>, w: Wake)
    requires Inv(s) && s.producer.Outside? && !ChainRefuses(s) && !s.reader.Off?
    requires |s.adapter| + |buffer| >= s.needed ==> SignalAllows(s, w)
    ensures Inv(ChainLoop(Pushed(s, buffer), w))
  {
    assert s.delivered + (s.adapter + buffer) == s.pushed + buffer;
  }

  lemma InvWake(s: Pipe, w: Wake)
    requires Inv(s) && WakesWaiters(s, w)
    ensures Inv(WakeUp(s, w))
  {
  }

  /** Events, activation and the end of the task. */
  lemma InvControl(s: Pipe, st: Step)
    requires Inv(s) && Enabled(s, st)
    requires !st.act.Read? && !st.act.ReadResume? && !st.act.Chain? && !st.act.ChainResume? && !st.act.SpuriousWakeup?
    ensures Inv(Apply(s, st))
  {
  }

  lemma InvStep(s: Pipe, st: Step)
    requires Inv(s) && Enabled(s, st)
    ensures Inv(Apply(s, st))
  {
    match st.act
    case Read(size) => InvRead(s, size, st);
    case ReadResume => InvRead(s, s.reader.size, st);
    case Chain(buffer) => if !ChainRefuses(s) { InvPush(s, buffer, st.wake); }
    case ChainResume => if s.srcresult == FlowOk { InvChain(s, st.wake); }
    case SpuriousWakeup => InvWake(s, st.wake);
    case _ => InvControl(s, st);
  }

  lemma InvRead(s: Pipe, size: nat, st: Step)
    requires Inv(s) && Enabled(s, st)
    requires st.act == Read(size) || (st.act.ReadResume? && s.reader == ReadWoken(size))
    ensures Inv(ReadSection(s, size, st.wake))
  {
    hide Inv, WakeUp, SignalAllows;
    if ReadBlocks(s, size) {
      InvReadWaits(s, size, st.wake);
    } else {
      InvReadTakes(s, size);
    }
  }

  /** The invariant holds along every run that starts in a state where it holds. */
  lemma {:induction false} InvAlongRun(tr: seq<Pipe>, steps: seq<Step>, i: nat)
    requires Execution(tr, steps) && Inv(tr[0]) && i < |tr|
    ensures Inv(tr[i])
  {
    hide *;
    if i > 0 {
      RunStep(tr, steps, i - 1);
      InvAlongRun(tr, steps, i - 1);
      InvStep(tr[i - 1], steps[i - 1]);
    }
  }

  /** The states of the runs that start from the initialised element. */
  ghost predicate Reachable(s: Pipe) {
    exists tr, steps :: Execution(tr, steps) && tr[0] == INITIAL && tr[|tr| - 1] == s
  }

  lemma ReachableInv(s: Pipe)
    requires Reachable(s)
    ensures Inv(s)
  {
    var tr, steps :| Execution(tr, steps) && tr[0] == INITIAL && tr[|tr| - 1] == s;
    InvAlongRun(tr, steps, |tr| - 1);
  }

  // ------------------------------------------------------------ main theorems

  /**
   * One signal is always enough: at most one thread is in the wait set, so whichever waiter
   * g_cond_signal picks is the one the signal was meant for.
   */
  lemma OneSignalIsEnough(s: Pipe)
    requires Reachable(s)
    ensures !(ReaderWaits(s) && ProducerWaits(s))
    ensures ReaderWaits(s) ==> |s.adapter| < s.needed == s.reader.size && !s.eos
    ensures s.producer.ChainWait? ==> |s.adapter| >= s.needed
    ensures s.producer.EventWait? ==> s.needed == 0
  {
    ReachableInv(s);
  }

  /**
   * Nothing is lost, duplicated or reordered: what readers got since the last flush, followed by what
   * is queued, is what chain accepted since that flush.
   */
  lemma BytesConserved(s: Pipe)
    requires Reachable(s)
    ensures s.delivered + s.adapter == s.pushed
  {
    ReachableInv(s);
  }

  /** The streaming thread waits, and no thread is left that could signal it. */
  predicate Stranded(s: Pipe) {
    ProducerWaits(s) && (s.reader.ReadWait? || s.reader.Paused? || s.reader.Joined? || s.reader.Off?)
  }

  /**
   * The streaming thread is stranded in exactly two kinds of reachable state: the task paused itself
   * without signalling, or the pad was shut down while a serialized event waited.
   */
  lemma StrandedCharacterised(s: Pipe)
    requires Reachable(s)
    ensures Stranded(s) <==>
            ProducerWaits(s) && (s.reader.Paused? || (s.producer.EventWait? && s.reader.Joined? && !s.active))
  {
    ReachableInv(s);
  }

  ghost predicate InEvent(s: Pipe) {
    s.producer.EventWait? || s.producer.EventWoken?
  }

  /**
   * The steps that leave the streaming thread waiting with nobody to signal it: the task pauses itself while that
   * thread waits; a serialized event finds no request for bytes after the task paused or ended; the task ends while
   * an event waits.
   */
  predicate Strands(s: Pipe, st: Step) {
    match st.act
    case PauseTask(_) => ProducerWaits(s)
    case SerializedEvent | EventResume => s.needed == 0 && (s.reader.Paused? || s.reader.Joined?)
    case JoinTask => s.producer.EventWait?
    case _ => false
  }

  lemma InitialState()
    ensures Inv(INITIAL) && !Stranded(INITIAL) && !EventIsLost(INITIAL)
  {
  }

  lemma StrandsStep(s: Pipe, st: Step)
    requires Inv(s) && Enabled(s, st)
    ensures Strands(s, st) ==> Stranded(Apply(s, st))
    ensures !Strands(s, st) && !Stranded(s) ==> !Stranded(Apply(s, st))
  {
  }

  /** A run never strands the streaming thread exactly when none of its steps is one of those. */
  lemma {:induction false} NeverStrandedIff(tr: seq<Pipe>, steps: seq<Step>)
    requires Execution(tr, steps) && tr[0] == INITIAL
    ensures (forall i :: 0 <= i < |tr| ==> !Stranded(tr[i]))
            <==> (forall k :: 0 <= k < |steps| ==> !Strands(tr[k], steps[k]))
  {
    if k :| 0 <= k < |steps| && Strands(tr[k], steps[k]) {
      hide Apply, Enabled, Inv;
      InitialState();
      InvAlongRun(tr, steps, k);
      RunStep(tr, steps, k);
      StrandsStep(tr[k], steps[k]);
      assert Stranded(tr[k + 1]);
    } else {
      forall i | 0 <= i < |tr| ensures !Stranded(tr[i]) {
        NotYetStranded(tr, steps, i);
      }
    }
  }

  lemma {:induction false} NotYetStranded(tr: seq<Pipe>, steps: seq<Step>, i: nat)
    requires Execution(tr, steps) && tr[0] == INITIAL && i < |tr|
    requires forall k :: 0 <= k < i ==> !Strands(tr[k], steps[k])
    ensures !Stranded(tr[i])
  {
    hide *;
    InitialState();
    if i > 0 {
      NotYetStranded(tr, steps, i - 1);
      InvAlongRun(tr, steps, i - 1);
      RunStep(tr, steps, i - 1);
      StrandsStep(tr[i - 1], steps[i - 1]);
    }
  }

  /** The pause step does strand the streaming thread: it sets srcresult and signals no one. */
  lemma PauseStrandsChain() returns (tr: seq<Pipe>, steps: seq<Step>)
    ensures Execution(tr, steps) && tr[0] == INITIAL
    ensures |steps| > 0 && steps[|steps| - 1].act.PauseTask?
    ensures var s := tr[|tr| - 1]; s.producer.ChainWait? && s.srcresult != FlowOk && Stranded(s)
  {
    var running := INITIAL.(active := true, reader := Running);
    var waiting := running.(producer := ChainWait, adapter := [7], pushed := [7]);
    tr, steps := [INITIAL], [];
    tr, steps := RunMore(tr, steps, Step(Activate, WakeNone));
    assert tr[1] == running;
    tr, steps := RunMore(tr, steps, Step(Chain([7]), WakeNone));
    assert tr[2] == waiting;
    tr, steps := RunMore(tr, steps, Step(PauseTask(FlowError), WakeNone));
  }

  /** A pause can also catch an event that is not waiting yet: it comes later, and waits. */
  lemma PauseStrandsLaterEvent() returns (tr: seq<Pipe>, steps: seq<Step>)
    ensures Execution(tr, steps) && tr[0] == INITIAL
    ensures exists k :: 0 <= k < |steps| && steps[k].act.PauseTask? && tr[k].producer.Outside?
    ensures var s := tr[|tr| - 1]; s.producer.EventWait? && Stranded(s) && s.active
  {
    var running := INITIAL.(active := true, reader := Running);
    tr, steps := [INITIAL], [];
    tr, steps := RunMore(tr, steps, Step(Activate, WakeNone));
    assert tr[1] == running;
    tr, steps := RunMore(tr, steps, Step(PauseTask(FlowError), WakeNone));
    assert tr[2] == running.(srcresult := FlowError, reader := Paused);
    tr, steps := RunMore(tr, steps, Step(SerializedEvent, WakeNone));
    assert steps[1].act.PauseTask?;
  }

  /** Shut-down does not release a serialized event: it is signalled, finds `needed` still 0, and waits again. */
  lemma ShutdownStrandsEvent() returns (tr: seq<Pipe>, steps: seq<Step>)
    ensures Execution(tr, steps) && tr[0] == INITIAL
    ensures exists k :: 0 <= k < |steps| && steps[k].act.Deactivate?
    ensures var s := tr[|tr| - 1]; s.producer.EventWait? && Stranded(s) && !s.active
  {
    var running := INITIAL.(active := true, reader := Running);
    var closed := running.(active := false, eos := true, srcresult := FlowWrongState);
    tr, steps := [INITIAL], [];
    tr, steps := RunMore(tr, steps, Step(Activate, WakeNone));
    assert tr[1] == running;
    tr, steps := RunMore(tr, steps, Step(SerializedEvent, WakeNone));
    assert tr[2] == running.(producer := EventWait);
    tr, steps := RunMore(tr, steps, Step(Deactivate, WakeProducer));
    assert tr[3] == closed.(producer := EventWoken);
    tr, steps := RunMore(tr, steps, Step(EventResume, WakeNone));
    assert tr[4] == closed.(producer := EventWait);
    tr, steps := RunMore(tr, steps, Step(JoinTask, WakeNone));
    assert steps[2].act.Deactivate?;
  }

  /** An event whose wait cannot end: nothing asks for bytes any more, and the stream has ended or the task paused. */
  ghost predicate EventIsLost(s: Pipe) {
    InEvent(s) && s.needed == 0 && (s.eos || s.reader.Paused?)
  }

  lemma EventWaitsOn(s: Pipe, st: Step)
    requires Inv(s) && EventIsLost(s) && Enabled(s, st)
    ensures EventIsLost(Apply(s, st))
  {
  }

  /** Such an event waits for the rest of every run: through flushes, shut-down and spurious wake-ups. */
  lemma {:induction false} EventWaitsForever(tr: seq<Pipe>, steps: seq<Step>, i: nat)
    requires Execution(tr, steps) && Inv(tr[0]) && i < |tr|
    requires EventIsLost(tr[0])
    ensures EventIsLost(tr[i])
  {
    hide *;
    if i > 0 {
      EventWaitsForever(tr, steps, i - 1);
      InvAlongRun(tr, steps, i - 1);
      RunStep(tr, steps, i - 1);
      EventWaitsOn(tr[i - 1], steps[i - 1]);
    }
  }

  /**
   * The steps that lose an event: it begins after the end of the stream or a pause; the task pauses or the pad is
   * shut down before a read asked for bytes; or the stream has ended and a read takes the last request back.
   */
  predicate Loses(s: Pipe, st: Step) {
    match st.act
    case SerializedEvent => s.needed == 0 && (s.eos || s.reader.Paused?)
    case PauseTask(_) => (s.producer.EventWait? || s.producer.EventWoken?) && s.needed == 0
    case Deactivate => (s.producer.EventWait? || s.producer.EventWoken?) && s.needed == 0
    case Read(size) => s.producer.EventWoken? && s.eos && s.needed > 0 && size > 0 && s.adapter != []
    case ReadResume => s.producer.EventWoken? && s.eos && s.adapter != []
    case _ => false
  }

  lemma LosesStep(s: Pipe, st: Step)
    requires Inv(s) && Enabled(s, st)
    ensures Loses(s, st) ==> EventIsLost(Apply(s, st))
    ensures !Loses(s, st) && !EventIsLost(s) ==> !EventIsLost(Apply(s, st))
  {
  }

  /** A run never loses an event exactly when none of its steps is one of those. */
  lemma {:induction false} NeverLostIff(tr: seq<Pipe>, steps: seq<Step>)
    requires Execution(tr, steps) && tr[0] == INITIAL
    ensures (forall i :: 0 <= i < |tr| ==> !EventIsLost(tr[i]))
            <==> (forall k :: 0 <= k < |steps| ==> !Loses(tr[k], steps[k]))
  {
    if k :| 0 <= k < |steps| && Loses(tr[k], steps[k]) {
      hide Apply, Enabled, Inv;
      InitialState();
      InvAlongRun(tr, steps, k);
      RunStep(tr, steps, k);
      LosesStep(tr[k], steps[k]);
      assert EventIsLost(tr[k + 1]);
    } else {
      forall i | 0 <= i < |tr| ensures !EventIsLost(tr[i]) {
        NotYetLost(tr, steps, i);
      }
    }
  }

  lemma {:induction false} NotYetLost(tr: seq<Pipe>, steps: seq<Step>, i: nat)
    requires Execution(tr, steps) && tr[0] == INITIAL && i < |tr|
    requires forall k :: 0 <= k < i ==> !Loses(tr[k], steps[k])
    ensures !EventIsLost(tr[i])
  {
    hide *;
    InitialState();
    if i > 0 {
      NotYetLost(tr, steps, i - 1);
      InvAlongRun(tr, steps, i - 1);
      RunStep(tr, steps, i - 1);
      LosesStep(tr[i - 1], steps[i - 1]);
    }
  }

  /** Some run from `s` gets the event out of its wait. */
  ghost predicate EventCanLeave(s: Pipe) {
    exists tr: seq<Pipe>, steps: seq<Step> :: Execution(tr, steps) && tr[0] == s && !InEvent(tr[|tr| - 1])
  }

  /** One more read that asks for more than there is lets the event go. */
  lemma EventLeaves(s: Pipe) returns (tr: seq<Pipe>, steps: seq<Step>)
    requires Inv(s) && InEvent(s) && !EventIsLost(s)
    ensures Execution(tr, steps) && tr[0] == s && !InEvent(tr[|tr| - 1])
  {
    var resume := Step(EventResume, WakeNone);
    if s.needed > 0 {
      tr, steps := [s, Apply(s, resume)], [resume];
    } else {
      var read := Step(Read(|s.adapter| + 1), if s.producer.EventWait? then WakeProducer else WakeNone);
      var t := Apply(s, read);
      tr, steps := [s, t, Apply(t, resume)], [read, resume];
    }
  }

  /**
   * A serialized event in its wait, in whatever reachable state, can still get out exactly when a read has asked
   * for bytes, or the stream has not ended and the task has not paused.
   */
  lemma EventLeavesIff(s: Pipe)
    requires Reachable(s) && InEvent(s)
    ensures EventCanLeave(s) <==> s.needed > 0 || (!s.eos && !s.reader.Paused?)
  {
    ReachableInv(s);
    if EventIsLost(s) {
      forall tr: seq<Pipe>, steps: seq<Step> | Execution(tr, steps) && tr[0] == s
        ensures InEvent(tr[|tr| - 1])
      {
        EventWaitsForever(tr, steps, |tr| - 1);
      }
    } else {
      var tr, steps := EventLeaves(s);
    }
  }

  /** Nobody flushes, shuts down or wakes threads without a signal. */
  predicate Undisturbed(st: Step) {
    !st.act.FlushStart? && !st.act.Deactivate? && !st.act.SpuriousWakeup?
  }

  /** Some run without such interference gets chain out of its wait. */
  ghost predicate ChainCanLeave(s: Pipe) {
    exists tr: seq<Pipe>, steps: seq<Step> ::
      Execution(tr, steps) && tr[0] == s && tr[|tr| - 1].producer.Outside? && AllUndisturbed(steps)
  }

  ghost predicate AllUndisturbed(steps: seq<Step>) {
    forall k :: 0 <= k < |steps| ==> Undisturbed(steps[k])
  }

  /** What keeps a stranded chain function waiting, step by step. */
  lemma StrandedByPauseStays(s: Pipe, st: Step)
    requires Reachable(s) && s.reader.Paused? && s.producer.ChainWait? && Enabled(s, st)
    ensures Apply(s, st).producer.ChainWait? && Apply(s, st).reader.Paused?
            <==> !st.act.FlushStart? && !st.act.Deactivate? && !(st.act.SpuriousWakeup? && st.wake == WakeProducer)
  {
    ReachableInv(s);
  }

  /** In that state the two threads have come to a standstill: neither can take a step of its own. */
  lemma PauseIsStandstill(s: Pipe, st: Step)
    requires Inv(s) && s.reader.Paused? && s.producer.ChainWait? && Enabled(s, st)
    ensures !Undisturbed(st)
  {
  }

  /** The reader finishes its read, if it is in one, and its next read signals. */
  lemma ChainLeaves(s: Pipe) returns (tr: seq<Pipe>, steps: seq<Step>)
    requires Inv(s) && s.producer.ChainWait? && !s.reader.Paused?
    ensures Execution(tr, steps) && AllUndisturbed(steps) && tr[0] == s && tr[|tr| - 1].producer.Outside?
  {
    var first := Step(ReadResume, WakeNone);
    if s.reader.ReadWoken? {
      var t := Apply(s, first);
      InvStep(s, first);
      var last, more := NextReadFreesChain(t);
      tr, steps := [s] + last, [first] + more;
    } else {
      tr, steps := NextReadFreesChain(s);
    }
  }

  lemma NextReadFreesChain(s: Pipe) returns (tr: seq<Pipe>, steps: seq<Step>)
    requires Inv(s) && s.producer.ChainWait? && s.reader.Running?
    ensures Execution(tr, steps) && AllUndisturbed(steps) && tr[0] == s && tr[|tr| - 1].producer.Outside?
  {
    var read, resume := Step(Read(|s.adapter| + 1), WakeProducer), Step(ChainResume, WakeNone);
    var t := Apply(s, read);
    tr, steps := [s, t, Apply(t, resume)], [read, resume];
  }

  /** Left to the two threads alone, a waiting chain function can get out exactly when the task has not paused. */
  lemma ChainLeavesIff(s: Pipe)
    requires Reachable(s) && s.producer.ChainWait?
    ensures ChainCanLeave(s) <==> !s.reader.Paused?
  {
    ReachableInv(s);
    if s.reader.Paused? {
      forall tr: seq<Pipe>, steps: seq<Step> | Execution(tr, steps) && tr[0] == s && AllUndisturbed(steps)
        ensures !tr[|tr| - 1].producer.Outside?
      {
        if steps != [] {
          PauseIsStandstill(s, steps[0]);
        }
      }
    } else {
      var tr, steps := ChainLeaves(s);
    }
  }

  /** A read that finds too little wakes the waiting chain function, which then returns OK. */
  lemma ReadReleasesChain(s: Pipe, size: nat, w: Wake)
    requires Reachable(s) && s.producer.ChainWait? && s.srcresult == FlowOk && size > |s.adapter|
    requires Enabled(s, Step(Read(size), w))
    ensures var t := Apply(s, Step(Read(size), w));
            && t.producer.ChainWoken? && t.reader == ReadWait(size)
            && Enabled(t, Step(ChainResume, WakeNone))
            && Apply(t, Step(ChainResume, WakeNone)) == t.(producer := Outside)
            && |t.adapter| < t.needed
  {
    ReachableInv(s);
  }

  /** A buffer that completes the request wakes the waiting reader, which then gets exactly what it asked for. */
  lemma ChainReleasesReader(s: Pipe, buffer: seq<byte>, w: Wake)
    requires Reachable(s) && s.reader.ReadWait? && s.srcresult == FlowOk
    requires |s.adapter| + |buffer| >= s.reader.size
    requires Enabled(s, Step(Chain(buffer), w))
    ensures var size := s.reader.size;
            var t := Apply(s, Step(Chain(buffer), w));
            && t.reader == ReadWoken(size) && t.producer.ChainWait?
            && Enabled(t, Step(ReadResume, WakeNone))
            && (var u := Apply(t, Step(ReadResume, WakeNone));
                && u.reader.Running?
                && u.delivered == s.delivered + (s.adapter + buffer)[..size]
                && u.adapter == (s.adapter + buffer)[size..])
  {
    ReachableInv(s);
  }

  // -------------------------------------------------------------- read results

  /** The bytes a read step hands out when it completes. */
  ghost predicate ReadCompletes(s: Pipe, st: Step, size: nat, data: seq<byte>)
    requires Enabled(s, st)
  {
    && (st.act == Read(size) || (st.act.ReadResume? && s.reader.size == size))
    && Apply(s, st).reader.Running?
    && Apply(s, st).delivered == s.delivered + data
  }

  /**
   * A completed read returned exactly the bytes asked for, in order, unless the stream ended;
   * then it returned as many as were left. It resets `needed` unless it returned nothing.
   */
  lemma ReadIsExact(s: Pipe, st: Step, size: nat, data: seq<byte>)
    requires Reachable(s) && Enabled(s, st) && ReadCompletes(s, st, size, data)
    ensures s.adapter == data + Apply(s, st).adapter
    ensures |data| == size || (s.eos && |data| == |s.adapter| < size)
    ensures data != [] ==> Apply(s, st).needed == 0
  {
    var n := Min(|s.adapter|, size);
    assert (s.delivered + data)[|s.delivered|..] == data;
    assert (s.delivered + s.adapter[..n])[|s.delivered|..] == s.adapter[..n];
  }

  /** After the end of the stream a read never waits, so it drains what is left and then returns nothing. */
  lemma ReadAtEos(s: Pipe, st: Step, size: nat)
    requires Enabled(s, st) && s.eos && (st.act == Read(size) || (st.act.ReadResume? && s.reader.size == size))
    ensures ReadCompletes(s, st, size, s.adapter[..Min(|s.adapter|, size)])
  {
  }

  ghost predicate IsSuffix(a: seq<byte>, b: seq<byte>) {
    a == b || (b != [] && IsSuffix(a, b[1..]))
  }

  lemma {:induction false} DropIsSuffix(b: seq<byte>, n: nat)
    requires n <= |b|
    ensures IsSuffix(b[n..], b)
  {
    if n == 0 {
      assert b[0..] == b;
    } else {
      assert b[1..][n - 1..] == b[n..];
      DropIsSuffix(b[1..], n - 1);
    }
  }

  lemma TrivialSuffixes(b: seq<byte>)
    ensures IsSuffix([], b) && IsSuffix(b, b)
  {
    DropIsSuffix(b, |b|);
    assert b[|b|..] == [];
  }

  lemma EosRead(s: Pipe, size: nat, w: Wake)
    requires s.eos
    ensures var t := ReadSection(s, size, w);
            t.eos && IsSuffix(t.adapter, s.adapter) && t.delivered + t.adapter == s.delivered + s.adapter
  {
    hide IsSuffix, WakeUp;
    var n := Min(|s.adapter|, size);
    DropIsSuffix(s.adapter, n);
    TakeThenDrop(s.delivered, s.adapter, n);
  }

  lemma EosStep(s: Pipe, st: Step)
    requires Inv(s) && s.eos && Enabled(s, st) && !st.act.Activate?
    ensures var t := Apply(s, st);
            && t.eos && IsSuffix(t.adapter, s.adapter)
            && (!st.act.FlushStop? && !st.act.ToReady? ==> t.delivered + t.adapter == s.delivered + s.adapter)
  {
    hide IsSuffix;
    TrivialSuffixes(s.adapter);
    match st.act
    case Read(size) => EosRead(s, size, st.wake);
    case ReadResume => EosRead(s, s.reader.size, st.wake);
    case _ =>
  }

  lemma {:induction false} SuffixTransitive(a: seq<byte>, b: seq<byte>, c: seq<byte>)
    requires IsSuffix(a, b) && IsSuffix(b, c)
    ensures IsSuffix(a, c)
  {
    if b != c {
      SuffixTransitive(a, b, c[1..]);
    }
  }

  /**
   * Until the pad is activated again the end of the stream stays and the queue only shrinks
   * from the front (a flush empties it), so an empty queue stays empty.
   */
  lemma {:induction false} EosDrains(tr: seq<Pipe>, steps: seq<Step>, i: nat)
    requires Execution(tr, steps) && Inv(tr[0]) && tr[0].eos && i < |tr|
    requires forall k :: 0 <= k < |steps| ==> !steps[k].act.Activate?
    ensures tr[i].eos && IsSuffix(tr[i].adapter, tr[0].adapter)
  {
    hide *;
    if i > 0 {
      EosDrains(tr, steps, i - 1);
      InvAlongRun(tr, steps, i - 1);
      RunStep(tr, steps, i - 1);
      EosStep(tr[i - 1], steps[i - 1]);
      SuffixTransitive(tr[i].adapter, tr[i - 1].adapter, tr[0].adapter);
    } else {
      TrivialSuffixes(tr[0].adapter);
    }
  }

  /** Without a flush the reads after the end of the stream hand out exactly what was left, in order. */
  lemma {:induction false} EosDeliversRest(tr: seq<Pipe>, steps: seq<Step>, i: nat)
    requires Execution(tr, steps) && Inv(tr[0]) && tr[0].eos && i < |tr|
    requires forall k :: 0 <= k < |steps| ==>
               !steps[k].act.Activate? && !steps[k].act.FlushStop? && !steps[k].act.ToReady?
    ensures tr[i].delivered + tr[i].adapter == tr[0].delivered + tr[0].adapter
  {
    hide *;
    if i > 0 {
      EosDeliversRest(tr, steps, i - 1);
      EosDrains(tr, steps, i - 1);
      InvAlongRun(tr, steps, i - 1);
      RunStep(tr, steps, i - 1);
      EosStep(tr[i - 1], steps[i - 1]);
    }
  }

  // --------------------------------------------------------------- backpressure

  ghost predicate SizesBounded(steps: seq<Step>, maxRead: nat, maxBuffer: nat) {
    forall k :: 0 <= k < |steps| ==>
      && (steps[k].act.Read? ==> steps[k].act.size <= maxRead)
      && (steps[k].act.Chain? ==> |steps[k].act.buffer| <= maxBuffer)
  }

  ghost predicate Bounded(s: Pipe, maxRead: nat, maxBuffer: nat) {
    && s.needed <= maxRead
    && (s.reader.ReadWait? || s.reader.ReadWoken? ==> s.reader.size <= maxRead)
    && |s.adapter| <= maxRead - 1 + maxBuffer
    && (!s.producer.ChainWait? && !s.producer.ChainWoken? && !ChainRefuses(s) ==> |s.adapter| < maxRead)
  }

  lemma BoundedStep(s: Pipe, st: Step, maxRead: nat, maxBuffer: nat)
    requires Inv(s) && Bounded(s, maxRead, maxBuffer) && Enabled(s, st) && maxRead > 0
    requires st.act.Read? ==> st.act.size <= maxRead
    requires st.act.Chain? ==> |st.act.buffer| <= maxBuffer
    ensures Bounded(Apply(s, st), maxRead, maxBuffer)
  {
    match st.act
    case Read(size) => BoundedRead(s, size, st.wake, maxRead, maxBuffer);
    case ReadResume => BoundedRead(s, s.reader.size, st.wake, maxRead, maxBuffer);
    case _ => BoundedOther(s, st, maxRead, maxBuffer);
  }

  lemma BoundedRead(s: Pipe, size: nat, w: Wake, maxRead: nat, maxBuffer: nat)
    requires Inv(s) && Bounded(s, maxRead, maxBuffer) && maxRead > 0 && size <= maxRead
    requires s.reader.Running? || s.reader == ReadWoken(size)
    ensures Bounded(ReadSection(s, size, w), maxRead, maxBuffer)
  {
  }

  lemma BoundedOther(s: Pipe, st: Step, maxRead: nat, maxBuffer: nat)
    requires Inv(s) && Bounded(s, maxRead, maxBuffer) && Enabled(s, st) && maxRead > 0
    requires !st.act.Read? && !st.act.ReadResume? && (st.act.Chain? ==> |st.act.buffer| <= maxBuffer)
    ensures Bounded(Apply(s, st), maxRead, maxBuffer)
  {
  }

  /**
   * Over every run the queue holds at most (largest read request - 1) + (largest input buffer) bytes.
   */
  lemma {:induction false} QueueBounded(tr: seq<Pipe>, steps: seq<Step>, maxRead: nat, maxBuffer: nat, i: nat)
    requires Execution(tr, steps) && tr[0] == INITIAL && i < |tr|
    requires maxRead > 0 && SizesBounded(steps, maxRead, maxBuffer)
    ensures Bounded(tr[i], maxRead, maxBuffer)
    ensures |tr[i].adapter| <= maxRead - 1 + maxBuffer
  {
    hide Apply, Enabled, Inv;
    InitialState();
    if i > 0 {
      QueueBounded(tr, steps, maxRead, maxBuffer, i - 1);
      InvAlongRun(tr, steps, i - 1);
      RunStep(tr, steps, i - 1);
      BoundedStep(tr[i - 1], steps[i - 1], maxRead, maxBuffer);
    }
  }

  /** The result chain returns, when the step makes it return. */
  function ChainResult(s: Pipe, st: Step): Option<Flow>
    requires Enabled(s, st)
  {
    if st.act.Chain? && s.eos then Some(FlowUnexpected)
    else if (st.act.Chain? || st.act.ChainResume?) && s.srcresult != FlowOk then Some(FlowWrongState)
    else if (st.act.Chain? || st.act.ChainResume?) && Apply(s, st).producer.Outside? then Some(FlowOk)
    else None
  }

  /**
   * Backpressure: chain returns OK only when fewer bytes are queued than the blocked reader asked for.
   */
  lemma ChainOkMeansReaderStarves(s: Pipe, st: Step)
    requires Reachable(s) && Enabled(s, st) && ChainResult(s, st) == Some(FlowOk)
    ensures var t := Apply(s, st);
            |t.adapter| < t.needed && (t.reader == ReadWait(t.needed) || t.reader == ReadWoken(t.needed))
  {
    ReachableInv(s);
    InvStep(s, st);
  }

  // ------------------------------------------------- what a run has made of the flags

  /** The end of the stream, or shut-down. */
  predicate Ends(a: Action) {
    a.Eos? || a.Deactivate?
  }

  /** What makes chain refuse buffers with WRONG_STATE, and what makes it accept them again. */
  predicate Closes(a: Action) {
    a.FlushStart? || a.PauseTask? || a.Deactivate?
  }

  predicate Opens(a: Action) {
    a.FlushStop? || a.Activate?
  }

  /** Among the first n steps the stream ended, and the pad was not activated since. */
  ghost predicate EndedBy(steps: seq<Step>, n: nat)
    requires n <= |steps|
  {
    exists j :: 0 <= j < n && Ends(steps[j].act) && forall k :: j < k < n ==> !steps[k].act.Activate?
  }

  /** Among the first n steps one closed the pipe, and none opened it since. */
  ghost predicate ClosedBy(steps: seq<Step>, n: nat)
    requires n <= |steps|
  {
    exists j :: 0 <= j < n && Closes(steps[j].act) && forall k :: j < k < n ==> !Opens(steps[k].act)
  }

  lemma EndedNext(steps: seq<Step>, n: nat)
    requires n < |steps|
    ensures EndedBy(steps, n + 1) <==> Ends(steps[n].act) || (EndedBy(steps, n) && !steps[n].act.Activate?)
  {
    if EndedBy(steps, n) && !steps[n].act.Activate? {
      var j :| 0 <= j < n && Ends(steps[j].act) && forall k :: j < k < n ==> !steps[k].act.Activate?;
      assert forall k :: j < k < n + 1 ==> !steps[k].act.Activate?;
    }
  }

  lemma ClosedNext(steps: seq<Step>, n: nat)
    requires n < |steps|
    ensures ClosedBy(steps, n + 1) <==> Closes(steps[n].act) || (ClosedBy(steps, n) && !Opens(steps[n].act))
  {
    if ClosedBy(steps, n) && !Opens(steps[n].act) {
      var j :| 0 <= j < n && Closes(steps[j].act) && forall k :: j < k < n ==> !Opens(steps[k].act);
      assert forall k :: j < k < n + 1 ==> !Opens(steps[k].act);
    }
  }

  lemma FlagsStep(s: Pipe, st: Step)
    requires Enabled(s, st)
    ensures Apply(s, st).eos <==> Ends(st.act) || (s.eos && !st.act.Activate?)
    ensures Apply(s, st).srcresult != FlowOk <==> Closes(st.act) || (s.srcresult != FlowOk && !Opens(st.act))
  {
  }

  /** The flags are what the latest flush, pause, activation and end of stream have made of them. */
  lemma {:induction false} FlagsFromRun(tr: seq<Pipe>, steps: seq<Step>, i: nat)
    requires Execution(tr, steps) && tr[0] == INITIAL && i < |tr|
    ensures |tr| == |steps| + 1
    ensures tr[i].eos <==> EndedBy(steps, i)
    ensures tr[i].srcresult != FlowOk <==> ClosedBy(steps, i)
  {
    hide Apply, Enabled;
    if i == 0 {
      assert !EndedBy(steps, 0) && !ClosedBy(steps, 0);
    } else {
      hide *;
      FlagsFromRun(tr, steps, i - 1);
      RunStep(tr, steps, i - 1);
      FlagsStep(tr[i - 1], steps[i - 1]);
      EndedNext(steps, i - 1);
      ClosedNext(steps, i - 1);
    }
  }

  // ----------------------------------------------------------- results over whole runs

  /** A chain call that finds the flags set leaves everything as it is; any other takes its buffer. */
  lemma ChainCall(s: Pipe, st: Step)
    requires Enabled(s, st) && st.act.Chain?
    ensures ChainResult(s, st) == Some(FlowUnexpected) <==> s.eos
    ensures ChainResult(s, st) == Some(FlowWrongState) <==> !s.eos && s.srcresult != FlowOk
    ensures s.eos || s.srcresult != FlowOk ==> Apply(s, st) == s
    ensures !s.eos && s.srcresult == FlowOk ==> Apply(s, st).adapter == s.adapter + st.act.buffer
  {
  }

  /**
   * Chain refuses a buffer with UNEXPECTED exactly when the stream has ended, and with WRONG_STATE exactly when it
   * has not but a flush, a pause or a shut-down is in force.
   */
  lemma ChainCallIff(tr: seq<Pipe>, steps: seq<Step>, i: nat)
    requires Execution(tr, steps) && tr[0] == INITIAL && i < |steps| && steps[i].act.Chain?
    ensures Enabled(tr[i], steps[i])
    ensures ChainResult(tr[i], steps[i]) == Some(FlowUnexpected) <==> EndedBy(steps, i)
    ensures ChainResult(tr[i], steps[i]) == Some(FlowWrongState) <==> !EndedBy(steps, i) && ClosedBy(steps, i)
  {
    FlagsFromRun(tr, steps, i);
    RunStep(tr, steps, i);
    hide Apply, Enabled, ChainResult, EndedBy, ClosedBy;
    ChainCall(tr[i], steps[i]);
  }

  /** A refused buffer leaves everything as it was; any other goes to the end of the queue. */
  lemma ChainCallQueues(tr: seq<Pipe>, steps: seq<Step>, i: nat)
    requires Execution(tr, steps) && tr[0] == INITIAL && i < |steps| && steps[i].act.Chain?
    ensures |tr| == |steps| + 1
    ensures EndedBy(steps, i) || ClosedBy(steps, i) ==> tr[i + 1] == tr[i]
    ensures !EndedBy(steps, i) && !ClosedBy(steps, i) ==> tr[i + 1].adapter == tr[i].adapter + steps[i].act.buffer
  {
    FlagsFromRun(tr, steps, i);
    RunStep(tr, steps, i);
    hide Apply, Enabled, ChainResult, EndedBy, ClosedBy;
    ChainCall(tr[i], steps[i]);
  }

  /** A chain call that was waiting returns WRONG_STATE exactly when one of those is in force. */
  lemma ChainWakeIff(tr: seq<Pipe>, steps: seq<Step>, i: nat)
    requires Execution(tr, steps) && tr[0] == INITIAL && i < |steps| && steps[i].act.ChainResume?
    ensures Enabled(tr[i], steps[i])
    ensures ChainResult(tr[i], steps[i]) == Some(FlowWrongState) <==> ClosedBy(steps, i)
    ensures ChainResult(tr[i], steps[i]) != Some(FlowUnexpected)
    ensures ChainResult(tr[i], steps[i]).None? <==> tr[i + 1].producer.ChainWait?
  {
    FlagsFromRun(tr, steps, i);
    RunStep(tr, steps, i);
    hide EndedBy, ClosedBy;
  }

  /** A read waits exactly when there is too little and the stream has not ended since the last activation. */
  lemma ReadWaitsIff(tr: seq<Pipe>, steps: seq<Step>, i: nat)
    requires Execution(tr, steps) && tr[0] == INITIAL && i < |steps| && steps[i].act.Read?
    ensures |tr| == |steps| + 1
    ensures var size := steps[i].act.size;
            tr[i + 1].reader == ReadWait(size) <==> |tr[i].adapter| < size && !EndedBy(steps, i)
  {
    FlagsFromRun(tr, steps, i);
    RunStep(tr, steps, i);
    hide EndedBy, ClosedBy;
  }

  /** The bytes of the buffers that chain accepted since the last flush, or since the pad went to READY. */
  ghost function Accepted(steps: seq<Step>, n: nat): seq<byte>
    requires n <= |steps|
  {
    if n == 0 then []
    else
      var before := Accepted(steps, n - 1);
      match steps[n - 1].act
      case FlushStop | ToReady => []
      case Chain(buffer) => if EndedBy(steps, n - 1) || ClosedBy(steps, n - 1) then before else before + buffer
      case _ => before
  }

  /** What was read since the last flush, and what is left to be read. */
  ghost function Passed(s: Pipe): seq<byte> {
    s.delivered + s.adapter
  }

  lemma PassedStep(s: Pipe, st: Step)
    requires Enabled(s, st)
    ensures var before, after := Passed(s), Passed(Apply(s, st));
            after == match st.act
                     case FlushStop | ToReady => []
                     case Chain(buffer) => if s.eos || s.srcresult != FlowOk then before else before + buffer
                     case _ => before
  {
    match st.act
    case Read(size) => TakeThenDrop(s.delivered, s.adapter, Min(|s.adapter|, size));
    case ReadResume => TakeThenDrop(s.delivered, s.adapter, Min(|s.adapter|, s.reader.size));
    case Chain(buffer) => assert s.delivered + (s.adapter + buffer) == s.delivered + s.adapter + buffer;
    case _ =>
  }

  /** What was read since the last flush, and then the queue, is what chain accepted since, told from the steps. */
  lemma {:induction false} BytesFromRun(tr: seq<Pipe>, steps: seq<Step>, i: nat)
    requires Execution(tr, steps) && tr[0] == INITIAL && i < |tr|
    ensures |tr| == |steps| + 1
    ensures Passed(tr[i]) == Accepted(steps, i)
  {
    if i > 0 {
      hide Apply, Enabled, Execution, EndedBy, ClosedBy, Passed;
      BytesFromRun(tr, steps, i - 1);
      RunStep(tr, steps, i - 1);
      FlagsFromRun(tr, steps, i - 1);
      PassedStep(tr[i - 1], steps[i - 1]);
    }
  }

  /** A step that neither ends the stream, closes the pipe, flushes it nor brings a buffer. */
  predicate Quiet(a: Action) {
    !Ends(a) && !Closes(a) && !a.FlushStop? && !a.ToReady? && !a.Chain?
  }

  /** A step that restarts the flow: FLUSH_STOP on a stream that has not ended, or activation. */
  ghost predicate Restarts(steps: seq<Step>, j: nat)
    requires j < |steps|
  {
    steps[j].act.Activate? || (steps[j].act.FlushStop? && !EndedBy(steps, j))
  }

  /** Step j restarts the flow, and only quiet steps follow it before step i. */
  ghost predicate RestartedAt(steps: seq<Step>, j: nat, i: nat) {
    j < i <= |steps| && Restarts(steps, j) && forall k :: j < k < i ==> Quiet(steps[k].act)
  }

  lemma {:induction false} QuietKeeps(steps: seq<Step>, j: nat, i: nat)
    requires RestartedAt(steps, j, i)
    ensures j < i <= |steps| && !EndedBy(steps, i) && !ClosedBy(steps, i)
    ensures Accepted(steps, i) == Accepted(steps, j + 1)
  {
    if i == j + 1 {
      EndedNext(steps, j);
      ClosedNext(steps, j);
    } else {
      assert Quiet(steps[i - 1].act);
      QuietKeeps(steps, j, i - 1);
      EndedNext(steps, i - 1);
      ClosedNext(steps, i - 1);
    }
  }

  ghost predicate OffEmpty(s: Pipe) {
    s.reader.Off? ==> s.delivered == [] && s.adapter == []
  }

  lemma OffStep(s: Pipe, st: Step)
    requires Enabled(s, st) && OffEmpty(s)
    ensures OffEmpty(Apply(s, st))
  {
  }

  lemma {:induction false} OffIsEmpty(tr: seq<Pipe>, steps: seq<Step>, i: nat)
    requires Execution(tr, steps) && tr[0] == INITIAL && i < |tr|
    ensures OffEmpty(tr[i])
  {
    if i > 0 {
      hide *;
      RunStep(tr, steps, i - 1);
      OffIsEmpty(tr, steps, i - 1);
      OffStep(tr[i - 1], steps[i - 1]);
    }
  }

  lemma AcceptedChain(steps: seq<Step>, i: nat)
    requires i < |steps| && steps[i].act.Chain? && !EndedBy(steps, i) && !ClosedBy(steps, i)
    ensures Accepted(steps, i + 1) == Accepted(steps, i) + steps[i].act.buffer
  {
  }

  /** After a restart nothing is queued, and nothing was read since the last flush. */
  lemma RestartIsEmpty(tr: seq<Pipe>, steps: seq<Step>, j: nat)
    requires Execution(tr, steps) && tr[0] == INITIAL && j < |steps| && Restarts(steps, j)
    ensures Accepted(steps, j + 1) == []
  {
    if steps[j].act.Activate? {
      OffIsEmpty(tr, steps, j);
      BytesFromRun(tr, steps, j);
      RunStep(tr, steps, j);
    }
  }

  /** Chain takes the buffer, and nothing but its bytes is there to be read, nor was read since the last flush. */
  ghost predicate AcceptsFirst(s: Pipe, st: Step, t: Pipe) {
    && st.act.Chain? && Enabled(s, st)
    && ChainResult(s, st) != Some(FlowUnexpected) && ChainResult(s, st) != Some(FlowWrongState)
    && Passed(t) == st.act.buffer
  }

  /**
   * After a flush of a stream that has not ended, and after activation, the next buffer is accepted, and its bytes
   * are the first that later reads get.
   */
  lemma FlowRestarts(tr: seq<Pipe>, steps: seq<Step>, j: nat, i: nat)
    requires Execution(tr, steps) && tr[0] == INITIAL && RestartedAt(steps, j, i)
    requires i < |steps| && steps[i].act.Chain?
    ensures i + 1 < |tr| && AcceptsFirst(tr[i], steps[i], tr[i + 1])
  {
    hide *;
    QuietKeeps(steps, j, i);
    RestartLeavesNothing(tr, steps, j, i);
    RunStep(tr, steps, i);
    ChainCallIff(tr, steps, i);
    AcceptedChain(steps, i);
    BytesFromRun(tr, steps, i + 1);
    FirstAccepted(tr[i], steps[i], tr[i + 1]);
  }

  lemma RestartLeavesNothing(tr: seq<Pipe>, steps: seq<Step>, j: nat, i: nat)
    requires Execution(tr, steps) && tr[0] == INITIAL && RestartedAt(steps, j, i)
    ensures Accepted(steps, i) == []
  {
    hide Execution, EndedBy, ClosedBy, Accepted;
    QuietKeeps(steps, j, i);
    RestartIsEmpty(tr, steps, j);
  }

  lemma FirstAccepted(s: Pipe, st: Step, t: Pipe)
    requires st.act.Chain? && Enabled(s, st) && Passed(t) == [] + st.act.buffer
    requires ChainResult(s, st) != Some(FlowUnexpected) && ChainResult(s, st) != Some(FlowWrongState)
    ensures AcceptsFirst(s, st, t)
  {
  }

  /** As long as there is no flush, later reads hand out those bytes first. */
  lemma {:induction false} FirstBytesStay(tr: seq<Pipe>, steps: seq<Step>, i: nat, n: nat)
    requires Execution(tr, steps) && tr[0] == INITIAL && i <= n < |tr|
    requires |tr| == |steps| + 1 && forall k :: i <= k < n ==> !steps[k].act.FlushStop? && !steps[k].act.ToReady?
    ensures Passed(tr[i]) <= Passed(tr[n])
  {
    hide *;
    if i < n {
      FirstBytesStay(tr, steps, i, n - 1);
      RunStep(tr, steps, n - 1);
      PassedGrows(tr[n - 1], steps[n - 1]);
    }
  }

  lemma PassedGrows(s: Pipe, st: Step)
    requires Enabled(s, st) && !st.act.FlushStop? && !st.act.ToReady?
    ensures Passed(s) <= Passed(Apply(s, st))
  {
    PassedStep(s, st);
    hide *;
  }

  // ------------------------------------------------------------------ flushing

  ghost predicate Released(s: Pipe) {
    s.producer.ChainWoken? && s.srcresult != FlowOk
  }

  lemma ReleaseStep(s: Pipe, st: Step)
    requires Inv(s) && Enabled(s, st)
    ensures s.producer.ChainWait? && (st.act.FlushStart? || st.act.Deactivate?) ==> Released(Apply(s, st))
    ensures Released(s) && !st.act.ChainResume? ==> Released(Apply(s, st))
    ensures Released(s) && st.act.ChainResume? ==>
              ChainResult(s, st) == Some(FlowWrongState) && Apply(s, st) == s.(producer := Outside)
  {
  }

  /** FLUSH_START and de-activation get a waiting chain call out: whatever happens meanwhile, it returns WRONG_STATE. */
  lemma {:induction false} FlushReleasesChain(tr: seq<Pipe>, steps: seq<Step>, i: nat)
    requires Execution(tr, steps) && Inv(tr[0]) && tr[0].producer.ChainWait? && 0 < i < |steps|
    requires steps[0].act.FlushStart? || steps[0].act.Deactivate?
    requires steps[i].act.ChainResume? && forall k :: 0 < k < i ==> !steps[k].act.ChainResume?
    ensures Enabled(tr[i], steps[i])
    ensures ChainResult(tr[i], steps[i]) == Some(FlowWrongState) && tr[i + 1].producer.Outside?
  {
    hide Apply, Enabled, Inv, ChainResult;
    StaysReleased(tr, steps, i);
    InvAlongRun(tr, steps, i);
    RunStep(tr, steps, i);
    ReleaseStep(tr[i], steps[i]);
  }

  /** And it can be let go of at once: it holds no wait any more. */
  lemma {:induction false} StaysReleased(tr: seq<Pipe>, steps: seq<Step>, i: nat)
    requires Execution(tr, steps) && Inv(tr[0]) && tr[0].producer.ChainWait? && 0 < i < |tr|
    requires |tr| == |steps| + 1 && (steps[0].act.FlushStart? || steps[0].act.Deactivate?)
    requires forall k :: 0 < k < i ==> !steps[k].act.ChainResume?
    ensures Released(tr[i])
  {
    hide Apply, Enabled, Inv, Execution, Released;
    RunStep(tr, steps, i - 1);
    InvAlongRun(tr, steps, i - 1);
    ReleaseStep(tr[i - 1], steps[i - 1]);
    if i > 1 {
      StaysReleased(tr, steps, i - 1);
    }
  }
}

/**
 * The shared structure as an object: one method for each critical section of the code, from taking the lock
 * (or returning from a wait) to the next wait or unlock.
 */
module PipeObject {
  import opened Basics
  import opened PipeProtocol

  class FFMpegPipe {
    var eos: bool
    var srcresult: Flow
    var adapter: seq<byte>
    var needed: nat

    // Where the two threads are, and what passed through the pipe.
    ghost var active: bool
    ghost var reader: Reader
    ghost var producer: Producer
    ghost var pushed: seq<byte>
    ghost var delivered: seq<byte>

    ghost function State(): Pipe
      reads this
    {
      Pipe(adapter, needed, eos, srcresult, active, reader, producer, pushed, delivered)
    }

    constructor ()
      ensures State() == INITIAL
    {
      eos, srcresult, adapter, needed := false, FlowOk, [], 0;
      active, reader, producer, pushed, delivered := false, Off, Outside, [], [];
    }

    /** GST_FFMPEG_PIPE_SIGNAL: `w` says which waiters it lets go. */
    ghost method Signal(w: Wake)
      requires SignalAllows(State(), w)
      modifies `reader, `producer
      ensures State() == WakeUp(old(State()), w)
    {
      var s := WakeUp(State(), w);
      reader, producer := s.reader, s.producer;
    }

    /** The end of pipe_read: take what was asked for, or what there is. */
    method Take(size: nat) returns (bytes: seq<byte>)
      requires !ReadBlocks(State(), size)
      modifies this
      ensures State() == ReadSection(old(State()), size, WakeNone)
      ensures delivered == old(delivered) + bytes && bytes + adapter == old(adapter)
      ensures |bytes| == size || (eos && adapter == [])
    {
      var n := Min(|adapter|, size);
      bytes := [];
      if n > 0 {
        bytes := adapter[..n];
        adapter := adapter[n..];
        needed := 0;
      }
      reader := Running;
      delivered := delivered + bytes;
    }

    /** pipe_read from the lock to its wait (None) or to its return with the bytes read. */
    method ReadPass(size: nat, ghost st: Step) returns (data: Option<seq<byte>>)
      requires st.act == Read(size) || (st.act.ReadResume? && reader == ReadWoken(size))
      requires Enabled(State(), st)
      modifies this
      ensures State() == Apply(old(State()), st)
      ensures data.None? <==> reader.ReadWait?
      ensures data.Some? ==> delivered == old(delivered) + data.value && data.value + adapter == old(adapter)
      ensures data.Some? ==> |data.value| == size || (eos && adapter == [])
    {
      if |adapter| < size && !eos {
        needed := size;
        Signal(st.wake);
        reader := ReadWait(size);
        return None;
      }
      var bytes := Take(size);
      return Some(bytes);
    }

    /** The loop of chain up to its next wait (None) or return. */
    method ChainPass(ghost w: Wake) returns (ret: Option<Flow>)
      requires |adapter| >= needed ==> SignalAllows(State(), w)
      modifies this
      ensures State() == ChainLoop(old(State()), w)
      ensures ret == if |adapter| >= needed then None else Some(FlowOk)
    {
      if |adapter| >= needed {
        Signal(w);
        producer := ChainWait;
        return None;
      }
      producer := Outside;
      return Some(FlowOk);
    }

    method ChainEnter(buffer: seq<byte>, ghost st: Step) returns (ret: Option<Flow>)
      requires st.act == Chain(buffer) && Enabled(State(), st)
      modifies this
      ensures State() == Apply(old(State()), st)
      ensures ret == ChainResult(old(State()), st)
    {
      if eos {
        return Some(FlowUnexpected);
      }
      if srcresult != FlowOk {
        return Some(FlowWrongState);
      }
      adapter := adapter + buffer;
      pushed := pushed + buffer;
      ret := ChainPass(st.wake);
    }

    method ChainWake(ghost st: Step) returns (ret: Option<Flow>)
      requires st.act.ChainResume? && Enabled(State(), st)
      modifies this
      ensures State() == Apply(old(State()), st)
      ensures ret == ChainResult(old(State()), st)
    {
      if srcresult != FlowOk {
        producer := Outside;
        return Some(FlowWrongState);
      }
      ret := ChainPass(st.wake);
    }

    /** The wait of a serialized event, entered for the first time or again. */
    method EventPass(ghost st: Step) returns (waits: bool)
      requires (st.act.SerializedEvent? || st.act.EventResume?) && Enabled(State(), st)
      modifies this
      ensures State() == Apply(old(State()), st)
      ensures waits <==> producer.EventWait?
    {
      waits := needed == 0;
      producer := if waits then EventWait else Outside;
    }

    method OnEos(ghost st: Step)
      requires st.act.Eos? && Enabled(State(), st)
      modifies this
      ensures State() == Apply(old(State()), st)
    {
      eos := true;
      Signal(st.wake);
    }

    method OnFlushStart(ghost st: Step)
      requires st.act.FlushStart? && Enabled(State(), st)
      modifies this
      ensures State() == Apply(old(State()), st)
    {
      srcresult := FlowWrongState;
      Signal(st.wake);
    }

    method OnFlushStop(ghost st: Step)
      requires st.act.FlushStop? && Enabled(State(), st)
      modifies this
      ensures State() == Apply(old(State()), st)
    {
      adapter := [];
      srcresult := FlowOk;
      pushed, delivered := [], [];
      reader := if reader.Paused? then Running else reader;
    }

    /** The task pauses itself; it signals no one. */
    method OnPause(ret: Flow, ghost st: Step)
      requires st.act == PauseTask(ret) && Enabled(State(), st)
      modifies this
      ensures State() == Apply(old(State()), st)
    {
      srcresult := ret;
      reader := Paused;
    }

    method ActivatePush(ghost st: Step)
      requires st.act.Activate? && Enabled(State(), st)
      modifies this
      ensures State() == Apply(old(State()), st)
    {
      eos := false;
      srcresult := FlowOk;
      needed := 0;
      active, reader := true, Running;
    }

    method DeactivatePush(ghost st: Step)
      requires st.act.Deactivate? && Enabled(State(), st)
      modifies this
      ensures State() == Apply(old(State()), st)
    {
      srcresult := FlowWrongState;
      eos := true;
      active := false;
      Signal(st.wake);
    }

    /** PAUSED->READY clears the adapter. */
    method OnReady(ghost st: Step)
      requires st.act.ToReady? && Enabled(State(), st)
      modifies this
      ensures State() == Apply(old(State()), st)
    {
      adapter := [];
      reader, pushed, delivered := Off, [], [];
    }
  }
}
