/** The flush entry points of bandix/src/monitor/mod.rs and its two
    process-wide flags, `FLUSH_IN_PROGRESS` (initially false) and
    `CAPTURE_RUNNING` (the capture gate, initially true). Each `load`,
    `store` and `swap` of a flag is one step of a sequential call. */
module Monitor {
  import opened Events

  datatype MonitorState = MonitorState(flushInProgress: bool, captureRunning: bool)

  /** The state after an operation and the steps it took. */
  datatype Step = Step(state: MonitorState, events: seq<Event>)

  const Initial: MonitorState := MonitorState(false, true)

  /** The stores in this file's order (connection, dns, traffic), then `persist_all`. */
  const StoreFlushes: seq<Event> := [Flush(Connection), Flush(Dns), Flush(Traffic), PersistAll]

  predicate IsFlushStep(e: Event) {
    e.Flush? || e == PersistAll || e == SyncBarrier
  }

  /** `stop_capture`. */
  function StopCaptureStep(s: MonitorState): (st: Step)
    ensures !st.state.captureRunning && st.state.flushInProgress == s.flushInProgress
    ensures st.events == [StopCapture]
  {
    Step(s.(captureRunning := false), [StopCapture])
  }

  /** `flush_interval`: skipped while the flag is set; reads the flag only. */
  function IntervalStep(s: MonitorState): (st: Step)
    ensures st.state == s
    ensures st.events == [] <==> s.flushInProgress
    ensures StopCapture !in st.events && SyncBarrier !in st.events
    ensures !s.flushInProgress ==>
              |st.events| == 4 && st.events[3] == PersistAll &&
              st.events[0] == Flush(Connection) && st.events[1] == Flush(Dns) && st.events[2] == Flush(Traffic)
  {
    if s.flushInProgress then Step(s, []) else Step(s, StoreFlushes)
  }

  /** `flush_final`: takes the flag with a swap and never gives it back. */
  function FinalStep(s: MonitorState): (st: Step)
    ensures st.state.flushInProgress
    ensures s.flushInProgress ==> st == Step(s, [])
    ensures !s.flushInProgress ==>
              !st.state.captureRunning &&
              |st.events| == 6 && st.events[0] == StopCapture &&
              st.events[1..5] == IntervalStep(s).events &&
              st.events[5] == SyncBarrier
  {
    if s.flushInProgress then Step(s, [])
    else
      var stopped := StopCaptureStep(s.(flushInProgress := true));
      Step(stopped.state, stopped.events + StoreFlushes + [SyncBarrier])
  }

  /** The public operations of the module. */
  datatype Op = StopCaptureOp | CaptureEnabledOp | FlushIntervalOp | FlushManualOp | FlushFinalOp

  predicate IsFlushOp(op: Op) {
    op == FlushIntervalOp || op == FlushManualOp || op == FlushFinalOp
  }

  /** One operation: none clears the flush flag or turns capture back on,
      and only `stop_capture` and `flush_final` change a flag at all. */
  function Apply(s: MonitorState, op: Op): (st: Step)
    ensures s.flushInProgress ==> st.state.flushInProgress
    ensures st.state.captureRunning ==> s.captureRunning
    ensures op != StopCaptureOp && op != FlushFinalOp ==> st.state == s
  {
    match op
    case StopCaptureOp => StopCaptureStep(s)
    case CaptureEnabledOp => Step(s, [])
    case FlushIntervalOp => IntervalStep(s)
    case FlushManualOp => IntervalStep(s)
    case FlushFinalOp => FinalStep(s)
  }

  /** Operations run one after another. */
  function Run(s: MonitorState, ops: seq<Op>): (st: Step)
    ensures s.flushInProgress ==> st.state.flushInProgress
    ensures st.state.captureRunning ==> s.captureRunning
    decreases |ops|
  {
    if ops == [] then Step(s, [])
    else
      var first := Apply(s, ops[0]);
      var rest := Run(first.state, ops[1..]);
      Step(rest.state, first.events + rest.events)
  }

  /** The capture gate is one-way: no sequence of operations turns it back on,
      and once `stop_capture` has run it stays off. */
  lemma {:induction false} CaptureGateIsOneWay(s: MonitorState, ops: seq<Op>)
    ensures Run(s, ops).state.captureRunning ==> s.captureRunning
    ensures StopCaptureOp in ops ==> !Run(s, ops).state.captureRunning
    decreases |ops|
  {
    if ops != [] {
      CaptureGateIsOneWay(Apply(s, ops[0]).state, ops[1..]);
      if ops[0] != StopCaptureOp {
        assert StopCaptureOp in ops ==> StopCaptureOp in ops[1..];
      }
    }
  }

  /** No operation clears `FLUSH_IN_PROGRESS`. */
  lemma {:induction false} FlushFlagIsNeverCleared(s: MonitorState, ops: seq<Op>)
    requires s.flushInProgress
    ensures Run(s, ops).state.flushInProgress
    ensures forall k :: 0 <= k < |Run(s, ops).events| ==> !IsFlushStep(Run(s, ops).events[k])
    decreases |ops|
  {
    if ops != [] {
      FlushFlagIsNeverCleared(Apply(s, ops[0]).state, ops[1..]);
    }
  }

  /** After one `flush_final`, every later flush entry point is a no-op: no
      store, no `persist_all`, no barrier, and the flags stay as they are. */
  lemma {:induction false} FlushesAfterFinalAreNoOps(s: MonitorState, ops: seq<Op>)
    requires forall k :: 0 <= k < |ops| ==> IsFlushOp(ops[k])
    ensures var after := FinalStep(s).state;
            Run(after, ops) == Step(after, [])
    decreases |ops|
  {
    if ops != [] {
      FlushesAfterFinalAreNoOps(FinalStep(s).state, ops[1..]);
      assert FinalStep(FinalStep(s).state).state == FinalStep(s).state;
    }
  }

  function CountBarriers(events: seq<Event>): nat {
    if events == [] then 0
    else (if events[0] == SyncBarrier then 1 else 0) + CountBarriers(events[1..])
  }

  lemma {:induction false} CountBarriersAppend(a: seq<Event>, b: seq<Event>)
    ensures CountBarriers(a + b) == CountBarriers(a) + CountBarriers(b)
    decreases |a|
  {
    if a == [] {
      assert a + b == b;
    } else {
      assert (a + b)[1..] == a[1..] + b;
      CountBarriersAppend(a[1..], b);
    }
  }

  /** The final sequence runs at most once: from any state, a run of
      operations reaches the sync barrier at most once, and not at all when
      the flag is already set. */
  lemma {:induction false} BarrierRunsAtMostOnce(s: MonitorState, ops: seq<Op>)
    ensures CountBarriers(Run(s, ops).events) <= if s.flushInProgress then 0 else 1
    decreases |ops|
  {
    if ops != [] {
      var first := Apply(s, ops[0]);
      BarrierRunsAtMostOnce(first.state, ops[1..]);
      CountBarriersAppend(first.events, Run(first.state, ops[1..]).events);
      if ops[0] == FlushFinalOp && !s.flushInProgress {
        assert first.events == [StopCapture] + StoreFlushes + [SyncBarrier];
        CountBarriersAppend([StopCapture] + StoreFlushes, [SyncBarrier]);
        CountBarriersAppend([StopCapture], StoreFlushes);
      } else {
        assert SyncBarrier !in first.events;
        NoBarrierCountsZero(first.events);
      }
    }
  }

  lemma {:induction false} NoBarrierCountsZero(events: seq<Event>)
    requires SyncBarrier !in events
    ensures CountBarriers(events) == 0
    decreases |events|
  {
    if events != [] {
      assert SyncBarrier !in events[1..];
      NoBarrierCountsZero(events[1..]);
    }
  }

  /** The flush entry points of the module, with both flags as fields and the
      observable steps recorded in a ghost trace. */
  class FlushMonitor {
    var flushInProgress: bool
    var captureRunning: bool
    ghost var trace: seq<Event>

    function State(): MonitorState
      reads this
    {
      MonitorState(flushInProgress, captureRunning)
    }

    /** The process starts with no flush running and capture on. */
    constructor ()
      ensures State() == Initial && trace == []
    {
      flushInProgress := false;
      captureRunning := true;
      trace := [];
    }

    /** `stop_capture`: `CAPTURE_RUNNING.store(false)`. */
    method StopCapture()
      modifies this
      ensures var st := StopCaptureStep(old(State()));
              State() == st.state && trace == old(trace) + st.events
    {
      captureRunning := false;
      trace := trace + [Event.StopCapture];
    }

    /** `capture_enabled`: `CAPTURE_RUNNING.load()`. */
    method CaptureEnabled() returns (enabled: bool)
      ensures enabled == captureRunning
    {
      enabled := captureRunning;
    }

    /** `d::flush().await`; its outcome is not looked at. */
    method FlushStore(d: Domain)
      modifies this`trace
      ensures trace == old(trace) + [Flush(d)]
    {
      trace := trace + [Flush(d)];
    }

    /** The three stores in this file's order, then `persist_all().await`. */
    method FlushStoresAndPersist()
      modifies this`trace
      ensures trace == old(trace) + StoreFlushes
    {
      FlushStore(Connection);
      FlushStore(Dns);
      FlushStore(Traffic);
      trace := trace + [Event.PersistAll];
    }

    /** `flush_interval`. */
    method FlushInterval()
      modifies this
      ensures var st := IntervalStep(old(State()));
              State() == st.state && trace == old(trace) + st.events
    {
      if flushInProgress {
        return;
      }
      FlushStoresAndPersist();
    }

    /** `flush_manual`: exactly `flush_interval`. */
    method FlushManual()
      modifies this
      ensures var st := IntervalStep(old(State()));
              State() == st.state && trace == old(trace) + st.events
    {
      FlushInterval();
    }

    /** `flush_final`. */
    method FlushFinal()
      modifies this
      ensures var st := FinalStep(old(State()));
              State() == st.state && trace == old(trace) + st.events
    {
      // `FLUSH_IN_PROGRESS.swap(true)`
      var wasInProgress := flushInProgress;
      flushInProgress := true;
      if wasInProgress {
        return;
      }
      FinalSequence();
    }

    /** What `flush_final` does once its swap has taken the flag: stop
        capture, flush and persist, then the sync barrier. */
    method FinalSequence()
      requires flushInProgress
      modifies this
      ensures flushInProgress && !captureRunning
      ensures trace == old(trace) + [Event.StopCapture] + StoreFlushes + [Event.SyncBarrier]
    {
      StopCapture();
      FlushStoresAndPersist();
      // `storage::sync_barrier()`: an error is only logged
      trace := trace + [Event.SyncBarrier];
    }
  }
}
