/** `flush_all(stop_service)` of bandix/tmp/correct_flush_all.rs: a single
    flush path guarded by the process-wide `FLUSH_IN_PROGRESS` flag. Each
    `swap`/`store` of the flag is one step of a sequential call; interleavings
    of concurrent calls are not modelled. */
module Command {
  import opened Wrappers
  import opened Events

  const BusyMessage: string := "Flush in progress"

  /** The order in which this version flushes the stores. */
  const StoreOrder: seq<Domain> := [Traffic, Connection, Dns]

  /** The steps and the result of a sequence of store flushes. */
  datatype Attempt = Attempt(events: seq<Event>, result: Result<(), string>)

  /** `a::flush().await?; b::flush().await?; ...` over `order`: each store is
      flushed in turn and the first error ends the sequence. */
  function FlushStores(order: seq<Domain>, stores: StoreOutcomes): (a: Attempt)
    ensures 1 <= |a.events| <= |order| || (order == [] && a.events == [])
    ensures forall k :: 0 <= k < |a.events| ==> a.events[k] == Flush(order[k])
    ensures forall k :: 0 <= k < |a.events| - 1 ==> stores.Of(order[k]).Ok?
    ensures a.result.Ok? <==> forall k :: 0 <= k < |order| ==> stores.Of(order[k]).Ok?
    ensures a.result.Ok? ==> |a.events| == |order| && a.result == Ok(())
    ensures a.result.Err? ==> a.result == stores.Of(order[|a.events| - 1])
    decreases |order|
  {
    if order == [] then Attempt([], Ok(()))
    else
      var first := stores.Of(order[0]);
      if first.Err? then Attempt([Flush(order[0])], first)
      else
        var rest := FlushStores(order[1..], stores);
        assert forall k :: 1 <= k < |order| ==> order[k] == order[1..][k - 1];
        Attempt([Flush(order[0])] + rest.events, rest.result)
  }

  predicate AllStoresOk(stores: StoreOutcomes) {
    stores.traffic.Ok? && stores.connection.Ok? && stores.dns.Ok?
  }

  /** The body that runs while the flag is held: the stores, then the sync
      barrier when the service stops and every store succeeded. */
  function FlushSequence(stopService: bool, stores: StoreOutcomes): (a: Attempt)
    ensures stores.traffic.Err? ==> a == Attempt([Flush(Traffic)], stores.traffic)
    ensures stores.traffic.Ok? && stores.connection.Err? ==>
              a == Attempt([Flush(Traffic), Flush(Connection)], stores.connection)
    ensures stores.traffic.Ok? && stores.connection.Ok? && stores.dns.Err? ==>
              a == Attempt([Flush(Traffic), Flush(Connection), Flush(Dns)], stores.dns)
    ensures AllStoresOk(stores) ==>
              a == Attempt([Flush(Traffic), Flush(Connection), Flush(Dns)]
                           + (if stopService then [SyncBarrier] else []), Ok(()))
  {
    var flushed := FlushStores(StoreOrder, stores);
    assert forall k :: 0 <= k < |StoreOrder| ==> StoreOrder[k] in {Traffic, Connection, Dns};
    assert AllStoresOk(stores) <==> forall k :: 0 <= k < |StoreOrder| ==> stores.Of(StoreOrder[k]).Ok?;
    Attempt(flushed.events + (if stopService && flushed.result.Ok? then [SyncBarrier] else []),
            flushed.result)
  }

  /** One call: its steps, its result and the flag afterwards. */
  datatype FlushRun = FlushRun(events: seq<Event>, result: Result<(), string>, inProgressAfter: bool)

  /** `flush_all(stop_service)` from a given value of `FLUSH_IN_PROGRESS`. */
  function FlushAllRun(inProgress: bool, stopService: bool, stores: StoreOutcomes): (run: FlushRun)
    ensures inProgress ==> run == FlushRun([], Err(BusyMessage), true)
    ensures !inProgress ==> !run.inProgressAfter
    ensures !inProgress ==> (run.result.Ok? <==> AllStoresOk(stores))
    ensures SyncBarrier in run.events <==> !inProgress && stopService && AllStoresOk(stores)
    ensures StopCapture !in run.events && PersistAll !in run.events
    ensures forall k :: 0 <= k < |run.events| && run.events[k].Flush? ==>
              k < |StoreOrder| && run.events[k] == Flush(StoreOrder[k])
  {
    if inProgress then FlushRun([], Err(BusyMessage), true)
    else
      var a := FlushSequence(stopService, stores);
      FlushRun(a.events, a.result, false)
  }

  /** `stop_service` adds the sync barrier after a fully successful flush and
      changes nothing else. */
  lemma StopServiceOnlyAddsBarrier(inProgress: bool, stores: StoreOutcomes)
    ensures var stopping := FlushAllRun(inProgress, true, stores);
            var running := FlushAllRun(inProgress, false, stores);
            stopping.result == running.result && stopping.inProgressAfter == running.inProgressAfter &&
            stopping.events == running.events + (if !inProgress && AllStoresOk(stores) then [SyncBarrier] else [])
  {
  }

  /** One call made by a sequential caller. */
  datatype Call = Call(stopService: bool, stores: StoreOutcomes)

  /** Calls made one after another, each seeing the flag the previous left. */
  function RunCalls(inProgress: bool, calls: seq<Call>): (runs: seq<FlushRun>)
    ensures |runs| == |calls|
    decreases |calls|
  {
    if calls == [] then []
    else
      var run := FlushAllRun(inProgress, calls[0].stopService, calls[0].stores);
      [run] + RunCalls(run.inProgressAfter, calls[1..])
  }

  /** A call that got past the guard: it flushed the traffic store first
      and left the flag clear. */
  predicate GotThrough(run: FlushRun) {
    run.events != [] && run.events[0] == Flush(Traffic) && !run.inProgressAfter
  }

  /** A call that finds the flag clear gets through, whatever the stores
      return. */
  lemma IdleCallGetsThrough(stopService: bool, stores: StoreOutcomes)
    ensures GotThrough(FlushAllRun(false, stopService, stores))
  {
    var a := FlushStores(StoreOrder, stores);
    assert a.events != [] && a.events[0] == Flush(Traffic);
  }

  /** Because the deferred store releases the flag on every exit path, a
      caller that runs after the previous call returned is never turned away:
      starting idle, every call of a sequence gets through. */
  lemma {:induction false} SequentialCallsAreNeverTurnedAway(calls: seq<Call>)
    ensures forall k :: 0 <= k < |calls| ==> GotThrough(RunCalls(false, calls)[k])
    decreases |calls|
  {
    if calls != [] {
      var run := FlushAllRun(false, calls[0].stopService, calls[0].stores);
      IdleCallGetsThrough(calls[0].stopService, calls[0].stores);
      SequentialCallsAreNeverTurnedAway(calls[1..]);
      var rest := RunCalls(false, calls[1..]);
      var runs := RunCalls(false, calls);
      assert runs == [run] + rest;
      forall k | 1 <= k < |runs|
        ensures GotThrough(runs[k])
      {
        var j := k - 1;
        assert runs[k] == rest[j];
        assert GotThrough(rest[j]);
      }
    }
  }

  /** The flush command, with the flag as a field and the observable steps
      recorded in a ghost trace. */
  class FlushCommand {
    var flushInProgress: bool
    ghost var trace: seq<Event>

    constructor ()
      ensures !flushInProgress && trace == []
    {
      flushInProgress := false;
      trace := [];
    }

    /** `d::flush().await`, whose outcome is given; it runs only while the
        flag is held. */
    method FlushStore(d: Domain, stores: StoreOutcomes) returns (r: Result<(), string>)
      requires flushInProgress
      modifies this`trace
      ensures r == stores.Of(d)
      ensures trace == old(trace) + [Flush(d)]
    {
      r := stores.Of(d);
      trace := trace + [Flush(d)];
    }

    /** Everything between the `defer!` and the end of `flush_all`, which
        runs with the flag held. */
    method RunSequence(stopService: bool, stores: StoreOutcomes) returns (r: Result<(), string>)
      requires flushInProgress
      modifies this`trace
      ensures var a := FlushSequence(stopService, stores);
              r == a.result && trace == old(trace) + a.events
    {
      r := FlushStore(Traffic, stores);
      if r.Err? {
        return;
      }
      r := FlushStore(Connection, stores);
      if r.Err? {
        return;
      }
      r := FlushStore(Dns, stores);
      if r.Err? {
        return;
      }
      if stopService {
        // `Command::new("sync").status()`: its outcome is discarded
        trace := trace + [SyncBarrier];
      }
      r := Ok(());
    }

    /** `flush_all(stop_service)`. */
    method FlushAll(stopService: bool, stores: StoreOutcomes) returns (r: Result<(), string>)
      modifies this
      ensures var run := FlushAllRun(old(flushInProgress), stopService, stores);
              r == run.result && flushInProgress == run.inProgressAfter &&
              trace == old(trace) + run.events
    {
      // `FLUSH_IN_PROGRESS.swap(true)`
      var wasInProgress := flushInProgress;
      flushInProgress := true;
      if wasInProgress {
        return Err(BusyMessage);
      }
      // `defer!(FLUSH_IN_PROGRESS.store(false))` runs after the sequence,
      // whichever way the sequence returns
      r := RunSequence(stopService, stores);
      flushInProgress := false;
    }
  }
}
