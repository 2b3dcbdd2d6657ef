/** Runs of the core, one batch after another, on the same executor. */
module CoreRun {
  import opened Wrappers
  import opened Executor
  import opened Batch

  /** One run of the core: the events queued before it, the length of its time slice, the events whose
      handlers throw, and the schedule of the threads. */
  datatype Slice = Slice(queued: seq<Event>, us: nat, failing: set<Event>, schedule: seq<Actor>) {

    function Events(): seq<Event> { queued + TimeEvents(us, CONTROLLERS) }

    /** The tasks that are dispatched: one for each event, in order. */
    function Tasks(): (ts: seq<Task>)
      ensures |ts| == |queued| + CONTROLLERS
    {
      var events := Events();
      seq(|events|, (i: nat) requires i < |events| => Task(i, events[i] in failing))
    }
  }

  function Dispatched(s: State, slice: Slice): State
  {
    s.(main := Dispatching, pending := slice.Tasks(), ran := [])
  }

  /** The executor after a sequence of runs of the core, each of which has returned or thrown. */
  function RunSlices(s: State, slices: seq<Slice>): Option<State>
  {
    if slices == [] then Some(s)
    else
      var (before, slice) := (RunSlices(s, slices[..|slices| - 1]), slices[|slices| - 1]);
      if before.None? then None
      else
        var after := Run(Dispatched(before.value, slice), slice.schedule);
        if after.Some? && Ended(after.value) then after else None
  }

  /** Errors found by the last of these runs: those left over and its own. */
  function ErrorsFound(slices: seq<Slice>): nat
    decreases |slices|, 0
  {
    if slices == [] then 0
    else ErrorsLeft(slices[..|slices| - 1]) + Throwing(slices[|slices| - 1].Tasks())
  }

  /** Errors left over: every run that finds an error throws one of them. */
  function ErrorsLeft(slices: seq<Slice>): nat
    decreases |slices|, 1
  {
    if ErrorsFound(slices) == 0 then 0 else ErrorsFound(slices) - 1
  }

  function MainSteps(n: nat): seq<Actor> { seq(n, _ => MainThread) }

  /** The main thread, left alone, hands over the first n pending tasks. */
  lemma {:induction false} HandsOver(s: State, n: nat)
    requires s.main.Dispatching? && s.lock.None? && n <= |s.pending| && |s.running| + n <= RUNNING_CAPACITY
    ensures Run(s, MainSteps(n)) == Some(s.(pending := s.pending[n..], running := s.running + s.pending[..n]))
  {
    if n == 0 {
      assert s.running + s.pending[..0] == s.running;
    } else {
      HandsOver(s, n - 1);
      assert MainSteps(n)[..n - 1] == MainSteps(n - 1) && MainSteps(n)[n - 1] == MainThread;
      assert s.pending[n - 1..][1..] == s.pending[n..] && s.pending[n - 1..][0] == s.pending[n - 1];
      assert (s.running + s.pending[..n - 1]) + [s.pending[n - 1]] == s.running + s.pending[..n];
      assert Run(s, MainSteps(n)) == Act(Run(s, MainSteps(n - 1)).value, MainThread);
    }
  }

  /** Idle between runs. */
  predicate Idling(s: State) { Initial(s.(main := Dispatching, pending := [], ran := [])) }

  lemma IdleStarts(s: State, slice: Slice)
    requires Idling(s)
    ensures Initial(Dispatched(s, slice))
  {
  }

  /** Building and dispatching a batch gives the running queue of the executor's protocol: the queue
      holds the events of the run in order, and the main thread, dispatching the tasks of exactly
      these events, fills the protocol's running queue with them, one for each event. */
  method DispatchSlice(core: Core, slice: Slice, ghost s: State) returns (stuck: bool)
    requires core.Valid() && core.pendingTaskQueue.queue == [] && core.runningTaskQueue.queue == []
    requires Idling(s) && slice.queued == core.controllerEventQueue.queue
    modifies core.controllerEventQueue, core.pendingTaskQueue, core.runningTaskQueue
    ensures core.Valid() && (stuck <==> |slice.queued| > 110)
    ensures !stuck ==>
      var events := core.runningTaskQueue.queue;
      var after := Run(Dispatched(s, slice), MainSteps(|events|));
      && events == slice.Events() && core.controllerEventQueue.queue == [] && core.pendingTaskQueue.queue == []
      && after == Some(Dispatched(s, slice).(pending := [], running := slice.Tasks()))
      && forall i :: 0 <= i < |events| ==> slice.Tasks()[i] == Task(i, events[i] in slice.failing)
  {
    stuck := core.DispatchBatch(slice.us);
    if !stuck {
      IdleStarts(s, slice);
      var start := Dispatched(s, slice);
      HandsOver(start, |slice.Tasks()|);
      assert start.pending[|start.pending|..] == [] && [] + start.pending[..|start.pending|] == slice.Tasks();
    }
  }

  /** wait_for_idle takes one error out if there is one. */
  lemma ErrorsAtEnd(s0: State, schedule: seq<Actor>)
    requires Initial(s0) && Run(s0, schedule).Some? && Ended(Run(s0, schedule).value)
    ensures
      var (s, found) := (Run(s0, schedule).value, |s0.errors| + Throwing(s0.pending));
      |s.errors| == if found == 0 then 0 else found - 1
  {
    RunKeepsInv(s0, schedule);
    Barrier(s0, schedule);
    var s := Run(s0, schedule).value;
    NoneBusy(s.workers);
    ThrowingMonotone(s.ran, s0.pending);
    ThrowingMonotone(s0.pending, s.ran);
  }

  /** Over any number of runs that have each ended: each run's tasks have all run
      exactly once when it ends, it throws if and only if it finds an error of its own or one left
      over by an earlier run, errors are thrown one a run, and the executor is idle again. */
  lemma {:induction false} SlicesComplete(s0: State, slices: seq<Slice>)
    requires Idling(s0) && s0.errors == [] && RunSlices(s0, slices).Some?
    ensures
      var s := RunSlices(s0, slices).value;
      && Idling(s) && |s.errors| == ErrorsLeft(slices)
      && (slices != [] ==>
            && multiset(s.ran) == multiset(slices[|slices| - 1].Tasks())
            && ErrorsFound(slices) <= 32
            && (s.main.Threw? <==> ErrorsFound(slices) > 0))
    decreases |slices|
  {
    if slices == [] {
    } else {
      var (before, slice) := (slices[..|slices| - 1], slices[|slices| - 1]);
      SlicesComplete(s0, before);
      var s1 := RunSlices(s0, before).value;
      IdleStarts(s1, slice);
      Barrier(Dispatched(s1, slice), slice.schedule);
      ErrorsAtEnd(Dispatched(s1, slice), slice.schedule);
    }
  }

  lemma {:induction false} NoneThrow(ts: seq<Task>)
    requires forall i :: 0 <= i < |ts| ==> !ts[i].throws
    ensures Throwing(ts) == 0
  {
    if ts == [] {
    } else {
      NoneThrow(ts[..|ts| - 1]);
    }
  }

  /** A run whose handlers all succeed still throws exactly if an earlier run left an error. */
  lemma LeftOverErrorThrows(s0: State, slices: seq<Slice>)
    requires Idling(s0) && s0.errors == [] && slices != [] && RunSlices(s0, slices).Some?
    requires slices[|slices| - 1].failing == {}
    ensures RunSlices(s0, slices).value.main.Threw? <==> ErrorsLeft(slices[..|slices| - 1]) > 0
  {
    SlicesComplete(s0, slices);
    NoneThrow(slices[|slices| - 1].Tasks());
  }

  /** No run ever finds the running queue full, and none can be stuck: while it has not ended some
      thread can step, if there is a worker and room for the errors found. */
  lemma SliceProceeds(s: State, slice: Slice, schedule: seq<Actor>)
    requires Idling(s) && Run(Dispatched(s, slice), schedule).Some? && SpuriousWake !in schedule
    requires |slice.queued| <= 110 && |s.workers| > 0
    requires |s.errors| + Throwing(slice.Tasks()) <= 32
    ensures
      var s' := Run(Dispatched(s, slice), schedule).value;
      && (s'.main.Dispatching? && s'.pending != [] && s'.lock.None? ==> MainStep(s').Some?)
      && |schedule| <= Measure(Dispatched(s, slice))
      && (Ended(s') || exists a :: Act(s', a).Some? && !a.SpuriousWake?)
  {
    IdleStarts(s, slice);
    DispatchHasRoom(Dispatched(s, slice), schedule);
    BatchEnds(Dispatched(s, slice), schedule);
  }
}
