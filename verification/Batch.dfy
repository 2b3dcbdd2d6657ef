/** How a run of the core turns the queued controller events into a dispatched batch of tasks. */
module Batch {
  import opened Queues

  const CONTROLLERS := 18
  const CAPACITY := 128

  /** An event with its controller; a time event is queued for every controller on each run. */
  datatype Event = Time(controller: nat, us: nat) | Other(controller: nat, kind: nat)

  function TimeEvents(us: nat, n: nat): (es: seq<Event>)
    ensures |es| == n && forall i :: 0 <= i < n ==> es[i] == Time(i, us)
  {
    seq(n, (i: nat) => Time(i, us))
  }

  /** The core with its three queues; a task is the event it handles. */
  class Core {
    const controllerEventQueue: MpmcQueue<Event>
    const pendingTaskQueue: MpmcQueue<Event>
    const runningTaskQueue: MpmcQueue<Event>

    ghost predicate Valid()
      reads this, controllerEventQueue, pendingTaskQueue, runningTaskQueue
    {
      && controllerEventQueue != pendingTaskQueue && controllerEventQueue != runningTaskQueue
      && pendingTaskQueue != runningTaskQueue
      && controllerEventQueue.Valid() && pendingTaskQueue.Valid() && runningTaskQueue.Valid()
      && controllerEventQueue.capacity == pendingTaskQueue.capacity == runningTaskQueue.capacity == CAPACITY
    }

    constructor ()
      ensures Valid() && controllerEventQueue.queue == pendingTaskQueue.queue == runningTaskQueue.queue == []
    {
      controllerEventQueue := new MpmcQueue<Event>(CAPACITY);
      pendingTaskQueue := new MpmcQueue<Event>(CAPACITY);
      runningTaskQueue := new MpmcQueue<Event>(CAPACITY);
    }

    /** Queues the time events. Nothing drains the queue meanwhile, so that this is stuck if and only
        if they do not all fit. */
    method EnqueueTimeEvents(us: nat) returns (stuck: bool)
      requires Valid()
      modifies controllerEventQueue
      ensures Valid() && (stuck <==> |old(controllerEventQueue.queue)| + 18 > 128)
      ensures !stuck ==> controllerEventQueue.queue == old(controllerEventQueue.queue) + TimeEvents(us, 18)
    {
      for i := 0 to CONTROLLERS
        invariant Valid()
        invariant controllerEventQueue.queue == old(controllerEventQueue.queue) + TimeEvents(us, i)
      {
        var pushed, notified := controllerEventQueue.TryPush(Time(i, us));
        if !pushed {
          return true;
        }
        assert TimeEvents(us, i + 1) == TimeEvents(us, i) + [Time(i, us)];
      }
      stuck := false;
    }

    /** Makes a task of every event, in order; no push waits for room. */
    method EnqueueTasks()
      requires Valid() && pendingTaskQueue.queue == []
      modifies controllerEventQueue, pendingTaskQueue
      ensures Valid() && controllerEventQueue.queue == []
      ensures pendingTaskQueue.queue == old(controllerEventQueue.queue)
    {
      var event, waking := controllerEventQueue.TryPop(null);
      while event.Some?
        invariant Valid()
        invariant pendingTaskQueue.queue + (if event.Some? then [event.value] else []) + controllerEventQueue.queue
               == old(controllerEventQueue.queue)
        invariant event.None? ==> controllerEventQueue.queue == []
        decreases |controllerEventQueue.queue|, event.Some?
      {
        assert |old(controllerEventQueue.queue)| <= CAPACITY;
        var pushed, notified := pendingTaskQueue.TryPush(event.value);
        event, waking := controllerEventQueue.TryPop(null);
      }
    }

    /** Hands every pending task over, in order; with room for all of them no push waits. */
    method Dispatch()
      requires Valid() && |pendingTaskQueue.queue| + |runningTaskQueue.queue| <= CAPACITY
      modifies pendingTaskQueue, runningTaskQueue
      ensures Valid() && pendingTaskQueue.queue == []
      ensures runningTaskQueue.queue == old(runningTaskQueue.queue) + old(pendingTaskQueue.queue)
    {
      while !pendingTaskQueue.IsEmpty()
        invariant Valid()
        invariant runningTaskQueue.queue + pendingTaskQueue.queue
               == old(runningTaskQueue.queue) + old(pendingTaskQueue.queue)
        decreases |pendingTaskQueue.queue|
      {
        ghost var total := runningTaskQueue.queue + pendingTaskQueue.queue;
        assert |total| <= CAPACITY;
        var task, waking := pendingTaskQueue.TryPop(null);
        var pushed, notified := runningTaskQueue.TryPush(task.value);
        assert runningTaskQueue.queue + pendingTaskQueue.queue == total;
      }
    }

    /** Builds and dispatches the batch of a run that starts with the executor idle. It is stuck
        exactly if more than 110 events are queued on entry; otherwise the batch is those events and
        then the time events, in order, and no push ever waits. */
    method DispatchBatch(us: nat) returns (stuck: bool)
      requires Valid() && pendingTaskQueue.queue == [] && runningTaskQueue.queue == []
      modifies controllerEventQueue, pendingTaskQueue, runningTaskQueue
      ensures Valid() && (stuck <==> |old(controllerEventQueue.queue)| > 110)
      ensures !stuck ==>
                && controllerEventQueue.queue == [] && pendingTaskQueue.queue == []
                && runningTaskQueue.queue == old(controllerEventQueue.queue) + TimeEvents(us, 18)
    {
      stuck := EnqueueTimeEvents(us);
      if !stuck {
        EnqueueTasks();
        Dispatch();
      }
    }
  }
}
