/** The bounded multi-producer queue and the busy counter, one mutex-held section at a time. */
module Queues {
  import opened Wrappers

  class BusyCounter {
    var busyCounter: int

    constructor ()
      ensures busyCounter == 0
    {
      busyCounter := 0;
    }

    method Increment()
      modifies this
      ensures busyCounter == old(busyCounter) + 1
    {
      busyCounter := busyCounter + 1;
    }

    method Decrement()
      modifies this
      ensures busyCounter == old(busyCounter) - 1
    {
      busyCounter := busyCounter - 1;
    }
  }

  /** The condition variables of a queue; one waiter of each is woken at a time. */
  datatype Condition = PopCv | PushCv | EmptyCv | FullCv

  class MpmcQueue<T> {
    const capacity: nat
    var queue: seq<T>

    ghost predicate Valid()
      reads this
    {
      |queue| <= capacity
    }

    constructor (capacity: nat)
      ensures Valid() && this.capacity == capacity && queue == []
    {
      this.capacity, queue := capacity, [];
    }

    predicate IsEmpty()
      reads this
      ensures IsEmpty() <==> queue == []
    {
      |queue| == 0
    }

    predicate IsFull()
      reads this
      requires Valid()
      ensures IsFull() <==> |queue| == capacity
    {
      |queue| >= capacity
    }

    /** Takes the oldest item if there is one. The counter, if given, is raised under the lock and
        before the item leaves, exactly if an item is taken. */
    method TryPop(counter: BusyCounter?) returns (item: Option<T>, notified: set<Condition>)
      requires Valid()
      modifies this, counter
      ensures Valid() && (item.None? <==> old(queue) == [])
      ensures old(queue) == (if item.Some? then [item.value] else []) + queue
      ensures counter != null ==> counter.busyCounter == old(counter.busyCounter) + if item.Some? then 1 else 0
      ensures PopCv in notified <==> item.Some?
      ensures EmptyCv in notified <==> item.Some? && queue == []
      ensures notified <= {PopCv, EmptyCv}
    {
      if IsEmpty() {
        return None, {};
      }
      item := PopLocked(counter);
      notified := if IsEmpty() then {EmptyCv, PopCv} else {PopCv};
    }

    /** Runs the caller's function and then pops, with the lock held. */
    method PopLocked(counter: BusyCounter?) returns (item: Option<T>)
      requires Valid() && queue != []
      modifies this, counter
      ensures Valid() && item == Some(old(queue)[0]) && queue == old(queue)[1..]
      ensures counter != null ==> counter.busyCounter == old(counter.busyCounter) + 1
    {
      if counter != null {
        counter.Increment();
      }
      item := Some(queue[0]);
      queue := queue[1..];
    }

    /** Adds an item if there is room; a push would wait for it. */
    method TryPush(item: T) returns (pushed: bool, notified: set<Condition>)
      requires Valid()
      modifies this
      ensures Valid() && (pushed <==> |old(queue)| < capacity)
      ensures queue == old(queue) + if pushed then [item] else []
      ensures PushCv in notified <==> pushed
      ensures FullCv in notified <==> pushed && |queue| == capacity
      ensures notified <= {PushCv, FullCv}
    {
      if IsFull() {
        return false, {};
      }
      queue := queue + [item];
      pushed, notified := true, if IsFull() then {FullCv, PushCv} else {PushCv};
    }
  }

  /** One pass of a worker: takes a task with the counter raised, runs it, queues its error if it
      throws and lowers the counter. The push of the error waits if there is no room, with the
      counter still raised. */
  method WorkOnce<T>(tasks: MpmcQueue<T>, errors: MpmcQueue<T>, counter: BusyCounter, throws: T -> bool)
    returns (ran: Option<T>, stuck: bool)
    requires tasks.Valid() && errors.Valid() && tasks != errors
    modifies tasks, errors, counter
    ensures tasks.Valid() && errors.Valid()
    ensures old(tasks.queue) == (if ran.Some? then [ran.value] else []) + tasks.queue
    ensures ran.None? <==> old(tasks.queue) == []
    ensures stuck <==> ran.Some? && throws(ran.value) && |old(errors.queue)| == errors.capacity
    ensures errors.queue
         == old(errors.queue) + if !stuck && ran.Some? && throws(ran.value) then [ran.value] else []
    ensures counter.busyCounter == old(counter.busyCounter) + if stuck then 1 else 0
  {
    var notified;
    ran, notified := tasks.TryPop(counter);
    stuck := false;
    if ran.Some? {
      if throws(ran.value) {
        var pushed, waking := errors.TryPush(ran.value);
        stuck := !pushed;
      }
      if !stuck {
        counter.Decrement();
      }
    }
  }
}
