/** The task executor as a protocol between the main thread and any number of workers. A step is
    what one thread does while it holds a mutex, or between two of them. */
module Executor {
  import opened Wrappers

  datatype Task = Task(id: nat, throws: bool)

  const RUNNING_CAPACITY := 128
  const ERROR_CAPACITY := 32

  /** A worker holds the lock of the running queue when Locked (it has seen a task), Raised (it has
      raised the busy counter) and Popped (it has taken the task, and is still to notify). It has
      lowered the counter, and is still to notify, when Notifying. */
  datatype Worker = Idle | Locked | Raised | Popped(task: Task) | Running(task: Task) | Erring(task: Task)
                  | Done | Notifying

  /** The main thread dispatches the pending tasks, and checks or sleeps on the two conditions. */
  datatype Main = Dispatching | CheckEmpty | AsleepEmpty | CheckIdle | AsleepIdle | Passed | Finished | Threw(task: Task)

  datatype State = State(main: Main, pending: seq<Task>, running: seq<Task>, lock: Option<nat>,
                         counter: int, workers: seq<Worker>, errors: seq<Task>, ran: seq<Task>)

  // ---------------------------------------------------------------- steps

  predicate HoldsLock(w: Worker) { w.Locked? || w.Raised? || w.Popped? }

  /** Between the raising and the lowering of the busy counter. */
  predicate Busy(w: Worker) { w.Raised? || w.Popped? || w.Running? || w.Erring? || w.Done? }

  function WakeEmpty(m: Main): Main { if m.AsleepEmpty? then CheckEmpty else m }
  function WakeIdle(m: Main): Main { if m.AsleepIdle? then CheckIdle else m }

  function At(s: State, i: nat, w: Worker): State
    requires i < |s.workers|
  {
    s.(workers := s.workers[i := w])
  }

  /** A worker's step, if it is not blocked; an idle worker polls. */
  function WorkerStep(s: State, i: nat): Option<State>
    requires i < |s.workers|
  {
    match s.workers[i]
    case Idle => if s.lock.Some? || s.running == [] then None else Some(At(s, i, Locked).(lock := Some(i)))
    case Locked => Some(At(s, i, Raised).(counter := s.counter + 1))
    case Raised =>
      if s.running == [] then None
      else Some(At(s, i, Popped(s.running[0])).(running := s.running[1..]))
    case Popped(t) =>
      Some(At(s, i, Running(t)).(lock := None, main := if s.running == [] then WakeEmpty(s.main) else s.main))
    case Running(t) => Some(At(s, i, if t.throws then Erring(t) else Done).(ran := s.ran + [t]))
    case Erring(t) =>
      if |s.errors| >= ERROR_CAPACITY then None else Some(At(s, i, Done).(errors := s.errors + [t]))
    case Done => Some(At(s, i, Notifying).(counter := s.counter - 1))
    case Notifying => Some(At(s, i, Idle).(main := WakeIdle(s.main)))
  }

  /** The main thread's step, if it is not blocked or asleep. */
  function MainStep(s: State): Option<State>
  {
    match s.main
    case Dispatching =>
      if s.pending == [] then Some(s.(main := CheckEmpty))
      else if s.lock.Some? || |s.running| >= RUNNING_CAPACITY then None
      else Some(s.(pending := s.pending[1..], running := s.running + [s.pending[0]]))
    case CheckEmpty =>
      if s.lock.Some? then None
      else Some(s.(main := if s.running == [] then CheckIdle else AsleepEmpty))
    case CheckIdle => Some(s.(main := if s.counter == 0 then Passed else AsleepIdle))
    case Passed =>
      if s.errors == [] then Some(s.(main := Finished))
      else Some(s.(main := Threw(s.errors[0]), errors := s.errors[1..]))
    case _ => None
  }

  /** Who moves: the main thread, a worker, or neither, in a spurious wake-up of the main thread. */
  datatype Actor = MainThread | WorkerThread(i: nat) | SpuriousWake

  function Act(s: State, a: Actor): Option<State>
  {
    match a
    case MainThread => MainStep(s)
    case WorkerThread(i) => if i < |s.workers| then WorkerStep(s, i) else None
    case SpuriousWake => Some(s.(main := WakeIdle(WakeEmpty(s.main))))
  }

  // ---------------------------------------------------------------- sums over the workers

  function TasksOf(w: Worker): multiset<Task>
  {
    if w.Popped? || w.Running? then multiset{w.task} else multiset{}
  }

  /** The tasks taken from the queue that have not run. */
  function InFlight(ws: seq<Worker>): multiset<Task>
  {
    if ws == [] then multiset{} else TasksOf(ws[0]) + InFlight(ws[1..])
  }

  function BusyCount(ws: seq<Worker>): nat
  {
    if ws == [] then 0 else (if Busy(ws[0]) then 1 else 0) + BusyCount(ws[1..])
  }

  function ErringCount(ws: seq<Worker>): nat
  {
    if ws == [] then 0 else (if ws[0].Erring? then 1 else 0) + ErringCount(ws[1..])
  }

  function Throwing(ts: seq<Task>): nat
  {
    if ts == [] then 0 else Throwing(ts[..|ts| - 1]) + if ts[|ts| - 1].throws then 1 else 0
  }

  lemma AddBoth(a: multiset<Task>, b: multiset<Task>, c: multiset<Task>, d: multiset<Task>, e: multiset<Task>)
    requires b + c == d + e
    ensures (a + b) + c == (a + d) + e
  {
    assert (a + b) + c == a + (b + c);
    assert (a + d) + e == a + (d + e);
  }

  /** Changing one worker changes the sums by its part in them. */
  lemma {:induction false} OneWorkersTasks(ws: seq<Worker>, i: nat, w: Worker)
    requires i < |ws|
    ensures InFlight(ws[i := w]) + TasksOf(ws[i]) == InFlight(ws) + TasksOf(w)
  {
    var vs := ws[i := w];
    if i == 0 {
      assert vs[1..] == ws[1..];
    } else {
      var (us, b) := (ws[1..], TasksOf(ws[0]));
      assert vs[1..] == us[i - 1 := w] && vs[0] == ws[0];
      OneWorkersTasks(us, i - 1, w);
      AddBoth(b, InFlight(vs[1..]), TasksOf(us[i - 1]), InFlight(us), TasksOf(w));
    }
  }

  lemma {:induction false} OneWorker(ws: seq<Worker>, i: nat, w: Worker)
    requires i < |ws|
    ensures BusyCount(ws[i := w]) + (if Busy(ws[i]) then 1 else 0) == BusyCount(ws) + if Busy(w) then 1 else 0
    ensures ErringCount(ws[i := w]) + (if ws[i].Erring? then 1 else 0)
         == ErringCount(ws) + if w.Erring? then 1 else 0
  {
    var vs := ws[i := w];
    if i == 0 {
      assert vs[1..] == ws[1..];
    } else {
      OneWorker(ws[1..], i - 1, w);
      assert vs[1..] == ws[1..][i - 1 := w] && vs[0] == ws[0];
    }
  }

  lemma {:induction false} NoneBusy(ws: seq<Worker>)
    ensures BusyCount(ws) == 0 <==> forall i :: 0 <= i < |ws| ==> !Busy(ws[i])
    ensures BusyCount(ws) == 0 ==> InFlight(ws) == multiset{} && ErringCount(ws) == 0
    ensures ErringCount(ws) <= BusyCount(ws)
  {
    if ws == [] {
    } else {
      NoneBusy(ws[1..]);
      assert (forall i :: 0 <= i < |ws| ==> !Busy(ws[i])) ==> (forall i :: 0 <= i < |ws[1..]| ==> !Busy(ws[1..][i]));
    }
  }

  // ---------------------------------------------------------------- the invariant

  predicate LockOk(s: State)
  {
    && (s.lock.Some? ==> s.lock.value < |s.workers|)
    && (forall i :: 0 <= i < |s.workers| ==> (HoldsLock(s.workers[i]) <==> s.lock == Some(i)))
    && (forall i :: 0 <= i < |s.workers| && (s.workers[i].Locked? || s.workers[i].Raised?) ==> s.running != [])
  }

  predicate Ended(s: State) { s.main.Finished? || s.main.Threw? }

  /** What the main thread knows once it is past each of its waits. */
  predicate MainOk(s: State)
  {
    && (!s.main.Dispatching? ==> s.pending == [])
    && (s.main.CheckIdle? || s.main.AsleepIdle? || s.main.Passed? || Ended(s) ==> s.running == [])
    && (s.main.Passed? || Ended(s) ==> s.counter == 0)
  }

  /** The worker that holds the lock of the running queue. */
  function Holder(s: State): Worker
  {
    if s.lock.Some? && s.lock.value < |s.workers| then s.workers[s.lock.value] else Idle
  }

  predicate SomeNotifying(ws: seq<Worker>)
  {
    exists i :: 0 <= i < |ws| && ws[i].Notifying?
  }

  /** If the main thread sleeps on a condition that holds, a worker is still to notify it. */
  predicate NoLostWakeUp(s: State)
  {
    && (s.main.AsleepEmpty? && s.running == [] ==> Holder(s).Popped?)
    && (s.main.AsleepIdle? && s.counter == 0 ==> SomeNotifying(s.workers))
  }

  /** Every task of the batch is in exactly one place. */
  predicate TasksConserved(s: State, batch: multiset<Task>)
  {
    multiset(s.pending) + multiset(s.running) + InFlight(s.workers) + multiset(s.ran) == batch
  }

  /** Every task that ran and threw has left an error, or is about to. */
  predicate ErrorsOk(s: State, before: nat)
  {
    && |s.errors| + (if s.main.Threw? then 1 else 0) <= ERROR_CAPACITY
    && |s.errors| + ErringCount(s.workers) + (if s.main.Threw? then 1 else 0) == before + Throwing(s.ran)
    && (s.main.Finished? ==> s.errors == [])
  }

  predicate Inv(s: State, batch: multiset<Task>, before: nat)
  {
    && s.counter == BusyCount(s.workers)
    && LockOk(s) && MainOk(s) && NoLostWakeUp(s) && TasksConserved(s, batch) && ErrorsOk(s, before)
  }

  /** Before a batch: nothing is running, and workers may still be notifying about the last one. */
  predicate Initial(s: State)
  {
    && s.main == Dispatching && s.running == [] && s.lock == None && s.counter == 0 && s.ran == []
    && |s.errors| <= ERROR_CAPACITY
    && forall i :: 0 <= i < |s.workers| ==> s.workers[i].Idle? || s.workers[i].Notifying?
  }

  lemma InitialInv(s: State)
    requires Initial(s)
    ensures Inv(s, multiset(s.pending), |s.errors|)
  {
    NoneBusy(s.workers);
  }

  predicate HandsOn(r: multiset<Task>, r': multiset<Task>, n: multiset<Task>, n': multiset<Task>,
                    held: multiset<Task>, now: multiset<Task>)
  {
    || (r == now + r' && held == multiset{} && n' == n)
    || (r' == r && n' == n && held == now)
    || (r' == r && n' == n + held && now == multiset{})
  }

  lemma PopMoves(q: seq<Task>)
    requires q != []
    ensures multiset(q) == multiset{q[0]} + multiset(q[1..])
  {
    assert q == [q[0]] + q[1..];
  }

  /** A worker that takes a task from the queue holds it then. */
  lemma RaisedHandsOn(s: State, i: nat)
    requires i < |s.workers| && s.workers[i].Raised? && s.running != []
    ensures
      var s' := WorkerStep(s, i).value;
      && s'.workers[i] == Popped(s.running[0]) && s'.ran == s.ran
      && multiset(s.running) == multiset{s.running[0]} + multiset(s'.running)
  {
    PopMoves(s.running);
  }

  lemma PushMoves(q: seq<Task>, t: Task)
    ensures multiset(q + [t]) == multiset(q) + multiset{t}
  {
  }

  /** A worker that runs its task does not hold it any more. */
  lemma RunningHandsOn(s: State, i: nat)
    requires i < |s.workers| && s.workers[i].Running?
    ensures
      var (s', t) := (WorkerStep(s, i).value, s.workers[i].task);
      && !s'.workers[i].Popped? && !s'.workers[i].Running? && s'.running == s.running
      && multiset(s'.ran) == multiset(s.ran) + multiset{t}
  {
    PushMoves(s.ran, s.workers[i].task);
  }

  /** The other steps of a worker move no task. */
  lemma OthersKeep(s: State, i: nat)
    requires i < |s.workers| && WorkerStep(s, i).Some? && !s.workers[i].Raised? && !s.workers[i].Running?
    ensures
      var s' := WorkerStep(s, i).value;
      s'.running == s.running && s'.ran == s.ran && TasksOf(s'.workers[i]) == TasksOf(s.workers[i])
  {
  }

  lemma WorkerFrame(s: State, i: nat)
    requires i < |s.workers| && WorkerStep(s, i).Some?
    ensures
      var s' := WorkerStep(s, i).value;
      s'.pending == s.pending && s'.workers == s.workers[i := s'.workers[i]]
  {
  }

  lemma WorkerHandsOn(s: State, i: nat)
    requires i < |s.workers| && WorkerStep(s, i).Some?
    ensures
      var s' := WorkerStep(s, i).value;
      HandsOn(multiset(s.running), multiset(s'.running), multiset(s.ran), multiset(s'.ran),
              TasksOf(s.workers[i]), TasksOf(s'.workers[i]))
  {
    if s.workers[i].Raised? {
      RaisedHandsOn(s, i);
    } else if s.workers[i].Running? {
      RunningHandsOn(s, i);
    } else {
      OthersKeep(s, i);
    }
  }

  lemma SameLess(a: multiset<Task>, b: multiset<Task>, c: multiset<Task>)
    requires a + c == b + c
    ensures a == b
  {
    assert a == (a + c) - c && b == (b + c) - c;
  }

  /** What leaves the queue arrives at the worker, and what leaves the worker has run. */
  lemma Rebalance(p: multiset<Task>, r: multiset<Task>, r': multiset<Task>, f: multiset<Task>, f': multiset<Task>,
                  n: multiset<Task>, n': multiset<Task>, held: multiset<Task>, now: multiset<Task>)
    requires f' + held == f + now
    requires HandsOn(r, r', n, n', held, now)
    ensures p + r' + f' + n' == p + r + f + n
  {
    if r' == r && n' == n + held && now == multiset{} {
      assert f == f' + held;
    } else if held == now {
      assert f' == f by { SameLess(f', f, held); }
    } else {
      assert f' == f + now;
    }
  }

  /** The task a worker takes from the queue, or has run, moves with it. */
  lemma WorkerConservesTasks(s: State, i: nat, batch: multiset<Task>)
    requires TasksConserved(s, batch) && i < |s.workers| && WorkerStep(s, i).Some?
    ensures TasksConserved(WorkerStep(s, i).value, batch)
  {
    var s' := WorkerStep(s, i).value;
    var (w, w') := (s.workers[i], s'.workers[i]);
    WorkerFrame(s, i);
    WorkerHandsOn(s, i);
    OneWorkersTasks(s.workers, i, w');
    Rebalance(multiset(s.pending), multiset(s.running), multiset(s'.running), InFlight(s.workers), InFlight(s'.workers),
              multiset(s.ran), multiset(s'.ran), TasksOf(w), TasksOf(w'));
  }

  lemma WorkerKeepsCounter(s: State, i: nat)
    requires s.counter == BusyCount(s.workers) && i < |s.workers| && WorkerStep(s, i).Some?
    ensures
      var s' := WorkerStep(s, i).value;
      s'.counter == BusyCount(s'.workers)
  {
    OneWorker(s.workers, i, WorkerStep(s, i).value.workers[i]);
  }

  lemma ThrowingNext(ts: seq<Task>, t: Task)
    ensures Throwing(ts + [t]) == Throwing(ts) + if t.throws then 1 else 0
  {
    assert (ts + [t])[..|ts|] == ts;
  }

  /** The errors left and about to be left grow exactly by those of the tasks that have run. */
  lemma WorkerLeavesErrors(s: State, i: nat)
    requires i < |s.workers| && WorkerStep(s, i).Some?
    ensures
      var s' := WorkerStep(s, i).value;
      && s'.workers == s.workers[i := s'.workers[i]]
      && s'.main.Threw? == s.main.Threw? && s'.main.Finished? == s.main.Finished?
      && |s'.errors| + (if s'.workers[i].Erring? then 1 else 0) + Throwing(s.ran)
         == |s.errors| + (if s.workers[i].Erring? then 1 else 0) + Throwing(s'.ran)
      && |s.errors| <= |s'.errors| && (|s'.errors| <= ERROR_CAPACITY || |s'.errors| == |s.errors|)
      && (s.workers[i].Notifying? ==> s'.errors == s.errors)
  {
    if s.workers[i].Running? {
      ThrowingNext(s.ran, s.workers[i].task);
    } else {
      assert WorkerStep(s, i).value.ran == s.ran;
    }
  }

  lemma WorkerKeepsErrors(s: State, i: nat, before: nat)
    requires ErrorsOk(s, before) && i < |s.workers| && WorkerStep(s, i).Some?
    requires Ended(s) ==> s.workers[i].Notifying?
    ensures ErrorsOk(WorkerStep(s, i).value, before)
  {
    WorkerLeavesErrors(s, i);
    OneWorker(s.workers, i, WorkerStep(s, i).value.workers[i]);
  }

  lemma WorkerKeepsLock(s: State, i: nat)
    requires LockOk(s) && i < |s.workers| && WorkerStep(s, i).Some?
    ensures LockOk(WorkerStep(s, i).value)
  {
    var s' := WorkerStep(s, i).value;
    assert s'.workers == s.workers[i := s'.workers[i]];
    forall j | 0 <= j < |s'.workers|
      ensures HoldsLock(s'.workers[j]) <==> s'.lock == Some(j)
      ensures s'.workers[j].Locked? || s'.workers[j].Raised? ==> s'.running != []
    {
      assert HoldsLock(s.workers[j]) <==> s.lock == Some(j);
      assert HoldsLock(s.workers[i]) <==> s.lock == Some(i);
    }
  }

  /** Nothing is running any more, so a worker can only be finishing a task. */
  lemma WorkerKeepsMain(s: State, i: nat)
    requires LockOk(s) && MainOk(s) && s.counter == BusyCount(s.workers)
    requires i < |s.workers| && WorkerStep(s, i).Some?
    ensures MainOk(WorkerStep(s, i).value)
    ensures s.main.Passed? || Ended(s) ==> s.workers[i].Notifying?
  {
    NoneBusy(s.workers);
  }

  lemma WorkerWakes(s: State, i: nat)
    requires LockOk(s) && NoLostWakeUp(s) && s.counter >= 0 && i < |s.workers| && WorkerStep(s, i).Some?
    ensures NoLostWakeUp(WorkerStep(s, i).value)
  {
    var s' := WorkerStep(s, i).value;
    assert HoldsLock(s.workers[i]) <==> s.lock == Some(i);
    if s'.main.AsleepIdle? && s'.counter == 0 {
      if s.workers[i].Done? {
        assert s'.workers[i].Notifying?;
      } else {
        var j :| 0 <= j < |s.workers| && s.workers[j].Notifying?;
        assert j != i && s'.workers[j] == s.workers[j];
      }
    }
  }

  lemma WorkerKeepsInv(s: State, i: nat, batch: multiset<Task>, before: nat)
    requires Inv(s, batch, before) && i < |s.workers| && WorkerStep(s, i).Some?
    ensures Inv(WorkerStep(s, i).value, batch, before)
  {
    WorkerConservesTasks(s, i, batch);
    WorkerKeepsMain(s, i);
    WorkerKeepsCounter(s, i);
    WorkerKeepsErrors(s, i, before);
    WorkerKeepsLock(s, i);
    WorkerWakes(s, i);
  }

  lemma HandedOver(p: multiset<Task>, p': multiset<Task>, r: multiset<Task>, r': multiset<Task>, t: multiset<Task>)
    requires p == t + p' && r' == r + t
    ensures p' + r' == p + r
  {
  }

  lemma MainHandsOn(s: State)
    requires MainStep(s).Some?
    ensures
      var s' := MainStep(s).value;
      && multiset(s'.pending) + multiset(s'.running) == multiset(s.pending) + multiset(s.running)
      && s'.workers == s.workers && s'.ran == s.ran
  {
    if s.main.Dispatching? && s.pending != [] {
      PopMoves(s.pending);
      PushMoves(s.running, s.pending[0]);
      HandedOver(multiset(s.pending), multiset(s.pending[1..]), multiset(s.running),
                 multiset(s.running + [s.pending[0]]), multiset{s.pending[0]});
    }
  }

  lemma MainConservesTasks(s: State, batch: multiset<Task>)
    requires TasksConserved(s, batch) && MainStep(s).Some?
    ensures TasksConserved(MainStep(s).value, batch)
  {
    MainHandsOn(s);
  }

  lemma MainFrame(s: State)
    requires MainStep(s).Some?
    ensures
      var s' := MainStep(s).value;
      && s'.workers == s.workers && s'.ran == s.ran && s'.counter == s.counter && s'.lock == s.lock
      && (s.running != [] ==> s'.running != [])
  {
  }

  lemma MainKeepsLock(s: State)
    requires LockOk(s) && MainStep(s).Some?
    ensures LockOk(MainStep(s).value)
  {
    MainFrame(s);
  }

  /** The main thread passes a wait only if its condition holds, and sleeps only if it does not. */
  lemma MainKeepsMain(s: State)
    requires MainOk(s) && NoLostWakeUp(s) && MainStep(s).Some?
    ensures MainOk(MainStep(s).value) && NoLostWakeUp(MainStep(s).value)
  {
  }

  lemma MainKeepsErrors(s: State, before: nat)
    requires ErrorsOk(s, before) && MainStep(s).Some?
    ensures ErrorsOk(MainStep(s).value, before)
  {
  }

  lemma MainKeepsInv(s: State, batch: multiset<Task>, before: nat)
    requires Inv(s, batch, before) && MainStep(s).Some?
    ensures Inv(MainStep(s).value, batch, before)
  {
    MainFrame(s);
    MainKeepsLock(s);
    MainKeepsMain(s);
    MainConservesTasks(s, batch);
    MainKeepsErrors(s, before);
  }

  lemma StepKeepsInv(s: State, a: Actor, batch: multiset<Task>, before: nat)
    requires Inv(s, batch, before) && Act(s, a).Some?
    ensures Inv(Act(s, a).value, batch, before)
  {
    if a.MainThread? {
      MainKeepsInv(s, batch, before);
    } else if a.WorkerThread? {
      WorkerKeepsInv(s, a.i, batch, before);
    }
  }

  // ---------------------------------------------------------------- runs

  /** The state after a schedule, if each of its steps was possible. */
  function Run(s: State, schedule: seq<Actor>): Option<State>
  {
    if schedule == [] then Some(s)
    else
      var before := Run(s, schedule[..|schedule| - 1]);
      if before.None? then None else Act(before.value, schedule[|schedule| - 1])
  }

  lemma {:induction false} RunKeepsInv(s: State, schedule: seq<Actor>)
    requires Initial(s) && Run(s, schedule).Some?
    ensures Inv(Run(s, schedule).value, multiset(s.pending), |s.errors|)
    decreases |schedule|
  {
    if schedule == [] {
      InitialInv(s);
    } else {
      var n := |schedule| - 1;
      RunKeepsInv(s, schedule[..n]);
      StepKeepsInv(Run(s, schedule[..n]).value, schedule[n], multiset(s.pending), |s.errors|);
    }
  }

  lemma LessOne(a: multiset<Task>, b: multiset<Task>, t: multiset<Task>)
    requires a + t <= b + t
    ensures a <= b
  {
    forall x
      ensures a[x] <= b[x]
    {
      assert (a + t)[x] <= (b + t)[x];
    }
  }

  lemma {:induction false} ThrowingWithout(b: seq<Task>, j: nat)
    requires j < |b|
    ensures Throwing(b) == Throwing(b[..j] + b[j + 1..]) + if b[j].throws then 1 else 0
  {
    var last := |b| - 1;
    var rest := b[..j] + b[j + 1..];
    if j == last {
      assert rest == b[..last];
    } else {
      ThrowingWithout(b[..last], j);
      assert rest[..|rest| - 1] == b[..last][..j] + b[..last][j + 1..];
      assert rest[|rest| - 1] == b[last];
    }
  }

  lemma {:induction false} ThrowingMonotone(a: seq<Task>, b: seq<Task>)
    requires multiset(a) <= multiset(b)
    ensures Throwing(a) <= Throwing(b)
    decreases |a|
  {
    if a == [] {
    } else {
      var last := |a| - 1;
      assert a == a[..last] + [a[last]];
      assert a[last] in multiset(b);
      var j :| 0 <= j < |b| && b[j] == a[last];
      ThrowingWithout(b, j);
      assert b == b[..j] + [b[j]] + b[j + 1..];
      var rest := multiset(b[..j] + b[j + 1..]);
      assert multiset(b) == rest + multiset{b[j]};
      assert multiset(a) == multiset(a[..last]) + multiset{a[last]};
      LessOne(multiset(a[..last]), rest, multiset{b[j]});
      ThrowingMonotone(a[..last], b[..j] + b[j + 1..]);
    }
  }

  lemma Idlers(s: State)
    requires LockOk(s) && s.running == [] && forall i :: 0 <= i < |s.workers| ==> !Busy(s.workers[i])
    ensures s.lock == None
    ensures forall i :: 0 <= i < |s.workers| ==> s.workers[i].Idle? || s.workers[i].Notifying?
  {
    var i := if s.lock.Some? then s.lock.value else 0;
    assert s.lock.Some? ==> HoldsLock(s.workers[i]);
  }

  /** The barrier: for any number of workers, once the main thread has passed both waits every task
      of the batch has run exactly once, no worker is between taking a task and lowering the
      counter, and the executor is ready for the next batch. It gets there only if the error queue
      has room for every error, and then wait_for_idle throws if and only if there is one. */
  lemma Barrier(s0: State, schedule: seq<Actor>)
    requires Initial(s0) && Run(s0, schedule).Some?
    ensures
      var (s, errors) := (Run(s0, schedule).value, |s0.errors| + Throwing(s0.pending));
      s.main.Passed? || Ended(s) ==>
        && multiset(s.ran) == multiset(s0.pending)
        && (forall i :: 0 <= i < |s.workers| ==> s.workers[i].Idle? || s.workers[i].Notifying?)
        && errors <= 32 && (Ended(s) ==> (s.main.Threw? <==> errors > 0))
        && Initial(s.(main := Dispatching, ran := []))
  {
    RunKeepsInv(s0, schedule);
    var s := Run(s0, schedule).value;
    if s.main.Passed? || Ended(s) {
      NoneBusy(s.workers);
      Idlers(s);
      ThrowingMonotone(s.ran, s0.pending);
      ThrowingMonotone(s0.pending, s.ran);
    }
  }

  /** A worker takes the oldest task of the queue, or leaves the queue alone. */
  lemma TakesOldest(s: State, i: nat)
    requires i < |s.workers| && WorkerStep(s, i).Some?
    ensures
      var s' := WorkerStep(s, i).value;
      || s'.running == s.running
      || (s.running != [] && s'.running == s.running[1..] && s'.workers[i] == Popped(s.running[0]))
  {
  }

  /** Errors wait in line: a step adds the error of a task that threw at the end, or wait_for_idle
      throws the first of them. */
  lemma ErrorsQueue(s: State, a: Actor)
    requires Act(s, a).Some?
    ensures
      var s' := Act(s, a).value;
      if s.main.Passed? && s'.main.Threw? then [s'.main.task] + s'.errors == s.errors
      else s.errors <= s'.errors && (s'.main.Threw? ==> s' == s || s'.main == s.main)
  {
  }

  /** What is left of the errors once wait_for_idle has thrown one. */
  predicate InLine(s: State, before: seq<Task>)
  {
    before <= (if s.main.Threw? then [s.main.task] else []) + s.errors
  }

  /** The errors left over by earlier batches are thrown before this batch's own: the one that
      wait_for_idle throws is the oldest, and the others keep their order. */
  lemma {:induction false} OldestErrorThrown(s0: State, schedule: seq<Actor>)
    requires Initial(s0) && Run(s0, schedule).Some?
    ensures InLine(Run(s0, schedule).value, s0.errors)
    decreases |schedule|
  {
    if schedule == [] {
      assert [] + s0.errors == s0.errors;
    } else {
      var n := |schedule| - 1;
      OldestErrorThrown(s0, schedule[..n]);
      var s := Run(s0, schedule[..n]).value;
      ErrorsQueue(s, schedule[n]);
      assert [] + s.errors == s.errors && [] + Act(s, schedule[n]).value.errors == Act(s, schedule[n]).value.errors;
    }
  }

  /** A sleeping main thread whose condition holds is woken by some worker's next step. */
  lemma WakeUpIsOnItsWay(s0: State, schedule: seq<Actor>)
    requires Initial(s0) && Run(s0, schedule).Some?
    ensures
      var s := Run(s0, schedule).value;
      && (s.main.AsleepEmpty? && s.running == [] ==>
            exists i :: 0 <= i < |s.workers| && WorkerStep(s, i).Some? && WorkerStep(s, i).value.main.CheckEmpty?)
      && (s.main.AsleepIdle? && s.counter == 0 ==>
            exists i :: 0 <= i < |s.workers| && WorkerStep(s, i).Some? && WorkerStep(s, i).value.main.CheckIdle?)
  {
    RunKeepsInv(s0, schedule);
    var s := Run(s0, schedule).value;
    if s.main.AsleepEmpty? && s.running == [] {
      assert WorkerStep(s, s.lock.value).value.main.CheckEmpty?;
    }
    if s.main.AsleepIdle? && s.counter == 0 {
      var i :| 0 <= i < |s.workers| && s.workers[i].Notifying?;
      assert WorkerStep(s, i).value.main.CheckIdle?;
    }
  }

  // ---------------------------------------------------------------- progress

  /** How many steps a worker and the main thread can still make, as weights that every step but a
      spurious wake-up lowers. A notification may raise the main thread's by one. */
  function Weight(w: Worker): nat
  {
    match w
    case Popped(_) => 27
    case Running(_) => 25
    case Erring(_) => 24
    case Done => 23
    case Notifying => 22
    case Idle => 10
    case Locked => 9
    case Raised => 8
  }

  function Weights(ws: seq<Worker>): nat
  {
    if ws == [] then 0 else Weight(ws[0]) + Weights(ws[1..])
  }

  function MainWeight(m: Main): nat
  {
    match m
    case Dispatching => 7
    case CheckEmpty => 6
    case AsleepEmpty => 5
    case CheckIdle => 4
    case AsleepIdle => 3
    case Passed => 2
    case _ => 0
  }

  function Measure(s: State): nat
  {
    22 * |s.pending| + 20 * |s.running| + Weights(s.workers) + MainWeight(s.main)
  }

  lemma {:induction false} OneWeight(ws: seq<Worker>, i: nat, w: Worker)
    requires i < |ws|
    ensures Weights(ws[i := w]) + Weight(ws[i]) == Weights(ws) + Weight(w)
  {
    var vs := ws[i := w];
    if i == 0 {
      assert vs[1..] == ws[1..];
    } else {
      OneWeight(ws[1..], i - 1, w);
      assert vs[1..] == ws[1..][i - 1 := w] && vs[0] == ws[0];
    }
  }

  lemma WorkerDecreases(s: State, i: nat)
    requires i < |s.workers| && WorkerStep(s, i).Some?
    ensures
      var s' := WorkerStep(s, i).value;
      && s'.pending == s.pending && |s'.workers| == |s.workers|
      && s'.workers == s.workers[i := s'.workers[i]]
      && 20 * |s'.running| + Weight(s'.workers[i]) + MainWeight(s'.main)
         < 20 * |s.running| + Weight(s.workers[i]) + MainWeight(s.main)
  {
  }

  lemma StepsDecrease(s: State, a: Actor)
    requires Act(s, a).Some? && !a.SpuriousWake?
    ensures Measure(Act(s, a).value) < Measure(s)
  {
    if a.WorkerThread? {
      WorkerDecreases(s, a.i);
      OneWeight(s.workers, a.i, Act(s, a).value.workers[a.i]);
    }
  }

  /** With every worker idle and nothing queued it is the main thread's turn. */
  lemma MainCanStep(s: State)
    requires s.counter == BusyCount(s.workers) && NoLostWakeUp(s) && !Ended(s)
    requires s.lock == None && s.running == [] && forall i :: 0 <= i < |s.workers| ==> s.workers[i].Idle?
    ensures MainStep(s).Some?
  {
    NoneBusy(s.workers);
  }

  lemma {:induction false} ErringRoom(ws: seq<Worker>, i: nat)
    requires i < |ws| && ws[i].Erring?
    ensures ErringCount(ws) > 0
  {
    if i == 0 {
    } else {
      ErringRoom(ws[1..], i - 1);
    }
  }

  lemma BusyCanStep(s: State, i: nat, before: nat)
    requires LockOk(s) && ErrorsOk(s, before) && before + Throwing(s.ran) <= ERROR_CAPACITY && !Ended(s)
    requires i < |s.workers| && !s.workers[i].Idle?
    ensures WorkerStep(s, i).Some?
  {
    if s.workers[i].Erring? { ErringRoom(s.workers, i); }
  }

  /** Until the main thread has ended, some thread can step, provided there is a worker and the
      error queue has room for every error. */
  lemma NeverStuck(s: State, batch: multiset<Task>, before: nat) returns (a: Actor)
    requires Inv(s, batch, before) && !Ended(s) && |s.workers| > 0
    requires before + Throwing(s.ran) <= ERROR_CAPACITY
    ensures Act(s, a).Some? && !a.SpuriousWake?
  {
    if s.lock.Some? {
      assert HoldsLock(s.workers[s.lock.value]);
      BusyCanStep(s, s.lock.value, before);
      a := WorkerThread(s.lock.value);
    } else if i :| 0 <= i < |s.workers| && !s.workers[i].Idle? {
      BusyCanStep(s, i, before);
      a := WorkerThread(i);
    } else if s.running != [] {
      a := WorkerThread(0);
    } else {
      MainCanStep(s);
      a := MainThread;
    }
  }

  lemma {:induction false} ScheduleIsShort(s0: State, schedule: seq<Actor>)
    requires Run(s0, schedule).Some? && SpuriousWake !in schedule
    ensures Measure(Run(s0, schedule).value) + |schedule| <= Measure(s0)
    decreases |schedule|
  {
    if schedule == [] {
    } else {
      var n := |schedule| - 1;
      ScheduleIsShort(s0, schedule[..n]);
      StepsDecrease(Run(s0, schedule[..n]).value, schedule[n]);
    }
  }

  lemma {:induction false} SameWorkers(s0: State, schedule: seq<Actor>)
    requires Run(s0, schedule).Some?
    ensures |Run(s0, schedule).value.workers| == |s0.workers|
    decreases |schedule|
  {
    if schedule == [] {
    } else {
      SameWorkers(s0, schedule[..|schedule| - 1]);
    }
  }

  /** Whatever the schedule, a batch ends: without spurious wake-ups no schedule is longer than the
      initial measure, and until wait_for_idle has returned or thrown some thread can step, provided
      that there is a worker and room for every error. Barrier shows that room is needed too. */
  lemma BatchEnds(s0: State, schedule: seq<Actor>)
    requires Initial(s0) && Run(s0, schedule).Some? && SpuriousWake !in schedule
    requires |s0.workers| > 0 && |s0.errors| + Throwing(s0.pending) <= 32
    ensures |schedule| <= Measure(s0)
    ensures
      var s := Run(s0, schedule).value;
      Ended(s) || exists a :: Act(s, a).Some? && !a.SpuriousWake?
  {
    ScheduleIsShort(s0, schedule);
    RunKeepsInv(s0, schedule);
    SameWorkers(s0, schedule);
    var s := Run(s0, schedule).value;
    if !Ended(s) {
      ThrowingMonotone(s.ran, s0.pending);
      var a := NeverStuck(s, multiset(s0.pending), |s0.errors|);
    }
  }

  /** Dispatching a batch of at most 128 tasks never finds the running queue full. */
  lemma DispatchHasRoom(s0: State, schedule: seq<Actor>)
    requires Initial(s0) && Run(s0, schedule).Some? && |s0.pending| <= 128
    ensures
      var s := Run(s0, schedule).value;
      s.main.Dispatching? && s.pending != [] && s.lock.None? ==> MainStep(s).Some?
  {
    RunKeepsInv(s0, schedule);
    var s := Run(s0, schedule).value;
    assert |multiset(s.pending) + multiset(s.running) + InFlight(s.workers) + multiset(s.ran)| == |s0.pending|;
  }
}
