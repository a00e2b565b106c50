/** The discrete-event kernel (simulator/environment.py): when simulated time may advance.
    Each event is what one task, or the timer loop, does between two suspension points. */
module Kernel {
  import opened Bytes
  import opened WakeUpQueue

  type TaskId = nat

  /** What a task waits in: a plain `sleep`, a `sleep_until`, which handles being cancelled, or
      an event that other tasks may schedule again. The event of the first two is private. */
  datatype Wait = Plain | Until | Shared

  /** Where a task is. Registered: its event is in the queue, its lock not yet given up.
      Blocked: waiting, lock given up. Woken: its event was set and the lock taken for it.
      Cancelling: cancelled while blocked, its handler has not run yet. CancelFired: cancelled,
      and the event was set before the handler ran, be it before or after the cancellation. */
  datatype Task =
    | Runnable
    | Registered(event: EventId, wait: Wait)
    | Blocked(event: EventId, wait: Wait)
    | Woken(event: EventId, wait: Wait)
    | Cancelling(event: EventId)
    | CancelFired(event: EventId)
    | AwaitingChild(child: TaskId)
    | NotStarted(parent: TaskId)
    | Finished

  datatype State = State(tick: nat, locks: int, data: seq<Entry>, tasks: map<TaskId, Task>, owner: map<EventId, TaskId>)

  /** The tasks for which the timer lock is held. */
  predicate Counted(task: Task) {
    task.Runnable? || task.Registered? || task.Woken? || task.CancelFired? || task.AwaitingChild?
  }

  function CountedTasks(tasks: map<TaskId, Task>): set<TaskId> {
    set t | t in tasks.Keys && Counted(tasks[t])
  }

  function EventOf(task: Task): Option<EventId> {
    match task
    case Registered(e, _) => Some(e)
    case Blocked(e, _) => Some(e)
    case Woken(e, _) => Some(e)
    case Cancelling(e) => Some(e)
    case CancelFired(e) => Some(e)
    case _ => None
  }

  datatype Action =
    | Register(task: TaskId, event: EventId, at: nat, wait: Wait)
    | Notify(task: TaskId, event: EventId, at: nat)
    | Block(task: TaskId)
    | Resume(task: TaskId)
    | Cancel(task: TaskId)
    | HandleCancel(task: TaskId)
    | Spawn(task: TaskId, child: TaskId)
    | StartChild(child: TaskId)
    | Finish(task: TaskId)
    | Tick

  /** Setting events wakes whoever waits for them. */
  function Fired(task: Task, events: seq<EventId>): Task {
    match task
    case Blocked(e, wait) => if e in events then Woken(e, wait) else task
    case Cancelling(e) => if e in events then CancelFired(e) else task
    case _ => task
  }

  function FireAll(tasks: map<TaskId, Task>, events: seq<EventId>): (fired: map<TaskId, Task>)
    ensures fired.Keys == tasks.Keys
    ensures forall t :: t in tasks.Keys ==> fired[t] == Fired(tasks[t], events)
  {
    map t | t in tasks.Keys :: Fired(tasks[t], events)
  }

  predicate Is(s: State, t: TaskId, task: Task) {
    t in s.tasks.Keys && s.tasks[t] == task
  }

  /** Somebody waits for the event in a way that lets others schedule it. */
  predicate Awaited(s: State, e: EventId) {
    && e in s.owner.Keys
    && (|| Is(s, s.owner[e], Registered(e, Shared)) || Is(s, s.owner[e], Blocked(e, Shared))
        || Is(s, s.owner[e], Woken(e, Shared)))
  }

  /** Whether an action can happen: the task is in the right place, and an event that is
      registered is either new or awaited, possibly by a task that was just woken. */
  predicate Enabled(s: State, a: Action) {
    match a
    case Register(t, e, at, _) => Is(s, t, Runnable) && e !in s.owner.Keys && s.tick <= at
    case Notify(t, e, at) => Is(s, t, Runnable) && s.tick < at && Awaited(s, e)
    case Block(t) => t in s.tasks.Keys && s.tasks[t].Registered?
    case Resume(t) => t in s.tasks.Keys && s.tasks[t].Woken?
    case Cancel(t) => t in s.tasks.Keys && (s.tasks[t].Blocked? || s.tasks[t].Woken?) && s.tasks[t].wait == Until
    case HandleCancel(t) => t in s.tasks.Keys && (s.tasks[t].Cancelling? || s.tasks[t].CancelFired?)
    case Spawn(t, c) => Is(s, t, Runnable) && c !in s.tasks.Keys
    case StartChild(c) => c in s.tasks.Keys && s.tasks[c].NotStarted?
    case Finish(t) => Is(s, t, Runnable)
    case Tick => s.locks == 0 && s.data != []
  }

  function Apply(s: State, a: Action): State
    requires Enabled(s, a)
  {
    match a
    case Register(t, e, at, wait) =>
      s.(data := Added(s.data, at, e), tasks := s.tasks[t := Registered(e, wait)], owner := s.owner[e := t])
    case Notify(t, e, at) => s.(data := Added(s.data, at, e))
    case Block(t) =>
      s.(locks := s.locks - 1, tasks := s.tasks[t := Blocked(s.tasks[t].event, s.tasks[t].wait)])
    case Resume(t) =>
      s.(data := if s.tasks[t].wait == Shared then Removed(s.data, s.tasks[t].event) else s.data,
         tasks := s.tasks[t := Runnable])
    case Cancel(t) =>
      var e := s.tasks[t].event;
      s.(tasks := s.tasks[t := if s.tasks[t].Woken? then CancelFired(e) else Cancelling(e)])
    case HandleCancel(t) =>
      var e := s.tasks[t].event;
      s.(locks := if CountAll(s.data, e) > 0 then s.locks + 1 else s.locks,
         data := Removed(s.data, e), tasks := s.tasks[t := Runnable])
    case Spawn(t, c) => s.(tasks := s.tasks[t := AwaitingChild(c)][c := NotStarted(t)])
    case StartChild(c) =>
      s.(locks := s.locks + 1, tasks := s.tasks[c := Runnable][s.tasks[c].parent := Runnable])
    case Finish(t) => s.(locks := s.locks - 1, tasks := s.tasks[t := Finished])
    case Tick =>
      s.(tick := s.data[0].tick, locks := s.locks + |s.data[0].events|, data := s.data[1..],
         tasks := FireAll(s.tasks, s.data[0].events))
  }

  function Step(s: State, a: Action): State {
    if Enabled(s, a) then Apply(s, a) else s
  }

  function Run(s: State, actions: seq<Action>): State
    decreases |actions|
  {
    if actions == [] then s else Run(Step(s, actions[0]), actions[1..])
  }

  // ---- The invariant ----

  /** The registration of e for a tick belongs to a task that can still be woken by it. */
  predicate Owned(s: State, e: EventId) {
    && e in s.owner.Keys && s.owner[e] in s.tasks.Keys
    && EventOf(s.tasks[s.owner[e]]) == Some(e)
    && !s.tasks[s.owner[e]].CancelFired?
    && (s.tasks[s.owner[e]].Woken? ==> s.tasks[s.owner[e]].wait == Shared)
  }

  ghost predicate HasRegistration(data: seq<Entry>, e: EventId) {
    exists t :: e in EventsAt(data, t)
  }

  ghost predicate OnlyOnce(data: seq<Entry>, e: EventId) {
    forall a, b :: e in EventsAt(data, a) && e in EventsAt(data, b) ==> a == b
  }

  /** Tasks that wait for their event, or are about to. */
  predicate Waits(task: Task) {
    task.Registered? || task.Blocked? || task.Cancelling?
  }

  predicate Private(task: Task) {
    ((task.Registered? || task.Blocked?) && task.wait != Shared) || task.Cancelling?
  }

  ghost predicate QueueInv(s: State) {
    && Sorted(s.data)
    && (forall x :: x in s.data ==> s.tick <= x.tick)
    && (forall t: nat, e {:trigger e in EventsAt(s.data, t)} :: e in EventsAt(s.data, t) ==> s.tick <= t)
    && (forall t: nat, e {:trigger e in EventsAt(s.data, t)} :: e in EventsAt(s.data, t) ==> Owned(s, e))
  }

  ghost predicate TaskInv(s: State, t: TaskId)
    requires t in s.tasks.Keys
  {
    var task := s.tasks[t];
    && (EventOf(task).Some? ==> EventOf(task).value in s.owner.Keys && s.owner[EventOf(task).value] == t)
    && (Waits(task) ==> HasRegistration(s.data, EventOf(task).value))
    && (Private(task) ==> OnlyOnce(s.data, EventOf(task).value))
    && (task.NotStarted? ==> Is(s, task.parent, AwaitingChild(t)))
    && (task.AwaitingChild? ==> Is(s, task.child, NotStarted(t)))
  }

  /** Locks that no runnable task accounts for. */
  function Surplus(s: State): int {
    s.locks - |CountedTasks(s.tasks)|
  }

  ghost predicate Inv(s: State) {
    && Surplus(s) >= 0
    && QueueInv(s)
    && (forall t :: t in s.tasks.Keys ==> TaskInv(s, t))
  }

  /** Only the simulation's root tasks, each holding one lock. */
  function Start(roots: nat): State {
    State(0, roots, [], RootTasks(roots), map[])
  }

  function RootTasks(roots: nat): (tasks: map<TaskId, Task>)
    ensures forall t: TaskId :: t in tasks.Keys <==> t < roots
    ensures forall t :: t in tasks.Keys ==> tasks[t] == Runnable
  {
    if roots == 0 then map[] else RootTasks(roots - 1)[roots - 1 := Runnable]
  }

  lemma {:induction false} StartInv(roots: nat)
    ensures Inv(Start(roots)) && Surplus(Start(roots)) == 0
  {
    RootCount(roots);
    assert forall t :: EventsAt([], t) == [];
  }

  lemma {:induction false} RootCount(roots: nat)
    ensures |CountedTasks(RootTasks(roots))| == roots
  {
    if roots > 0 {
      RootCount(roots - 1);
      assert CountedTasks(RootTasks(roots)) == CountedTasks(RootTasks(roots - 1)) + {roots - 1};
    } else {
      assert CountedTasks(RootTasks(0)) == {};
    }
  }

  lemma CountUpdate(tasks: map<TaskId, Task>, t: TaskId, task: Task)
    ensures var before := CountedTasks(tasks);
            var after := CountedTasks(tasks[t := task]);
            |after| == |before| - (if t in tasks.Keys && Counted(tasks[t]) then 1 else 0) + (if Counted(task) then 1 else 0)
  {
    var before := CountedTasks(tasks);
    var rest := before - {t};
    assert before == if t in before then rest + {t} else rest;
    assert CountedTasks(tasks[t := task]) == if Counted(task) then rest + {t} else rest;
  }

  lemma {:induction false} CountedMeansRegistered(data: seq<Entry>, e: EventId)
    requires Sorted(data)
    ensures CountAll(data, e) > 0 <==> HasRegistration(data, e)
  {
    if data != [] {
      var rest := data[1..];
      assert forall i :: 0 <= i < |rest| ==> rest[i] == data[i + 1];
      CountedMeansRegistered(rest, e);
      WithoutCount(data[0].events, e);
      forall t
        ensures EventsAt(rest, t) == (if t == data[0].tick then [] else EventsAt(data, t))
        ensures EventsAt(data, data[0].tick) == data[0].events
      {
        HeadIsNext(data, t);
      }
      if CountAll(data, e) > 0 {
        if e in data[0].events {
          assert e in EventsAt(data, data[0].tick);
        } else {
          var t :| e in EventsAt(rest, t);
          assert e in EventsAt(data, t);
        }
      }
      if HasRegistration(data, e) {
        var t :| e in EventsAt(data, t);
        if t != data[0].tick {
          assert e in EventsAt(rest, t);
        }
      }
    } else {
      assert forall t :: EventsAt([], t) == [];
    }
  }

  // ---- Every action keeps the invariant ----

  lemma {:induction false} AddedBound(data: seq<Entry>, at: nat, e: EventId, low: nat)
    requires low <= at && forall x :: x in data ==> low <= x.tick
    ensures forall x :: x in Added(data, at, e) ==> low <= x.tick
  {
    if data != [] && data[0].tick < at {
      AddedBound(data[1..], at, e, low);
    }
  }

  /** What a fresh registration does to the queue, seen through the lists of each tick. */
  lemma AddedView(data: seq<Entry>, at: nat, e: EventId)
    requires Sorted(data)
    ensures Sorted(Added(data, at, e))
    ensures forall t :: EventsAt(Added(data, at, e), t) == (if t == at then EventsAt(data, t) + [e] else EventsAt(data, t))
    ensures forall t, x :: x in EventsAt(Added(data, at, e), t) <==> x in EventsAt(data, t) || (t == at && x == e)
    ensures forall x :: HasRegistration(data, x) || x == e ==> HasRegistration(Added(data, at, e), x)
  {
    hide EventsAt, Added, Sorted;
    AddedTicks(data, at, e);
    forall t
      ensures EventsAt(Added(data, at, e), t) == (if t == at then EventsAt(data, t) + [e] else EventsAt(data, t))
    {
      AddedEvents(data, at, e, t);
    }
    assert e in EventsAt(Added(data, at, e), at);
    forall x | HasRegistration(data, x)
      ensures HasRegistration(Added(data, at, e), x)
    {
      var t :| x in EventsAt(data, t);
      assert x in EventsAt(Added(data, at, e), t);
    }
  }

  lemma RegisterKeepsInv(s: State, t: TaskId, e: EventId, at: nat, wait: Wait)
    requires Inv(s) && Enabled(s, Register(t, e, at, wait))
    ensures Inv(Step(s, Register(t, e, at, wait))) && Surplus(Step(s, Register(t, e, at, wait))) == Surplus(s)
  {
    hide EventsAt, Added, Sorted;
    var s' := Step(s, Register(t, e, at, wait));
    CountUpdate(s.tasks, t, Registered(e, wait));
    AddedView(s.data, at, e);
    AddedBound(s.data, at, e, s.tick);
    forall k
      ensures e !in EventsAt(s.data, k)
    {
      assert e in EventsAt(s.data, k) ==> Owned(s, e);
    }
    forall k, x | x in EventsAt(s'.data, k)
      ensures s'.tick <= k && Owned(s', x)
    {
      if x != e {
        assert x in EventsAt(s.data, k) && Owned(s, x);
      }
    }
    forall u | u in s'.tasks.Keys
      ensures TaskInv(s', u)
    {
      if u != t {
        assert TaskInv(s, u);
        OnlyOnceKept(s.data, s'.data, at, e, s'.tasks[u]);
      }
    }
  }

  lemma OnlyOnceKept(data: seq<Entry>, data': seq<Entry>, at: nat, e: EventId, task: Task)
    requires forall t, x :: x in EventsAt(data', t) <==> x in EventsAt(data, t) || (t == at && x == e)
    requires EventOf(task).Some? && Private(task) ==> EventOf(task).value != e && OnlyOnce(data, EventOf(task).value)
    ensures EventOf(task).Some? && Private(task) ==> OnlyOnce(data', EventOf(task).value)
  {
  }

  lemma NotifyKeepsInv(s: State, t: TaskId, e: EventId, at: nat)
    requires Inv(s) && Enabled(s, Notify(t, e, at))
    ensures Inv(Step(s, Notify(t, e, at))) && Surplus(Step(s, Notify(t, e, at))) == Surplus(s)
  {
    hide EventsAt, Added, Sorted;
    var s' := Step(s, Notify(t, e, at));
    AddedView(s.data, at, e);
    AddedBound(s.data, at, e, s.tick);
    assert Owned(s, e) by { assert TaskInv(s, s.owner[e]); }
    forall k, x | x in EventsAt(s'.data, k)
      ensures s'.tick <= k && Owned(s', x)
    {
      if x != e || k != at {
        assert x in EventsAt(s.data, k) && Owned(s, x);
      }
    }
    forall u | u in s'.tasks.Keys
      ensures TaskInv(s', u)
    {
      assert TaskInv(s, u);
      OnlyOnceKept(s.data, s'.data, at, e, s'.tasks[u]);
    }
  }

  lemma BlockKeepsInv(s: State, t: TaskId)
    requires Inv(s) && Enabled(s, Block(t))
    ensures Inv(Step(s, Block(t))) && Surplus(Step(s, Block(t))) == Surplus(s)
  {
    hide EventsAt, Sorted;
    CountUpdate(s.tasks, t, Blocked(s.tasks[t].event, s.tasks[t].wait));
    MoveKeepsInv(s, Step(s, Block(t)), t);
  }

  /** A task moves on with the same event and the queue as it is. */
  lemma MoveKeepsInv(s: State, s': State, t: TaskId)
    requires Inv(s) && t in s.tasks.Keys && t in s'.tasks.Keys
    requires s' == s.(locks := s'.locks, tasks := s.tasks[t := s'.tasks[t]])
    requires EventOf(s.tasks[t]).Some? && EventOf(s'.tasks[t]) == EventOf(s.tasks[t])
    requires Waits(s.tasks[t]) && Waits(s'.tasks[t])
    requires Private(s'.tasks[t]) ==> Private(s.tasks[t])
    requires Surplus(s') == Surplus(s)
    ensures Inv(s')
  {
    hide EventsAt, Sorted;
    forall k, x | x in EventsAt(s'.data, k)
      ensures s'.tick <= k && Owned(s', x)
    {
      assert Owned(s, x);
    }
    forall u | u in s'.tasks.Keys
      ensures TaskInv(s', u)
    {
      assert TaskInv(s, u);
    }
  }

  lemma CancelKeepsInv(s: State, t: TaskId)
    requires Inv(s) && Enabled(s, Cancel(t))
    ensures Inv(Step(s, Cancel(t))) && Surplus(Step(s, Cancel(t))) == Surplus(s)
  {
    hide EventsAt, Sorted;
    var s' := Step(s, Cancel(t));
    CountUpdate(s.tasks, t, s'.tasks[t]);
    if s.tasks[t].Blocked? {
      MoveKeepsInv(s, s', t);
    } else {
      PrivateIsPast(s, t);
      forall k, x | x in EventsAt(s'.data, k)
        ensures s'.tick <= k && Owned(s', x)
      {
        assert Owned(s, x);
      }
      forall u | u in s'.tasks.Keys
        ensures TaskInv(s', u)
      {
        assert TaskInv(s, u);
      }
    }
  }

  /** Once a private event was set, nothing is registered for it. */
  lemma PrivateIsPast(s: State, t: TaskId)
    requires Inv(s) && t in s.tasks.Keys
    requires s.tasks[t].CancelFired? || (s.tasks[t].Woken? && s.tasks[t].wait != Shared)
    ensures !HasRegistration(s.data, s.tasks[t].event)
  {
    hide EventsAt, Sorted;
    assert TaskInv(s, t);
    forall k
      ensures s.tasks[t].event !in EventsAt(s.data, k)
    {
      assert s.tasks[t].event in EventsAt(s.data, k) ==> Owned(s, s.tasks[t].event);
    }
  }

  lemma RemovedView(data: seq<Entry>, e: EventId)
    requires Sorted(data)
    ensures Sorted(Removed(data, e))
    ensures forall t :: EventsAt(Removed(data, e), t) == Without(EventsAt(data, t), e)
    ensures forall t, x :: x in EventsAt(Removed(data, e), t) <==> x in EventsAt(data, t) && x != e
    ensures forall x :: x != e && HasRegistration(data, x) ==> HasRegistration(Removed(data, e), x)
  {
    hide EventsAt;
    forall t
      ensures EventsAt(Removed(data, e), t) == Without(EventsAt(data, t), e)
    {
      RemovedEvents(data, e, t);
    }
    forall x | x != e && HasRegistration(data, x)
      ensures HasRegistration(Removed(data, e), x)
    {
      var t :| x in EventsAt(data, t);
      assert x in EventsAt(Removed(data, e), t);
    }
  }

  lemma RemovedBound(data: seq<Entry>, e: EventId, low: nat)
    requires forall x :: x in data ==> low <= x.tick
    ensures forall x :: x in Removed(data, e) ==> low <= x.tick
  {
    forall x | x in Removed(data, e)
      ensures low <= x.tick
    {
      var i :| 0 <= i < |data| && Removed(data, e)[i] == x;
      assert data[i] in data;
    }
  }

  /** A task leaves its event behind: no registration of it is left, and the task runs. */
  lemma LeaveKeepsInv(s: State, s': State, t: TaskId, e: EventId)
    requires Inv(s) && t in s.tasks.Keys && EventOf(s.tasks[t]) == Some(e)
    requires s' == s.(locks := s'.locks, data := s'.data, tasks := s.tasks[t := Runnable])
    requires s'.data == Removed(s.data, e) || (s'.data == s.data && !HasRegistration(s.data, e))
    requires Surplus(s') == Surplus(s)
    ensures Inv(s')
  {
    hide EventsAt, Sorted, Removed;
    RemovedView(s.data, e);
    RemovedBound(s.data, e, s.tick);
    assert forall k, x :: x in EventsAt(s'.data, k) <==> x in EventsAt(s.data, k) && x != e;
    forall k, x | x in EventsAt(s'.data, k)
      ensures s'.tick <= k && Owned(s', x)
    {
      assert Owned(s, x) && TaskInv(s, t);
    }
    forall u | u in s'.tasks.Keys
      ensures TaskInv(s', u)
    {
      assert TaskInv(s, u) && TaskInv(s, t);
    }
  }

  lemma ResumeKeepsInv(s: State, t: TaskId)
    requires Inv(s) && Enabled(s, Resume(t))
    ensures Inv(Step(s, Resume(t))) && Surplus(Step(s, Resume(t))) == Surplus(s)
  {
    hide EventsAt, Sorted, Removed;
    CountUpdate(s.tasks, t, Runnable);
    if s.tasks[t].wait != Shared {
      PrivateIsPast(s, t);
    }
    LeaveKeepsInv(s, Step(s, Resume(t)), t, s.tasks[t].event);
  }

  /** The handler takes the lock again exactly when the event had not fired. */
  lemma HandleCancelKeepsInv(s: State, t: TaskId)
    requires Inv(s) && Enabled(s, HandleCancel(t))
    ensures Inv(Step(s, HandleCancel(t))) && Surplus(Step(s, HandleCancel(t))) == Surplus(s)
  {
    hide EventsAt, Sorted, Removed;
    var e := s.tasks[t].event;
    CountUpdate(s.tasks, t, Runnable);
    CountedMeansRegistered(s.data, e);
    assert TaskInv(s, t);
    if s.tasks[t].CancelFired? {
      PrivateIsPast(s, t);
    }
    LeaveKeepsInv(s, Step(s, HandleCancel(t)), t, e);
  }

  lemma SpawnKeepsInv(s: State, t: TaskId, c: TaskId)
    requires Inv(s) && Enabled(s, Spawn(t, c))
    ensures Inv(Step(s, Spawn(t, c))) && Surplus(Step(s, Spawn(t, c))) == Surplus(s)
  {
    hide EventsAt, Sorted;
    var s' := Step(s, Spawn(t, c));
    CountUpdate(s.tasks, t, AwaitingChild(c));
    CountUpdate(s.tasks[t := AwaitingChild(c)], c, NotStarted(t));
    forall k, x | x in EventsAt(s'.data, k)
      ensures s'.tick <= k && Owned(s', x)
    {
      assert Owned(s, x);
    }
    forall u | u in s'.tasks.Keys
      ensures TaskInv(s', u)
    {
      if u != t && u != c { assert TaskInv(s, u); }
    }
  }

  lemma StartChildKeepsInv(s: State, c: TaskId)
    requires Inv(s) && Enabled(s, StartChild(c))
    ensures Inv(Step(s, StartChild(c))) && Surplus(Step(s, StartChild(c))) == Surplus(s)
  {
    hide EventsAt, Sorted;
    var s' := Step(s, StartChild(c));
    var p := s.tasks[c].parent;
    assert TaskInv(s, c);
    CountUpdate(s.tasks, c, Runnable);
    CountUpdate(s.tasks[c := Runnable], p, Runnable);
    assert Is(s, p, AwaitingChild(c)) && p != c;
    forall k, x | x in EventsAt(s'.data, k)
      ensures s'.tick <= k && Owned(s', x)
    {
      assert Owned(s, x);
    }
    forall u | u in s'.tasks.Keys
      ensures TaskInv(s', u)
    {
      if u != p && u != c { assert TaskInv(s, u); }
    }
    assert QueueInv(s');
  }

  lemma FinishKeepsInv(s: State, t: TaskId)
    requires Inv(s) && Enabled(s, Finish(t))
    ensures Inv(Step(s, Finish(t))) && Surplus(Step(s, Finish(t))) == Surplus(s)
  {
    hide EventsAt, Sorted;
    var s' := Step(s, Finish(t));
    CountUpdate(s.tasks, t, Finished);
    forall k, x | x in EventsAt(s'.data, k)
      ensures s'.tick <= k && Owned(s', x)
    {
      assert Owned(s, x);
    }
    forall u | u in s'.tasks.Keys
      ensures TaskInv(s', u)
    {
      if u != t { assert TaskInv(s, u); }
    }
  }

  // ---- The timer loop ----

  predicate IsOwnerOfOne(s: State, t: TaskId, events: seq<EventId>)
    requires t in s.tasks.Keys
  {
    var e := EventOf(s.tasks[t]);
    e.Some? && e.value in events && e.value in s.owner.Keys && s.owner[e.value] == t
  }

  lemma {:induction false} OwnersOf(s: State, events: seq<EventId>) returns (owners: set<TaskId>)
    requires forall e :: e in events ==> Owned(s, e)
    ensures |owners| <= |events| && (|owners| == |events| <==> Distinct(events))
    ensures forall t :: t in owners <==> t in s.tasks.Keys && IsOwnerOfOne(s, t, events)
  {
    if events == [] {
      owners := {};
    } else {
      var rest := events[1..];
      assert forall i :: 0 <= i < |rest| ==> rest[i] == events[i + 1];
      assert forall e :: e in events <==> e == events[0] || e in rest;
      var others := OwnersOf(s, rest);
      assert Owned(s, events[0]);
      if events[0] in rest {
        owners := others;
        RepeatedFirst(events);
      } else {
        owners := others + {s.owner[events[0]]};
        FirstIsNew(events);
      }
    }
  }

  lemma RepeatedFirst(events: seq<EventId>)
    requires events != [] && events[0] in events[1..]
    ensures !Distinct(events)
  {
    var j :| 0 <= j < |events| - 1 && events[1..][j] == events[0];
    assert events[j + 1] == events[0];
  }

  lemma FirstIsNew(events: seq<EventId>)
    requires events != [] && events[0] !in events[1..]
    ensures Distinct(events) <==> Distinct(events[1..])
  {
    var rest := events[1..];
    if Distinct(rest) {
      forall i, j | 0 <= i < j < |events|
        ensures events[i] != events[j]
      {
        assert events[j] == rest[j - 1];
        assert i > 0 ==> events[i] == rest[i - 1];
      }
    } else {
      var i, j :| 0 <= i < j < |rest| && rest[i] == rest[j];
      assert events[i + 1] == events[j + 1];
    }
  }

  /** Setting the events of one tick wakes as many tasks as there are different events. */
  lemma FiredCount(s: State, events: seq<EventId>)
    requires CountedTasks(s.tasks) == {}
    requires forall e :: e in events ==> Owned(s, e)
    requires forall t :: t in s.tasks.Keys && EventOf(s.tasks[t]).Some? ==>
               EventOf(s.tasks[t]).value in s.owner.Keys && s.owner[EventOf(s.tasks[t]).value] == t
    ensures |CountedTasks(FireAll(s.tasks, events))| <= |events|
    ensures |CountedTasks(FireAll(s.tasks, events))| == |events| <==> Distinct(events)
  {
    var owners := OwnersOf(s, events);
    forall t | t in s.tasks.Keys
      ensures t in CountedTasks(FireAll(s.tasks, events)) <==> t in owners
    {
      assert t !in CountedTasks(s.tasks);
    }
    assert CountedTasks(FireAll(s.tasks, events)) == owners;
  }

  lemma PopView(data: seq<Entry>)
    requires Sorted(data) && data != []
    ensures Sorted(data[1..]) && Above(data[1..], data[0].tick)
    ensures EventsAt(data, data[0].tick) == data[0].events
    ensures forall t :: EventsAt(data[1..], t) == (if t == data[0].tick then [] else EventsAt(data, t))
    ensures forall t: nat, x :: x in EventsAt(data[1..], t) ==> x in EventsAt(data, t) && t > data[0].tick
    ensures forall x :: HasRegistration(data, x) ==> x in data[0].events || HasRegistration(data[1..], x)
  {
    hide EventsAt;
    assert data == [data[0]] + data[1..];
    SortedCons(data[0], data[1..]);
    forall t
      ensures EventsAt(data[1..], t) == (if t == data[0].tick then [] else EventsAt(data, t))
      ensures EventsAt(data, t) != [] ==> data[0].tick <= t
    {
      HeadIsNext(data, t);
    }
    HeadIsNext(data, data[0].tick);
    forall x | HasRegistration(data, x)
      ensures x in data[0].events || HasRegistration(data[1..], x)
    {
      var t :| x in EventsAt(data, t);
      if t != data[0].tick {
        assert x in EventsAt(data[1..], t);
      }
    }
  }

  lemma TickKeepsInv(s: State)
    requires Inv(s) && Enabled(s, Tick)
    ensures Inv(Step(s, Tick)) && (Surplus(Step(s, Tick)) == 0 <==> Distinct(s.data[0].events))
  {
    hide EventsAt, Sorted, Distinct;
    var s' := Step(s, Tick);
    var events := s.data[0].events;
    PopView(s.data);
    NobodyCounted(s);
    assert forall e :: e in events ==> Owned(s, e) by {
      assert forall e :: e in events ==> e in EventsAt(s.data, s.data[0].tick);
    }
    forall t | t in s.tasks.Keys
      ensures TaskInv(s, t)
    {
    }
    FiredCount(s, events);
    assert s.data[0] in s.data;
    forall k, x | x in EventsAt(s'.data, k)
      ensures s'.tick <= k && Owned(s', x)
    {
      RemainingOwned(s, k, x);
    }
    forall u | u in s'.tasks.Keys
      ensures TaskInv(s', u)
    {
      FiredTask(s, u);
    }
    assert forall x :: x in s'.data ==> s'.tick <= x.tick;
    assert QueueInv(s');
  }

  lemma NobodyCounted(s: State)
    requires Inv(s) && s.locks == 0
    ensures CountedTasks(s.tasks) == {}
    ensures forall t :: t in s.tasks.Keys ==> !Counted(s.tasks[t])
  {
    assert CountedTasks(s.tasks) == {};
    forall t | t in s.tasks.Keys
      ensures !Counted(s.tasks[t])
    {
      assert Counted(s.tasks[t]) ==> t in CountedTasks(s.tasks);
    }
  }

  /** What is still registered after the tick belongs to a task that can still be woken. */
  lemma RemainingOwned(s: State, k: nat, x: EventId)
    requires Inv(s) && Enabled(s, Tick) && x in EventsAt(s.data[1..], k)
    ensures var s' := Step(s, Tick);
            s'.tick <= k && Owned(s', x)
  {
    hide EventsAt, Sorted;
    PopView(s.data);
    NobodyCounted(s);
    assert Owned(s, x);
    assert TaskInv(s, s.owner[x]);
    var task := s.tasks[s.owner[x]];
    assert task.Blocked? || task.Cancelling?;
    assert x in EventsAt(s.data, k);
    assert x in s.data[0].events ==> x in EventsAt(s.data, s.data[0].tick);
  }

  lemma FiredTask(s: State, u: TaskId)
    requires Inv(s) && Enabled(s, Tick) && u in s.tasks.Keys
    ensures TaskInv(Step(s, Tick), u)
  {
    hide EventsAt, Sorted;
    PopView(s.data);
    NobodyCounted(s);
    assert TaskInv(s, u);
  }

  /** The one step that breaks the count: a tick for which some event is registered twice. */
  predicate Repeats(s: State, a: Action) {
    Enabled(s, a) && a.Tick? && !Distinct(s.data[0].events)
  }

  lemma StepKeepsInv(s: State, a: Action)
    requires Inv(s)
    ensures Inv(Step(s, a))
    ensures Surplus(s) == 0 ==> (Surplus(Step(s, a)) == 0 <==> !Repeats(s, a))
    ensures Surplus(s) > 0 ==> Surplus(Step(s, a)) == Surplus(s) && Step(s, a).tick == s.tick
  {
    hide Inv, Distinct;
    if Enabled(s, a) {
      OnlyTickMovesTheClock(s, a);
      hide Apply;
      match a
      case Register(t, e, at, wait) => RegisterKeepsInv(s, t, e, at, wait);
      case Notify(t, e, at) => NotifyKeepsInv(s, t, e, at);
      case Block(t) => BlockKeepsInv(s, t);
      case Resume(t) => ResumeKeepsInv(s, t);
      case Cancel(t) => CancelKeepsInv(s, t);
      case HandleCancel(t) => HandleCancelKeepsInv(s, t);
      case Spawn(t, c) => SpawnKeepsInv(s, t, c);
      case StartChild(c) => StartChildKeepsInv(s, c);
      case Finish(t) => FinishKeepsInv(s, t);
      case Tick => TickKeepsInv(s);
    }
  }

  lemma OnlyTickMovesTheClock(s: State, a: Action)
    ensures !a.Tick? ==> Step(s, a).tick == s.tick
  {
  }

  lemma {:induction false} RunKeepsInv(s: State, actions: seq<Action>)
    requires Inv(s)
    ensures Inv(Run(s, actions))
    decreases |actions|
  {
    hide Inv, Step;
    if actions != [] {
      StepKeepsInv(s, actions[0]);
      RunKeepsInv(Step(s, actions[0]), actions[1..]);
    }
  }

  // ---- What it means ----

  /** No tick of the run sets an event that is registered twice for it. */
  predicate NeverRepeats(s: State, actions: seq<Action>)
    decreases |actions|
  {
    actions == [] || (!Repeats(s, actions[0]) && NeverRepeats(Step(s, actions[0]), actions[1..]))
  }

  /** A lock that no task accounts for stays for ever, and time stands still. */
  lemma {:induction false} SurplusStopsTime(s: State, actions: seq<Action>)
    requires Inv(s) && Surplus(s) > 0
    ensures Run(s, actions).tick == s.tick && Surplus(Run(s, actions)) == Surplus(s)
    decreases |actions|
  {
    hide Inv, Step, Surplus;
    if actions != [] {
      StepKeepsInv(s, actions[0]);
      SurplusStopsTime(Step(s, actions[0]), actions[1..]);
    }
  }

  lemma {:induction false} SurplusExactly(s: State, actions: seq<Action>)
    requires Inv(s) && Surplus(s) == 0
    ensures Surplus(Run(s, actions)) == 0 <==> NeverRepeats(s, actions)
    decreases |actions|
  {
    hide Inv, Step, Surplus, Repeats;
    if actions != [] {
      StepKeepsInv(s, actions[0]);
      InvSurplus(Step(s, actions[0]));
      if Repeats(s, actions[0]) {
        SurplusStopsTime(Step(s, actions[0]), actions[1..]);
      } else {
        SurplusExactly(Step(s, actions[0]), actions[1..]);
      }
    }
  }

  lemma InvSurplus(s: State)
    requires Inv(s)
    ensures Surplus(s) >= 0
  {
  }

  /** In every reachable state every task that waits for an event has a registration at or after
      the current tick, and the lock counter is the number of runnable tasks exactly as long as
      no tick has set an event that was registered twice for it. */
  lemma LocksCountRunnableTasks(roots: nat, actions: seq<Action>)
    ensures var s := Run(Start(roots), actions);
            && (s.locks == |CountedTasks(s.tasks)| <==> NeverRepeats(Start(roots), actions))
            && s.locks >= |CountedTasks(s.tasks)|
            && forall t :: t in s.tasks.Keys && Waits(s.tasks[t]) ==>
                 WillFire(s, EventOf(s.tasks[t]).value)
  {
    hide Run, Start, Inv, NeverRepeats;
    StartInv(roots);
    RunKeepsInv(Start(roots), actions);
    SurplusExactly(Start(roots), actions);
    InvMeans(Run(Start(roots), actions));
  }

  // ---- The timer loop ----

  predicate NoTicks(actions: seq<Action>) {
    forall a :: a in actions ==> !a.Tick?
  }

  /** One turn of the timer loop: the tasks run, then the loop looks at the lock counter. */
  function AfterTurn(s: State, actions: seq<Action>, length: nat): State {
    var s1 := Run(s, actions);
    if s1.locks != 0 then s1
    else if s1.data == [] then s1.(tick := length)
    else Step(s1, Tick)
  }

  /** The loop, given what the tasks did in each turn. */
  function AfterTurns(s: State, history: seq<seq<Action>>, length: nat): State
    decreases |history|
  {
    if history == [] || s.tick >= length then s else AfterTurns(AfterTurn(s, history[0], length), history[1..], length)
  }

  lemma {:induction false} RunAppend(s: State, actions: seq<Action>, a: Action)
    ensures Run(s, actions + [a]) == Step(Run(s, actions), a)
    decreases |actions|
  {
    hide Step;
    if actions == [] {
      assert actions + [a] == [a] && [a][1..] == [];
      assert Run(s, [a]) == Run(Step(s, a), []);
    } else {
      RunAppend(Step(s, actions[0]), actions[1..], a);
      assert (actions + [a])[1..] == actions[1..] + [a];
    }
  }

  lemma {:induction false} AfterTurnsAppend(s: State, history: seq<seq<Action>>, length: nat, last: seq<Action>)
    requires AfterTurns(s, history, length).tick < length
    ensures AfterTurns(s, history + [last], length) == AfterTurn(AfterTurns(s, history, length), last, length)
    decreases |history|
  {
    hide AfterTurn;
    if history == [] {
      assert history + [last] == [last] && [last][1..] == [];
      assert AfterTurns(s, [last], length) == AfterTurns(AfterTurn(s, last, length), [], length);
    } else {
      AfterTurnsAppend(AfterTurn(s, history[0], length), history[1..], length, last);
      assert (history + [last])[1..] == history[1..] + [last];
    }
  }

  lemma {:induction false} TasksKeepTime(s: State, actions: seq<Action>)
    requires NoTicks(actions)
    ensures Run(s, actions).tick == s.tick
    decreases |actions|
  {
    hide Step;
    if actions != [] {
      assert actions[0] in actions;
      OnlyTickMovesTheClock(s, actions[0]);
      TasksKeepTime(Step(s, actions[0]), actions[1..]);
    }
  }

  /** A turn that finds no lock held. With nothing registered the run ends. Otherwise the clock moves
      to the earliest registered tick, whoever waits for an event of that tick is woken, one lock
      is taken for each of its events, and what is registered for later stays. */
  lemma IdleTurn(s: State, actions: seq<Action>, length: nat)
    requires Inv(s) && NoTicks(actions) && Run(s, actions).locks == 0
    ensures var s1, s' := Run(s, actions), AfterTurn(s, actions, length);
            && (s1.data == [] ==> s'.tick == length)
            && (s1.data != [] ==>
                  && s'.tick == s1.data[0].tick >= s.tick && s'.tasks.Keys == s1.tasks.Keys
                  && (forall k: nat, e {:trigger e in EventsAt(s1.data, k)} :: e in EventsAt(s1.data, k) ==> s'.tick <= k)
                  && s'.locks == |EventsAt(s1.data, s'.tick)|
                  && (forall k: nat :: EventsAt(s'.data, k) == if k == s'.tick then [] else EventsAt(s1.data, k))
                  && (forall t :: t in s1.tasks.Keys && s1.tasks[t].Blocked? && s1.tasks[t].event in EventsAt(s1.data, s'.tick) ==>
                        s'.tasks[t] == Woken(s1.tasks[t].event, s1.tasks[t].wait))
                  && (forall t :: t in s1.tasks.Keys && s1.tasks[t].Blocked? && s1.tasks[t].event !in EventsAt(s1.data, s'.tick) ==>
                        s'.tasks[t] == s1.tasks[t]))
  {
    hide Inv, EventsAt, Sorted;
    var s1 := Run(s, actions);
    RunKeepsInv(s, actions);
    TasksKeepTime(s, actions);
    InvHasQueue(s1);
    if s1.data != [] {
      PopView(s1.data);
      ClockMovesOnlyWhenIdle(s1, Tick);
      forall k: nat, e | e in EventsAt(s1.data, k)
        ensures s1.data[0].tick <= k
      {
        HeadIsNext(s1.data, k);
      }
    }
  }

  /** The tasks do their part: in each turn, those that run wait again, or finish, and what they
      register is for later. */
  predicate Diligent(s: State, history: seq<seq<Action>>, length: nat)
    decreases |history|
  {
    history == [] || s.tick >= length ||
    (&& NoTicks(history[0]) && RegistersLater(history[0], s.tick) && Run(s, history[0]).locks == 0
     && Diligent(AfterTurn(s, history[0], length), history[1..], length))
  }

  predicate RegistersLater(actions: seq<Action>, tick: nat) {
    forall a :: a in actions && a.Register? ==> a.at > tick
  }

  predicate AllLater(s: State) {
    forall x :: x in s.data ==> x.tick > s.tick
  }

  /** Task t sleeps until tick k. */
  ghost predicate SleepsUntil(s: State, t: TaskId, e: EventId, k: nat) {
    Is(s, t, Blocked(e, Plain)) && e in EventsAt(s.data, k)
  }

  lemma SleepUndisturbed(s: State, a: Action, t: TaskId, e: EventId, k: nat)
    requires Inv(s) && !a.Tick? && SleepsUntil(s, t, e, k) && AllLater(s) && (a.Register? ==> a.at > s.tick)
    ensures SleepsUntil(Step(s, a), t, e, k) && AllLater(Step(s, a))
  {
    hide EventsAt, Sorted, Added, Removed, Distinct;
    assert TaskInv(s, t);
    if Enabled(s, a) {
      match a
      case Register(u, x, at, wait) =>
        AddedView(s.data, at, x);
        AddedBound(s.data, at, x, s.tick + 1);
      case Notify(u, x, at) =>
        AddedView(s.data, at, x);
        AddedBound(s.data, at, x, s.tick + 1);
      case Resume(u) =>
        RemovedView(s.data, s.tasks[u].event);
        assert TaskInv(s, u);
      case HandleCancel(u) =>
        RemovedView(s.data, s.tasks[u].event);
        assert TaskInv(s, u);
      case _ =>
    }
  }

  lemma {:induction false} SleepsThroughTurn(s: State, actions: seq<Action>, t: TaskId, e: EventId, k: nat)
    requires Inv(s) && NoTicks(actions) && SleepsUntil(s, t, e, k) && AllLater(s) && RegistersLater(actions, s.tick)
    ensures SleepsUntil(Run(s, actions), t, e, k) && AllLater(Run(s, actions)) && Run(s, actions).tick == s.tick
    decreases |actions|
  {
    hide Inv, Step, AllLater, SleepsUntil;
    if actions != [] {
      assert actions[0] in actions;
      SleepUndisturbed(s, actions[0], t, e, k);
      StepKeepsInv(s, actions[0]);
      OnlyTickMovesTheClock(s, actions[0]);
      SleepsThroughTurn(Step(s, actions[0]), actions[1..], t, e, k);
    }
  }

  /** A task that sleeps until tick k is woken at k, after at most one turn for each tick until
      then, as long as the other tasks do their part. */
  lemma {:induction false} SleeperIsWoken(s: State, history: seq<seq<Action>>, length: nat, t: TaskId, e: EventId, k: nat)
    returns (turns: nat)
    requires Inv(s) && SleepsUntil(s, t, e, k) && AllLater(s) && Diligent(s, history, length)
    requires s.tick < k < length && |history| >= k - s.tick
    ensures turns <= |history| && turns <= k - s.tick
    ensures var s' := AfterTurns(s, history[..turns], length);
            s'.tick == k && Is(s', t, Woken(e, Plain))
    decreases |history|
  {
    hide Inv, EventsAt, Sorted, Step, Run, AllLater, Diligent;
    var s1, s' := Run(s, history[0]), AfterTurn(s, history[0], length);
    assert NoTicks(history[0]) && RegistersLater(history[0], s.tick) && s1.locks == 0
           && Diligent(s', history[1..], length) by { FirstTurn(s, history, length); }
    SleepsThroughTurn(s, history[0], t, e, k);
    RunKeepsInv(s, history[0]);
    assert s1.data != [] by { RegisteredSomewhere(s1.data, e, k); }
    IdleTurn(s, history[0], length);
    StepKeepsInv(s1, Tick);
    assert s'.tick > s.tick && AllLater(s') by { NextIsLater(s1); }
    SleepsOnce(s1, t, e, k);
    if s'.tick == k {
      turns := 1;
      assert history[..1][0] == history[0] && history[..1][1..] == [];
      assert AfterTurns(s, history[..1], length) == AfterTurns(s', [], length) == s';
    } else {
      var rest := SleeperIsWoken(s', history[1..], length, t, e, k);
      turns := rest + 1;
      assert history[..turns][0] == history[0] && history[..turns][1..] == history[1..][..rest];
    }
  }

  lemma SleepsOnce(s: State, t: TaskId, e: EventId, k: nat)
    requires Inv(s) && SleepsUntil(s, t, e, k)
    ensures forall j: nat :: e in EventsAt(s.data, j) ==> j == k
  {
    assert TaskInv(s, t);
  }

  lemma FirstTurn(s: State, history: seq<seq<Action>>, length: nat)
    requires Diligent(s, history, length) && history != [] && s.tick < length
    ensures NoTicks(history[0]) && RegistersLater(history[0], s.tick) && Run(s, history[0]).locks == 0
    ensures Diligent(AfterTurn(s, history[0], length), history[1..], length)
  {
  }

  lemma RegisteredSomewhere(data: seq<Entry>, e: EventId, k: nat)
    requires e in EventsAt(data, k)
    ensures data != []
  {
  }

  lemma NextIsLater(s: State)
    requires Inv(s) && Enabled(s, Tick) && AllLater(s)
    ensures Step(s, Tick).tick > s.tick && AllLater(Step(s, Tick))
  {
    hide EventsAt;
    assert s.data[0] in s.data;
    PopView(s.data);
  }

  // ---- When no event is counted twice ----

  /** Whoever schedules an event again finds it not yet listed for that tick: a test the caller can
      make before it does so. */
  predicate NotifiesFresh(s: State, actions: seq<Action>)
    decreases |actions|
  {
    actions == [] ||
    (&& (actions[0].Notify? && Enabled(s, actions[0]) ==> actions[0].event !in EventsAt(s.data, actions[0].at))
     && NotifiesFresh(Step(s, actions[0]), actions[1..]))
  }

  ghost predicate EachListDistinct(data: seq<Entry>) {
    forall k: nat :: Distinct(EventsAt(data, k))
  }

  lemma {:induction false} WithoutDistinct(events: seq<EventId>, e: EventId)
    requires Distinct(events)
    ensures Distinct(Without(events, e))
  {
    if events != [] {
      var rest := Without(events[1..], e);
      WithoutDistinct(events[1..], e);
      assert events[0] !in rest;
      if events[0] != e {
        var all := [events[0]] + rest;
        assert Without(events, e) == all;
        forall i, j | 0 <= i < j < |all|
          ensures all[i] != all[j]
        {
          assert all[j] == rest[j - 1];
        }
      }
    }
  }

  lemma AppendDistinct(events: seq<EventId>, e: EventId)
    requires Distinct(events) && e !in events
    ensures Distinct(events + [e])
  {
  }

  lemma AddedDistinct(data: seq<Entry>, at: nat, e: EventId)
    requires Sorted(data) && EachListDistinct(data) && e !in EventsAt(data, at)
    ensures EachListDistinct(Added(data, at, e))
  {
    hide EventsAt, Added, Sorted, Distinct;
    AddedView(data, at, e);
    AppendDistinct(EventsAt(data, at), e);
  }

  lemma RemovedDistinct(data: seq<Entry>, e: EventId)
    requires Sorted(data) && EachListDistinct(data)
    ensures EachListDistinct(Removed(data, e))
  {
    hide EventsAt, Sorted, Distinct;
    RemovedView(data, e);
    forall k: nat
      ensures Distinct(EventsAt(Removed(data, e), k))
    {
      WithoutDistinct(EventsAt(data, k), e);
    }
  }

  lemma StepKeepsDistinct(s: State, a: Action)
    requires Inv(s) && EachListDistinct(s.data)
    requires a.Notify? && Enabled(s, a) ==> a.event !in EventsAt(s.data, a.at)
    ensures EachListDistinct(Step(s, a).data) && !Repeats(s, a)
  {
    hide EventsAt, Sorted, EachListDistinct, Distinct, Added, Removed, TaskInv, FireAll;
    if Enabled(s, a) {
      match a
      case Register(t, e, at, wait) =>
        assert e !in EventsAt(s.data, at);
        AddedDistinct(s.data, at, e);
      case Notify(t, e, at) => AddedDistinct(s.data, at, e);
      case Resume(t) => RemovedDistinct(s.data, s.tasks[t].event);
      case HandleCancel(t) => RemovedDistinct(s.data, s.tasks[t].event);
      case Tick => PoppedDistinct(s.data);
      case _ =>
    }
  }

  lemma PoppedDistinct(data: seq<Entry>)
    requires Sorted(data) && data != [] && EachListDistinct(data)
    ensures Distinct(data[0].events) && EachListDistinct(data[1..])
  {
    hide EventsAt, Sorted;
    PopView(data);
    assert Distinct(EventsAt(data, data[0].tick));
    forall k: nat
      ensures Distinct(EventsAt(data[1..], k))
    {
      assert Distinct(EventsAt(data, k));
    }
  }

  lemma {:induction false} FreshNeverRepeats(s: State, actions: seq<Action>)
    requires Inv(s) && EachListDistinct(s.data) && NotifiesFresh(s, actions)
    ensures NeverRepeats(s, actions)
    decreases |actions|
  {
    hide Inv, Step, Repeats, EachListDistinct, EventsAt;
    if actions != [] {
      StepKeepsDistinct(s, actions[0]);
      StepKeepsInv(s, actions[0]);
      FreshNeverRepeats(Step(s, actions[0]), actions[1..]);
    }
  }

  /** As long as nobody schedules an event for a tick it is already listed for, the lock counter is
      the number of runnable tasks in every state of the run. */
  lemma FreshSchedulingCounts(roots: nat, actions: seq<Action>)
    requires NotifiesFresh(Start(roots), actions)
    ensures var s := Run(Start(roots), actions);
            s.locks == |CountedTasks(s.tasks)|
  {
    hide Run, Inv, NeverRepeats, NotifiesFresh;
    StartInv(roots);
    assert EachListDistinct(Start(roots).data);
    FreshNeverRepeats(Start(roots), actions);
    LocksCountRunnableTasks(roots, actions);
  }

  ghost predicate WillFire(s: State, e: EventId) {
    exists k: nat :: e in EventsAt(s.data, k) && s.tick <= k
  }

  lemma InvMeans(s: State)
    requires Inv(s)
    ensures s.locks >= |CountedTasks(s.tasks)|
    ensures forall t :: t in s.tasks.Keys && Waits(s.tasks[t]) ==> WillFire(s, EventOf(s.tasks[t]).value)
  {
    hide EventsAt, Sorted;
    forall t | t in s.tasks.Keys && Waits(s.tasks[t])
      ensures WillFire(s, EventOf(s.tasks[t]).value)
    {
      assert TaskInv(s, t);
      var e := EventOf(s.tasks[t]).value;
      var k: nat :| e in EventsAt(s.data, k);
      assert s.tick <= k;
    }
  }

  /** The clock never goes back, and it moves only while no task is runnable. */
  lemma ClockMovesOnlyWhenIdle(s: State, a: Action)
    requires Inv(s)
    ensures s.tick <= Step(s, a).tick
    ensures Step(s, a).tick != s.tick ==> CountedTasks(s.tasks) == {}
  {
    if Enabled(s, a) && a.Tick? {
      NobodyCounted(s);
      assert s.data[0] in s.data;
    }
  }

  /** No wake-up is lost or late: a tick wakes every blocked task that is registered for it, and
      never passes a tick for which somebody is registered. */
  lemma WakeUpsAreOnTime(s: State, t: TaskId, k: nat)
    requires Inv(s) && Enabled(s, Tick) && t in s.tasks.Keys
    requires s.tasks[t].Blocked? && s.tasks[t].event in EventsAt(s.data, k)
    ensures var s' := Step(s, Tick);
            && s'.tick <= k
            && (k == s'.tick ==> s'.tasks[t] == Woken(s.tasks[t].event, s.tasks[t].wait))
            && (k > s'.tick ==> s.tasks[t].event in EventsAt(s'.data, k))
  {
    hide Inv;
    assert QueueInv(s) by { InvHasQueue(s); }
    PopView(s.data);
    HeadIsNext(s.data, k);
  }

  lemma InvHasQueue(s: State)
    requires Inv(s)
    ensures QueueInv(s)
  {
  }

  lemma WaitsForChild(s: State, t: TaskId, c: TaskId, a: Action)
    requires Inv(s) && Is(s, t, AwaitingChild(c)) && Is(s, c, NotStarted(t)) && a != StartChild(c)
    ensures var s' := Step(s, a);
            Is(s', t, AwaitingChild(c)) && Is(s', c, NotStarted(t)) && s'.tick == s.tick
  {
    hide EventsAt, QueueInv, Added, Removed;
    assert t in CountedTasks(s.tasks);
    assert s.locks > 0;
    if Enabled(s, a) && a.StartChild? {
      assert TaskInv(s, a.child);
    }
  }

  /** `start_child_task`: until the child takes its lock the parent waits and time stands still,
      whatever the others do; then both run, each with a lock of its own. */
  lemma {:induction false} ChildStarts(s: State, t: TaskId, c: TaskId, between: seq<Action>)
    requires Inv(s) && Is(s, t, Runnable) && c !in s.tasks.Keys && StartChild(c) !in between
    ensures var waiting := Run(Step(s, Spawn(t, c)), between);
            var s' := Step(waiting, StartChild(c));
            && Is(waiting, t, AwaitingChild(c)) && Is(waiting, c, NotStarted(t)) && waiting.tick == s.tick
            && Is(s', t, Runnable) && Is(s', c, Runnable) && s'.locks == waiting.locks + 1
            && s'.tick == s.tick && s'.data == waiting.data
  {
    hide Inv, Run;
    SpawnKeepsInv(s, t, c);
    StillWaits(Step(s, Spawn(t, c)), t, c, between);
  }

  lemma {:induction false} StillWaits(s: State, t: TaskId, c: TaskId, between: seq<Action>)
    requires Inv(s) && Is(s, t, AwaitingChild(c)) && Is(s, c, NotStarted(t)) && StartChild(c) !in between
    ensures var waiting := Run(s, between);
            Is(waiting, t, AwaitingChild(c)) && Is(waiting, c, NotStarted(t)) && waiting.tick == s.tick
    decreases |between|
  {
    hide Inv, Step, Is;
    if between != [] {
      assert between[0] in between;
      WaitsForChild(s, t, c, between[0]);
      StepKeepsInv(s, between[0]);
      StillWaits(Step(s, between[0]), t, c, between[1..]);
    }
  }

  /** Cancelling a `sleep_until`, before its event fires or after: once the handler is done one
      lock is held for the task that runs, and no tick will ever take another one for its event.
      If the event fired, before the cancellation or before the handler, the lock is the one the
      tick took. */
  lemma CancelTakesOneLock(s: State, t: TaskId)
    requires Inv(s) && Enabled(s, HandleCancel(t))
    ensures var s' := Step(s, HandleCancel(t));
            && s'.locks == (if s.tasks[t].CancelFired? then s.locks else s.locks + 1)
            && s'.tasks[t] == Runnable && Surplus(s') == Surplus(s)
            && !HasRegistration(s'.data, s.tasks[t].event)
  {
    hide EventsAt, Removed;
    var e := s.tasks[t].event;
    assert TaskInv(s, t);
    CountedMeansRegistered(s.data, e);
    RemovedView(s.data, e);
    HandleCancelKeepsInv(s, t);
    if s.tasks[t].CancelFired? {
      PrivateIsPast(s, t);
    }
  }

  /** Fired first, then cancelled, then handled: the handler finds nothing to remove. */
  lemma CancelAfterFiring(s: State, t: TaskId)
    requires Inv(s) && t in s.tasks.Keys && s.tasks[t].Woken? && s.tasks[t].wait == Until
    ensures CountAll(s.data, s.tasks[t].event) == 0
    ensures var s' := Run(s, [Cancel(t), HandleCancel(t)]);
            s'.locks == s.locks && s'.tasks == s.tasks[t := Runnable] && Surplus(s') == Surplus(s)
  {
    hide EventsAt, Removed, Inv, Surplus;
    var e := s.tasks[t].event;
    PrivateIsPast(s, t);
    assert Sorted(s.data) by { InvHasQueue(s); }
    CountedMeansRegistered(s.data, e);
    var s1 := Step(s, Cancel(t));
    StepKeepsInv(s, Cancel(t));
    CancelKeepsInv(s, t);
    var s2 := Step(s1, HandleCancel(t));
    HandleCancelKeepsInv(s1, t);
    assert [Cancel(t), HandleCancel(t)][1..] == [HandleCancel(t)];
    assert [HandleCancel(t)][1..] == [];
    assert Run(s, [Cancel(t), HandleCancel(t)]) == Run(s1, [HandleCancel(t)]) == Run(s2, []) == s2;
    assert s1.tasks[t := Runnable] == s.tasks[t := Runnable];
  }

  /** Such a tick can be reached, and whatever happens after it, time stands still: a second task
      schedules the event of the first for the very tick it already waits for. */
  lemma DoubleRegistrationStops(after: seq<Action>)
    ensures var twice := [Register(0, 7, 5, Shared), Block(0), Notify(1, 7, 5), Finish(1), Tick];
            var s := Run(Start(2), twice);
            && s.tick == 5 && s.locks == 2 && CountedTasks(s.tasks) == {0}
            && Run(s, after).tick == 5
  {
    hide Run, Inv, Added, EventsAt;
    var twice := [Register(0, 7, 5, Shared), Block(0), Notify(1, 7, 5), Finish(1), Tick];
    TwiceRegistered();
    StartInv(2);
    RunKeepsInv(Start(2), twice);
    SurplusStopsTime(Run(Start(2), twice), after);
  }

  lemma TwiceRegistered()
    ensures var s := Run(Start(2), [Register(0, 7, 5, Shared), Block(0), Notify(1, 7, 5), Finish(1), Tick]);
            s.tick == 5 && s.locks == 2 && CountedTasks(s.tasks) == {0}
  {
    hide Added, EventsAt, Start;
    var waiting := FirstRegisters();
    var s3 := Step(waiting, Notify(1, 7, 5));
    AddedTwice();
    assert s3 == State(0, 1, [Entry(5, [7, 7])], map[0 := Blocked(7, Shared), 1 := Runnable], map[7 := 0]);
    var s4 := Step(s3, Finish(1));
    assert s4 == State(0, 0, [Entry(5, [7, 7])], map[0 := Blocked(7, Shared), 1 := Finished], map[7 := 0]);
    TickTwice(s4);
    FiveSteps(Start(2), Register(0, 7, 5, Shared), Block(0), Notify(1, 7, 5), Finish(1), Tick);
  }

  lemma TickTwice(s: State)
    requires s == State(0, 0, [Entry(5, [7, 7])], map[0 := Blocked(7, Shared), 1 := Finished], map[7 := 0])
    ensures var s' := Step(s, Tick);
            s'.tick == 5 && s'.locks == 2 && CountedTasks(s'.tasks) == {0}
  {
    var s' := Step(s, Tick);
    assert s'.tasks == map[0 := Woken(7, Shared), 1 := Finished];
  }

  lemma FirstRegisters() returns (s: State)
    ensures s == Step(Step(Start(2), Register(0, 7, 5, Shared)), Block(0))
    ensures s == State(0, 1, [Entry(5, [7])], map[0 := Blocked(7, Shared), 1 := Runnable], map[7 := 0])
  {
    hide Added, EventsAt;
    AddedTwice();
    var s0 := Start(2);
    assert s0.tasks == map[0 := Runnable, 1 := Runnable];
    var s1 := Step(s0, Register(0, 7, 5, Shared));
    assert s1 == State(0, 2, [Entry(5, [7])], map[0 := Registered(7, Shared), 1 := Runnable], map[7 := 0]);
    s := Step(s1, Block(0));
  }

  lemma AddedTwice()
    ensures Added([], 5, 7) == [Entry(5, [7])]
    ensures Added([Entry(5, [7])], 5, 7) == [Entry(5, [7, 7])]
  {
    assert [7] + [7] == [7, 7];
    var one := [Entry(5, [7])];
    assert Added(one, 5, 7) == [Entry(5, one[0].events + [7])] + one[1..];
  }

  lemma FiveSteps(s: State, a: Action, b: Action, c: Action, d: Action, e: Action)
    ensures Run(s, [a, b, c, d, e]) == Step(Step(Step(Step(Step(s, a), b), c), d), e)
  {
    hide Step;
    assert [a, b, c, d, e][1..] == [b, c, d, e];
    assert [b, c, d, e][1..] == [c, d, e];
    assert [c, d, e][1..] == [d, e];
    assert [d, e][1..] == [e];
    assert [e][1..] == [];
    var s1 := Step(s, a);
    var s2 := Step(s1, b);
    var s3 := Step(s2, c);
    var s4 := Step(s3, d);
    assert Run(s4, [e]) == Run(Step(s4, e), []);
    assert Run(s3, [d, e]) == Run(s4, [e]);
    assert Run(s2, [c, d, e]) == Run(s3, [d, e]);
    assert Run(s1, [b, c, d, e]) == Run(s2, [c, d, e]);
  }
}
