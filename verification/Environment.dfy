/** The simulation environment object: its tick and lock counter are changed in place by the
    timer loop and by every task that sleeps, is woken, starts or ends. */
module Environment {
  import opened Bytes
  import opened WakeUpQueue
  import opened Kernel

  lemma FiredTwice(tasks: map<TaskId, Task>, events: seq<EventId>, k: nat)
    requires k < |events|
    ensures FireAll(FireAll(tasks, events[..k]), [events[k]]) == FireAll(tasks, events[..k + 1])
  {
    hide Fired;
    assert events[..k + 1] == events[..k] + [events[k]];
    forall t | t in tasks.Keys
      ensures Fired(Fired(tasks[t], events[..k]), [events[k]]) == Fired(tasks[t], events[..k + 1])
    {
      FiredOnce(tasks[t], events[..k], events[k]);
    }
    assert FireAll(FireAll(tasks, events[..k]), [events[k]]) == FireAll(tasks, events[..k + 1]);
  }

  lemma FiredNone(tasks: map<TaskId, Task>)
    ensures FireAll(tasks, []) == tasks
  {
  }

  lemma FiredOnce(task: Task, events: seq<EventId>, e: EventId)
    ensures Fired(Fired(task, events), [e]) == Fired(task, events + [e])
  {
  }

  class SimulationEnvironment {
    const length: nat
    const wakeups: Queue
    var currentTick: nat
    var timerLocks: int
    // The tasks of the event loop, and which of them waits for which event.
    var tasks: map<TaskId, Task>
    var owner: map<EventId, TaskId>
    var nextEvent: nat

    function Now(): State
      reads this, wakeups
    {
      State(currentTick, timerLocks, wakeups.data, tasks, owner)
    }

    ghost predicate Valid()
      reads this, wakeups
    {
      Inv(Now()) && forall e :: e in owner.Keys ==> e < nextEvent
    }

    /** A simulation with its root tasks, none of which has slept yet. */
    constructor (length: nat, roots: nat)
      ensures Valid() && Now() == Start(roots) && fresh(wakeups) && this.length == length
    {
      this.length := length;
      wakeups := new Queue();
      currentTick, timerLocks := 0, roots;
      tasks, owner, nextEvent := RootTasks(roots), map[], 0;
      new;
      StartInv(roots);
    }

    /** One step of one task. */
    method Perform(a: Action)
      requires Valid() && Enabled(Now(), a) && !a.Tick?
      requires a.Register? ==> a.event < nextEvent
      modifies this, wakeups
      ensures Valid() && Now() == Step(old(Now()), a) && nextEvent == old(nextEvent)
    {
      hide Inv, Sorted, EventsAt;
      StepKeepsInv(Now(), a);
      QueueIsSorted(Now());
      match a
      case Register(t, e, at, wait) =>
        wakeups.Add(at, e);
        tasks := tasks[t := Registered(e, wait)];
        owner := owner[e := t];
      case Notify(t, e, at) =>
        wakeups.Add(at, e);
      case Block(t) =>
        timerLocks := timerLocks - 1;
        tasks := tasks[t := Blocked(tasks[t].event, tasks[t].wait)];
      case Resume(t) =>
        if tasks[t].wait == Shared {
          var found := wakeups.Remove(tasks[t].event);
        }
        tasks := tasks[t := Runnable];
      case Cancel(t) =>
        var e := tasks[t].event;
        tasks := tasks[t := if tasks[t].Woken? then CancelFired(e) else Cancelling(e)];
      case HandleCancel(t) =>
        var removed := wakeups.Remove(tasks[t].event);
        if removed > 0 {
          timerLocks := timerLocks + 1;
        }
        tasks := tasks[t := Runnable];
      case Spawn(t, c) =>
        tasks := tasks[t := AwaitingChild(c)][c := NotStarted(t)];
      case StartChild(c) =>
        timerLocks := timerLocks + 1;
        tasks := tasks[c := Runnable][tasks[c].parent := Runnable];
      case Finish(t) =>
        timerLocks := timerLocks - 1;
        tasks := tasks[t := Finished];
    }

    lemma QueueIsSorted(s: State)
      requires Inv(s)
      ensures Sorted(s.data)
    {
    }

    /** `sleep`: registers a fresh event at the wake-up tick, capped at the end of the run. */
    method Sleep(t: TaskId, duration: nat)
      requires Valid() && Is(Now(), t, Runnable) && currentTick < length
      modifies this, wakeups
      ensures Valid()
      ensures var at := if length < old(currentTick) + duration then length else old(currentTick) + duration;
              && Now() == Step(old(Now()), Register(t, old(nextEvent), at, Plain))
              && Is(Now(), t, Registered(old(nextEvent), Plain)) && old(nextEvent) in EventsAt(wakeups.data, at)
    {
      hide Inv, EventsAt;
      var at := if length < currentTick + duration then length else currentTick + duration;
      var e := nextEvent;
      nextEvent := nextEvent + 1;
      QueueIsSorted(Now());
      AddedView(wakeups.data, at, e);
      Perform(Register(t, e, at, Plain));
    }

    /** `sleep_until`: refuses a time in the past. */
    method SleepUntil(t: TaskId, timestamp: nat) returns (ok: bool)
      requires Valid() && Is(Now(), t, Runnable) && currentTick < length
      modifies this, wakeups
      ensures Valid() && (ok <==> old(currentTick) <= timestamp)
      ensures !ok ==> Now() == old(Now())
      ensures ok ==> Now() == Step(old(Now()), Register(t, old(nextEvent), if length < timestamp then length else timestamp, Until))
      ensures ok ==> Is(Now(), t, Registered(old(nextEvent), Until))
                     && old(nextEvent) in EventsAt(wakeups.data, if length < timestamp then length else timestamp)
    {
      hide Inv, EventsAt;
      QueueIsSorted(Now());
      if timestamp < currentTick {
        return false;
      }
      var e := nextEvent;
      nextEvent := nextEvent + 1;
      AddedView(wakeups.data, if length < timestamp then length else timestamp, e);
      Perform(Register(t, e, if length < timestamp then length else timestamp, Until));
      return true;
    }

    /** The tick an event is scheduled for: never the current one. */
    function ScheduledTick(timestamp: nat): (at: Option<nat>)
      reads this
      ensures at.None? <==> timestamp < currentTick
      ensures at.Some? ==> currentTick < at.value && timestamp <= at.value <= timestamp + 1
    {
      var at := if timestamp == currentTick then timestamp + 1 else timestamp;
      if at <= currentTick then None else Some(at)
    }

    /** `schedule_event_wait`: a new event, which the task then waits for and others may schedule
        again. */
    method ScheduleEventWait(t: TaskId, timestamp: nat) returns (ok: bool)
      requires Valid() && Is(Now(), t, Runnable)
      modifies this, wakeups
      ensures Valid() && (ok <==> old(currentTick) <= timestamp)
      ensures !ok ==> Now() == old(Now())
      ensures ok ==> Now() == Step(old(Now()), Register(t, old(nextEvent), old(ScheduledTick(timestamp)).value, Shared))
      ensures ok ==> Is(Now(), t, Registered(old(nextEvent), Shared))
                     && old(nextEvent) in EventsAt(wakeups.data, if timestamp == currentTick then timestamp + 1 else timestamp)
    {
      hide Inv, EventsAt;
      QueueIsSorted(Now());
      var at := ScheduledTick(timestamp);
      if at.None? {
        return false;
      }
      var e := nextEvent;
      nextEvent := nextEvent + 1;
      AddedView(wakeups.data, at.value, e);
      Perform(Register(t, e, at.value, Shared));
      return true;
    }

    /** `schedule_event_no_await` for an event that somebody waits for, or has just been woken by. */
    method ScheduleEventNoAwait(t: TaskId, e: EventId, timestamp: nat) returns (ok: bool)
      requires Valid() && Is(Now(), t, Runnable) && Awaited(Now(), e)
      modifies this, wakeups
      ensures Valid() && (ok <==> old(currentTick) <= timestamp)
      ensures !ok ==> Now() == old(Now())
      ensures ok ==> Now() == Step(old(Now()), Notify(t, e, old(ScheduledTick(timestamp)).value))
      ensures ok ==> e in EventsAt(wakeups.data, if timestamp == currentTick then timestamp + 1 else timestamp)
    {
      hide Inv, EventsAt;
      QueueIsSorted(Now());
      var at := ScheduledTick(timestamp);
      if at.None? {
        return false;
      }
      AddedView(wakeups.data, at.value, e);
      Perform(Notify(t, e, at.value));
      return true;
    }

    /** The body of the timer loop once no lock is held: moves the clock to the next tick, sets
        its events in order and takes one lock for each. */
    method Advance()
      requires Valid() && Enabled(Now(), Tick)
      modifies this, wakeups
      ensures Valid() && Now() == Step(old(Now()), Tick) && nextEvent == old(nextEvent)
    {
      hide Inv, Sorted, EventsAt, Fired, Added, Removed, Surplus, Counted;
      ghost var before := Now();
      StepKeepsInv(before, Tick);
      QueueIsSorted(before);
      var next := wakeups.NextTick();
      var (tick, events) := next.value;
      assert before.data[0] == Entry(tick, events) && before.data[1..] == wakeups.data;
      currentTick := tick;
      ghost var rest := wakeups.data;
      FiredNone(before.tasks);
      assert events[..0] == [];
      for k := 0 to |events|
        invariant tasks == FireAll(before.tasks, events[..k])
        invariant timerLocks == before.locks + k
        invariant currentTick == tick && wakeups.data == rest && owner == before.owner && nextEvent == old(nextEvent)
      {
        FiredTwice(before.tasks, events, k);
        tasks := FireAll(tasks, [events[k]]);
        timerLocks := timerLocks + 1;
      }
      assert events[..|events|] == events;
    }

    /** What the tasks do while the timer loop keeps looking at the lock counter. */
    method TasksRun() returns (ghost actions: seq<Action>)
      requires Valid()
      modifies this, wakeups
      ensures Valid() && Now() == Run(old(Now()), actions) && NoTicks(actions)
    {
      hide Inv, EventsAt, Step;
      actions := [];
      var steps: nat := *;
      while steps > 0
        invariant Valid() && Now() == Run(old(Now()), actions) && NoTicks(actions)
      {
        var a: Action := *;
        if !a.Tick? && Enabled(Now(), a) {
          if a.Register? && a.event >= nextEvent {
            nextEvent := a.event + 1;
          }
          RunAppend(old(Now()), actions, a);
          Perform(a);
          actions := actions + [a];
        }
        steps := steps - 1;
      }
    }

    /** `__run_simulation`, for a number of turns of its loop. The history is what the tasks did in
        each turn; the state is what the turns make of it, one after the other, and the loop goes on
        until the end of the run. */
    method RunSimulation(turns: nat) returns (ghost history: seq<seq<Action>>)
      requires Valid()
      modifies this, wakeups
      ensures Valid() && old(currentTick) <= currentTick
      ensures Now() == AfterTurns(old(Now()), history, length)
      ensures |history| <= turns && (|history| == turns || currentTick >= length)
      ensures forall actions :: actions in history ==> NoTicks(actions)
    {
      hide Inv, Sorted, EventsAt, Step, Run;
      ghost var start := Now();
      history := [];
      var left := turns;
      while left > 0 && currentTick < length
        invariant Valid() && old(currentTick) <= currentTick
        invariant Now() == AfterTurns(start, history, length)
        invariant left >= 0 && left + |history| == turns
        invariant forall actions :: actions in history ==> NoTicks(actions)
      {
        ghost var before := Now();
        ghost var actions := TasksRun();
        TasksKeepTime(before, actions);
        AfterTurnsAppend(start, history, length, actions);
        history := history + [actions];
        if timerLocks == 0 {
          QueueIsSorted(Now());
          var next := wakeups.PeekTick();
          if next.None? {
            EndOfRun(Now(), length);
            currentTick := length;
          } else {
            ghost var idle := Now();
            ClockMovesOnlyWhenIdle(idle, Tick);
            Advance();
            assert Now().tick == Step(idle, Tick).tick;
          }
        }
        left := left - 1;
      }
    }

    lemma EndOfRun(s: State, end: nat)
      requires Inv(s) && s.data == []
      ensures Inv(s.(tick := end))
    {
      forall t | t in s.tasks.Keys
        ensures TaskInv(s.(tick := end), t)
      {
        assert TaskInv(s, t);
      }
    }
  }
}
