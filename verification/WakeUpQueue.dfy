/** The sorted wake-up queue of the simulation kernel (simulator/wakeup_queue.py). */
module WakeUpQueue {
  import opened Bytes

  type EventId = nat

  datatype Entry = Entry(tick: nat, events: seq<EventId>)

  predicate Sorted(data: seq<Entry>) {
    forall i, j :: 0 <= i < j < |data| ==> data[i].tick < data[j].tick
  }

  /** The events registered for a tick, in the order of registration. */
  function EventsAt(data: seq<Entry>, tick: nat): seq<EventId> {
    if data == [] then []
    else if data[0].tick == tick then data[0].events
    else EventsAt(data[1..], tick)
  }

  /** A list without any instance of an event. */
  function Without(events: seq<EventId>, e: EventId): (rest: seq<EventId>)
    ensures forall x :: x in rest <==> x in events && x != e
  {
    if events == [] then []
    else if events[0] == e then Without(events[1..], e)
    else [events[0]] + Without(events[1..], e)
  }

  function Count(events: seq<EventId>, e: EventId): nat {
    if events == [] then 0 else (if events[0] == e then 1 else 0) + Count(events[1..], e)
  }

  function CountAll(data: seq<Entry>, e: EventId): nat {
    if data == [] then 0 else Count(data[0].events, e) + CountAll(data[1..], e)
  }

  /** The queue with an event registered for a tick. */
  function Added(data: seq<Entry>, tick: nat, e: EventId): seq<Entry> {
    if data == [] || data[0].tick > tick then [Entry(tick, [e])] + data
    else if data[0].tick == tick then [Entry(tick, data[0].events + [e])] + data[1..]
    else [data[0]] + Added(data[1..], tick, e)
  }

  /** The queue without any instance of an event; emptied ticks stay. */
  function Removed(data: seq<Entry>, e: EventId): (rest: seq<Entry>)
    ensures |rest| == |data|
    ensures forall i :: 0 <= i < |data| ==> rest[i] == Entry(data[i].tick, Without(data[i].events, e))
  {
    if data == [] then [] else [Entry(data[0].tick, Without(data[0].events, e))] + Removed(data[1..], e)
  }

  predicate Above(data: seq<Entry>, low: nat) {
    forall x :: x in data ==> low < x.tick
  }

  lemma {:induction false} AddedAbove(data: seq<Entry>, tick: nat, e: EventId, low: nat)
    requires Above(data, low) && low < tick
    ensures Above(Added(data, tick, e), low)
  {
    if data != [] && data[0].tick < tick {
      AddedAbove(data[1..], tick, e, low);
    }
  }

  lemma SortedCons(head: Entry, rest: seq<Entry>)
    ensures Sorted([head] + rest) <==> Sorted(rest) && Above(rest, head.tick)
  {
    var all := [head] + rest;
    if Sorted(all) {
      forall i, j | 0 <= i < j < |rest|
        ensures rest[i].tick < rest[j].tick
      {
        assert all[i + 1].tick < all[j + 1].tick;
      }
      forall x | x in rest
        ensures head.tick < x.tick
      {
        var i :| 0 <= i < |rest| && rest[i] == x;
        assert all[0].tick < all[i + 1].tick;
      }
    }
    if Sorted(rest) && Above(rest, head.tick) {
      forall i, j | 0 <= i < j < |all|
        ensures all[i].tick < all[j].tick
      {
        assert all[j] == rest[j - 1] && rest[j - 1] in rest;
        assert i > 0 ==> all[i] == rest[i - 1];
      }
    }
  }

  /** The queue stays strictly sorted. */
  lemma {:induction false} AddedTicks(data: seq<Entry>, tick: nat, e: EventId)
    requires Sorted(data)
    ensures Sorted(Added(data, tick, e))
  {
    if data != [] {
      var rest := data[1..];
      assert data == [data[0]] + rest;
      SortedCons(data[0], rest);
      if data[0].tick < tick {
        AddedTicks(rest, tick, e);
        AddedAbove(rest, tick, e, data[0].tick);
        SortedCons(data[0], Added(rest, tick, e));
      } else if data[0].tick == tick {
        SortedCons(Entry(tick, data[0].events + [e]), rest);
      } else {
        assert Above(data, tick);
        SortedCons(Entry(tick, [e]), data);
      }
    }
  }

  /** Adding appends to the tick's own list and leaves every other tick alone. */
  lemma {:induction false} AddedEvents(data: seq<Entry>, tick: nat, e: EventId, t: nat)
    requires Sorted(data)
    ensures EventsAt(Added(data, tick, e), t) == if t == tick then EventsAt(data, t) + [e] else EventsAt(data, t)
  {
    if data == [] || data[0].tick > tick {
      if t == tick {
        NothingBefore(data, t);
      }
      assert ([Entry(tick, [e])] + data)[1..] == data;
    } else if data[0].tick == tick {
      assert ([Entry(tick, data[0].events + [e])] + data[1..])[1..] == data[1..];
    } else {
      AddedEvents(data[1..], tick, e, t);
      assert ([data[0]] + Added(data[1..], tick, e))[1..] == Added(data[1..], tick, e);
    }
  }

  lemma {:induction false} NothingBefore(data: seq<Entry>, t: nat)
    requires Sorted(data) && (data == [] || t < data[0].tick)
    ensures EventsAt(data, t) == []
  {
    if data != [] {
      NothingBefore(data[1..], t);
    }
  }

  /** Removing filters every tick's list, in order. */
  lemma {:induction false} RemovedEvents(data: seq<Entry>, e: EventId, t: nat)
    ensures EventsAt(Removed(data, e), t) == Without(EventsAt(data, t), e)
  {
    if data != [] {
      RemovedEvents(data[1..], e, t);
      assert Removed(data, e)[1..] == Removed(data[1..], e);
    }
  }

  /** The head is due no later than anything else, and taking it takes all of its tick. */
  lemma {:induction false} HeadIsNext(data: seq<Entry>, t: nat)
    requires Sorted(data) && data != []
    ensures EventsAt(data, data[0].tick) == data[0].events
    ensures EventsAt(data[1..], t) == if t == data[0].tick then [] else EventsAt(data, t)
    ensures EventsAt(data, t) != [] ==> data[0].tick <= t
  {
    var rest := data[1..];
    assert forall i :: 0 <= i < |rest| ==> rest[i] == data[i + 1];
    if t <= data[0].tick {
      NothingBefore(rest, t);
    }
  }

  lemma {:induction false} WithoutCount(events: seq<EventId>, e: EventId)
    ensures Count(events, e) == 0 <==> e !in events
    ensures |Without(events, e)| + Count(events, e) == |events|
  {
    if events != [] {
      WithoutCount(events[1..], e);
    }
  }

  /** Removing the first instance, as `list.remove` does. */
  function WithoutFirst(events: seq<EventId>, e: EventId): seq<EventId>
    requires e in events
  {
    if events[0] == e then events[1..] else [events[0]] + WithoutFirst(events[1..], e)
  }

  lemma {:induction false} WithoutFirstStep(events: seq<EventId>, e: EventId)
    requires e in events
    ensures Without(WithoutFirst(events, e), e) == Without(events, e)
    ensures Count(WithoutFirst(events, e), e) + 1 == Count(events, e)
    ensures |WithoutFirst(events, e)| + 1 == |events|
  {
    if events[0] != e {
      WithoutFirstStep(events[1..], e);
      var rest := WithoutFirst(events[1..], e);
      assert ([events[0]] + rest)[1..] == rest;
    }
  }

  lemma {:induction false} WithoutAbsent(events: seq<EventId>, e: EventId)
    requires e !in events
    ensures Without(events, e) == events && Count(events, e) == 0
  {
    if events != [] {
      WithoutAbsent(events[1..], e);
    }
  }

  lemma {:induction false} CountAllAppend(a: seq<Entry>, b: seq<Entry>, e: EventId)
    ensures CountAll(a + b, e) == CountAll(a, e) + CountAll(b, e)
  {
    if a == [] {
      assert a + b == b;
    } else {
      CountAllAppend(a[1..], b, e);
      assert (a + b)[1..] == a[1..] + b;
    }
  }

  lemma {:induction false} AddedAt(data: seq<Entry>, tick: nat, e: EventId, pos: nat)
    requires Sorted(data) && pos <= |data|
    requires forall i :: 0 <= i < pos ==> data[i].tick < tick
    requires pos < |data| ==> tick <= data[pos].tick
    ensures Added(data, tick, e) ==
            if pos < |data| && data[pos].tick == tick
            then data[pos := Entry(tick, data[pos].events + [e])]
            else data[..pos] + [Entry(tick, [e])] + data[pos..]
    decreases pos
  {
    if pos > 0 {
      var rest := data[1..];
      assert forall i :: 0 <= i < |rest| ==> rest[i] == data[i + 1];
      AddedAt(rest, tick, e, pos - 1);
      InsertBehindHead(data, tick, e, pos);
    }
  }

  lemma InsertBehindHead(data: seq<Entry>, tick: nat, e: EventId, pos: nat)
    requires 0 < pos <= |data|
    ensures var rest := data[1..];
            && [data[0]] + (rest[..pos - 1] + [Entry(tick, [e])] + rest[pos - 1..])
               == data[..pos] + [Entry(tick, [e])] + data[pos..]
            && (pos < |data| ==> [data[0]] + rest[pos - 1 := Entry(tick, data[pos].events + [e])]
                                 == data[pos := Entry(tick, data[pos].events + [e])])
  {
  }

  class Queue {
    var data: seq<Entry>

    ghost predicate Valid()
      reads this
    {
      Sorted(data)
    }

    constructor ()
      ensures Valid() && data == []
    {
      data := [];
    }

    /** Registers an event: the tick's list grows at its end, nothing else changes. */
    method Add(tick: nat, e: EventId)
      requires Valid()
      modifies this
      ensures Valid() && data == Added(old(data), tick, e)
      ensures forall t :: EventsAt(data, t) == (if t == tick then EventsAt(old(data), t) + [e] else EventsAt(old(data), t))
    {
      var pos := 0;
      while pos < |data| && data[pos].tick < tick
        invariant 0 <= pos <= |data|
        invariant forall i :: 0 <= i < pos ==> data[i].tick < tick
      {
        pos := pos + 1;
      }
      AddedAt(data, tick, e, pos);
      AddedTicks(data, tick, e);
      forall t
        ensures EventsAt(Added(data, tick, e), t) == (if t == tick then EventsAt(data, t) + [e] else EventsAt(data, t))
      {
        AddedEvents(data, tick, e, t);
      }
      if pos < |data| && data[pos].tick == tick {
        data := data[pos := Entry(data[pos].tick, data[pos].events + [e])];
      } else {
        data := data[..pos] + [Entry(tick, [e])] + data[pos..];
      }
    }

    /** Deletes every instance of an event and reports how many there were. */
    method Remove(e: EventId) returns (found: nat)
      requires Valid()
      modifies this
      ensures Valid() && data == Removed(old(data), e)
      ensures found == CountAll(old(data), e)
    {
      ghost var before := data;
      found := 0;
      for i := 0 to |data|
        invariant |data| == |before|
        invariant forall j :: 0 <= j < i ==> data[j] == Entry(before[j].tick, Without(before[j].events, e))
        invariant forall j :: i <= j < |data| ==> data[j] == before[j]
        invariant found == CountAll(before[..i], e)
      {
        var events := data[i].events;
        ghost var start, current := found, data;
        while e in events
          invariant data == current
          invariant Without(events, e) == Without(before[i].events, e)
          invariant found + Count(events, e) == start + Count(before[i].events, e)
          decreases |events|
        {
          WithoutFirstStep(events, e);
          events := WithoutFirst(events, e);
          found := found + 1;
        }
        WithoutAbsent(events, e);
        data := data[i := Entry(data[i].tick, events)];
        assert before[..i + 1] == before[..i] + [before[i]];
        CountAllAppend(before[..i], [before[i]], e);
        assert [before[i]][1..] == [];
      }
      assert before[..|before|] == before;
      assert data == Removed(before, e);
    }

    method PeekTick() returns (tick: Option<nat>)
      requires Valid()
      ensures tick.None? <==> data == []
      ensures tick.Some? ==> forall t :: EventsAt(data, t) != [] ==> tick.value <= t
      ensures tick.Some? ==> tick.value == data[0].tick
    {
      if |data| == 0 {
        return None;
      }
      forall t
        ensures EventsAt(data, t) != [] ==> data[0].tick <= t
      {
        HeadIsNext(data, t);
      }
      return Some(data[0].tick);
    }

    /** Takes all events of the earliest tick, in the order they were registered. */
    method NextTick() returns (next: Option<(nat, seq<EventId>)>)
      requires Valid()
      modifies this
      ensures Valid()
      ensures next.None? <==> old(data) == []
      ensures next.None? ==> data == old(data)
      ensures next.Some? ==>
        var (tick, events) := next.value;
        && old(data) == [Entry(tick, events)] + data
        && events == EventsAt(old(data), tick)
        && (forall t :: EventsAt(old(data), t) != [] ==> tick <= t)
        && (forall t :: EventsAt(data, t) == if t == tick then [] else EventsAt(old(data), t))
    {
      if |data| == 0 {
        return None;
      }
      forall t
        ensures EventsAt(data, t) != [] ==> data[0].tick <= t
        ensures EventsAt(data[1..], t) == (if t == data[0].tick then [] else EventsAt(data, t))
      {
        HeadIsNext(data, t);
      }
      HeadIsNext(data, data[0].tick);
      next := Some((data[0].tick, data[0].events));
      data := data[1..];
    }
  }
}
