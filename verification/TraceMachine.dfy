/** Every context that can touch the trace buffer of stm32_adv_trace.c: writers that lock,
    allocate, fill and unlock, the start of a transfer, and the completion interrupt. Each
    event is one critical section (or one byte written outside of any); a run is any
    interleaving of them. */
module TraceMachine {
  import opened Bytes
  import opened TraceRing

  /** A context inside one of the sending functions: before its allocation, or filling the
      block it was given. `start` is the block's place in the stream of accepted bytes. */
  datatype Writer = Waiting | Filling(start: nat, pos: nat, data: seq<byte>, written: nat)

  /** The driver: no transfer, one running, or between the end of the last transfer and the
      unlock at the end of the completion callback. */
  datatype Driver = Idle | Sending | Releasing

  /** The trace context, its buffer, and the history: the bytes of every accepted message in
      the order of acceptance, how many of them were completely transferred, and the bytes
      handed to the driver. */
  datatype World = World(ring: Ring, lock: nat, buf: seq<byte>, driver: Driver, writers: map<nat, Writer>,
                         accepted: seq<byte>, done: nat, onWire: seq<byte>)

  datatype Event =
    | Lock(id: nat)
    | Reserve(id: nat, data: seq<byte>)
    | WriteByte(id: nat)
    | UnLock(id: nat)
    | TrySend
    | TxComplete
    | TxRelease

  function InFlight(w: World): nat {
    if w.driver.Sending? then w.ring.sentSize else 0
  }

  /** What the driver is given when a transfer starts. */
  function Covered(r: Ring, buf: seq<byte>): seq<byte> {
    Slice(buf, r.rd, r.rd + r.sentSize)
  }

  function StartTransfer(w: World): World {
    var r := Begin(w.ring);
    w.(ring := r, driver := Sending, onWire := w.onWire + Covered(r, w.buf))
  }

  /** What each event does; an event whose context is not in the right place does nothing. */
  function Step(w: World, e: Event): World {
    match e
    case Lock(id) =>
      if id in w.writers then w else w.(lock := w.lock + 1, writers := w.writers[id := Waiting])
    case Reserve(id, data) =>
      if id !in w.writers || !w.writers[id].Waiting? then w
      else
        var space := Allocate(w.ring, |data|);
        if space.None? then w
        else
          var (r, pos) := space.value;
          w.(ring := r, writers := w.writers[id := Filling(|w.accepted|, pos, data, 0)],
             accepted := w.accepted + data)
    case WriteByte(id) =>
      if !(id in w.writers && CanWrite(w.writers[id], |w.buf|)) then w
      else
        var me := w.writers[id];
        w.(buf := w.buf[me.pos + me.written := me.data[me.written]],
           writers := w.writers[id := me.(written := me.written + 1)])
    case UnLock(id) =>
      if !(id in w.writers && Finished(w.writers[id])) || w.lock == 0 then w
      else w.(lock := w.lock - 1, writers := w.writers - {id})
    case TrySend =>
      if w.lock != 0 || w.ring.rd == w.ring.wr then w
      else StartTransfer(w.(lock := 1))
    case TxComplete =>
      if !w.driver.Sending? then w
      else
        var w1 := w.(ring := Complete(w.ring), done := w.done + w.ring.sentSize);
        if w1.ring.rd != w1.ring.wr && w1.lock == 1 then StartTransfer(w1)
        else w1.(driver := Releasing)
    case TxRelease =>
      if !w.driver.Releasing? || w.lock == 0 then w else w.(lock := w.lock - 1, driver := Idle)
  }

  predicate CanWrite(me: Writer, size: nat) {
    me.Filling? && me.written < |me.data| && me.pos + me.written < size
  }

  /** A writer unlocks when its allocation failed or its block is full. */
  predicate Finished(me: Writer) {
    me.Filling? ==> me.written == |me.data|
  }

  function Run(w: World, events: seq<Event>): World
    decreases |events|
  {
    if events == [] then w else Run(Step(w, events[0]), events[1..])
  }

  function Initial(): World {
    World(Ring(0, 0, 0, NotChunked, 0), 0, seq(FIFO_SIZE, i => 0), Idle, map[], [], 0, [])
  }

  // ---- The invariant ----

  /** The i-th accepted byte belongs to a block whose writer has not written it yet. */
  predicate Unwritten(me: Writer, i: nat) {
    me.Filling? && me.start + me.written <= i < me.start + |me.data|
  }

  /** The buffer index of the i-th accepted byte, while it waits. */
  function Place(w: World, i: int): int {
    Position(w.ring, i - w.done)
  }

  ghost predicate BlockOk(w: World, me: Writer) {
    me.Filling? ==>
      && me.written <= |me.data|
      && w.done + InFlight(w) <= me.start
      && me.start + |me.data| <= |w.accepted|
      && me.pos + |me.data| < FIFO_SIZE
      && w.accepted[me.start..me.start + |me.data|] == me.data
      && (forall i :: me.start <= i < me.start + |me.data| ==> Place(w, i) == me.pos + i - me.start)
  }

  predicate Apart(a: Writer, b: Writer) {
    a.Filling? && b.Filling? ==> a.start + |a.data| <= b.start || b.start + |b.data| <= a.start
  }

  /** No writer still owes the i-th accepted byte. */
  predicate Settled(writers: map<nat, Writer>, i: nat) {
    forall id :: id in writers ==> !Unwritten(writers[id], i)
  }

  /** The i-th accepted byte has a place, and lies there unless a writer still owes it. */
  predicate Holds(w: World, i: nat)
    requires i < |w.accepted|
  {
    0 <= Place(w, i) < |w.buf| && (Settled(w.writers, i) ==> w.buf[Place(w, i)] == w.accepted[i])
  }

  ghost predicate Stored(w: World) {
    forall i: nat :: w.done <= i < |w.accepted| ==> Holds(w, i)
  }

  ghost predicate Inv(w: World) {
    && |w.buf| == FIFO_SIZE
    && Consistent(w.ring, w.driver.Sending?)
    && w.done + Pending(w.ring) == |w.accepted|
    && w.lock == |w.writers| + (if w.driver.Idle? then 0 else 1)
    && w.done + InFlight(w) <= |w.accepted|
    && w.onWire == w.accepted[..w.done + InFlight(w)]
    && (forall id :: id in w.writers ==> BlockOk(w, w.writers[id]))
    && (forall a, b :: a in w.writers && b in w.writers && a != b ==> Apart(w.writers[a], w.writers[b]))
    && Stored(w)
  }

  lemma LockKeepsInv(w: World, id: nat)
    requires Inv(w) && id !in w.writers
    ensures Inv(Step(w, Lock(id)))
  {
    hide Position, Before, Pending, Consistent, BlockOk, Apart;
    var w' := Step(w, Lock(id));
    assert |w'.writers| == |w.writers| + 1 by {
      assert w'.writers.Keys == w.writers.Keys + {id};
    }
    forall i: nat | w.done <= i < |w.accepted|
      ensures Holds(w', i)
    {
      assert Holds(w, i) && Place(w', i) == Place(w, i);
      assert Settled(w'.writers, i) ==> Settled(w.writers, i) by {
        assert forall x :: x in w.writers ==> x in w'.writers && w'.writers[x] == w.writers[x];
      }
    }
    SameWriters(w, w');
  }

  /** Blocks stay in order when neither the pointers nor the history move. */
  lemma SameBlocks(w: World, w': World, me: Writer)
    requires w'.ring == w.ring && w'.done == w.done && w'.accepted == w.accepted && InFlight(w') <= InFlight(w)
    requires BlockOk(w, me)
    ensures BlockOk(w', me)
  {
    hide Position;
    if me.Filling? {
      forall i | me.start <= i < me.start + |me.data|
        ensures Place(w', i) == me.pos + i - me.start
      {
        assert Place(w, i) == me.pos + i - me.start;
      }
    }
  }

  /** Every writer keeps its block, though one may have written a byte more or be gone. */
  lemma SameWriters(w: World, w': World)
    requires w'.ring == w.ring && w'.done == w.done && w'.accepted == w.accepted && InFlight(w') <= InFlight(w)
    requires forall x :: x in w.writers ==> BlockOk(w, w.writers[x])
    requires forall x :: x in w'.writers ==> w'.writers[x].Waiting? || (x in w.writers && SameBlockAs(w.writers[x], w'.writers[x]))
    requires forall a, b :: a in w.writers && b in w.writers && a != b ==> Apart(w.writers[a], w.writers[b])
    ensures forall x :: x in w'.writers ==> BlockOk(w', w'.writers[x])
    ensures forall a, b :: a in w'.writers && b in w'.writers && a != b ==> Apart(w'.writers[a], w'.writers[b])
  {
    hide Position, Place;
    forall x | x in w'.writers
      ensures BlockOk(w', w'.writers[x])
    {
      if !w'.writers[x].Waiting? {
        SameBlocks(w, w', w.writers[x]);
      }
    }
    forall a, b | a in w'.writers && b in w'.writers && a != b
      ensures Apart(w'.writers[a], w'.writers[b])
    {
      if !w'.writers[a].Waiting? && !w'.writers[b].Waiting? {
        assert Apart(w.writers[a], w.writers[b]);
      }
    }
  }

  predicate SameBlockAs(me: Writer, me': Writer) {
    me == me' || (me.Filling? && me'.Filling? && me' == me.(written := me'.written) && me'.written <= |me'.data|)
  }

  lemma UnLockKeepsInv(w: World, id: nat)
    requires Inv(w) && id in w.writers && Finished(w.writers[id])
    ensures Inv(Step(w, UnLock(id)))
  {
    hide Position, Before, Pending, Consistent, Apart, BlockOk, Holds;
    var w' := Step(w, UnLock(id));
    assert |w'.writers| == |w.writers| - 1 by {
      assert w'.writers.Keys == w.writers.Keys - {id};
      assert w.writers.Keys == w'.writers.Keys + {id};
    }
    SameWriters(w, w');
    forall i: nat | w.done <= i < |w.accepted|
      ensures Holds(w', i)
    {
      UnLockHolds(w, id, i);
    }
  }

  lemma UnLockHolds(w: World, id: nat, i: nat)
    requires id in w.writers && Finished(w.writers[id]) && i < |w.accepted| && Holds(w, i) && w.lock > 0
    ensures Holds(Step(w, UnLock(id)), i)
  {
    hide Position;
    var w' := Step(w, UnLock(id));
    assert Place(w', i) == Place(w, i);
    if Settled(w'.writers, i) {
      forall x | x in w.writers
        ensures !Unwritten(w.writers[x], i)
      {
        if x != id { assert x in w'.writers && w'.writers[x] == w.writers[x]; }
      }
    }
  }

  lemma WriteKeepsInv(w: World, id: nat)
    requires Inv(w) && id in w.writers && CanWrite(w.writers[id], |w.buf|)
    ensures Inv(Step(w, WriteByte(id)))
  {
    hide Holds, Consistent, Pending, Place, Settled, BlockOk, Apart;
    var w' := Step(w, WriteByte(id));
    WriteBlocks(w, id);
    assert |w'.writers| == |w.writers| by {
      assert w'.writers.Keys == w.writers.Keys;
    }
    forall i: nat | w.done <= i < |w.accepted|
      ensures Holds(w', i)
    {
      WriteHolds(w, id, i);
    }
  }

  lemma WriteBlocks(w: World, id: nat)
    requires Inv(w) && id in w.writers && CanWrite(w.writers[id], |w.buf|)
    ensures var w' := Step(w, WriteByte(id));
            && (forall x :: x in w'.writers ==> BlockOk(w', w'.writers[x]))
            && (forall a, b :: a in w'.writers && b in w'.writers && a != b ==> Apart(w'.writers[a], w'.writers[b]))
  {
    hide Stored, Consistent, Pending, Place, BlockOk, Apart;
    var w' := Step(w, WriteByte(id));
    assert w'.writers.Keys == w.writers.Keys;
    assert forall x :: x in w'.writers && x != id ==> w'.writers[x] == w.writers[x];
    SameWriters(w, w');
  }

  lemma WriteHolds(w: World, id: nat, i: nat)
    requires Inv(w) && id in w.writers && CanWrite(w.writers[id], |w.buf|)
    requires w.done <= i < |w.accepted|
    ensures Holds(Step(w, WriteByte(id)), i)
  {
    var w' := Step(w, WriteByte(id));
    var me := w.writers[id];
    var mine := me.start + me.written;
    assert BlockOk(w, me) && Holds(w, i);
    assert Place(w, mine) == me.pos + me.written && w.accepted[mine] == me.data[me.written];
    assert Place(w', i) == Place(w, i);
    if i != mine {
      if Settled(w'.writers, i) {
        forall x | x in w.writers
          ensures !Unwritten(w.writers[x], i)
        {
          assert !Unwritten(w'.writers[x], i);
        }
      }
      var j, k := if i < mine then i else mine, if i < mine then mine else i;
      PositionsDistinct(w.ring, w.driver.Sending?, j - w.done, k - w.done);
    }
  }

  lemma ReserveKeepsInv(w: World, id: nat, data: seq<byte>)
    requires Inv(w) && id in w.writers && w.writers[id].Waiting? && Allocate(w.ring, |data|).Some?
    ensures Inv(Step(w, Reserve(id, data)))
  {
    hide Holds, Consistent, Pending, Place, Settled, Allocate, BlockOk;
    var w' := Step(w, Reserve(id, data));
    AllocateLayout(w.ring, w.driver.Sending?, |data|);
    AllocateKeepsTransfer(w.ring, |data|);
    assert w'.writers.Keys == w.writers.Keys;
    assert w'.driver == w.driver && w'.ring.sentSize == w.ring.sentSize && w'.done == w.done;
    assert w'.accepted[..w.done + InFlight(w)] == w.accepted[..w.done + InFlight(w)];
    forall x | x in w'.writers
      ensures BlockOk(w', w'.writers[x])
    {
      ReserveBlock(w, id, data, x);
    }
    forall a, b | a in w'.writers && b in w'.writers && a != b
      ensures Apart(w'.writers[a], w'.writers[b])
    {
      assert Apart(w.writers[a], w.writers[b]);
      EndsInside(w, w.writers[a]);
      EndsInside(w, w.writers[b]);
    }
    forall i: nat | w.done <= i < |w'.accepted|
      ensures Holds(w', i)
    {
      ReserveHolds(w, id, data, i);
    }
  }

  lemma EndsInside(w: World, me: Writer)
    requires BlockOk(w, me)
    ensures me.Filling? ==> me.start + |me.data| <= |w.accepted|
  {
  }

  lemma AllocateKeepsTransfer(r: Ring, size: nat)
    requires Allocate(r, size).Some?
    ensures Allocate(r, size).value.0.sentSize == r.sentSize
  {
  }

  lemma ReserveBlock(w: World, id: nat, data: seq<byte>, x: nat)
    requires Inv(w) && id in w.writers && w.writers[id].Waiting? && Allocate(w.ring, |data|).Some?
    requires x in w.writers
    ensures var w' := Step(w, Reserve(id, data));
            x in w'.writers && BlockOk(w', w'.writers[x])
  {
    hide Allocate, Position, Before, Stored;
    var w' := Step(w, Reserve(id, data));
    AllocateLayout(w.ring, w.driver.Sending?, |data|);
    AllocateKeepsTransfer(w.ring, |data|);
    assert BlockOk(w, w.writers[x]);
    var me := w'.writers[x];
    if me.Filling? {
      forall i | me.start <= i < me.start + |me.data|
        ensures Place(w', i) == me.pos + i - me.start
      {
        assert x != id ==> Place(w, i) == me.pos + i - me.start;
      }
      assert w'.accepted[me.start..me.start + |me.data|] == me.data;
    }
  }

  lemma ReserveHolds(w: World, id: nat, data: seq<byte>, i: nat)
    requires Inv(w) && id in w.writers && w.writers[id].Waiting? && Allocate(w.ring, |data|).Some?
    requires w.done <= i < |w.accepted| + |data|
    ensures var w' := Step(w, Reserve(id, data));
            i < |w'.accepted| && Holds(w', i)
  {
    var w' := Step(w, Reserve(id, data));
    AllocateLayout(w.ring, w.driver.Sending?, |data|);
    if i < |w.accepted| {
      assert Holds(w, i) && Place(w', i) == Place(w, i);
      if Settled(w'.writers, i) {
        forall x | x in w.writers
          ensures !Unwritten(w.writers[x], i)
        {
          assert !Unwritten(w'.writers[x], i);
        }
      }
    } else {
      assert Unwritten(w'.writers[id], i);
      assert Place(w', i) == w'.writers[id].pos + i - |w.accepted|;
    }
  }

  lemma SliceInside(s: seq<byte>, lo: nat, hi: nat)
    requires lo <= hi <= |s|
    ensures Slice(s, lo, hi) == s[lo..hi]
  {
  }

  /** A transfer starts only when nobody writes, so it covers written bytes only. */
  lemma StartKeepsInv(w: World)
    requires |w.buf| == FIFO_SIZE && Consistent(w.ring, false) && w.ring.rd != w.ring.wr
    requires w.done + Pending(w.ring) == |w.accepted| && w.writers == map[] && w.lock == 1
    requires w.done <= |w.accepted| && w.onWire == w.accepted[..w.done] && Stored(w)
    ensures Inv(StartTransfer(w))
  {
    hide Begin, Position, Before, Pending, Consistent, Slice;
    var w' := StartTransfer(w);
    BeginLayout(w.ring);
    var r := w'.ring;
    var sent := Covered(r, w.buf);
    SliceInside(w.buf, r.rd, r.rd + r.sentSize);
    assert sent == w.buf[r.rd..r.rd + r.sentSize];
    forall i: nat | w.done <= i < |w.accepted|
      ensures Place(w', i) == Place(w, i) && Holds(w', i) && w.buf[Place(w, i)] == w.accepted[i]
    {
      assert Holds(w, i) && Settled(w.writers, i);
    }
    forall k | 0 <= k < r.sentSize
      ensures sent[k] == w.accepted[w.done + k]
    {
      assert Position(r, k) == r.rd + k;
      var i := w.done + k;
      assert Place(w', i) == r.rd + k;
    }
    assert sent == w.accepted[w.done..w.done + r.sentSize];
    assert w'.onWire == w.accepted[..w.done + r.sentSize];
  }

  lemma TxCompleteKeepsInv(w: World)
    requires Inv(w) && w.driver.Sending?
    ensures Inv(Step(w, TxComplete))
  {
    hide Complete, Position, Before, Pending, Consistent, BlockOk, Apart, Slice, StartTransfer;
    var w1 := w.(ring := Complete(w.ring), done := w.done + w.ring.sentSize);
    CompleteLayout(w.ring);
    CompleteBounds(w);
    forall i: nat | w1.done <= i < |w1.accepted|
      ensures Place(w1, i) == Place(w, i) && Holds(w1, i)
    {
      assert Position(w1.ring, i - w1.done) == Position(w.ring, (i - w1.done) + w.ring.sentSize);
      assert Holds(w, i);
    }
    if w1.ring.rd != w1.ring.wr && w1.lock == 1 {
      assert w1.writers == map[] by { assert |w1.writers| == 0; }
      StartKeepsInv(w1);
    } else {
      var w' := w1.(driver := Releasing);
      forall i: nat | w1.done <= i < |w1.accepted|
        ensures Holds(w', i)
      {
        assert Holds(w1, i) && Place(w', i) == Place(w1, i);
      }
      forall x | x in w'.writers
        ensures BlockOk(w', w'.writers[x])
      {
        CompleteBlock(w, w', w.writers[x]);
      }
    }
  }

  lemma CompleteBounds(w: World)
    requires Inv(w) && w.driver.Sending?
    ensures w.ring.sentSize <= Pending(w.ring) && w.done + w.ring.sentSize <= |w.accepted|
  {
  }

  lemma CompleteBlock(w: World, w': World, me: Writer)
    requires Consistent(w.ring, true) && w.driver.Sending? && BlockOk(w, me)
    requires w'.ring == Complete(w.ring) && w'.done == w.done + w.ring.sentSize && w'.driver.Releasing?
    requires w'.accepted == w.accepted && w.done + Pending(w.ring) == |w.accepted|
    ensures BlockOk(w', me)
  {
    CompleteLayout(w.ring);
    if me.Filling? {
      forall i | me.start <= i < me.start + |me.data|
        ensures Place(w', i) == me.pos + i - me.start
      {
        assert Place(w, i) == me.pos + i - me.start;
        assert Position(w'.ring, i - w'.done) == Position(w.ring, (i - w'.done) + w.ring.sentSize);
      }
    }
  }

  lemma TrySendKeepsInv(w: World)
    requires Inv(w)
    ensures Inv(Step(w, TrySend))
  {
    if w.lock == 0 && w.ring.rd != w.ring.wr {
      assert w.writers == map[] by { assert |w.writers| == 0; }
      var w1 := w.(lock := 1);
      forall i: nat | w1.done <= i < |w1.accepted|
        ensures Holds(w1, i)
      {
        assert Holds(w, i) && Place(w1, i) == Place(w, i);
      }
      StartKeepsInv(w1);
    }
  }

  lemma ReleaseKeepsInv(w: World)
    requires Inv(w)
    ensures Inv(Step(w, TxRelease))
  {
    hide Position, Before, Pending, Consistent, BlockOk, Apart;
    var w' := Step(w, TxRelease);
    SameWriters(w, w');
    forall i: nat | w.done <= i < |w.accepted|
      ensures Holds(w', i)
    {
      assert Holds(w, i) && Place(w', i) == Place(w, i);
    }
  }

  lemma StepKeepsInv(w: World, e: Event)
    requires Inv(w)
    ensures Inv(Step(w, e))
  {
    hide Inv;
    match e
    case Lock(id) => if id !in w.writers { LockKeepsInv(w, id); }
    case Reserve(id, data) =>
      if id in w.writers && w.writers[id].Waiting? && Allocate(w.ring, |data|).Some? {
        ReserveKeepsInv(w, id, data);
      }
    case WriteByte(id) => if id in w.writers && CanWrite(w.writers[id], |w.buf|) { WriteKeepsInv(w, id); }
    case UnLock(id) => if id in w.writers && Finished(w.writers[id]) { UnLockKeepsInv(w, id); }
    case TrySend => TrySendKeepsInv(w);
    case TxComplete => if w.driver.Sending? { TxCompleteKeepsInv(w); }
    case TxRelease => ReleaseKeepsInv(w);
  }

  lemma {:induction false} RunKeepsInv(w: World, events: seq<Event>)
    requires Inv(w)
    ensures Inv(Run(w, events))
    decreases |events|
  {
    hide Inv, Step;
    if events != [] {
      StepKeepsInv(w, events[0]);
      RunKeepsInv(Step(w, events[0]), events[1..]);
    }
  }

  // ---- What it means ----

  /** The ring refines a plain byte queue: under any interleaving, the bytes handed to the
      driver are a prefix of the bytes of the accepted messages, in order; the bytes of the
      running transfer are still the ones it was started with; and it shares no byte with a
      block that is still being filled. */
  lemma AnyInterleavingIsAQueue(events: seq<Event>)
    ensures var w := Run(Initial(), events);
            && w.onWire <= w.accepted
            && (w.driver.Sending? ==>
                  && w.ring.sentSize <= |w.onWire|
                  && w.ring.rd + w.ring.sentSize <= |w.buf|
                  && w.buf[w.ring.rd..w.ring.rd + w.ring.sentSize] == w.onWire[|w.onWire| - w.ring.sentSize..])
            && (forall id :: id in w.writers && w.writers[id].Filling? && w.driver.Sending? ==>
                  var me := w.writers[id];
                  me.pos + |me.data| <= w.ring.rd || w.ring.rd + w.ring.sentSize <= me.pos || |me.data| == 0)
            && w.lock == |w.writers| + (if w.driver.Idle? then 0 else 1)
  {
    hide Run, Inv;
    InitialInv();
    RunKeepsInv(Initial(), events);
    var w := Run(Initial(), events);
    QueueFacts(w);
    forall id | id in w.writers && w.writers[id].Filling? && w.driver.Sending?
      ensures var me := w.writers[id];
              me.pos + |me.data| <= w.ring.rd || w.ring.rd + w.ring.sentSize <= me.pos || |me.data| == 0
    {
      BlockOutsideTransfer(w, id);
    }
  }

  lemma InitialInv()
    ensures Inv(Initial())
  {
  }

  lemma QueueFacts(w: World)
    requires Inv(w)
    ensures w.onWire <= w.accepted
    ensures w.lock == |w.writers| + (if w.driver.Idle? then 0 else 1)
    ensures w.driver.Sending? ==>
              && w.ring.sentSize <= |w.onWire|
              && w.ring.rd + w.ring.sentSize <= |w.buf|
              && w.buf[w.ring.rd..w.ring.rd + w.ring.sentSize] == w.onWire[|w.onWire| - w.ring.sentSize..]
  {
    hide Stored, BlockOk, Apart;
    if w.driver.Sending? {
      var r := w.ring;
      var inBuffer, inStream := w.buf[r.rd..r.rd + r.sentSize], w.onWire[|w.onWire| - r.sentSize..];
      forall k | 0 <= k < r.sentSize
        ensures inBuffer[k] == inStream[k]
      {
        ByteInTransfer(w, k);
      }
    }
  }

  lemma ByteInTransfer(w: World, k: nat)
    requires Inv(w) && w.driver.Sending? && k < w.ring.sentSize
    ensures w.ring.rd + k < |w.buf| && w.done + k < |w.accepted|
    ensures w.buf[w.ring.rd + k] == w.accepted[w.done + k]
  {
    var i := w.done + k;
    assert Holds(w, i) && Place(w, i) == w.ring.rd + k;
    forall id | id in w.writers
      ensures !Unwritten(w.writers[id], i)
    {
      assert BlockOk(w, w.writers[id]);
    }
  }

  lemma BlockOutsideTransfer(w: World, id: nat)
    requires Inv(w) && id in w.writers && w.writers[id].Filling? && w.driver.Sending?
    ensures var me := w.writers[id];
            me.pos + |me.data| <= w.ring.rd || w.ring.rd + w.ring.sentSize <= me.pos || |me.data| == 0
  {
    var me := w.writers[id];
    assert BlockOk(w, me);
    if |me.data| > 0 {
      assert Place(w, me.start) == me.pos;
      assert Place(w, me.start + |me.data| - 1) == me.pos + |me.data| - 1;
    }
  }

  /** Conservation: once nobody writes and nothing is in flight, what is not yet on the wire is
      exactly what waits in the buffer, in order. */
  lemma RestIsInTheBuffer(events: seq<Event>)
    ensures var w := Run(Initial(), events);
            w.writers == map[] && w.driver.Idle? ==>
              && |w.onWire| + Pending(w.ring) == |w.accepted|
              && forall i: nat :: |w.onWire| <= i < |w.accepted| ==>
                   0 <= Place(w, i) < |w.buf| && w.buf[Place(w, i)] == w.accepted[i]
  {
    hide Run, Inv;
    InitialInv();
    RunKeepsInv(Initial(), events);
    RestFacts(Run(Initial(), events));
  }

  lemma RestFacts(w: World)
    requires Inv(w)
    ensures w.writers == map[] && w.driver.Idle? ==>
              && |w.onWire| + Pending(w.ring) == |w.accepted|
              && forall i: nat :: |w.onWire| <= i < |w.accepted| ==>
                   0 <= Place(w, i) < |w.buf| && w.buf[Place(w, i)] == w.accepted[i]
  {
    if w.writers == map[] && w.driver.Idle? {
      forall i: nat | |w.onWire| <= i < |w.accepted|
        ensures 0 <= Place(w, i) < |w.buf| && w.buf[Place(w, i)] == w.accepted[i]
      {
        assert Holds(w, i) && Settled(w.writers, i);
      }
    }
  }

  /** What a run accepted and put on the wire is never taken back. */
  lemma {:induction false} HistoryGrows(w: World, events: seq<Event>)
    ensures w.accepted <= Run(w, events).accepted && w.onWire <= Run(w, events).onWire
    decreases |events|
  {
    if events != [] {
      HistoryGrows(Step(w, events[0]), events[1..]);
    }
  }

  // ---- Something is sent ----

  /** The attempt to start a transfer. When nobody holds the lock and accepted bytes are not on the
      wire yet, a transfer is running afterwards and has put a non-empty next piece of them there;
      otherwise nothing changes. */
  lemma TrySendStarts(w: World)
    requires Inv(w)
    ensures var w' := Step(w, TrySend);
            if w.lock == 0 && w.onWire != w.accepted then
              && w'.driver.Sending? && w'.lock == 1
              && w.onWire < w'.onWire <= w'.accepted
              && w'.accepted == w.accepted && w'.buf == w.buf && w'.writers == w.writers && w'.done == w.done
            else w' == w
  {
    hide Begin, BlockOk, Stored, Apart;
    var w' := Step(w, TrySend);
    if w.lock == 0 {
      NothingPending(w);
      if w.onWire != w.accepted {
        TrySendKeepsInv(w);
        LongerWire(w, w');
      }
    }
  }

  lemma NothingPending(w: World)
    requires Inv(w) && w.driver.Idle?
    ensures w.ring.rd == w.ring.wr <==> w.onWire == w.accepted
    ensures |w.onWire| == w.done
  {
    assert w.onWire == w.accepted[..w.done];
    assert w.ring.rd == w.ring.wr <==> Pending(w.ring) == 0;
    if w.done == |w.accepted| {
      assert w.accepted[..w.done] == w.accepted;
    }
  }

  /** What a running transfer covers is on the wire, and is not empty. */
  lemma LongerWire(w: World, w': World)
    requires Inv(w') && w'.driver.Sending? && w'.accepted == w.accepted && |w.onWire| == w'.done
    requires w.onWire <= w.accepted
    ensures w.onWire < w'.onWire <= w'.accepted
  {
    hide BlockOk, Stored, Apart;
    assert w'.onWire == w'.accepted[..w'.done + w'.ring.sentSize];
    assert w.onWire == w'.accepted[..w'.done];
  }

  /** The completion of a transfer. All that was on the wire is done; the next piece is started
      exactly when no writer is inside and accepted bytes are not on the wire yet. */
  lemma CompletionRestarts(w: World)
    requires Inv(w) && w.driver.Sending?
    ensures var w' := Step(w, TxComplete);
            && w'.done == |w.onWire|
            && w'.accepted == w.accepted && w'.buf == w.buf && w'.writers == w.writers && w'.lock == w.lock
            && (if w.writers == map[] && w.onWire != w.accepted
                then w'.driver.Sending? && w.onWire < w'.onWire <= w'.accepted
                else w'.driver.Releasing? && w'.onWire == w.onWire)
  {
    hide Begin, BlockOk, Stored, Apart, Complete;
    var w' := Step(w, TxComplete);
    TxCompleteKeepsInv(w);
    CompleteLayout(w.ring);
    AllSent(w);
    assert w.lock == 1 <==> w.writers == map[] by { NoWriters(w.writers); }
    if w'.driver.Sending? {
      LongerWire(w, w');
    }
  }

  lemma NoWriters(writers: map<nat, Writer>)
    ensures |writers| == 0 <==> writers == map[]
  {
  }

  lemma AllSent(w: World)
    requires Inv(w) && w.driver.Sending?
    ensures |w.onWire| == w.done + w.ring.sentSize
    ensures var r := Complete(w.ring);
            r.rd == r.wr <==> w.onWire == w.accepted
  {
    hide BlockOk, Stored, Apart;
    CompleteLayout(w.ring);
    var r := Complete(w.ring);
    assert Pending(r) == |w.accepted| - |w.onWire|;
    assert r.rd == r.wr <==> Pending(r) == 0;
    if |w.onWire| == |w.accepted| {
      assert w.accepted[..|w.accepted|] == w.accepted;
    }
  }

  function Completions(n: nat): (events: seq<Event>)
    ensures |events| == n && forall k :: 0 <= k < n ==> events[k] == TxComplete
  {
    seq(n, k => TxComplete)
  }

  /** From there the completion interrupts alone put every accepted byte on the wire. */
  lemma {:induction false} CompletionsSuffice(w: World) returns (n: nat)
    requires Inv(w) && w.driver.Sending? && w.writers == map[]
    ensures n <= |w.accepted| - |w.onWire| + 1
    ensures var w' := Run(w, Completions(n));
            w'.onWire == w'.accepted == w.accepted && w'.driver.Releasing?
    decreases |w.accepted| - |w.onWire|
  {
    hide Inv, Step;
    CompletionRestarts(w);
    StepKeepsInv(w, TxComplete);
    var w' := Step(w, TxComplete);
    var rest := 0;
    if w.onWire != w.accepted {
      rest := CompletionsSuffice(w');
    }
    n := rest + 1;
    assert Completions(n)[1..] == Completions(rest);
    assert Run(w, Completions(n)) == Run(w', Completions(rest));
  }

  /** When nobody is inside, all accepted bytes go out by completion interrupts exactly when a
      transfer is running, or nothing waits. */
  lemma CompletionsExactly(w: World)
    requires Inv(w) && w.writers == map[]
    ensures (exists n :: Run(w, Completions(n)).onWire == w.accepted) <==> w.driver.Sending? || w.onWire == w.accepted
  {
    hide Inv, Step;
    if w.driver.Sending? {
      var n := CompletionsSuffice(w);
      assert Run(w, Completions(n)).onWire == w.accepted;
    } else {
      forall n
        ensures Run(w, Completions(n)) == w
      {
        NothingCompletes(w, n);
      }
      assert Run(w, Completions(0)).onWire == w.onWire;
    }
  }

  lemma {:induction false} NothingCompletes(w: World, n: nat)
    requires !w.driver.Sending?
    ensures Run(w, Completions(n)) == w
  {
    if n > 0 {
      NothingCompletes(w, n - 1);
      assert Completions(n)[1..] == Completions(n - 1);
    }
  }

  lemma RunFirst(w: World, e: Event, rest: seq<Event>)
    ensures Run(w, [e] + rest) == Run(Step(w, e), rest)
  {
    hide Step;
    assert ([e] + rest)[1..] == rest;
  }

  /** One writer alone, from lock to unlock, and the start of its transfer. */
  lemma OneMessageRun()
    ensures var buf := seq(FIFO_SIZE, i => if i == 0 then 7 else 0);
            Run(Initial(), [Lock(1), Reserve(1, [7]), WriteByte(1), UnLock(1), TrySend])
            == World(Ring(0, 1, 1, NotChunked, 0), 1, buf, Sending, map[], [7], 0, [7])
  {
    hide Run;
    var w1 := Step(Initial(), Lock(1));
    var w2 := Step(w1, Reserve(1, [7]));
    var w3 := Step(w2, WriteByte(1));
    var w4 := Step(w3, UnLock(1));
    var w5 := Step(w4, TrySend);
    assert w4.writers == map[];
    assert w3.buf == seq(FIFO_SIZE, i => if i == 0 then 7 else 0);
    RunFive(Initial(), Lock(1), Reserve(1, [7]), WriteByte(1), UnLock(1), TrySend);
  }

  lemma RunFive(w: World, a: Event, b: Event, c: Event, d: Event, e: Event)
    ensures Run(w, [a, b, c, d, e]) == Step(Step(Step(Step(Step(w, a), b), c), d), e)
  {
    hide Step;
    assert [a, b, c, d, e] == [a] + [b, c, d, e] && [b, c, d, e] == [b] + [c, d, e] && [c, d, e] == [c] + [d, e];
    assert [d, e] == [d] + [e] && [e] == [e] + [];
    RunFirst(w, a, [b, c, d, e]);
    RunFirst(Step(w, a), b, [c, d, e]);
    RunFirst(Step(Step(w, a), b), c, [d, e]);
    RunFirst(Step(Step(Step(w, a), b), c), d, [e]);
    RunFirst(Step(Step(Step(Step(w, a), b), c), d), e, []);
  }

  /** Not every accepted byte is under way, though. A writer that is inside when the last transfer
      completes, and finishes before the callback's unlock, finds the lock held and leaves the start
      to the callback, which has made its decision already: its byte waits, nobody is inside, and
      no transfer runs. */
  lemma ReleaseCanStrand()
    ensures var first := Run(Initial(), [Lock(1), Reserve(1, [7]), WriteByte(1), UnLock(1), TrySend]);
            var inside := Run(first, [Lock(2), Reserve(2, [8]), WriteByte(2), TxComplete, UnLock(2)]);
            var w := Step(Step(inside, TrySend), TxRelease);
            && w.accepted == [7, 8] && w.onWire == [7]
            && w.writers == map[] && w.driver.Idle? && w.lock == 0
  {
    hide Run;
    OneMessageRun();
    var first := Run(Initial(), [Lock(1), Reserve(1, [7]), WriteByte(1), UnLock(1), TrySend]);
    var w1 := Step(first, Lock(2));
    var w2 := Step(w1, Reserve(2, [8]));
    var w3 := Step(w2, WriteByte(2));
    var w4 := Step(w3, TxComplete);
    var w5 := Step(w4, UnLock(2));
    assert w5.writers == map[];
    RunFive(first, Lock(2), Reserve(2, [8]), WriteByte(2), TxComplete, UnLock(2));
  }
}
