/** The trace utility itself: the context fields of stm32_adv_trace.c, updated in place, each
    function proved to take exactly the step of the machine that stands for it. */
module TraceBuffer {
  import opened Bytes
  import opened TraceRing
  import opened TraceMachine

  datatype Status = Ok | MemFull

  /** The context an event belongs to, if it is a writer's. */
  function Owner(e: Event): Option<nat> {
    match e
    case Lock(id) => Some(id)
    case Reserve(id, _) => Some(id)
    case WriteByte(id) => Some(id)
    case UnLock(id) => Some(id)
    case _ => None
  }

  predicate ByOthers(id: nat, events: seq<Event>) {
    forall e :: e in events ==> Owner(e) != Some(id)
  }

  /** What other contexts do leaves a writer's own progress alone. */
  lemma OthersLeaveMeAlone(w: World, id: nat, e: Event)
    requires Inv(w) && Owner(e) != Some(id)
    ensures var w' := Step(w, e);
            (id in w'.writers <==> id in w.writers) && (id in w.writers ==> w'.writers[id] == w.writers[id])
  {
    hide Begin, Complete, Allocate, Inv;
  }

  lemma {:induction false} OthersRun(w: World, id: nat, events: seq<Event>)
    requires Inv(w) && ByOthers(id, events)
    ensures var w' := Run(w, events);
            (id in w'.writers <==> id in w.writers) && (id in w.writers ==> w'.writers[id] == w.writers[id])
    decreases |events|
  {
    hide Step, Inv;
    if events != [] {
      assert events[0] in events;
      OthersLeaveMeAlone(w, id, events[0]);
      StepKeepsInv(w, events[0]);
      OthersRun(Step(w, events[0]), id, events[1..]);
    }
  }

  lemma {:induction false} RunAppend(w: World, events: seq<Event>, e: Event)
    ensures Run(w, events + [e]) == Step(Run(w, events), e)
    decreases |events|
  {
    hide Step;
    if events == [] {
      assert [e][1..] == [];
      assert events + [e] == [e];
      assert Run(w, [e]) == Run(Step(w, e), []);
    } else {
      RunAppend(Step(w, events[0]), events[1..], e);
      assert (events + [e])[1..] == events[1..] + [e];
    }
  }

  lemma {:induction false} RunConcat(w: World, a: seq<Event>, b: seq<Event>)
    ensures Run(w, a + b) == Run(Run(w, a), b)
    decreases |a|
  {
    hide Step;
    if a == [] {
      assert a + b == b;
    } else {
      RunConcat(Step(w, a[0]), a[1..], b);
      assert (a + b)[1..] == a[1..] + b;
    }
  }

  /** What a step adds to the stream of accepted bytes. */
  function Growth(w: World, w': World): seq<byte> {
    if |w.accepted| <= |w'.accepted| then w'.accepted[|w.accepted|..] else []
  }

  /** What one context adds to the stream in a run. */
  function Own(w: World, me: nat, events: seq<Event>): seq<byte>
    decreases |events|
  {
    if events == [] then []
    else
      var w' := Step(w, events[0]);
      (if Owner(events[0]) == Some(me) then Growth(w, w') else []) + Own(w', me, events[1..])
  }

  lemma {:induction false} OwnAppend(w: World, me: nat, events: seq<Event>, e: Event)
    ensures var w' := Run(w, events);
            Own(w, me, events + [e]) == Own(w, me, events) + (if Owner(e) == Some(me) then Growth(w', Step(w', e)) else [])
    decreases |events|
  {
    hide Step, Growth, Owner;
    if events == [] {
      assert [e][1..] == [];
      assert events + [e] == [e];
      assert Own(Step(w, e), me, []) == [];
    } else {
      OwnAppend(Step(w, events[0]), me, events[1..], e);
      assert (events + [e])[1..] == events[1..] + [e];
    }
  }

  lemma {:induction false} OwnOthers(w: World, me: nat, events: seq<Event>, more: seq<Event>)
    requires ByOthers(me, more)
    ensures Own(w, me, events + more) == Own(w, me, events)
    decreases |more|
  {
    hide Step, Growth, Owner;
    if more == [] {
      assert events + more == events;
    } else {
      var front, last := more[..|more| - 1], more[|more| - 1];
      OwnOthers(w, me, events, front);
      OwnAppend(w, me, events + front, last);
      assert events + more == (events + front) + [last];
    }
  }

  /** Only a reservation adds anything, and then all of its data. */
  lemma Appended(w: World, me: nat, events: seq<Event>, e: Event)
    ensures Run(w, events + [e]) == Step(Run(w, events), e)
    ensures !e.Reserve? ==> Own(w, me, events + [e]) == Own(w, me, events)
    ensures e.Reserve? && e.id == me ==>
              Own(w, me, events + [e]) ==
                Own(w, me, events) + (if Step(Run(w, events), e) == Run(w, events) then [] else e.data)
  {
    hide Begin, Complete, Allocate, Run, Own;
    RunAppend(w, events, e);
    OwnAppend(w, me, events, e);
    OnlyReserveGrows(Run(w, events), e);
  }

  lemma NothingOwn(w: World, me: nat)
    ensures Own(w, me, []) == []
  {
  }

  lemma OnlyReserveGrows(w: World, e: Event)
    ensures Growth(w, Step(w, e)) == (if e.Reserve? && Step(w, e) != w then e.data else [])
  {
    hide Begin, Complete, Allocate;
  }

  /** The message lies in the stream of accepted bytes, in one piece. */
  predicate PieceAt(accepted: seq<byte>, start: nat, data: seq<byte>) {
    start + |data| <= |accepted| && accepted[start..start + |data|] == data
  }

  lemma PieceStays(before: seq<byte>, after: seq<byte>, start: nat, data: seq<byte>)
    requires before <= after && PieceAt(before, start, data)
    ensures PieceAt(after, start, data)
  {
  }

  lemma LockEffect(w: World, id: nat)
    requires id !in w.writers
    ensures var w' := Step(w, Lock(id));
            id in w'.writers && w'.writers[id] == Waiting
  {
  }

  lemma UnLockEffect(w: World, id: nat)
    requires id in w.writers && Finished(w.writers[id]) && Inv(w)
    ensures id !in Step(w, UnLock(id)).writers && Step(w, UnLock(id)).accepted == w.accepted
  {
    LockedByWriter(w, id);
  }

  lemma LockedByWriter(w: World, id: nat)
    requires Inv(w) && id in w.writers
    ensures w.lock > 0
  {
    assert w.writers.Keys != {};
  }

  lemma HeldBySomebody(w: World)
    requires Inv(w) && w.lock > 0
    ensures w.writers != map[] || !w.driver.Idle?
  {
  }

  lemma ReserveEffect(w: World, id: nat, data: seq<byte>)
    requires id in w.writers && w.writers[id].Waiting? && Allocate(w.ring, |data|).Some?
    ensures var w' := Step(w, Reserve(id, data));
            w'.writers[id] == Filling(|w.accepted|, w'.writers[id].pos, data, 0)
  {
  }

  lemma BlockInStream(w: World, id: nat)
    requires Inv(w) && id in w.writers && w.writers[id].Filling?
    ensures PieceAt(w.accepted, w.writers[id].start, w.writers[id].data)
  {
    assert BlockOk(w, w.writers[id]);
  }

  lemma BlockInBuffer(w: World, id: nat)
    requires Inv(w) && id in w.writers && w.writers[id].Filling? && w.writers[id].written < |w.writers[id].data|
    ensures CanWrite(w.writers[id], |w.buf|) && w.writers[id].pos + w.writers[id].written < FIFO_SIZE
  {
    assert BlockOk(w, w.writers[id]);
  }

  lemma SendingFacts(w: World)
    requires Inv(w) && w.driver.Sending?
    ensures Consistent(w.ring, true)
  {
  }

  class Trace {
    const buffer: array<byte>
    var rdPtr: nat
    var wrPtr: nat
    var sentSize: nat
    var lock: nat
    var unchunkStatus: Unchunk
    var unchunkEnabled: nat
    // The world around the context: the driver and the contexts inside the functions below.
    var driver: Driver
    var writers: map<nat, Writer>
    var accepted: seq<byte>  // history: the bytes of the accepted messages
    ghost var done: nat
    ghost var onWire: seq<byte>

    ghost function State(): World
      reads this, buffer
    {
      World(Ring(rdPtr, wrPtr, sentSize, unchunkStatus, unchunkEnabled), lock, buffer[..], driver, writers,
            accepted, done, onWire)
    }

    ghost predicate Valid()
      reads this, buffer
    {
      buffer.Length == FIFO_SIZE && Inv(State())
    }

    constructor ()
      ensures Valid() && State() == Initial() && fresh(buffer)
    {
      buffer := new byte[FIFO_SIZE](_ => 0);
      rdPtr, wrPtr, sentSize, lock := 0, 0, 0, 0;
      unchunkStatus, unchunkEnabled := NotChunked, 0;
      driver, writers := Idle, map[];
      accepted, done, onWire := [], 0, [];
      new;
      assert buffer[..] == Initial().buf;
      InitialInv();
    }

    /** TRACE_Lock, on behalf of a context. */
    method TraceLock(id: nat)
      requires Valid() && id !in writers && lock < 0xFFFF
      modifies this
      ensures Valid() && State() == Step(old(State()), Lock(id))
    {
      StepKeepsInv(State(), Lock(id));
      lock := lock + 1;
      writers := writers[id := Waiting];
    }

    /** TRACE_UnLock, on behalf of a context. */
    method TraceUnLock(id: nat)
      requires Valid() && id in writers && Finished(writers[id])
      modifies this
      ensures Valid() && State() == Step(old(State()), UnLock(id))
    {
      hide Inv, Begin, Complete, Allocate;
      StepKeepsInv(State(), UnLock(id));
      LockedByWriter(State(), id);
      lock := lock - 1;
      writers := writers - {id};
    }

    /** TRACE_AllocateBufer */
    method AllocateBuffer(size: nat) returns (ret: int, pos: nat)
      requires rdPtr < FIFO_SIZE && wrPtr < FIFO_SIZE
      modifies this`wrPtr, this`unchunkStatus, this`unchunkEnabled
      ensures var r := old(State()).ring;
              && (ret == 0 <==> Allocate(r, size).Some?)
              && (ret != 0 ==> ret == -1 && State() == old(State()))
              && (ret == 0 ==> (State().ring, pos) == Allocate(r, size).value)
    {
      var freeSize: nat;
      ret, pos := -1, 0;
      if wrPtr == rdPtr {
        freeSize := FIFO_SIZE - wrPtr;
        if size >= freeSize && rdPtr > size {
          unchunkStatus := Detected;
          unchunkEnabled := wrPtr;
          freeSize := rdPtr;
          wrPtr := 0;
        }
      } else {
        if wrPtr > rdPtr {
          freeSize := FIFO_SIZE - wrPtr;
          if size >= freeSize && rdPtr > size {
            unchunkStatus := Detected;
            unchunkEnabled := wrPtr;
            freeSize := rdPtr;
            wrPtr := 0;
          }
        } else {
          freeSize := rdPtr - wrPtr;
        }
      }
      if freeSize > size {
        pos := wrPtr;
        wrPtr := (wrPtr + size) % FIFO_SIZE;
        ret := 0;
      }
    }

    /** The allocation as one critical section, with the block recorded for its writer. */
    method ReserveBlock(id: nat, data: seq<byte>) returns (ret: int)
      requires Valid() && id in writers && writers[id].Waiting?
      modifies this
      ensures Valid() && State() == Step(old(State()), Reserve(id, data))
      ensures ret == 0 <==> Allocate(old(State()).ring, |data|).Some?
      ensures ret == 0 ==> id in writers && writers[id] == Filling(|old(accepted)|, writers[id].pos, data, 0)
      ensures ret != 0 ==> State() == old(State())
    {
      StepKeepsInv(State(), Reserve(id, data));
      var pos;
      ret, pos := AllocateBuffer(|data|);
      if ret == 0 {
        writers := writers[id := Filling(|accepted|, pos, data, 0)];
        accepted := accepted + data;
      }
    }

    /** One byte of the copy loop. */
    method CopyByte(id: nat)
      requires Valid() && id in writers && writers[id].Filling? && writers[id].written < |writers[id].data|
      modifies this`writers, buffer
      ensures Valid() && State() == Step(old(State()), WriteByte(id))
      ensures id in writers && writers[id] == old(writers[id]).(written := old(writers[id]).written + 1)
    {
      hide Inv, Place, Position;
      ghost var before := State();
      StepKeepsInv(before, WriteByte(id));
      var me := writers[id];
      BlockInBuffer(before, id);
      var writePos := (me.pos + me.written) % FIFO_SIZE;
      buffer[writePos] := me.data[me.written];
      writers := writers[id := me.(written := me.written + 1)];
      assert buffer[..] == before.buf[me.pos + me.written := me.data[me.written]];
    }

    /** The part of TRACE_Send and of the callback that picks the next transfer. */
    method StartNext()
      requires buffer.Length == FIFO_SIZE && Consistent(State().ring, false) && rdPtr != wrPtr
      modifies this`rdPtr, this`sentSize, this`unchunkStatus, this`unchunkEnabled, this`driver, this`onWire
      ensures State() == StartTransfer(old(State()))
    {
      ghost var before := State();
      if unchunkStatus == Detected {
        sentSize := unchunkEnabled - rdPtr;
        unchunkStatus := Transfer;
        unchunkEnabled := 0;
        if sentSize == 0 {
          unchunkStatus := NotChunked;
          rdPtr := 0;
        }
      }
      if unchunkStatus == NotChunked {
        sentSize := NextSize(rdPtr, wrPtr);
      }
      assert State().ring == Begin(before.ring);
      driver := Sending;
      onWire := onWire + Covered(State().ring, buffer[..]);
    }

    /** TRACE_Send: when nobody holds the lock and accepted bytes wait, a transfer of the next piece
        of them is running afterwards; otherwise nothing changes. */
    method TraceSend()
      requires Valid()
      modifies this
      ensures Valid() && State() == Step(old(State()), TrySend)
      ensures if old(lock) == 0 && old(onWire) != old(accepted)
              then driver.Sending? && lock == 1 && old(onWire) < onWire <= accepted && accepted == old(accepted)
              else State() == old(State())
    {
      TrySendStarts(State());
      StepKeepsInv(State(), TrySend);
      if lock == 0 {
        lock := lock + 1;
        if rdPtr != wrPtr {
          StartNext();
        } else {
          lock := lock - 1;
        }
      }
    }

    /** The critical section of TRACE_TxCpltCallback: the next piece is started exactly when accepted
        bytes wait and no writer is inside. */
    method TxCpltCallback()
      requires Valid() && driver.Sending?
      modifies this
      ensures Valid() && State() == Step(old(State()), TxComplete)
      ensures done == |old(onWire)| && accepted == old(accepted) && writers == old(writers)
      ensures if writers == map[] && old(onWire) != accepted
              then driver.Sending? && old(onWire) < onWire <= accepted
              else driver.Releasing? && onWire == old(onWire)
    {
      hide Inv, StartTransfer;
      ghost var before := State();
      CompletionRestarts(before);
      StepKeepsInv(before, TxComplete);
      SendingFacts(before);
      CompleteLayout(before.ring);
      done := done + sentSize;
      if unchunkStatus == Transfer {
        unchunkStatus := NotChunked;
        rdPtr := 0;
      } else {
        rdPtr := (rdPtr + sentSize) % FIFO_SIZE;
      }
      assert State().ring == Complete(before.ring);
      if rdPtr != wrPtr && lock == 1 {
        StartNext();
      } else {
        driver := Releasing;
      }
    }

    /** The unlock after the callback's post-send hook. */
    method TxCpltUnLock()
      requires Valid() && driver.Releasing?
      modifies this
      ensures Valid() && State() == Step(old(State()), TxRelease)
    {
      StepKeepsInv(State(), TxRelease);
      lock := lock - 1;
      driver := Idle;
    }

    /** Whatever interrupts and other contexts do between two steps of context `me`. */
    method Preempt(me: nat) returns (ghost events: seq<Event>)
      requires Valid()
      modifies this, buffer
      ensures Valid() && State() == Run(old(State()), events) && ByOthers(me, events)
    {
      hide Inv, Step, Initial;
      events := [];
      var steps: nat := *;
      while steps > 0
        invariant Valid() && State() == Run(old(State()), events) && ByOthers(me, events)
      {
        var e: Event := *;
        if Owner(e) != Some(me) {
          ghost var taken := OneEvent(e);
          if taken {
            RunAppend(old(State()), events, e);
            events := events + [e];
          }
        }
        steps := steps - 1;
      }
    }

    /** One event, if its context is in a position to cause it. */
    method OneEvent(e: Event) returns (ghost taken: bool)
      requires Valid()
      modifies this, buffer
      ensures Valid()
      ensures taken ==> State() == Step(old(State()), e)
      ensures !taken ==> State() == old(State())
    {
      hide Inv, Step;
      taken := true;
      match e {
        case Lock(id) => if id !in writers && lock < 0xFFFF { TraceLock(id); } else { taken := false; }
        case Reserve(id, data) =>
          if id in writers && writers[id].Waiting? { var ret := ReserveBlock(id, data); } else { taken := false; }
        case WriteByte(id) =>
          if id in writers && writers[id].Filling? && writers[id].written < |writers[id].data| { CopyByte(id); }
          else { taken := false; }
        case UnLock(id) =>
          if id in writers && Finished(writers[id]) { TraceUnLock(id); } else { taken := false; }
        case TrySend => TraceSend();
        case TxComplete => if driver.Sending? { TxCpltCallback(); } else { taken := false; }
        case TxRelease => if driver.Releasing? { TxCpltUnLock(); } else { taken := false; }
      }
    }

    /** UTIL_ADV_TRACE_Send, preempted between any two of its steps. An accepted message is in
        the stream of accepted bytes as one piece, and is all that the call adds to it; a refused
        one adds nothing and writes nothing, and at some moment of the call there was no room for it.
        When an accepted one returns, a transfer is running, or
        all is on the wire, or another writer or the completion callback is in its way. */
    method Send(me: nat, data: seq<byte>) returns (status: Status, ghost events: seq<Event>, ghost start: nat)
      requires Valid() && me !in writers && lock < 0xFFFF
      modifies this, buffer
      ensures Valid() && State() == Run(old(State()), events)
      ensures me !in writers
      ensures Own(old(State()), me, events) == if status == Ok then data else []
      ensures status == Ok ==> |old(accepted)| <= start && PieceAt(accepted, start, data)
      ensures status == MemFull ==> forall e :: e in events && Owner(e) == Some(me) ==> !e.WriteByte?
      ensures status == MemFull ==>
                exists k :: 0 <= k <= |events| && Allocate(Run(old(State()), events[..k]).ring, |data|).None?
      ensures status == Ok && writers == map[] && !driver.Releasing? ==> driver.Sending? || onWire == accepted
    {
      hide Inv, Step, Initial, Own, Allocate;
      ghost var w0 := State();
      assert Own(w0, me, []) == [] by { NothingOwn(w0, me); }
      events := [];
      TraceLock(me);
      Appended(w0, me, events, Lock(me));
      events := events + [Lock(me)];
      LockEffect(w0, me);
      events := Others(me, w0, events);

      ghost var w1 := State();
      HistoryGrows(w0, events);
      start := |accepted|;
      ghost var tried := events;
      var ret := ReserveBlock(me, data);
      Appended(w0, me, events, Reserve(me, data));
      events := events + [Reserve(me, data)];
      if ret != 0 {
        events := Others(me, w0, events);
        ghost var w2 := State();
        TraceUnLock(me);
        Appended(w0, me, events, UnLock(me));
        events := events + [UnLock(me)];
        UnLockEffect(w2, me);
        assert events[..|tried|] == tried;
        status := MemFull;
        return;
      }
      ReserveEffect(w1, me, data);
      events := CopyAndSend(me, data, w0, events);
      status := Ok;
    }

    /** The copy loop into the block, the unlock, and the attempt to start the transfer. */
    method CopyAndSend(me: nat, data: seq<byte>, ghost w0: World, ghost before: seq<Event>) returns (ghost events: seq<Event>)
      requires Valid() && State() == Run(w0, before)
      requires me in writers && writers[me].Filling? && writers[me].data == data && writers[me].written == 0
      modifies this, buffer
      ensures Valid() && State() == Run(w0, events) && me !in writers
      ensures Own(w0, me, events) == Own(w0, me, before)
      ensures PieceAt(accepted, old(writers[me].start), data)
      ensures writers == map[] && !driver.Releasing? ==> driver.Sending? || onWire == accepted
    {
      hide Inv, Step, Initial, Own;
      ghost var start := writers[me].start;
      events := Others(me, w0, before);
      for idx := 0 to |data|
        invariant Valid() && State() == Run(w0, events) && Own(w0, me, events) == Own(w0, me, before)
        invariant me in writers && writers[me].Filling? && writers[me].data == data && writers[me].written == idx
        invariant writers[me].start == start
      {
        CopyByte(me);
        Appended(w0, me, events, WriteByte(me));
        events := events + [WriteByte(me)];
        events := Others(me, w0, events);
      }
      BlockInStream(State(), me);
      ghost var w2 := State();
      TraceUnLock(me);
      Appended(w0, me, events, UnLock(me));
      events := events + [UnLock(me)];
      UnLockEffect(w2, me);
      ghost var w3 := State();
      ghost var unlocked := events;
      events := Others(me, w0, events);
      ghost var w4 := State();
      if lock > 0 {
        HeldBySomebody(State());
      }
      TraceSend();
      Appended(w0, me, events, TrySend);
      ghost var tail := events[|unlocked|..] + [TrySend];
      assert events + [TrySend] == unlocked + tail;
      RunConcat(w0, unlocked, tail);
      HistoryGrows(w3, tail);
      OthersRun(w3, me, tail);
      events := events + [TrySend];
      PieceStays(w3.accepted, accepted, start, data);
    }

    /** Preemption in the middle of a longer run. */
    method Others(me: nat, ghost w0: World, ghost events: seq<Event>) returns (ghost longer: seq<Event>)
      requires Valid() && State() == Run(w0, events)
      modifies this, buffer
      ensures Valid() && State() == Run(w0, longer)
      ensures events <= longer && ByOthers(me, longer[|events|..]) && Own(w0, me, longer) == Own(w0, me, events)
      ensures (me in writers <==> me in old(writers)) && (me in writers ==> writers[me] == old(writers)[me])
    {
      hide Inv, Step, Initial, Own;
      ghost var w := State();
      ghost var more := Preempt(me);
      OwnOthers(w0, me, events, more);
      RunConcat(w0, events, more);
      OthersRun(w, me, more);
      longer := events + more;
    }
  }
}
