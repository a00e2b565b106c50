/** The pointers of the trace ring of stm32_adv_trace.c in unchunk mode, and where in the
    buffer each byte that waits for transmission lies. */
module TraceRing {
  import opened Bytes

  const FIFO_SIZE: nat := 512

  datatype Unchunk = NotChunked | Detected | Transfer

  /** TraceRdPtr, TraceWrPtr, TraceSentSize, unchunk_status and unchunk_enabled. */
  datatype Ring = Ring(rd: nat, wr: nat, sentSize: nat, status: Unchunk, enabled: nat)

  /** TRACE_AllocateBufer: the new pointers and the position, or no space. */
  function Allocate(r: Ring, size: nat): Option<(Ring, nat)> {
    var tailSpace := FIFO_SIZE - r.wr;
    var wrap := size >= tailSpace && r.rd > size;
    if r.wr == r.rd || r.wr > r.rd then
      if wrap then Some((r.(status := Detected, enabled := r.wr, wr := (0 + size) % FIFO_SIZE), 0))
      else if tailSpace > size then Some((r.(wr := (r.wr + size) % FIFO_SIZE), r.wr))
      else None
    else if r.rd - r.wr > size then Some((r.(wr := (r.wr + size) % FIFO_SIZE), r.wr))
    else None
  }

  /** Up to the write pointer, or to the end of the buffer when that lies behind. */
  function NextSize(rd: nat, wr: nat): nat {
    if wr > rd then wr - rd else if FIFO_SIZE >= rd then FIFO_SIZE - rd else 0
  }

  /** The choice of the next transfer, shared by TRACE_Send and TRACE_TxCpltCallback. */
  function Begin(r: Ring): Ring {
    var r1 := if r.status.Detected? then
                var size := r.enabled - r.rd;
                if size == 0 then r.(sentSize := 0, enabled := 0, status := NotChunked, rd := 0)
                else r.(sentSize := if size > 0 then size else 0, enabled := 0, status := Transfer)
              else r;
    if r1.status.NotChunked? then r1.(sentSize := NextSize(r1.rd, r1.wr)) else r1
  }

  /** The advance of the read pointer when a transfer is complete. */
  function Complete(r: Ring): Ring {
    if r.status.Transfer? then r.(status := NotChunked, rd := 0)
    else r.(rd := (r.rd + r.sentSize) % FIFO_SIZE)
  }

  /** How many waiting bytes lie before the skipped end of the buffer. */
  function Before(r: Ring): int {
    match r.status
    case NotChunked => r.wr - r.rd
    case Detected => r.enabled - r.rd
    case Transfer => r.sentSize
  }

  function Pending(r: Ring): int {
    if r.status.NotChunked? then r.wr - r.rd else Before(r) + r.wr
  }

  /** The buffer index of the k-th waiting byte. */
  function Position(r: Ring, k: int): int {
    if k < Before(r) then r.rd + k else k - Before(r)
  }

  /** The reachable pointer states, while a transfer is running or not. */
  predicate Consistent(r: Ring, sending: bool) {
    && r.rd < FIFO_SIZE && r.wr < FIFO_SIZE
    && (r.status.NotChunked? ==> r.rd <= r.wr)
    && (r.status.Detected? ==> 0 < r.wr < r.rd <= r.enabled < FIFO_SIZE)
    && (r.status.Transfer? ==> sending && 0 < r.wr < r.rd && r.rd + r.sentSize < FIFO_SIZE)
    && (sending ==> 0 < r.sentSize <= Before(r))
  }

  /** No two waiting bytes share a place. */
  lemma PositionsDistinct(r: Ring, sending: bool, j: int, k: int)
    requires Consistent(r, sending) && 0 <= j < k < Pending(r)
    ensures Position(r, j) != Position(r, k)
    ensures 0 <= Position(r, j) < FIFO_SIZE && 0 <= Position(r, k) < FIFO_SIZE
  {
  }

  /** Room for a block at a position: it lies before the end of the buffer, and neither it nor the
      byte behind it is a waiting byte or the place the next transfer starts from. */
  predicate Room(r: Ring, pos: nat, size: nat) {
    && pos + size < FIFO_SIZE
    && (pos + size < r.rd || r.rd <= pos)
    && (forall k :: 0 <= k < Pending(r) ==> !(pos <= Position(r, k) <= pos + size))
  }

  /** An allocation succeeds exactly when there is room for the whole block in one piece, at the
      write pointer or at the start of the buffer. */
  lemma AllocateExactly(r: Ring, sending: bool, size: nat)
    requires Consistent(r, sending)
    ensures Allocate(r, size).Some? <==> Room(r, r.wr, size) || Room(r, 0, size)
    ensures Allocate(r, size).Some? ==> Room(r, Allocate(r, size).value.1, size)
  {
    RoomAtWrite(r, sending, size);
    RoomAtStart(r, sending, size);
  }

  lemma RoomAtWrite(r: Ring, sending: bool, size: nat)
    requires Consistent(r, sending)
    ensures Room(r, r.wr, size) <==> if r.rd <= r.wr then size < FIFO_SIZE - r.wr else size < r.rd - r.wr
  {
  }

  lemma RoomAtStart(r: Ring, sending: bool, size: nat)
    requires Consistent(r, sending)
    ensures Room(r, 0, size) <==>
              r.rd <= r.wr && (if r.rd == 0 then r.wr == 0 && size < FIFO_SIZE else size < r.rd)
  {
    if r.rd > r.wr {
      assert Position(r, Before(r)) == 0;
    } else if r.rd == 0 && r.wr > 0 {
      assert Position(r, 0) == 0;
    } else if 0 < r.rd < r.wr {
      assert Position(r, 0) == r.rd;
    }
  }

  lemma AllocateConsistent(r: Ring, sending: bool, size: nat)
    requires Consistent(r, sending) && Allocate(r, size).Some?
    ensures var (r', pos) := Allocate(r, size).value;
            && Consistent(r', sending)
            && Pending(r') == Pending(r) + size
            && pos + size < FIFO_SIZE
  {
  }

  lemma AllocateIsFree(r: Ring, sending: bool, size: nat, k: int)
    requires Consistent(r, sending) && Allocate(r, size).Some? && 0 <= k < Pending(r)
    ensures var (r', pos) := Allocate(r, size).value;
            Position(r', k) == Position(r, k) && !(pos <= Position(r, k) < pos + size)
  {
  }

  lemma AllocateIsContiguous(r: Ring, sending: bool, size: nat, i: int)
    requires Consistent(r, sending) && Allocate(r, size).Some? && Pending(r) <= i < Pending(r) + size
    ensures var (r', pos) := Allocate(r, size).value;
            Position(r', i) == pos + i - Pending(r)
  {
  }

  /** An allocated block is contiguous, does not touch any waiting byte, and queues up behind
      all of them, each of which stays where it is. */
  lemma AllocateLayout(r: Ring, sending: bool, size: nat)
    requires Consistent(r, sending) && Allocate(r, size).Some?
    ensures var (r', pos) := Allocate(r, size).value;
            && Consistent(r', sending)
            && Pending(r') == Pending(r) + size
            && pos + size < FIFO_SIZE
            && (forall k :: 0 <= k < Pending(r) ==> Position(r', k) == Position(r, k))
            && (forall k :: 0 <= k < Pending(r) ==> !(pos <= Position(r, k) < pos + size))
            && (forall i :: Pending(r) <= i < Pending(r) + size ==> Position(r', i) == pos + i - Pending(r))
  {
    hide Allocate, Position, Before, Consistent;
    var (r', pos) := Allocate(r, size).value;
    AllocateConsistent(r, sending, size);
    forall k | 0 <= k < Pending(r)
      ensures Position(r', k) == Position(r, k) && !(pos <= Position(r, k) < pos + size)
    {
      AllocateIsFree(r, sending, size, k);
    }
    forall i | Pending(r) <= i < Pending(r) + size
      ensures Position(r', i) == pos + i - Pending(r)
    {
      AllocateIsContiguous(r, sending, size, i);
    }
  }

  /** Starting a transfer moves nothing; it covers a non-empty contiguous run of the oldest
      waiting bytes. */
  lemma BeginLayout(r: Ring)
    requires Consistent(r, false) && r.rd != r.wr
    ensures var r' := Begin(r);
            && Consistent(r', true)
            && 0 < r'.sentSize <= Pending(r') == Pending(r)
            && r'.rd + r'.sentSize < FIFO_SIZE
            && (forall k :: 0 <= k < Pending(r) ==> Position(r', k) == Position(r, k))
            && (forall k :: 0 <= k < r'.sentSize ==> Position(r', k) == r'.rd + k)
  {
  }

  /** Completing a transfer retires exactly the bytes it covered. */
  lemma CompleteLayout(r: Ring)
    requires Consistent(r, true)
    ensures var r' := Complete(r);
            && Consistent(r', false)
            && Pending(r') == Pending(r) - r.sentSize
            && (forall k :: 0 <= k < Pending(r') ==> Position(r', k) == Position(r, k + r.sentSize))
  {
  }

  /** A block never wraps, but the price is that an empty buffer can refuse a message that is
      shorter than the buffer: with both pointers in the middle, half the buffer is refused. */
  lemma EmptyBufferCanRefuse()
    ensures var r := Ring(256, 256, 0, NotChunked, 0);
            Consistent(r, false) && Pending(r) == 0 && Allocate(r, 256) == None
  {
  }
}
