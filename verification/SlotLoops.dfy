/** A loop over times that are given in ascending order, which sleeps until each one, serves it,
    and passes over a time that has come already: the device opening its ping slots
    (simulator/lorawan/device.py), and the gateway sending into them (simulator/lorawan/gateway.py).
    Times are in milliseconds; the clock is exact. */
module SlotLoops {
  const PING_SLOT_LEN: nat := 30

  /** The clock when the loop comes to time k: where the last time that was served ended. */
  function ClockAt(times: seq<nat>, start: real, ends: nat -> real, k: nat): real
    requires k <= |times|
  {
    if k == 0 then start
    else
      var clock := ClockAt(times, start, ends, k - 1);
      if clock < times[k - 1] as real then ends(k - 1) else clock
  }

  predicate IsReached(times: seq<nat>, start: real, ends: nat -> real, k: nat)
    requires k < |times|
  {
    ClockAt(times, start, ends, k) < times[k] as real
  }

  predicate AllReached(times: seq<nat>, start: real, ends: nat -> real) {
    forall k :: 0 <= k < |times| ==> IsReached(times, start, ends, k)
  }

  /** Serving a time takes the clock forward. */
  predicate Forward(times: seq<nat>, start: real, ends: nat -> real, k: nat)
    requires k <= |times|
  {
    forall j :: 0 <= j < k && IsReached(times, start, ends, j) ==> ClockAt(times, start, ends, j) <= ends(j)
  }

  /** The start and the end of everything served before come before time k. */
  predicate InTime(times: seq<nat>, start: real, ends: nat -> real, k: nat)
    requires k < |times|
  {
    && start < times[k] as real
    && forall j :: 0 <= j < k && IsReached(times, start, ends, j) ==> ends(j) < times[k] as real
  }

  /** The clock is never before the start, nor before the end of anything served. */
  lemma {:induction false} ClockIsLater(times: seq<nat>, start: real, ends: nat -> real, k: nat, j: nat)
    requires j < k <= |times| && Forward(times, start, ends, k)
    ensures start <= ClockAt(times, start, ends, k)
    ensures IsReached(times, start, ends, j) ==> ends(j) <= ClockAt(times, start, ends, k)
  {
    if k > 1 {
      ClockIsLater(times, start, ends, k - 1, if j < k - 1 then j else 0);
    }
    assert IsReached(times, start, ends, k - 1) ==> ClockAt(times, start, ends, k - 1) <= ends(k - 1);
  }

  /** And it stands at one of them. */
  lemma {:induction false} ClockIsOne(times: seq<nat>, start: real, ends: nat -> real, k: nat) returns (j: nat)
    requires k <= |times|
    ensures ClockAt(times, start, ends, k) == start
            || (j < k && IsReached(times, start, ends, j) && ends(j) == ClockAt(times, start, ends, k))
  {
    j := 0;
    if k > 0 {
      if IsReached(times, start, ends, k - 1) {
        j := k - 1;
      } else {
        j := ClockIsOne(times, start, ends, k - 1);
      }
    }
  }

  /** A time is reached exactly when the loop starts before it and whatever is served before it
      ends before it. */
  lemma ReachedExactly(times: seq<nat>, start: real, ends: nat -> real, k: nat)
    requires k < |times| && Forward(times, start, ends, k)
    ensures IsReached(times, start, ends, k) <==> InTime(times, start, ends, k)
  {
    var served := ClockIsOne(times, start, ends, k);
    forall j | 0 <= j < k
      ensures start <= ClockAt(times, start, ends, k)
      ensures IsReached(times, start, ends, j) ==> ends(j) <= ClockAt(times, start, ends, k)
    {
      ClockIsLater(times, start, ends, k, j);
    }
  }

  /** A time that comes while another one is being served is passed over. */
  lemma PassedOver(times: seq<nat>, start: real, ends: nat -> real, j: nat, k: nat)
    requires j < k < |times| && Forward(times, start, ends, k)
    requires IsReached(times, start, ends, j) && times[k] as real <= ends(j)
    ensures !IsReached(times, start, ends, k)
  {
    ReachedExactly(times, start, ends, k);
  }

  // ---- Serving a time for one slot length ----

  /** On the slot grid: two times are neighbours or leave at least one place between them. */
  predicate Spaced(times: seq<nat>) {
    forall k :: 0 < k < |times| ==> AreNeighbours(times, k) || times[k] >= times[k - 1] + 2 * PING_SLOT_LEN
  }

  predicate AreNeighbours(times: seq<nat>, k: nat)
    requires 0 < k < |times|
  {
    times[k] == times[k - 1] + PING_SLOT_LEN
  }

  /** How many times lie on the places directly before time k. */
  function RowBefore(times: seq<nat>, k: nat): nat
    requires k < |times|
  {
    if k == 0 || !AreNeighbours(times, k) then 0 else 1 + RowBefore(times, k - 1)
  }

  /** Serving a time takes the slot, and is over before the place after the next one. */
  predicate LastsASlot(times: seq<nat>, ends: nat -> real, j: nat)
    requires j < |times|
  {
    (times[j] + PING_SLOT_LEN) as real <= ends(j) < (times[j] + 2 * PING_SLOT_LEN) as real
  }

  predicate EachLastsASlot(times: seq<nat>, start: real, ends: nat -> real, k: nat)
    requires k <= |times|
  {
    forall j :: 0 <= j < k && IsReached(times, start, ends, j) ==> LastsASlot(times, ends, j)
  }

  lemma NeighbourPassedOver(times: seq<nat>, start: real, ends: nat -> real, k: nat)
    requires k + 1 < |times| && IsReached(times, start, ends, k)
    requires times[k + 1] <= times[k] + PING_SLOT_LEN && (times[k] + PING_SLOT_LEN) as real <= ends(k)
    ensures !IsReached(times, start, ends, k + 1)
  {
  }

  /** In a row of neighbours every other time is reached, beginning with the first. */
  lemma {:induction false} RowDecides(times: seq<nat>, start: real, ends: nat -> real, k: nat)
    requires k < |times| && Spaced(times) && start < times[0] as real && EachLastsASlot(times, start, ends, k)
    ensures IsReached(times, start, ends, k) <==> RowBefore(times, k) % 2 == 0
  {
    if k > 0 {
      RowDecides(times, start, ends, k - 1);
      if IsReached(times, start, ends, k - 1) {
        assert LastsASlot(times, ends, k - 1);
      } else {
        RowDecides(times, start, ends, k - 2);
        assert LastsASlot(times, ends, k - 2);
      }
    }
  }

  /** All times are reached exactly when the loop starts before the first one and no two are
      neighbours. */
  lemma AllReachedExactly(times: seq<nat>, start: real, ends: nat -> real)
    requires Spaced(times) && EachLastsASlot(times, start, ends, |times|)
    ensures AllReached(times, start, ends) <==>
              times == [] || (start < times[0] as real && forall k :: 0 < k < |times| ==> !AreNeighbours(times, k))
  {
    hide Spaced;
    if AllReached(times, start, ends) && times != [] {
      assert IsReached(times, start, ends, 0);
      forall k | 0 < k < |times|
        ensures !AreNeighbours(times, k)
      {
        assert IsReached(times, start, ends, k - 1) && IsReached(times, start, ends, k) && LastsASlot(times, ends, k - 1);
      }
    }
    if times != [] && start < times[0] as real && forall k :: 0 < k < |times| ==> !AreNeighbours(times, k) {
      forall k | 0 <= k < |times|
        ensures IsReached(times, start, ends, k)
      {
        RowDecides(times, start, ends, k);
      }
    }
  }
}
