/** One beacon period from end to end: the gateway sends into the slots the server assigned
    (simulator/lorawan/gateway.py), and the device opens its slots (simulator/lorawan/device.py). */
module ClassB {
  import opened Bytes
  import opened LorawanCrypto
  import opened MulticastQueue
  import opened NetworkServer
  import opened PingSlots
  import opened SlotLoops

  function SendTimes(schedule: seq<Transmission>): (times: seq<nat>)
    ensures |times| == |schedule| && forall k :: 0 <= k < |schedule| ==> times[k] == schedule[k].time
  {
    seq(|schedule|, k requires 0 <= k < |schedule| => schedule[k].time)
  }

  function GuardTime(beacon: nat): nat {
    beacon * 1000 + BEACON_INTERVAL - BEACON_GUARD
  }

  /** `_send_class_b_downlinks`: a frame whose slot has come while the one before was sent is
      dropped; so is one for a slot within the guard. Sending frame k, and the wait for the
      transmitter before it, is over at done(k). The loop ends with the simulation. */
  method SendClassBDownlinks(beacon: nat, schedule: seq<Transmission>, start: real, done: nat -> real, stopped: nat -> bool)
    returns (sent: seq<bool>)
    requires forall i, j :: 0 <= i < j < |schedule| ==> schedule[i].time <= schedule[j].time
    ensures |sent| <= |schedule|
    ensures forall k :: 0 <= k < |sent| ==>
              (sent[k] <==> schedule[k].time < GuardTime(beacon) && IsReached(SendTimes(schedule), start, done, k))
    ensures |sent| < |schedule| ==>
              && stopped(|sent|) && schedule[|sent|].time < GuardTime(beacon)
              && IsReached(SendTimes(schedule), start, done, |sent|)
  {
    hide GuardTime;
    var now := start;
    ghost var times := SendTimes(schedule);
    sent := [];
    for k := 0 to |schedule|
      invariant |sent| == k
      invariant (k > 0 ==> schedule[k - 1].time < GuardTime(beacon)) ==> now == ClockAt(times, start, done, k)
      invariant forall j :: 0 <= j < k ==> (sent[j] <==> schedule[j].time < GuardTime(beacon) && IsReached(times, start, done, j))
    {
      if schedule[k].time >= GuardTime(beacon) {
        sent := sent + [false];
        continue;
      }
      if schedule[k].time as real <= now {
        sent := sent + [false];
        continue;
      }
      if stopped(k) {
        return;
      }
      now := done(k);
      sent := sent + [true];
    }
  }

  /** Two groups may be assigned the same slot. Then only one of the frames is sent; the other has
      used its counter and is lost. */
  lemma SharedSlotLosesOne(schedule: seq<Transmission>, start: real, done: nat -> real, j: nat, k: nat)
    requires j < k < |schedule| && schedule[j].time == schedule[k].time
    requires Forward(SendTimes(schedule), start, done, k)
    requires IsReached(SendTimes(schedule), start, done, j) ==> schedule[j].time as real <= done(j)
    ensures !(IsReached(SendTimes(schedule), start, done, j) && IsReached(SendTimes(schedule), start, done, k))
  {
    if IsReached(SendTimes(schedule), start, done, j) {
      PassedOver(SendTimes(schedule), start, done, j, k);
    }
  }

  /** A frame is sent into its slot exactly when the gateway is there in time: the loop starts, and
      everything sent before is over, before the slot. */
  lemma FrameIsSentExactly(p: Primitives, beacon: nat, addr: nat, g: Group, mine: seq<Entry>,
                           start: real, done: nat -> real, k: nat)
    requires g.classB && AllowedPingNb(g.pingNb) && k < |SentInPeriod(p, beacon, addr, g, mine)|
    requires Forward(SendTimes(SentInPeriod(p, beacon, addr, g, mine)), start, done, k)
    ensures var times := SendTimes(SentInPeriod(p, beacon, addr, g, mine));
            && times[k] < GuardTime(beacon)
            && (IsReached(times, start, done, k) <==> InTime(times, start, done, k))
  {
    hide SentInPeriod, InTime, IsReached, Forward, SlotTimes;
    var sent := SentInPeriod(p, beacon, addr, g, mine);
    SentInSlots(p, beacon, addr, g, mine);
    assert sent[k] in sent;
    WindowsAvoidTheBeacons(p, beacon, addr, g.pingNb, sent[k].time);
    ReachedExactly(SendTimes(sent), start, done, k);
  }

  /** The device's side of one frame: its slot is on the list for the session, and is opened
      exactly when the device is there in time. */
  lemma EveryTransmissionIsMet(p: Primitives, beacon: nat, g: Group, mine: seq<Entry>, session: Session,
                               own: Option<nat>, pingNb: nat, sessions: seq<Session>, start: real, ends: nat -> real,
                               x: Transmission) returns (k: nat)
    requires g.classB && AllowedPingNb(g.pingNb) && AllowedPingNb(pingNb)
    requires OnlyOpens(sessions, session) && session.pingNb == Some(g.pingNb)
    requires forall s :: s in sessions ==> AllowedSession(s)
    requires x in SentInPeriod(p, beacon, session.addr, g, mine)
    ensures var slots := Collected(p, beacon, own, pingNb, sessions);
            && k < |slots| && slots[k] == Slot(x.time, Some(session))
            && (Forward(TimesOf(slots), start, ends, k) ==>
                  (IsReached(TimesOf(slots), start, ends, k) <==> InTime(TimesOf(slots), start, ends, k)))
  {
    hide Collected, SentInPeriod, InTime, IsReached, Forward, AllowedPingNb, AllowedSession;
    var slots := Collected(p, beacon, own, pingNb, sessions);
    EveryTransmissionHasItsSlot(p, beacon, g, mine, session, own, pingNb, sessions);
    k :| 0 <= k < |slots| && slots[k] == Slot(x.time, Some(session));
    if Forward(TimesOf(slots), start, ends, k) {
      ReachedExactly(TimesOf(slots), start, ends, k);
    }
  }

  /** While the device's windows stay empty up to the frame's slot, the frame is met exactly when
      an even number of slots lies on the places directly before it. */
  lemma MetAfterEmptyWindows(p: Primitives, beacon: nat, g: Group, mine: seq<Entry>, session: Session,
                             own: Option<nat>, pingNb: nat, sessions: seq<Session>, start: real, ends: nat -> real,
                             startup: real, x: Transmission) returns (k: nat)
    requires g.classB && AllowedPingNb(g.pingNb) && AllowedPingNb(pingNb)
    requires OnlyOpens(sessions, session) && session.pingNb == Some(g.pingNb)
    requires forall s :: s in sessions ==> AllowedSession(s)
    requires x in SentInPeriod(p, beacon, session.addr, g, mine) && 0.0 <= startup <= 25.0
    ensures var slots := Collected(p, beacon, own, pingNb, sessions);
            && k < |slots| && slots[k] == Slot(x.time, Some(session))
            && (start < slots[0].time as real && EmptyBefore(slots, start, ends, startup, k) ==>
                  (IsReached(TimesOf(slots), start, ends, k) <==> RowBefore(TimesOf(slots), k) % 2 == 0))
  {
    hide Collected, SentInPeriod, IsReached, EmptyBefore, AllowedPingNb, AllowedSession, RowBefore;
    var slots := Collected(p, beacon, own, pingNb, sessions);
    k := EveryTransmissionIsMet(p, beacon, g, mine, session, own, pingNb, sessions, start, ends, x);
    if start < slots[0].time as real && EmptyBefore(slots, start, ends, startup, k) {
      EmptySlotsExactly(p, beacon, own, pingNb, sessions, start, ends, startup, k);
    }
  }

  /** So a group whose offset is the place after the device's own is never heard, as long as the
      device's own slots stay empty. */
  lemma TrailingGroupIsNeverMet(p: Primitives, beacon: nat, g: Group, mine: seq<Entry>, session: Session,
                                own: nat, sessions: seq<Session>, start: real, ends: nat -> real, startup: real,
                                x: Transmission) returns (k: nat)
    requires g.classB && AllowedPingNb(g.pingNb) && g.pingNb <= 1024
    requires OnlyOpens(sessions, session) && session.pingNb == Some(g.pingNb) && Trails(p, beacon, own, session.addr, g.pingNb)
    requires forall s :: s in sessions ==> AllowedSession(s)
    requires x in SentInPeriod(p, beacon, session.addr, g, mine) && 0.0 <= startup <= 25.0
    ensures var slots := Collected(p, beacon, Some(own), g.pingNb, sessions);
            && k < |slots| && slots[k] == Slot(x.time, Some(session))
            && (start < slots[0].time as real && EmptyBefore(slots, start, ends, startup, k) ==>
                  !IsReached(TimesOf(slots), start, ends, k))
  {
    hide Collected, SentInPeriod, IsReached, EmptyBefore, AllowedSession, Trails;
    var slots := Collected(p, beacon, Some(own), g.pingNb, sessions);
    k := EveryTransmissionIsMet(p, beacon, g, mine, session, Some(own), g.pingNb, sessions, start, ends, x);
    if start < slots[0].time as real && EmptyBefore(slots, start, ends, startup, k) {
      TrailingGroupIsMissed(p, beacon, own, g.pingNb, sessions, session, start, ends, startup, k);
    }
  }

  /** On a device that listens to this one group only, and comes to its slots in time, every frame
      that finds the windows before it empty is met. */
  lemma LoneGroupIsMet(p: Primitives, beacon: nat, g: Group, mine: seq<Entry>, session: Session, pingNb: nat,
                       sessions: seq<Session>, start: real, ends: nat -> real, startup: real, x: Transmission)
    returns (k: nat)
    requires g.classB && AllowedPingNb(g.pingNb) && g.pingNb <= 2048 && AllowedPingNb(pingNb)
    requires OnlyOpens(sessions, session) && session.pingNb == Some(g.pingNb)
    requires forall s :: s in sessions ==> AllowedSession(s)
    requires x in SentInPeriod(p, beacon, session.addr, g, mine) && 0.0 <= startup <= 25.0
    ensures var slots := Collected(p, beacon, None, pingNb, sessions);
            && k < |slots| && slots[k] == Slot(x.time, Some(session))
            && (start < slots[0].time as real && EmptyBefore(slots, start, ends, startup, k) ==>
                  IsReached(TimesOf(slots), start, ends, k))
  {
    hide Collected, SentInPeriod, IsReached, EmptyBefore, AllowedSession, AreNeighbours;
    var slots := Collected(p, beacon, None, pingNb, sessions);
    k := MetAfterEmptyWindows(p, beacon, g, mine, session, None, pingNb, sessions, start, ends, startup, x);
    NoNeighboursInOneList(p, beacon, pingNb, sessions, session);
    assert RowBefore(TimesOf(slots), k) == 0;
  }
}
