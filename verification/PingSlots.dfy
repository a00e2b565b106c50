/** Class B ping slots (simulator/lorawan/beacon.py, and the device's merge of its slot lists),
    section 12.1 of LoRaWAN L2 1.0.4. Times are in milliseconds. */
module PingSlots {
  import opened Bytes
  import opened LorawanCrypto
  import opened SlotLoops
  import opened Sorting

  const BEACON_INTERVAL: nat := 128_000
  const BEACON_RESERVED: nat := 2_120
  const BEACON_GUARD: nat := 3_000
  const SLOTS: nat := 4096
  const RX_WINDOW_GUARD: real := 5.0

  function ZeroKey(): Key {
    seq(16, _ => 0)
  }

  function PingOffset(p: Primitives, beacon: nat, addr: nat, period: nat): (offset: nat)
    requires period > 0
    ensures offset < period
  {
    var rand := p.aes(ZeroKey(), ToLE(beacon, 4) + ToLE(addr, 4) + [0, 0, 0, 0, 0, 0, 0, 0]);
    (rand[0] + rand[1] * 256) % period
  }

  predicate AllowedPingNb(pingNb: nat) {
    1 <= pingNb <= SLOTS
  }

  function Start(beacon: nat): nat {
    beacon * 1000 + BEACON_RESERVED
  }

  function SlotTime(beacon: nat, index: nat): nat {
    Start(beacon) + index * PING_SLOT_LEN
  }

  function SlotIndex(p: Primitives, beacon: nat, addr: nat, pingNb: nat, i: nat): (index: nat)
    requires AllowedPingNb(pingNb) && i < pingNb
    ensures index < SLOTS
  {
    var period := SLOTS / pingNb;
    var offset := PingOffset(p, beacon, addr, period);
    LastSlotFits(pingNb, i, offset);
    offset + i * period
  }

  lemma LastSlotFits(pingNb: nat, i: nat, offset: nat)
    requires AllowedPingNb(pingNb) && i < pingNb && offset < SLOTS / pingNb
    ensures 0 <= offset + i * (SLOTS / pingNb) < SLOTS
  {
    var period := SLOTS / pingNb;
    assert (i + 1) * period <= pingNb * period <= SLOTS;
  }

  function SlotTimes(p: Primitives, beacon: nat, addr: nat, pingNb: nat): (times: seq<nat>)
    requires AllowedPingNb(pingNb)
    ensures |times| == pingNb
    ensures forall i :: 0 <= i < pingNb ==> times[i] == SlotTime(beacon, SlotIndex(p, beacon, addr, pingNb, i))
  {
    seq(pingNb, i requires 0 <= i < pingNb => SlotTime(beacon, SlotIndex(p, beacon, addr, pingNb, i)))
  }

  predicate Ascending(times: seq<nat>) {
    forall i, j :: 0 <= i < j < |times| ==> times[i] < times[j]
  }

  /** `compute_ping_slot_times`. The list is built in ascending order, so sorting it at the end
      changes nothing. */
  method ComputePingSlotTimes(p: Primitives, beacon: nat, addr: nat, pingNb: nat) returns (times: seq<nat>)
    requires AllowedPingNb(pingNb)
    ensures times == SlotTimes(p, beacon, addr, pingNb) && Ascending(times) && |times| == pingNb
  {
    hide PingOffset, Start;
    var period := SLOTS / pingNb;
    var offset := PingOffset(p, beacon, addr, period);
    times := [];
    for i := 0 to pingNb
      invariant |times| == i
      invariant forall k :: 0 <= k < i ==> times[k] == SlotTime(beacon, SlotIndex(p, beacon, addr, pingNb, k))
    {
      var index := offset + i * period;
      assert index == SlotIndex(p, beacon, addr, pingNb, i);
      times := times + [beacon * 1000 + BEACON_RESERVED + index * PING_SLOT_LEN];
      assert times[i] == SlotTime(beacon, index) by { StartOf(beacon); }
    }
    SlotsAscend(p, beacon, addr, pingNb);
  }

  /** The offset is what the first two bytes give of AES, under a key of zeros, over the beacon's time
      and the address, with the low byte first. */
  lemma OffsetIs(p: Primitives, beacon: nat, addr: nat, period: nat)
    requires period > 0
    ensures var rand := p.aes(ZeroKey(), [beacon % 256, beacon / 256 % 256, beacon / 65536 % 256, beacon / 16777216 % 256,
                                          addr % 256, addr / 256 % 256, addr / 65536 % 256, addr / 16777216 % 256,
                                          0, 0, 0, 0, 0, 0, 0, 0]);
            PingOffset(p, beacon, addr, period) == (rand[0] + 256 * rand[1]) % period
  {
    LittleEndianBytes(beacon);
    LittleEndianBytes(addr);
    assert ToLE(beacon, 4) + ToLE(addr, 4) + [0, 0, 0, 0, 0, 0, 0, 0] ==
             [beacon % 256, beacon / 256 % 256, beacon / 65536 % 256, beacon / 16777216 % 256,
              addr % 256, addr / 256 % 256, addr / 65536 % 256, addr / 16777216 % 256, 0, 0, 0, 0, 0, 0, 0, 0];
  }

  /** Slot i of an address: after the beacon's 2.12 s, 30 ms for each place of the offset and of the
      i periods before it. */
  lemma SlotTimesAre(p: Primitives, beacon: nat, addr: nat, pingNb: nat, i: nat)
    requires AllowedPingNb(pingNb) && i < pingNb
    ensures var rand := p.aes(ZeroKey(), [beacon % 256, beacon / 256 % 256, beacon / 65536 % 256, beacon / 16777216 % 256,
                                          addr % 256, addr / 256 % 256, addr / 65536 % 256, addr / 16777216 % 256,
                                          0, 0, 0, 0, 0, 0, 0, 0]);
            SlotTimes(p, beacon, addr, pingNb)[i]
            == beacon * 1000 + 2120 + 30 * ((rand[0] + 256 * rand[1]) % (4096 / pingNb) + i * (4096 / pingNb))
  {
    hide PingOffset;
    OffsetIs(p, beacon, addr, SLOTS / pingNb);
    StartOf(beacon);
  }

  lemma StartOf(beacon: nat)
    ensures Start(beacon) == beacon * 1000 + BEACON_RESERVED
  {
  }

  lemma SlotsAscend(p: Primitives, beacon: nat, addr: nat, pingNb: nat)
    requires AllowedPingNb(pingNb)
    ensures Ascending(SlotTimes(p, beacon, addr, pingNb))
  {
    var times := SlotTimes(p, beacon, addr, pingNb);
    forall i, j | 0 <= i < j < pingNb
      ensures times[i] < times[j]
    {
      var period := SLOTS / pingNb;
      assert period >= 1;
      assert (j - i) * period >= 1;
    }
  }

  /** Every ping-slot window lies wholly between the beacon's reserved time and the guard before
      the next beacon, so the device's guard test never skips one. */
  lemma WindowsAvoidTheBeacons(p: Primitives, beacon: nat, addr: nat, pingNb: nat, t: nat)
    requires AllowedPingNb(pingNb) && t in SlotTimes(p, beacon, addr, pingNb)
    ensures beacon * 1000 + BEACON_RESERVED <= t
    ensures t + PING_SLOT_LEN <= beacon * 1000 + BEACON_INTERVAL - BEACON_GUARD
    ensures (t - Start(beacon)) % PING_SLOT_LEN == 0
  {
    hide SlotIndex;
    var i :| 0 <= i < pingNb && t == SlotTime(beacon, SlotIndex(p, beacon, addr, pingNb, i));
    assert t - Start(beacon) == SlotIndex(p, beacon, addr, pingNb, i) * PING_SLOT_LEN;
  }

  // ---- The device's list for one beacon period ----

  datatype Session = Session(addr: nat, running: bool, classB: bool, pingNb: Option<nat>)

  /** A slot to open; with a session it is a multicast slot. */
  datatype Slot = Slot(time: nat, session: Option<Session>)

  predicate Opens(s: Session) {
    s.running && s.classB && s.pingNb.Some? && s.pingNb.value != 0
  }

  predicate AllowedSession(s: Session) {
    Opens(s) ==> AllowedPingNb(s.pingNb.value)
  }

  function SlotsOf(p: Primitives, beacon: nat, addr: nat, pingNb: nat, session: Option<Session>): (slots: seq<Slot>)
    requires AllowedPingNb(pingNb)
    ensures |slots| == pingNb
    ensures forall i :: 0 <= i < pingNb ==> slots[i] == Slot(SlotTimes(p, beacon, addr, pingNb)[i], session)
  {
    seq(pingNb, i requires 0 <= i < pingNb => Slot(SlotTimes(p, beacon, addr, pingNb)[i], session))
  }

  function SessionSlots(p: Primitives, beacon: nat, sessions: seq<Session>): seq<Slot>
    requires forall s :: s in sessions ==> AllowedSession(s)
  {
    if sessions == [] then []
    else
      var before, last := SessionSlots(p, beacon, sessions[..|sessions| - 1]), sessions[|sessions| - 1];
      assert last in sessions && AllowedSession(last);
      if Opens(last) then before + SlotsOf(p, beacon, last.addr, last.pingNb.value, Some(last)) else before
  }

  function Entries(p: Primitives, beacon: nat, own: Option<nat>, pingNb: nat, sessions: seq<Session>): seq<Slot>
    requires AllowedPingNb(pingNb) && forall s :: s in sessions ==> AllowedSession(s)
  {
    (if own.Some? then SlotsOf(p, beacon, own.value, pingNb, None) else []) + SessionSlots(p, beacon, sessions)
  }

  /** The sort key: the time, multicast ahead of unicast. */
  function SlotKey(s: Slot): SortKey {
    (s.time, if s.session.None? then 1 else 0, 0)
  }

  predicate SlotsInOrder(slots: seq<Slot>) {
    InOrder(SlotKey, slots)
  }

  function SortSlots(slots: seq<Slot>): seq<Slot> {
    Sort(SlotKey, slots)
  }

  lemma SlotsSorted(slots: seq<Slot>)
    ensures SlotsInOrder(SortSlots(slots)) && multiset(SortSlots(slots)) == multiset(slots)
  {
    SortIsSorted(SlotKey, slots);
  }

  /** Entries closer than one slot length to the last one kept are passed over. */
  function Merge(slots: seq<Slot>): (r: seq<Slot>)
    ensures slots != [] ==> r != []
  {
    if slots == [] then []
    else
      var before, last := Merge(slots[..|slots| - 1]), slots[|slots| - 1];
      if before != [] && last.time < before[|before| - 1].time + PING_SLOT_LEN then before else before + [last]
  }

  function Collected(p: Primitives, beacon: nat, own: Option<nat>, pingNb: nat, sessions: seq<Session>): seq<Slot>
    requires AllowedPingNb(pingNb) && forall s :: s in sessions ==> AllowedSession(s)
  {
    Merge(SortSlots(Entries(p, beacon, own, pingNb, sessions)))
  }

  /** All slots lie on the one 30 ms grid of the beacon period. */
  predicate OnGrid(slots: seq<Slot>, start: nat) {
    forall s :: s in slots ==> s.time >= start && (s.time - start) % PING_SLOT_LEN == 0
  }

  lemma GridDistance(a: nat, b: nat, start: nat)
    requires start <= a <= b && (a - start) % PING_SLOT_LEN == 0 && (b - start) % PING_SLOT_LEN == 0
    ensures b - a < PING_SLOT_LEN <==> a == b
  {
  }

  function Times(slots: seq<Slot>): set<nat> {
    set s | s in slots :: s.time
  }

  predicate TimesAscend(r: seq<Slot>) {
    forall i, j :: 0 <= i < j < |r| ==> r[i].time < r[j].time
  }

  /** A unicast slot is only opened at a time no multicast slot asks for. */
  predicate MulticastWins(r: seq<Slot>, slots: seq<Slot>) {
    forall x, s :: x in r && s in slots && x.time == s.time && s.session.Some? ==> x.session.Some?
  }

  predicate MergedFrom(r: seq<Slot>, slots: seq<Slot>) {
    && TimesAscend(r)
    && (forall s :: s in r ==> s in slots)
    && Times(r) == Times(slots)
    && MulticastWins(r, slots)
  }

  lemma {:induction false} MergeKeepsTimes(slots: seq<Slot>, start: nat)
    requires SlotsInOrder(slots) && OnGrid(slots, start)
    ensures MergedFrom(Merge(slots), slots)
    ensures slots != [] ==> Merge(slots)[|Merge(slots)| - 1].time == slots[|slots| - 1].time
  {
    hide MergedFrom, SlotsInOrder;
    if slots == [] {
      assert MergedFrom([], []) by { NothingMerged(); }
    } else {
      var front, last := slots[..|slots| - 1], slots[|slots| - 1];
      var before, r := Merge(front), Merge(slots);
      assert slots == front + [last];
      FrontInOrder(front, last);
      assert forall x :: x in front ==> x in slots;
      MergeKeepsTimes(front, start);
      if front == [] {
        assert r == [last];
        OneMerged(last);
      } else {
        var tail := before[|before| - 1];
        assert front[|front| - 1] in slots && last in slots;
        LastIsLatest(front, last, |front| - 1);
        GridDistance(tail.time, last.time, start);
        if tail.time == last.time {
          MulticastStays(front, last, before);
        } else {
          MergeExtends(front, last, before);
        }
      }
    }
  }

  lemma NothingMerged()
    ensures MergedFrom([], [])
  {
    assert Times([]) == {};
  }

  lemma OneMerged(x: Slot)
    ensures MergedFrom([x], [x])
  {
  }

  lemma FrontInOrder(front: seq<Slot>, last: Slot)
    requires SlotsInOrder(front + [last])
    ensures SlotsInOrder(front)
  {
    hide SlotKey, KeyLess;
    var slots := front + [last];
    forall i, j | 0 <= i < j < |front|
      ensures !KeyLess(SlotKey(front[j]), SlotKey(front[i]))
    {
      assert !KeyLess(SlotKey(slots[j]), SlotKey(slots[i]));
    }
  }

  lemma LastIsLatest(front: seq<Slot>, last: Slot, k: nat)
    requires SlotsInOrder(front + [last]) && k < |front|
    ensures front[k].time <= last.time
    ensures front[k].time == last.time && last.session.Some? ==> front[k].session.Some?
  {
    var slots := front + [last];
    assert !KeyLess(SlotKey(slots[|front|]), SlotKey(slots[k]));
  }

  lemma TimesGrow(front: seq<Slot>, last: Slot)
    ensures Times(front + [last]) == Times(front) + {last.time}
  {
    assert forall s :: s in front + [last] <==> s in front || s == last;
  }

  lemma MulticastStays(front: seq<Slot>, last: Slot, before: seq<Slot>)
    requires before != [] && SlotsInOrder(front + [last]) && MergedFrom(before, front)
    requires before[|before| - 1].time == last.time
    ensures MergedFrom(before, front + [last])
  {
    hide SlotsInOrder, Times, TimesAscend;
    TimesGrow(front, last);
    assert last.time in Times(before) by {
      InTimes(before, before[|before| - 1]);
    }
    assert Times(front + [last]) == Times(before);
    forall x, s | x in before && s in front + [last] && x.time == s.time && s.session.Some?
      ensures x.session.Some?
    {
      if s !in front {
        var k :| 0 <= k < |front| && front[k] == x;
        LastIsLatest(front, last, k);
      }
    }
  }

  lemma InTimes(slots: seq<Slot>, x: Slot)
    requires x in slots
    ensures x.time in Times(slots)
  {
  }

  lemma MergeExtends(front: seq<Slot>, last: Slot, before: seq<Slot>)
    requires before != [] && front != [] && SlotsInOrder(front + [last]) && MergedFrom(before, front)
    requires before[|before| - 1].time == front[|front| - 1].time < last.time
    ensures MergedFrom(before + [last], front + [last])
  {
    hide SlotsInOrder, Times;
    TimesGrow(front, last);
    TimesGrow(before, last);
    forall x | x in front
      ensures x.time < last.time
    {
      var k :| 0 <= k < |front| && front[k] == x;
      if k < |front| - 1 {
        FrontInOrder(front, last);
        assert front[..|front| - 1] + [front[|front| - 1]] == front;
        LastIsLatest(front[..|front| - 1], front[|front| - 1], k);
      }
    }
    assert MulticastWins(before + [last], front + [last]) by { hide TimesAscend; }
    assert TimesAscend(before + [last]) by { hide MulticastWins; }
  }

  lemma {:induction false} SessionSlotsAre(p: Primitives, beacon: nat, sessions: seq<Session>, x: Slot)
    requires forall s :: s in sessions ==> AllowedSession(s)
    ensures x in SessionSlots(p, beacon, sessions) <==>
              && x.session.Some? && x.session.value in sessions && Opens(x.session.value)
              && x.time in SlotTimes(p, beacon, x.session.value.addr, x.session.value.pingNb.value)
  {
    if sessions != [] {
      var front, last := sessions[..|sessions| - 1], sessions[|sessions| - 1];
      assert sessions == front + [last];
      assert last in sessions && AllowedSession(last);
      SessionSlotsAre(p, beacon, front, x);
      if Opens(last) {
        SlotsOfAre(p, beacon, last.addr, last.pingNb.value, Some(last), x);
      }
    }
  }

  lemma SlotsOfAre(p: Primitives, beacon: nat, addr: nat, pingNb: nat, session: Option<Session>, x: Slot)
    requires AllowedPingNb(pingNb)
    ensures x in SlotsOf(p, beacon, addr, pingNb, session) <==>
              x.session == session && x.time in SlotTimes(p, beacon, addr, pingNb)
  {
    var times, slots := SlotTimes(p, beacon, addr, pingNb), SlotsOf(p, beacon, addr, pingNb, session);
    if x.session == session && x.time in times {
      var i :| 0 <= i < pingNb && times[i] == x.time;
      assert slots[i] == x;
    }
  }

  lemma EntriesOnGrid(p: Primitives, beacon: nat, own: Option<nat>, pingNb: nat, sessions: seq<Session>)
    requires AllowedPingNb(pingNb) && forall s :: s in sessions ==> AllowedSession(s)
    ensures OnGrid(Entries(p, beacon, own, pingNb, sessions), Start(beacon))
  {
    hide SlotTimes;
    forall x | x in Entries(p, beacon, own, pingNb, sessions)
      ensures x.time >= Start(beacon) && (x.time - Start(beacon)) % PING_SLOT_LEN == 0
    {
      SessionSlotsAre(p, beacon, sessions, x);
      if x in SessionSlots(p, beacon, sessions) {
        var s := x.session.value;
        assert AllowedSession(s);
        WindowsAvoidTheBeacons(p, beacon, s.addr, s.pingNb.value, x.time);
      } else {
        SlotsOfAre(p, beacon, own.value, pingNb, None, x);
        WindowsAvoidTheBeacons(p, beacon, own.value, pingNb, x.time);
      }
    }
  }

  lemma SameElements(a: seq<Slot>, b: seq<Slot>)
    requires multiset(a) == multiset(b)
    ensures forall s :: s in a <==> s in b
  {
    forall s
      ensures s in a <==> s in b
    {
      assert s in a <==> s in multiset(a);
      assert s in b <==> s in multiset(b);
    }
  }

  lemma SameMerged(r: seq<Slot>, a: seq<Slot>, b: seq<Slot>)
    requires MergedFrom(r, a) && forall s :: s in a <==> s in b
    ensures MergedFrom(r, b)
  {
    assert Times(a) == Times(b);
  }

  /** The list the device opens: each time that some list asks for exactly once, ascending, and
      multicast wherever a multicast slot asks for it. */
  lemma CollectedKeepsEveryTime(p: Primitives, beacon: nat, own: Option<nat>, pingNb: nat, sessions: seq<Session>)
    requires AllowedPingNb(pingNb) && forall s :: s in sessions ==> AllowedSession(s)
    ensures MergedFrom(Collected(p, beacon, own, pingNb, sessions), Entries(p, beacon, own, pingNb, sessions))
  {
    hide Entries, SlotsInOrder, MergedFrom;
    var entries := Entries(p, beacon, own, pingNb, sessions);
    EntriesOnGrid(p, beacon, own, pingNb, sessions);
    SlotsSorted(entries);
    SameElements(SortSlots(entries), entries);
    MergeKeepsTimes(SortSlots(entries), Start(beacon));
    SameMerged(Merge(SortSlots(entries)), SortSlots(entries), entries);
  }

  lemma AtTime(slots: seq<Slot>, t: nat) returns (x: Slot)
    requires t in Times(slots)
    ensures x in slots && x.time == t
  {
    x :| x in slots && x.time == t;
  }

  /** Class B agreement: with one running session for the group, every time the server computes
      for that group is a slot the device opens for that session. */
  lemma ServerTimesAreOpened(p: Primitives, beacon: nat, own: Option<nat>, pingNb: nat, sessions: seq<Session>, session: Session, t: nat)
    requires AllowedPingNb(pingNb) && forall s :: s in sessions ==> AllowedSession(s)
    requires session in sessions && AllowedSession(session)
    requires session.running && session.classB && session.pingNb.Some? && session.pingNb.value != 0
    requires t in SlotTimes(p, beacon, session.addr, session.pingNb.value)
    requires forall s :: s in sessions && Opens(s) ==> s == session
    ensures Slot(t, Some(session)) in Collected(p, beacon, own, pingNb, sessions)
  {
    hide SlotTimes, Collected, Times;
    var entries, r := Entries(p, beacon, own, pingNb, sessions), Collected(p, beacon, own, pingNb, sessions);
    var x := Slot(t, Some(session));
    CollectedKeepsEveryTime(p, beacon, own, pingNb, sessions);
    SessionSlotsAre(p, beacon, sessions, x);
    assert x in entries;
    InTimes(entries, x);
    var y := AtTime(r, t);
    assert y.session.Some? && y in entries;
    SessionSlotsAre(p, beacon, sessions, y);
    if own.Some? {
      SlotsOfAre(p, beacon, own.value, pingNb, None, y);
    }
  }

  /** And the other way: the device opens no slot that neither its own address nor a running
      session asks for. */
  lemma OpenedTimesAreAsked(p: Primitives, beacon: nat, own: Option<nat>, pingNb: nat, sessions: seq<Session>, x: Slot)
    requires AllowedPingNb(pingNb) && forall s :: s in sessions ==> AllowedSession(s)
    requires x in Collected(p, beacon, own, pingNb, sessions)
    ensures x.session.None? ==> own.Some? && x.time in SlotTimes(p, beacon, own.value, pingNb)
    ensures x.session.Some? ==>
              && x.session.value in sessions && AllowedSession(x.session.value) && Opens(x.session.value)
              && x.session.value.running && x.session.value.classB && x.session.value.pingNb.Some?
              && x.time in SlotTimes(p, beacon, x.session.value.addr, x.session.value.pingNb.value)
  {
    hide SlotTimes, Collected;
    CollectedKeepsEveryTime(p, beacon, own, pingNb, sessions);
    SessionSlotsAre(p, beacon, sessions, x);
    if own.Some? {
      SlotsOfAre(p, beacon, own.value, pingNb, None, x);
    }
  }

  lemma AllowedNb(s: Session)
    requires AllowedSession(s) && Opens(s)
    ensures s.pingNb.Some? && AllowedPingNb(s.pingNb.value)
  {
  }

  /** `collect_ping_slots`. */
  method CollectPingSlots(p: Primitives, beacon: nat, own: Option<nat>, pingNb: nat, sessions: seq<Session>)
    returns (merged: seq<Slot>)
    requires AllowedPingNb(pingNb) && forall s :: s in sessions ==> AllowedSession(s)
    ensures merged == Collected(p, beacon, own, pingNb, sessions)
    ensures MergedFrom(merged, Entries(p, beacon, own, pingNb, sessions))
  {
    hide SlotTimes, Opens, SlotsInOrder, MergedFrom, SortSlots, SlotKey, Times, Start, SlotIndex, AllowedPingNb;
    var entries: seq<Slot> := [];
    if own.Some? {
      var times := ComputePingSlotTimes(p, beacon, own.value, pingNb);
      entries := seq(|times|, i requires 0 <= i < |times| => Slot(times[i], None));
    }
    ghost var unicast := entries;
    for k := 0 to |sessions|
      invariant entries == unicast + SessionSlots(p, beacon, sessions[..k])
    {
      var session := sessions[k];
      assert sessions[..k + 1][..k] == sessions[..k];
      if Opens(session) {
        assert AllowedSession(session);
        AllowedNb(session);
        var times := ComputePingSlotTimes(p, beacon, session.addr, session.pingNb.value);
        entries := entries + seq(|times|, i requires 0 <= i < |times| => Slot(times[i], Some(session)));
      }
    }
    assert sessions[..|sessions|] == sessions;
    entries := SortSlots(entries);
    merged := [];
    for k := 0 to |entries|
      invariant merged == Merge(entries[..k])
    {
      assert entries[..k + 1][..k] == entries[..k];
      if |merged| > 0 && entries[k].time < merged[|merged| - 1].time + PING_SLOT_LEN {
        continue;
      }
      merged := merged + [entries[k]];
    }
    assert entries[..|entries|] == entries;
    CollectedKeepsEveryTime(p, beacon, own, pingNb, sessions);
  }

  // ---- Opening the slots ----

  function TimesOf(slots: seq<Slot>): (times: seq<nat>)
    ensures |times| == |slots| && forall k :: 0 <= k < |slots| ==> times[k] == slots[k].time
  {
    seq(|slots|, k requires 0 <= k < |slots| => slots[k].time)
  }

  /** `_class_b_ping_slots`: slots are opened one after the other; one whose time has come before
      the previous window ended is passed over; the loop ends when Class B is stopped. The window
      of slot k ends at ends(k), whatever is heard in it. */
  method OpenPingSlots(beacon: nat, slots: seq<Slot>, start: real, ends: nat -> real, stopped: nat -> bool)
    returns (used: seq<bool>)
    ensures |used| <= |slots|
    ensures forall k :: 0 <= k < |used| ==> (used[k] <==> IsReached(TimesOf(slots), start, ends, k))
    ensures forall k :: 0 <= k < |used| ==> !stopped(k)
    ensures |used| < |slots| ==> stopped(|used|) || slots[|used|].time >= beacon * 1000 + BEACON_INTERVAL - BEACON_GUARD
  {
    var guardTime := beacon * 1000 + BEACON_INTERVAL - BEACON_GUARD;
    var now := start;
    ghost var times := TimesOf(slots);
    used := [];
    for k := 0 to |slots|
      invariant |used| == k && now == ClockAt(times, start, ends, k)
      invariant forall j :: 0 <= j < k ==> (used[j] <==> IsReached(times, start, ends, j)) && !stopped(j)
    {
      if stopped(k) {
        break;
      }
      if slots[k].time >= guardTime {
        break;
      }
      if slots[k].time as real <= now {
        used := used + [false];
        continue;
      }
      now := ends(k);
      used := used + [true];
    }
  }

  /** `_rx_window` when nothing is heard: the receiver is woken a guard and its startup time
      early, or at once if it is later than that already, and then listens for the slot and the
      guard. */
  function EmptyEnd(now: real, slot: nat, startup: real): real {
    var wakeAt := slot as real - RX_WINDOW_GUARD - startup;
    var openedAt := (if wakeAt > now then wakeAt else now) + startup;
    openedAt + PING_SLOT_LEN as real + RX_WINDOW_GUARD
  }

  /** The windows opened before slot k stay empty. */
  predicate EmptyBefore(slots: seq<Slot>, start: real, ends: nat -> real, startup: real, k: nat)
    requires k <= |slots|
  {
    var times := TimesOf(slots);
    forall j :: 0 <= j < k && IsReached(times, start, ends, j) ==>
      ends(j) == EmptyEnd(ClockAt(times, start, ends, j), times[j], startup)
  }

  /** An empty window lasts until its neighbour's time at least, and never for two slots. */
  lemma EmptyWindowsLast(slots: seq<Slot>, start: real, ends: nat -> real, startup: real, k: nat)
    requires k <= |slots| && 0.0 <= startup <= 25.0 && EmptyBefore(slots, start, ends, startup, k)
    ensures EachLastsASlot(TimesOf(slots), start, ends, k) && Forward(TimesOf(slots), start, ends, k)
  {
  }

  lemma CollectedSpaced(p: Primitives, beacon: nat, own: Option<nat>, pingNb: nat, sessions: seq<Session>)
    requires AllowedPingNb(pingNb) && forall s :: s in sessions ==> AllowedSession(s)
    ensures var slots := Collected(p, beacon, own, pingNb, sessions);
            TimesAscend(slots) && Spaced(TimesOf(slots))
  {
    hide Collected, Entries, Times, MulticastWins;
    var slots, entries := Collected(p, beacon, own, pingNb, sessions), Entries(p, beacon, own, pingNb, sessions);
    CollectedKeepsEveryTime(p, beacon, own, pingNb, sessions);
    EntriesOnGrid(p, beacon, own, pingNb, sessions);
    forall k | 0 < k < |slots|
      ensures AreNeighbours(TimesOf(slots), k) || slots[k].time >= slots[k - 1].time + 2 * PING_SLOT_LEN
    {
      assert slots[k] in entries && slots[k - 1] in entries;
      GridNeighbours(slots[k - 1].time, slots[k].time, Start(beacon));
    }
  }

  lemma GridNeighbours(a: nat, b: nat, start: nat)
    requires start <= a < b
    requires (a - start) % PING_SLOT_LEN == 0 && (b - start) % PING_SLOT_LEN == 0
    ensures b == a + PING_SLOT_LEN || b >= a + 2 * PING_SLOT_LEN
  {
  }

  /** Which slots of the list are opened when the windows stay empty: in a row of neighbours every
      other one, beginning with the first. */
  lemma EmptySlotsExactly(p: Primitives, beacon: nat, own: Option<nat>, pingNb: nat, sessions: seq<Session>,
                          start: real, ends: nat -> real, startup: real, k: nat)
    requires AllowedPingNb(pingNb) && forall s :: s in sessions ==> AllowedSession(s)
    requires k < |Collected(p, beacon, own, pingNb, sessions)| && 0.0 <= startup <= 25.0
    requires start < Collected(p, beacon, own, pingNb, sessions)[0].time as real
    requires EmptyBefore(Collected(p, beacon, own, pingNb, sessions), start, ends, startup, k)
    ensures var times := TimesOf(Collected(p, beacon, own, pingNb, sessions));
            IsReached(times, start, ends, k) <==> RowBefore(times, k) % 2 == 0
  {
    hide Collected, Spaced, EmptyBefore, EachLastsASlot, IsReached;
    var slots := Collected(p, beacon, own, pingNb, sessions);
    CollectedSpaced(p, beacon, own, pingNb, sessions);
    EmptyWindowsLast(slots, start, ends, startup, k);
    RowDecides(TimesOf(slots), start, ends, k);
  }

  /** All slots of the list are opened, when the windows stay empty, exactly when the loop starts
      before the first one and no two slots are neighbours. */
  lemma AllOpenedExactly(p: Primitives, beacon: nat, own: Option<nat>, pingNb: nat, sessions: seq<Session>,
                         start: real, ends: nat -> real, startup: real)
    requires AllowedPingNb(pingNb) && (forall s :: s in sessions ==> AllowedSession(s)) && 0.0 <= startup <= 25.0
    requires var slots := Collected(p, beacon, own, pingNb, sessions); EmptyBefore(slots, start, ends, startup, |slots|)
    ensures var times := TimesOf(Collected(p, beacon, own, pingNb, sessions));
            AllReached(times, start, ends) <==>
              times == [] || (start < times[0] as real && forall k :: 0 < k < |times| ==> !AreNeighbours(times, k))
  {
    hide Collected, Spaced, EmptyBefore, EachLastsASlot, AllReached, AreNeighbours;
    var slots := Collected(p, beacon, own, pingNb, sessions);
    CollectedSpaced(p, beacon, own, pingNb, sessions);
    EmptyWindowsLast(slots, start, ends, startup, |slots|);
    SlotLoops.AllReachedExactly(TimesOf(slots), start, ends);
  }

  lemma SlotBefore(slots: seq<Slot>, t: nat, k: nat)
    requires k < |slots| && TimesAscend(slots) && Spaced(TimesOf(slots))
    requires slots[k].time == t + PING_SLOT_LEN && t in Times(slots)
    ensures k > 0 && slots[k - 1].time == t
  {
    hide Spaced, Times;
    var times := TimesOf(slots);
    var x := AtTime(slots, t);
    var m :| 0 <= m < |slots| && slots[m] == x;
    SpacedBy(times, m + 1);
  }

  lemma SpacedBy(times: seq<nat>, k: nat)
    requires Spaced(times) && 0 < k < |times|
    ensures times[k] >= times[k - 1] + PING_SLOT_LEN
  {
  }

  /** A slot with one slot directly before it, and none directly before that one. */
  lemma SecondOfTwo(slots: seq<Slot>, t: nat, k: nat)
    requires k < |slots| && TimesAscend(slots) && Spaced(TimesOf(slots))
    requires slots[k].time == t + PING_SLOT_LEN && t in Times(slots)
    requires forall s :: s in slots ==> s.time + PING_SLOT_LEN != t
    ensures RowBefore(TimesOf(slots), k) == 1
  {
    hide Spaced, Times, TimesAscend;
    var times := TimesOf(slots);
    SlotBefore(slots, t, k);
    assert RowBefore(times, k) == 1 + RowBefore(times, k - 1);
    if k > 1 {
      assert slots[k - 2] in slots;
    }
  }

  /** Only one session of the device opens slots. */
  predicate OnlyOpens(sessions: seq<Session>, session: Session) {
    session in sessions && Opens(session) && AllowedSession(session) && forall s :: s in sessions && Opens(s) ==> s == session
  }

  /** The group's offset is the place after the device's own. */
  predicate Trails(p: Primitives, beacon: nat, own: nat, group: nat, pingNb: nat)
    requires AllowedPingNb(pingNb)
  {
    PingOffset(p, beacon, group, SLOTS / pingNb) == PingOffset(p, beacon, own, SLOTS / pingNb) + 1
  }

  /** A group whose slots come directly after the device's own: with windows that stay empty the
      device opens none of them, though the server uses them. */
  lemma TrailingGroupIsMissed(p: Primitives, beacon: nat, own: nat, pingNb: nat, sessions: seq<Session>, session: Session,
                              start: real, ends: nat -> real, startup: real, k: nat)
    requires AllowedPingNb(pingNb) && pingNb <= 1024 && (forall s :: s in sessions ==> AllowedSession(s))
    requires OnlyOpens(sessions, session) && session.pingNb == Some(pingNb) && Trails(p, beacon, own, session.addr, pingNb)
    requires var slots := Collected(p, beacon, Some(own), pingNb, sessions);
             && k < |slots| && slots[k].session == Some(session)
             && start < slots[0].time as real && 0.0 <= startup <= 25.0 && EmptyBefore(slots, start, ends, startup, k)
    ensures !IsReached(TimesOf(Collected(p, beacon, Some(own), pingNb, sessions)), start, ends, k)
  {
    hide Collected, Spaced, EmptyBefore, IsReached, Times, TimesAscend, Start, PingOffset, SlotTimes, SlotIndex, Entries, MergedFrom, Trails;
    var slots := Collected(p, beacon, Some(own), pingNb, sessions);
    assert slots[k] in slots;
    OpenedTimesAreAsked(p, beacon, Some(own), pingNb, sessions, slots[k]);
    var t := TrailingSlot(p, beacon, own, session.addr, pingNb, slots[k].time);
    OwnTimeIsListed(p, beacon, own, pingNb, sessions, t);
    forall s | s in slots
      ensures s.time + PING_SLOT_LEN != t
    {
      OpenedTimesAreAsked(p, beacon, Some(own), pingNb, sessions, s);
      NobodyBefore(p, beacon, own, session.addr, pingNb, slots[k].time, s.time);
    }
    CollectedSpaced(p, beacon, Some(own), pingNb, sessions);
    SecondOfTwo(slots, t, k);
    EmptySlotsExactly(p, beacon, Some(own), pingNb, sessions, start, ends, startup, k);
  }

  lemma TrailingSlot(p: Primitives, beacon: nat, own: nat, group: nat, pingNb: nat, time: nat) returns (t: nat)
    requires AllowedPingNb(pingNb) && Trails(p, beacon, own, group, pingNb) && time in SlotTimes(p, beacon, group, pingNb)
    ensures t + PING_SLOT_LEN == time && t in SlotTimes(p, beacon, own, pingNb)
  {
    hide PingOffset, Start;
    var i :| 0 <= i < pingNb && time == SlotTimes(p, beacon, group, pingNb)[i];
    t := SlotTimes(p, beacon, own, pingNb)[i];
  }

  /** No slot of either address lies two places before a slot of the group. */
  lemma NobodyBefore(p: Primitives, beacon: nat, own: nat, group: nat, pingNb: nat, time: nat, other: nat)
    requires AllowedPingNb(pingNb) && pingNb <= 1024 && Trails(p, beacon, own, group, pingNb)
    requires time in SlotTimes(p, beacon, group, pingNb)
    requires other in SlotTimes(p, beacon, own, pingNb) || other in SlotTimes(p, beacon, group, pingNb)
    ensures other + 2 * PING_SLOT_LEN != time
  {
    hide PingOffset, Start, SlotTimes;
    var period := SLOTS / pingNb;
    var i := IndexOf(p, beacon, group, pingNb, time);
    var who := if other in SlotTimes(p, beacon, own, pingNb) then own else group;
    var j := IndexOf(p, beacon, who, pingNb, other);
    NotTwoApart(i, j, period);
  }

  lemma IndexOf(p: Primitives, beacon: nat, addr: nat, pingNb: nat, time: nat) returns (i: nat)
    requires AllowedPingNb(pingNb) && time in SlotTimes(p, beacon, addr, pingNb)
    ensures i < pingNb && time == Start(beacon) + (PingOffset(p, beacon, addr, SLOTS / pingNb) + i * (SLOTS / pingNb)) * PING_SLOT_LEN
  {
    i :| 0 <= i < pingNb && time == SlotTimes(p, beacon, addr, pingNb)[i];
  }

  lemma Apart(i: nat, j: nat, period: nat)
    ensures i * period <= j * period || i * period >= j * period + period
  {
    var d := i - j;
    assert d * period == i * period - j * period;
    if d >= 1 {
      assert d * period >= period;
    } else {
      assert d * period <= 0;
    }
  }

  lemma NotOneApart(i: nat, j: nat, period: nat)
    requires period >= 2
    ensures i * period != j * period + 1
  {
    Apart(i, j, period);
  }

  lemma NotTwoApart(i: nat, j: nat, period: nat)
    requires period >= 3
    ensures i * period != j * period + 1 && i * period != j * period + 2
  {
    Apart(i, j, period);
  }

  lemma OwnTimeIsListed(p: Primitives, beacon: nat, own: nat, pingNb: nat, sessions: seq<Session>, t: nat)
    requires AllowedPingNb(pingNb) && (forall s :: s in sessions ==> AllowedSession(s)) && t in SlotTimes(p, beacon, own, pingNb)
    ensures t in Times(Collected(p, beacon, Some(own), pingNb, sessions))
  {
    hide SlotTimes, Collected, Times;
    var entries := Entries(p, beacon, Some(own), pingNb, sessions);
    CollectedKeepsEveryTime(p, beacon, Some(own), pingNb, sessions);
    SlotsOfAre(p, beacon, own, pingNb, None, Slot(t, None));
    assert Slot(t, None) in entries;
    InTimes(entries, Slot(t, None));
  }

  lemma NoNeighboursInOneList(p: Primitives, beacon: nat, pingNb: nat, sessions: seq<Session>, session: Session)
    requires AllowedPingNb(pingNb) && (forall s :: s in sessions ==> AllowedSession(s)) && OnlyOpens(sessions, session)
    requires session.pingNb.value <= 2048
    ensures var times := TimesOf(Collected(p, beacon, None, pingNb, sessions));
            forall k :: 0 < k < |times| ==> !AreNeighbours(times, k)
  {
    hide Collected, Start, PingOffset, SlotTimes, SlotIndex;
    var slots := Collected(p, beacon, None, pingNb, sessions);
    forall k | 0 < k < |slots|
      ensures !AreNeighbours(TimesOf(slots), k)
    {
      assert slots[k] in slots && slots[k - 1] in slots;
      OpenedTimesAreAsked(p, beacon, None, pingNb, sessions, slots[k]);
      OpenedTimesAreAsked(p, beacon, None, pingNb, sessions, slots[k - 1]);
      GapInOneList(p, beacon, session.addr, session.pingNb.value, slots[k - 1].time, slots[k].time);
    }
  }

  /** A device without an address of its own, and one session that leaves gaps: every slot is
      opened, when the windows stay empty and the loop starts before the first. */
  lemma LoneSessionIsOpened(p: Primitives, beacon: nat, pingNb: nat, sessions: seq<Session>, session: Session,
                            start: real, ends: nat -> real, startup: real)
    requires AllowedPingNb(pingNb) && (forall s :: s in sessions ==> AllowedSession(s)) && OnlyOpens(sessions, session)
    requires session.pingNb.value <= 2048 && 0.0 <= startup <= 25.0
    requires var slots := Collected(p, beacon, None, pingNb, sessions);
             && EmptyBefore(slots, start, ends, startup, |slots|)
             && (slots != [] ==> start < slots[0].time as real)
    ensures AllReached(TimesOf(Collected(p, beacon, None, pingNb, sessions)), start, ends)
  {
    hide Collected, Spaced, EmptyBefore, AllReached, AreNeighbours;
    NoNeighboursInOneList(p, beacon, pingNb, sessions, session);
    AllOpenedExactly(p, beacon, None, pingNb, sessions, start, ends, startup);
  }

  /** Slots of one address are never neighbours when every other place is left out. */
  lemma GapInOneList(p: Primitives, beacon: nat, addr: nat, pingNb: nat, a: nat, b: nat)
    requires AllowedPingNb(pingNb) && pingNb <= 2048
    requires a in SlotTimes(p, beacon, addr, pingNb) && b in SlotTimes(p, beacon, addr, pingNb)
    ensures b != a + PING_SLOT_LEN
  {
    hide PingOffset, Start, SlotTimes;
    var period := SLOTS / pingNb;
    var i := IndexOf(p, beacon, addr, pingNb, a);
    var j := IndexOf(p, beacon, addr, pingNb, b);
    NotOneApart(j, i, period);
  }

  /** An input: a cipher under which the offset is the low byte of the address, the device at
      address 0 with the group at address 1. */
  function LowByteCipher(): Primitives {
    var block: Block := seq(16, _ => 0);
    Primitives((k, b) => block[0 := b[4]], (k, b) => block, (k, m) => block)
  }

  const TRAILING := Session(1, true, true, Some(16))

  lemma AddressesTrail(beacon: nat)
    ensures Trails(LowByteCipher(), beacon, 0, 1, 16)
  {
    assert ToLE(0, 4)[0] == 0 && ToLE(1, 4)[0] == 1;
  }

  /** Windows that stay empty, on a device that comes to its slots early enough. */
  function PromptEnds(slots: seq<Slot>): nat -> real {
    (k: nat) => if k < |slots| then (slots[k].time + PING_SLOT_LEN) as real else 0.0
  }

  lemma PromptWindowsAreEmpty(slots: seq<Slot>, start: real, startup: real)
    requires TimesAscend(slots) && Spaced(TimesOf(slots)) && 0.0 <= startup <= 25.0
    requires slots != [] ==> start + RX_WINDOW_GUARD + startup <= slots[0].time as real
    ensures EmptyBefore(slots, start, PromptEnds(slots), startup, |slots|)
  {
    hide Spaced;
    var times, ends := TimesOf(slots), PromptEnds(slots);
    forall j | 0 <= j < |slots| && IsReached(times, start, ends, j)
      ensures ends(j) == EmptyEnd(ClockAt(times, start, ends, j), times[j], startup)
    {
      var m := ClockIsOne(times, start, ends, j);
      if ClockAt(times, start, ends, j) != start {
        TwoFurther(slots, m, j);
      }
    }
  }

  lemma TwoFurther(slots: seq<Slot>, m: nat, j: nat)
    requires m < j < |slots| && TimesAscend(slots) && Spaced(TimesOf(slots)) && slots[j].time > slots[m].time + PING_SLOT_LEN
    ensures slots[j].time >= slots[m].time + 2 * PING_SLOT_LEN
  {
    hide Spaced;
    var times := TimesOf(slots);
    if m + 1 < j {
      SpacedBy(times, m + 1);
      SpacedBy(times, m + 2);
      assert slots[m + 2].time <= slots[j].time;
    } else {
      assert AreNeighbours(times, j) || times[j] >= times[j - 1] + 2 * PING_SLOT_LEN by { SpacedAt(times, j); }
    }
  }

  lemma SpacedAt(times: seq<nat>, k: nat)
    requires Spaced(times) && 0 < k < |times|
    ensures AreNeighbours(times, k) || times[k] >= times[k - 1] + 2 * PING_SLOT_LEN
  {
  }

  /** All sixteen slots of that group are on the device's list, the loop starts with the beacon,
      every window stays empty, and none of the sixteen is opened. */
  lemma TrailingGroupExample(beacon: nat, t: nat)
    requires t in SlotTimes(LowByteCipher(), beacon, 1, 16)
    ensures var slots := Collected(LowByteCipher(), beacon, Some(0), 16, [TRAILING]);
            var start, ends := (beacon * 1000) as real, PromptEnds(slots);
            && EmptyBefore(slots, start, ends, 0.5, |slots|)
            && exists k :: 0 <= k < |slots| && slots[k] == Slot(t, Some(TRAILING)) && !IsReached(TimesOf(slots), start, ends, k)
  {
    hide Collected, SlotTimes, EmptyBefore, Trails, LowByteCipher, Spaced, PromptEnds, IsReached, TimesAscend;
    var p := LowByteCipher();
    var slots := Collected(p, beacon, Some(0), 16, [TRAILING]);
    var start, ends := (beacon * 1000) as real, PromptEnds(slots);
    AddressesTrail(beacon);
    ServerTimesAreOpened(p, beacon, Some(0), 16, [TRAILING], TRAILING, t);
    var k :| 0 <= k < |slots| && slots[k] == Slot(t, Some(TRAILING));
    assert slots[0] in slots;
    AfterTheBeacon(p, beacon, Some(0), 16, [TRAILING], slots[0]);
    CollectedSpaced(p, beacon, Some(0), 16, [TRAILING]);
    PromptWindowsAreEmpty(slots, start, 0.5);
    StillEmpty(slots, start, ends, 0.5, k);
    TrailingGroupIsMissed(p, beacon, 0, 16, [TRAILING], TRAILING, start, ends, 0.5, k);
  }

  lemma StillEmpty(slots: seq<Slot>, start: real, ends: nat -> real, startup: real, k: nat)
    requires k <= |slots| && EmptyBefore(slots, start, ends, startup, |slots|)
    ensures EmptyBefore(slots, start, ends, startup, k)
  {
  }

  lemma AfterTheBeacon(p: Primitives, beacon: nat, own: Option<nat>, pingNb: nat, sessions: seq<Session>, x: Slot)
    requires AllowedPingNb(pingNb) && forall s :: s in sessions ==> AllowedSession(s)
    requires x in Collected(p, beacon, own, pingNb, sessions)
    ensures x.time >= Start(beacon)
  {
    hide Collected, SlotTimes;
    OpenedTimesAreAsked(p, beacon, own, pingNb, sessions, x);
    if x.session.None? {
      WindowsAvoidTheBeacons(p, beacon, own.value, pingNb, x.time);
    } else {
      WindowsAvoidTheBeacons(p, beacon, x.session.value.addr, x.session.value.pingNb.value, x.time);
    }
  }

  /** The guard test of the loop never ends it for slots the device collected. */
  lemma GuardNeverEnds(p: Primitives, beacon: nat, own: Option<nat>, pingNb: nat, sessions: seq<Session>, x: Slot)
    requires AllowedPingNb(pingNb) && forall s :: s in sessions ==> AllowedSession(s)
    requires x in Collected(p, beacon, own, pingNb, sessions)
    ensures x.time < beacon * 1000 + BEACON_INTERVAL - BEACON_GUARD
  {
    hide Collected, SlotTimes, Start;
    OpenedTimesAreAsked(p, beacon, own, pingNb, sessions, x);
    if x.session.None? {
      WindowsAvoidTheBeacons(p, beacon, own.value, pingNb, x.time);
    } else {
      WindowsAvoidTheBeacons(p, beacon, x.session.value.addr, x.session.value.pingNb.value, x.time);
    }
  }
}
