/** The network server object (simulator/lorawan/network_server.py): multicast groups and their
    queue, the Class B schedule, joins and data uplinks, all updated in place. */
module NetworkServer {
  import opened Bytes
  import opened LorawanCrypto
  import opened LorawanFrames
  import opened LorawanLink
  import opened LorawanJoin
  import opened LorawanUplink
  import opened MulticastQueue
  import opened PingSlots
  import opened SlotLoops

  type Groups = map<nat, Group>

  /** A group after k more frames. */
  function Advanced(g: Group, k: nat): Group {
    g.(fcntDown := g.fcntDown + k)
  }

  lemma Unmoved(g: Group)
    ensures Advanced(g, 0) == g
  {
  }

  lemma NothingKept(g: Group, slots: seq<nat>)
    ensures Kept(g, [], slots) == []
  {
  }

  /** The frames of k + 1 entries are those of the first k and one more, unless the last entry
      is too long. */
  lemma KeptNext(p: Primitives, addr: nat, g: Group, mine: seq<Entry>, slots: seq<nat>, k: nat, sent: nat)
    requires k < |mine| && k < |slots| && sent == |Kept(g, mine[..k], slots)|
    ensures var kept := Kept(g, mine[..k], slots);
            var frame := SlotFrame(p, addr, Advanced(g, sent), Slotted(mine[k], slots[k]), 0);
            var late := TooLong(Advanced(g, sent), mine[k].payload);
            && Sent(p, addr, g, Kept(g, mine[..k + 1], slots)) ==
                 (if late then Sent(p, addr, g, kept) else Sent(p, addr, g, kept) + [frame])
            && Advanced(Advanced(g, sent), 1) == Advanced(g, sent + 1)
  {
    hide Seal, MaxFrmPayload, Sent;
    var x := Slotted(mine[k], slots[k]);
    var kept := Kept(g, mine[..k], slots);
    assert mine[..k + 1][..k] == mine[..k];
    SameLimit(g, Advanced(g, sent), mine[k].payload);
    SentAppend(p, addr, g, kept, x);
    assert SlotFrame(p, addr, Advanced(g, sent), x, 0) == SlotFrame(p, addr, g, x, sent);
  }

  /** The group's counter is within its window and 32 bits, and its data rate is known. */
  predicate CanBuild(g: Group) {
    g.fcntDown <= g.maxFcnt && g.fcntDown <= 0xFFFF_FFFF && 0 <= g.dataRate <= 5
  }

  lemma BuildsWhenItCan(p: Primitives, addr: nat, g: Group, fport: byte, payload: seq<byte>)
    ensures BuildMulticast(p, addr, g, fport, payload).1.AssertionFailed? <==> !CanBuild(g)
    ensures !CanBuild(g) ==> BuildMulticast(p, addr, g, fport, payload).0 == g
  {
    hide Seal;
  }

  /** The group can build a frame whenever the period comes to one of its entries. */
  predicate Affords(g: Group, mine: seq<Entry>, slots: seq<nat>) {
    forall j :: 0 <= j < Served(mine, slots) ==> CanBuild(Advanced(g, |Kept(g, mine[..j], slots)|))
  }

  predicate AffordsPeriod(p: Primitives, beacon: nat, addr: nat, g: Group, mine: seq<Entry>)
    requires g.classB ==> AllowedPingNb(g.pingNb)
  {
    g.classB ==> Affords(g, mine, SlotTimes(p, beacon, addr, g.pingNb))
  }

  /** Where the exception leaves a group: entry k is gone, and the frames before it are counted. */
  predicate StoppedAt(g: Group, mine: seq<Entry>, slots: seq<nat>, k: nat, g': Group, mine': seq<Entry>) {
    && k < Served(mine, slots) && g' == Advanced(g, |Kept(g, mine[..k], slots)|) && !CanBuild(g')
    && mine' == mine[k + 1..]
  }

  lemma AffordsUntil(g: Group, mine: seq<Entry>, slots: seq<nat>, k: nat)
    requires k < |mine| && k < |slots| && !CanBuild(Advanced(g, |Kept(g, mine[..k], slots)|))
    requires forall j :: 0 <= j <= k ==> mine[j].at.None? || mine[j].at.value <= slots[j]
    ensures !Affords(g, mine, slots) && k < Served(mine, slots)
  {
    hide Kept, CanBuild;
    ServedStops(mine, slots, k + 1);
  }

  lemma AffordsAll(g: Group, mine: seq<Entry>, slots: seq<nat>, k: nat)
    requires k == Served(mine, slots)
    requires forall j :: 0 <= j < k ==> CanBuild(Advanced(g, |Kept(g, mine[..j], slots)|))
    ensures Affords(g, mine, slots)
  {
    hide Kept, CanBuild;
  }

  function ClassBOf(groups: Groups): set<nat> {
    set g | g in groups.Keys && groups[g].classB
  }

  /** What one beacon period takes from a group's entries. */
  function TakenInPeriod(p: Primitives, beacon: nat, addr: nat, g: Group, mine: seq<Entry>): (n: nat)
    requires g.classB ==> AllowedPingNb(g.pingNb)
    ensures n <= |mine|
    ensures g.classB ==> n <= g.pingNb
  {
    if g.classB then Served(mine, SlotTimes(p, beacon, addr, g.pingNb)) else 0
  }

  function SentInPeriod(p: Primitives, beacon: nat, addr: nat, g: Group, mine: seq<Entry>): seq<Transmission>
    requires g.classB ==> AllowedPingNb(g.pingNb)
  {
    if !g.classB then []
    else Sent(p, addr, g, Kept(g, mine[..TakenInPeriod(p, beacon, addr, g, mine)], SlotTimes(p, beacon, addr, g.pingNb)))
  }

  predicate AllowedGroups(groups: Groups) {
    forall g :: g in groups && groups[g].classB ==> AllowedPingNb(groups[g].pingNb)
  }

  function AllSent(p: Primitives, beacon: nat, q: seq<Entry>, groups: Groups, order: seq<nat>): seq<Transmission>
    requires AllowedGroups(groups) && forall g :: g in order ==> g in groups
  {
    if order == [] then []
    else
      var n := |order| - 1;
      AllSent(p, beacon, q, groups, order[..n]) + SentInPeriod(p, beacon, order[n], groups[order[n]], OfGroup(q, order[n]))
  }

  /** How the period leaves one group: its entries less those taken, its counter moved by the
      frames sent. */
  predicate PeriodDone(p: Primitives, beacon: nat, addr: nat, g: Group, mine: seq<Entry>, g': Group, mine': seq<Entry>)
    requires g.classB ==> AllowedPingNb(g.pingNb)
  {
    && mine' == mine[TakenInPeriod(p, beacon, addr, g, mine)..]
    && g' == Advanced(g, |SentInPeriod(p, beacon, addr, g, mine)|)
  }

  /** Slots that are used, in the order they come. */
  predicate UsesSlots(kept: seq<Slotted>, slots: seq<nat>, n: nat)
    requires n <= |slots|
  {
    && (forall x :: x in kept ==> x.time in slots[..n])
    && (forall i, j :: 0 <= i < j < |kept| ==> kept[i].time < kept[j].time)
  }

  lemma UsesNext(kept: seq<Slotted>, slots: seq<nat>, n: nat, x: Slotted)
    requires n < |slots| && Ascending(slots) && UsesSlots(kept, slots, n) && x.time == slots[n]
    ensures UsesSlots(kept, slots, n + 1) && UsesSlots(kept + [x], slots, n + 1)
  {
    assert slots[..n + 1] == slots[..n] + [slots[n]];
    forall y | y in kept
      ensures y.time < x.time
    {
      var k :| 0 <= k < n && slots[..n][k] == y.time;
      assert slots[k] < slots[n];
    }
    forall i, j | 0 <= i < j < |kept + [x]|
      ensures (kept + [x])[i].time < (kept + [x])[j].time
    {
      assert kept[i] in kept;
    }
  }

  lemma {:induction false} KeptInSlots(g: Group, entries: seq<Entry>, slots: seq<nat>)
    requires |entries| <= |slots| && Ascending(slots)
    ensures UsesSlots(Kept(g, entries, slots), slots, |entries|)
  {
    hide TooLong, Ascending, UsesSlots;
    if entries == [] {
      NoSlotUsed(slots);
    } else {
      var n := |entries| - 1;
      KeptInSlots(g, entries[..n], slots);
      UsesNext(Kept(g, entries[..n], slots), slots, n, Slotted(entries[n], slots[n]));
    }
  }

  lemma NoSlotUsed(slots: seq<nat>)
    ensures UsesSlots([], slots, 0)
  {
  }

  /** Server and device agree: every frame the server puts into a period for a group is assigned,
      in ascending order, a slot that is on the list of the device with that one running session,
      for that session, clear of both beacons. */
  lemma EveryTransmissionHasItsSlot(p: Primitives, beacon: nat, g: Group, mine: seq<Entry>, session: Session,
                                 own: Option<nat>, pingNb: nat, sessions: seq<Session>)
    requires g.classB && AllowedPingNb(g.pingNb) && AllowedPingNb(pingNb)
    requires Opens(session) && session.pingNb == Some(g.pingNb) && session in sessions
    requires forall s :: s in sessions ==> AllowedSession(s)
    requires forall s :: s in sessions && Opens(s) ==> s == session
    ensures var sent := SentInPeriod(p, beacon, session.addr, g, mine);
            && (forall i, j :: 0 <= i < j < |sent| ==> sent[i].time < sent[j].time)
            && (forall x :: x in sent ==>
                  && Slot(x.time, Some(session)) in Collected(p, beacon, own, pingNb, sessions)
                  && beacon * 1000 + BEACON_RESERVED <= x.time
                  && x.time + PING_SLOT_LEN <= beacon * 1000 + BEACON_INTERVAL - BEACON_GUARD)
  {
    hide Collected, SlotTimes, Served, Kept, Start, Ascending, Seal, SentInPeriod, AllowedPingNb, AllowedSession;
    var sent := SentInPeriod(p, beacon, session.addr, g, mine);
    SentInSlots(p, beacon, session.addr, g, mine);
    forall x | x in sent
      ensures Slot(x.time, Some(session)) in Collected(p, beacon, own, pingNb, sessions)
      ensures beacon * 1000 + BEACON_RESERVED <= x.time
      ensures x.time + PING_SLOT_LEN <= beacon * 1000 + BEACON_INTERVAL - BEACON_GUARD
    {
      ServerTimesAreOpened(p, beacon, own, pingNb, sessions, session, x.time);
      WindowsAvoidTheBeacons(p, beacon, session.addr, g.pingNb, x.time);
    }
  }

  lemma SentInSlots(p: Primitives, beacon: nat, addr: nat, g: Group, mine: seq<Entry>)
    requires g.classB && AllowedPingNb(g.pingNb)
    ensures var sent := SentInPeriod(p, beacon, addr, g, mine);
            && (forall i, j :: 0 <= i < j < |sent| ==> sent[i].time < sent[j].time)
            && (forall x :: x in sent ==> x.time in SlotTimes(p, beacon, addr, g.pingNb))
  {
    hide SlotTimes, Served, Kept, Ascending, Sent;
    var slots := SlotTimes(p, beacon, addr, g.pingNb);
    var taken := mine[..TakenInPeriod(p, beacon, addr, g, mine)];
    SlotsAscend(p, beacon, addr, g.pingNb);
    KeptInSlots(g, taken, slots);
    SentUsesSlots(p, addr, g, Kept(g, taken, slots), slots, |taken|);
  }

  lemma SentUsesSlots(p: Primitives, addr: nat, g: Group, kept: seq<Slotted>, slots: seq<nat>, n: nat)
    requires n <= |slots| && UsesSlots(kept, slots, n)
    ensures var sent := Sent(p, addr, g, kept);
            && (forall i, j :: 0 <= i < j < |sent| ==> sent[i].time < sent[j].time)
            && (forall x :: x in sent ==> x.time in slots)
  {
    hide Sent;
    SentTimes(p, addr, g, kept);
    var sent := Sent(p, addr, g, kept);
    forall x | x in sent
      ensures x.time in slots
    {
      var k :| 0 <= k < |sent| && sent[k] == x;
      assert kept[k] in kept;
    }
  }

  lemma SentTimes(p: Primitives, addr: nat, g: Group, kept: seq<Slotted>)
    ensures forall k :: 0 <= k < |kept| ==> Sent(p, addr, g, kept)[k].time == kept[k].time
  {
    hide Seal;
  }

  /** One group's part of the queue and of the table of groups, before and after. */
  predicate DoneFor(p: Primitives, beacon: nat, q: seq<Entry>, groups: Groups, q': seq<Entry>, groups': Groups, addr: nat) {
    && addr in groups && addr in groups' && (groups[addr].classB ==> AllowedPingNb(groups[addr].pingNb))
    && PeriodDone(p, beacon, addr, groups[addr], OfGroup(q, addr), groups'[addr], OfGroup(q', addr))
  }

  predicate Untouched(q: seq<Entry>, groups: Groups, q': seq<Entry>, groups': Groups, addr: nat) {
    && addr in groups && addr in groups' && groups'[addr] == groups[addr]
    && OfGroup(q', addr) == OfGroup(q, addr)
  }

  lemma UntouchedMeans(q: seq<Entry>, groups: Groups, q': seq<Entry>, groups': Groups, addr: nat)
    requires Untouched(q, groups, q', groups', addr)
    ensures addr in groups && addr in groups' && groups'[addr] == groups[addr] && OfGroup(q', addr) == OfGroup(q, addr)
  {
  }

  lemma OthersStay(p: Primitives, beacon: nat, q0: seq<Entry>, groups0: Groups, q1: seq<Entry>, groups1: Groups,
                   q2: seq<Entry>, groups2: Groups, h: nat)
    requires Untouched(q1, groups1, q2, groups2, h)
    ensures DoneFor(p, beacon, q0, groups0, q1, groups1, h) ==> DoneFor(p, beacon, q0, groups0, q2, groups2, h)
    ensures Untouched(q0, groups0, q1, groups1, h) ==> Untouched(q0, groups0, q2, groups2, h)
  {
    hide PeriodDone;
  }

  lemma ThisIsDone(p: Primitives, beacon: nat, q0: seq<Entry>, groups0: Groups, q1: seq<Entry>, groups1: Groups,
                   q2: seq<Entry>, groups2: Groups, addr: nat)
    requires Untouched(q0, groups0, q1, groups1, addr) && DoneFor(p, beacon, q1, groups1, q2, groups2, addr)
    ensures DoneFor(p, beacon, q0, groups0, q2, groups2, addr)
    ensures SentInPeriod(p, beacon, addr, groups1[addr], OfGroup(q1, addr))
            == SentInPeriod(p, beacon, addr, groups0[addr], OfGroup(q0, addr))
  {
    hide PeriodDone;
  }

  lemma OneMoreDone(p: Primitives, beacon: nat, q0: seq<Entry>, groups0: Groups, q1: seq<Entry>, groups1: Groups,
                    q2: seq<Entry>, groups2: Groups, order: seq<nat>, k: nat)
    requires k < |order| && Distinct(order) && forall g :: g in order ==> g in groups1
    requires forall g :: g in order[..k] ==> DoneFor(p, beacon, q0, groups0, q1, groups1, g)
    requires forall g :: g in order[k..] ==> Untouched(q0, groups0, q1, groups1, g)
    requires forall g :: g != order[k] && g in groups1 ==> Untouched(q1, groups1, q2, groups2, g)
    requires DoneFor(p, beacon, q0, groups0, q2, groups2, order[k])
    ensures forall g :: g in order[..k + 1] ==> DoneFor(p, beacon, q0, groups0, q2, groups2, g)
    ensures forall g :: g in order[k + 1..] ==> Untouched(q0, groups0, q2, groups2, g)
  {
    hide DoneFor, Untouched;
    forall g | g in order && g != order[k]
      ensures DoneFor(p, beacon, q0, groups0, q1, groups1, g) ==> DoneFor(p, beacon, q0, groups0, q2, groups2, g)
      ensures Untouched(q0, groups0, q1, groups1, g) ==> Untouched(q0, groups0, q2, groups2, g)
    {
      OthersStay(p, beacon, q0, groups0, q1, groups1, q2, groups2, g);
    }
    assert forall g :: g in order[..k + 1] ==> g in order[..k] || g == order[k];
    assert forall g :: g in order[k + 1..] ==> g in order[k..] && g != order[k];
  }

  class Server {
    const p: Primitives
    const netId: nat
    const defaultDataRate: int
    var queue: seq<Entry>
    var sequence: nat
    var groups: Groups
    // The keys of `groups`, in the order they were inserted.
    var order: seq<nat>
    var devices: Devices
    var otaa: Otaa
    var nextNonce: nat
    var nextAddr: nat

    ghost predicate Valid()
      reads this
    {
      && Sorted(queue) && Fresh(queue, sequence)
      && Distinct(order) && (forall g :: g in order <==> g in groups)
      && AllowedGroups(groups)
    }

    constructor (p: Primitives, netId: nat, defaultDataRate: int)
      ensures Valid() && queue == [] && groups == map[] && devices == map[] && otaa == map[]
      ensures this.p == p && this.netId == netId && this.defaultDataRate == defaultDataRate
      ensures nextNonce == 0 && nextAddr == 0x01000001
    {
      this.p, this.netId, this.defaultDataRate := p, netId, defaultDataRate;
      queue, sequence, groups, order, devices, otaa := [], 0, map[], [], map[], map[];
      nextNonce, nextAddr := 0, 0x01000001;
    }

    /** `create_multicast_group`: refuses a window that is not one. The counter starts at its
        lower end. */
    method CreateMulticastGroup(addr: nat, keys: SessionKeys, minFcnt: nat, maxFcnt: nat, dataRate: Option<int>)
      returns (ok: bool)
      requires Valid()
      modifies this`groups, this`order
      ensures Valid() && (ok <==> minFcnt <= maxFcnt <= MAX_FCNT)
      ensures !ok ==> groups == old(groups)
      ensures ok ==> var dr := if dataRate.Some? then dataRate.value else defaultDataRate;
                     groups == old(groups)[addr := NewRecord(keys, minFcnt, maxFcnt, dr)]
    {
      hide Sorted, Fresh;
      if !(minFcnt <= maxFcnt <= MAX_FCNT) {
        return false;
      }
      if addr !in groups {
        order := order + [addr];
      }
      groups := groups[addr := Group(keys, minFcnt, maxFcnt, if dataRate.Some? then dataRate.value else defaultDataRate, false, 16)];
      return true;
    }

    method EnableMulticastClassB(addr: nat, pingNb: nat)
      requires Valid() && addr in groups && AllowedPingNb(pingNb)
      modifies this`groups
      ensures Valid() && groups == old(groups)[addr := old(groups)[addr].(classB := true, pingNb := pingNb)]
    {
      hide Sorted, Fresh;
      groups := groups[addr := groups[addr].(classB := true, pingNb := pingNb)];
    }

    method DisableMulticastClassB(addr: nat)
      requires Valid() && addr in groups
      modifies this`groups
      ensures Valid() && groups == old(groups)[addr := old(groups)[addr].(classB := false)]
    {
      hide Sorted, Fresh;
      groups := groups[addr := groups[addr].(classB := false)];
    }

    /** `build_multicast_downlink`, encryption, header and MIC in place. */
    method BuildMulticastDownlink(addr: nat, fport: byte, payload: seq<byte>) returns (r: BuildResult)
      requires Valid() && addr in groups
      modifies this`groups
      ensures Valid()
      ensures var (group, result) := BuildMulticast(p, addr, old(groups)[addr], fport, payload);
              groups == old(groups)[addr := group] && r == result
    {
      hide Sorted, Fresh, EncodeMac, EncodeMhdr, DataMic, Crypt, EncodeData;
      var group := groups[addr];
      if group.fcntDown > MAX_FCNT || group.fcntDown > group.maxFcnt {
        return AssertionFailed;
      }
      var limit := MaxFrmPayload(group.dataRate, 0);
      if limit.None? {
        return AssertionFailed;
      }
      if |payload| > limit.value {
        return TooLarge;
      }
      var encrypted := EncryptFrmPayload(p, group.keys.app, addr, group.fcntDown, false, payload);
      var mac := MacPayload(Fhdr(addr, NO_FLAGS, group.fcntDown, []), Some(fport), encrypted);
      var covered := [EncodeMhdr(UnconfirmedDown)] + EncodeMac(mac, false);
      var mic := DataMic(p, group.keys.nwk, addr, group.fcntDown, false, covered);
      var raw := EncodeData(DataFrame(UnconfirmedDown, mac, mic));
      assert raw == Seal(p, group.keys, addr, group.fcntDown, MulticastMessage(fport, payload));
      groups := groups[addr := group.(fcntDown := group.fcntDown + 1)];
      return Built(raw);
    }

    /** `schedule_multicast_downlink`: appended and sorted. */
    method ScheduleMulticastDownlink(addr: nat, fport: byte, payload: seq<byte>, at: Option<int>) returns (ok: bool)
      requires Valid()
      modifies this`queue, this`sequence
      ensures Valid() && (ok <==> addr in groups)
      ensures !ok ==> queue == old(queue)
      ensures ok ==>
        var e := Entry(addr, fport, payload, at, old(sequence));
        multiset(queue) == multiset(old(queue)) + multiset{e} && queue == Enqueue(old(queue), e)
    {
      hide Sorted, Enqueue, SortQueue;
      if addr !in groups {
        return false;
      }
      var e := Entry(addr, fport, payload, at, sequence);
      SortAppended(queue, e);
      EnqueueKeepsSorted(queue, e);
      sequence := sequence + 1;
      ghost var before := queue;
      queue := SortQueue(queue + [e]);
      forall x | x in queue
        ensures x.sequence < sequence
      {
        assert x in multiset(queue);
        assert x in before || x == e;
      }
      return true;
    }

    /** `next_multicast_downlink_time`: tells whether popping now would return something. */
    method NextMulticastDownlinkTime(now: int) returns (next: Option<int>)
      requires Valid()
      ensures next == NextDue(queue, ClassBOf(groups), now)
      ensures (next.Some? && next.value <= now) <==> Due(queue, ClassBOf(groups), now) != []
    {
      hide Sorted, Due;
      DueWhenNextIsPast(queue, ClassBOf(groups), now);
      assert queue[0..] == queue;
      var k := 0;
      while k < |queue|
        invariant 0 <= k <= |queue|
        invariant NextDue(queue, ClassBOf(groups), now) == NextDue(queue[k..], ClassBOf(groups), now)
      {
        var entry := queue[k];
        assert queue[k..][1..] == queue[k + 1..];
        if entry.group in groups && groups[entry.group].classB {
          k := k + 1;
          continue;
        }
        return if entry.at.Some? then entry.at else Some(now);
      }
      return None;
    }

    /** `pop_due_multicast_downlinks`: nothing is lost and nothing twice. */
    method PopDueMulticastDownlinks(now: int) returns (due: seq<Entry>)
      requires Valid()
      modifies this`queue
      ensures Valid() && due == Due(old(queue), ClassBOf(groups), now)
      ensures queue == Remaining(old(queue), ClassBOf(groups), now)
      ensures multiset(old(queue)) == multiset(due) + multiset(queue) && Sorted(due)
    {
      hide Sorted, IsDue;
      PopSplits(queue, ClassBOf(groups), now);
      due := [];
      var remaining: seq<Entry> := [];
      for k := 0 to |queue|
        invariant queue == old(queue)
        invariant due == Due(queue[..k], ClassBOf(groups), now)
        invariant remaining == Remaining(queue[..k], ClassBOf(groups), now)
      {
        var entry := queue[k];
        assert queue[..k + 1][..k] == queue[..k];
        SameTest(groups, entry, now);
        var classB := entry.group in groups && groups[entry.group].classB;
        if !classB && (entry.at.None? || entry.at.value <= now) {
          due := due + [entry];
        } else {
          remaining := remaining + [entry];
        }
      }
      assert queue[..|queue|] == queue;
      queue := remaining;
    }

    lemma SameTest(groups: Groups, e: Entry, now: int)
      ensures IsDue(e, ClassBOf(groups), now) <==>
                !(e.group in groups && groups[e.group].classB) && (e.at.None? || e.at.value <= now)
    {
    }

    /** `_take_multicast_for`: the group's first entry, if it is due by the slot. */
    method TakeMulticastFor(addr: nat, slot: nat) returns (r: Option<Entry>)
      requires Valid()
      modifies this`queue
      ensures Valid()
      ensures var mine := OfGroup(old(queue), addr);
              if mine != [] && (mine[0].at.None? || mine[0].at.value <= slot)
              then r == Some(mine[0]) && OfGroup(queue, addr) == mine[1..]
              else r == None && queue == old(queue)
      ensures forall h :: h != addr ==> OfGroup(queue, h) == OfGroup(old(queue), h)
    {
      hide Sorted, OfGroup;
      for index := 0 to |queue|
        invariant queue == old(queue)
        invariant forall k :: 0 <= k < index ==> !Fit(queue[k], addr, slot)
      {
        var entry := queue[index];
        if entry.group != addr {
          continue;
        }
        if entry.at.Some? && entry.at.value > slot {
          continue;
        }
        TakingIsFromTheFront(queue, index, addr, slot);
        queue := queue[..index] + queue[index + 1..];
        return Some(entry);
      }
      NothingFits(queue, addr, slot);
      return None;
    }

    /** One slot: takes the group's first entry if it is due and builds its frame. An oversized
        entry is dropped. Not ok when the counter has run out. */
    method ServeSlot(addr: nat, slot: nat) returns (taken: Option<Entry>, sent: Option<Transmission>, ok: bool)
      requires Valid() && addr in groups
      modifies this`queue, this`groups
      ensures Valid()
      ensures var mine := OfGroup(old(queue), addr);
              if mine != [] && (mine[0].at.None? || mine[0].at.value <= slot)
              then taken == Some(mine[0]) && OfGroup(queue, addr) == mine[1..]
              else taken == None && queue == old(queue)
      ensures forall h :: h != addr ==> OfGroup(queue, h) == OfGroup(old(queue), h)
      ensures taken.None? ==> groups == old(groups) && sent.None?
      ensures ok <==> taken.None? || CanBuild(old(groups)[addr])
      ensures !ok ==> groups == old(groups)
      ensures taken.Some? && ok ==>
        var g := old(groups)[addr];
        if TooLong(g, taken.value.payload) then sent.None? && groups == old(groups)
        else && sent == Some(SlotFrame(p, addr, g, Slotted(taken.value, slot), 0))
             && groups == old(groups)[addr := Advanced(g, 1)]
    {
      hide Sorted, OfGroup, MaxFrmPayload, Seal, AllowedPingNb, CanBuild;
      ghost var g := groups[addr];
      taken := TakeMulticastFor(addr, slot);
      if taken.None? {
        return None, None, true;
      }
      BuildsWhenItCan(p, addr, g, taken.value.fport, taken.value.payload);
      var r := BuildMulticastDownlink(addr, taken.value.fport, taken.value.payload);
      if r.AssertionFailed? {
        return taken, None, false;
      }
      ok := true;
      sent := if r.Built? then Some(Transmission(addr, r.raw, slot)) else None;
      assert r.TooLarge? ==> groups == old(groups);
    }

    /** One group's part of `_class_b_multicast_schedule`. Not ok when the group's counter has
        run out, which raises out of the whole schedule. */
    method ServeGroup(addr: nat, slots: seq<nat>) returns (sent: seq<Transmission>, ok: bool)
      requires Valid() && addr in groups
      modifies this`queue, this`groups
      ensures Valid() && groups.Keys == old(groups).Keys
      ensures ok <==> Affords(old(groups)[addr], OfGroup(old(queue), addr), slots)
      ensures !ok ==> exists k :: StoppedAt(old(groups)[addr], OfGroup(old(queue), addr), slots, k, groups[addr], OfGroup(queue, addr))
      ensures ok ==>
        var mine, g := OfGroup(old(queue), addr), old(groups)[addr];
        var n := Served(mine, slots);
        && OfGroup(queue, addr) == mine[n..]
        && sent == Sent(p, addr, g, Kept(g, mine[..n], slots))
        && groups == old(groups)[addr := Advanced(g, |sent|)]
      ensures forall h :: h != addr ==> OfGroup(queue, h) == OfGroup(old(queue), h)
    {
      hide Sorted, Fresh, OfGroup, Sent, SlotFrame, TooLong, Served, AllowedPingNb, Advanced, Kept, AllowedGroups, Distinct,
           CanBuild, Affords;
      ghost var mine := OfGroup(queue, addr);
      ghost var g := groups[addr];
      Unmoved(g);
      assert groups == groups[addr := g];
      NothingKept(g, slots);
      assert mine[..0] == [] && mine[0..] == mine;
      sent := [];
      var k := 0;
      while k < |slots|
        invariant 0 <= k <= |slots| && k <= |mine|
        invariant Valid() && OfGroup(queue, addr) == mine[k..]
        invariant forall j :: 0 <= j < k ==> mine[j].at.None? || mine[j].at.value <= slots[j]
        invariant forall j :: 0 <= j < k ==> CanBuild(Advanced(g, |Kept(g, mine[..j], slots)|))
        invariant sent == Sent(p, addr, g, Kept(g, mine[..k], slots))
        invariant groups == old(groups)[addr := Advanced(g, |sent|)]
        invariant forall h :: h != addr ==> OfGroup(queue, h) == OfGroup(old(queue), h)
      {
        ghost var rest := mine[k..];
        assert rest != [] ==> rest[1..] == mine[k + 1..];
        var entry, tx, fine := ServeSlot(addr, slots[k]);
        if !fine {
          AffordsUntil(g, mine, slots, k);
          assert StoppedAt(g, mine, slots, k, groups[addr], OfGroup(queue, addr));
          return sent, false;
        }
        if entry.None? {
          break;
        }
        KeptNext(p, addr, g, mine, slots, k, |sent|);
        if tx.Some? {
          sent := sent + [tx.value];
        }
        k := k + 1;
      }
      ServedStops(mine, slots, k);
      AffordsAll(g, mine, slots, k);
      return sent, true;
    }

    /** One turn of the loop over the groups. */
    method ServePeriod(beacon: nat, addr: nat) returns (sent: seq<Transmission>, ok: bool)
      requires Valid() && addr in groups && (groups[addr].classB ==> AllowedPingNb(groups[addr].pingNb))
      modifies this`queue, this`groups
      ensures Valid() && groups.Keys == old(groups).Keys
      ensures ok <==> AffordsPeriod(p, beacon, addr, old(groups)[addr], OfGroup(old(queue), addr))
      ensures ok ==> sent == SentInPeriod(p, beacon, addr, old(groups)[addr], OfGroup(old(queue), addr))
      ensures ok ==> DoneFor(p, beacon, old(queue), old(groups), queue, groups, addr)
      ensures ok ==> forall h :: h != addr && h in groups ==> Untouched(old(queue), old(groups), queue, groups, h)
    {
      hide Sorted, Fresh, OfGroup, Sent, Kept, Served, SlotTimes, AllowedPingNb, Distinct, AllowedGroups, Affords, StoppedAt;
      if !groups[addr].classB {
        return [], true;
      }
      var slots := ComputePingSlotTimes(p, beacon, addr, groups[addr].pingNb);
      sent, ok := ServeGroup(addr, slots);
    }

    /** `_class_b_multicast_schedule`: every Class B group is given its own slots, each takes a
        prefix of the group's entries, and nothing else moves. */
    method ClassBMulticastSchedule(beacon: nat) returns (sent: seq<Transmission>, ok: bool)
      requires Valid()
      modifies this`queue, this`groups
      ensures Valid() && groups.Keys == old(groups).Keys
      ensures ok <==> forall g :: g in old(groups) ==> AffordsPeriod(p, beacon, g, old(groups)[g], OfGroup(old(queue), g))
      ensures ok ==> sent == AllSent(p, beacon, old(queue), old(groups), order)
      ensures ok ==> forall g :: g in old(groups) ==> DoneFor(p, beacon, old(queue), old(groups), queue, groups, g)
    {
      hide Sorted, Fresh, OfGroup, SentInPeriod, PeriodDone, AllowedPingNb, DoneFor, Untouched, AllSent, AffordsPeriod;
      ghost var q0, groups0 := queue, groups;
      assert AllSent(p, beacon, q0, groups0, []) == [] by { NothingSent(p, beacon, q0, groups0); }
      NothingTouched(queue, groups);
      sent := [];
      for k := 0 to |order|
        invariant Valid() && groups.Keys == groups0.Keys
        invariant sent == AllSent(p, beacon, q0, groups0, order[..k])
        invariant forall g :: g in order[..k] ==> DoneFor(p, beacon, q0, groups0, queue, groups, g)
        invariant forall g :: g in order[k..] ==> Untouched(q0, groups0, queue, groups, g)
        invariant forall g :: g in order[..k] ==> AffordsPeriod(p, beacon, g, groups0[g], OfGroup(q0, g))
      {
        var addr := order[k];
        assert order[..k + 1] == order[..k] + [addr];
        assert addr in order[k..];
        assert addr in groups;
        OneMoreSent(p, beacon, q0, groups0, order[..k], addr);
        ghost var q1, groups1 := queue, groups;
        UntouchedMeans(q0, groups0, q1, groups1, addr);
        var more, fine := ServePeriod(beacon, addr);
        if !fine {
          return sent + more, false;
        }
        ThisIsDone(p, beacon, q0, groups0, q1, groups1, queue, groups, addr);
        OneMoreDone(p, beacon, q0, groups0, q1, groups1, queue, groups, order, k);
        sent := sent + more;
      }
      assert order[..|order|] == order;
      ok := true;
    }

    lemma NothingSent(p: Primitives, beacon: nat, q: seq<Entry>, groups: Groups)
      requires AllowedGroups(groups)
      ensures AllSent(p, beacon, q, groups, []) == []
    {
    }

    lemma OneMoreSent(p: Primitives, beacon: nat, q: seq<Entry>, groups: Groups, order: seq<nat>, addr: nat)
      requires AllowedGroups(groups) && addr in groups && forall g :: g in order ==> g in groups
      ensures AllSent(p, beacon, q, groups, order + [addr]) ==
                AllSent(p, beacon, q, groups, order) + SentInPeriod(p, beacon, addr, groups[addr], OfGroup(q, addr))
    {
      hide SentInPeriod, OfGroup;
      assert (order + [addr])[..|order|] == order;
    }

    lemma NothingTouched(q: seq<Entry>, groups: Groups)
      ensures forall g :: g in groups ==> Untouched(q, groups, q, groups, g)
    {
    }

    // ---- Joins and uplinks ----

    function JoinView(): JoinState
      reads this
    {
      JoinState(otaa, netId, nextNonce, nextAddr)
    }

    method RegisterOtaaDevice(devEui: seq<byte>, appKey: Key)
      modifies this`otaa
      ensures otaa == old(otaa)[devEui := OtaaRecord(appKey, {})]
    {
      otaa := otaa[devEui := OtaaRecord(appKey, {})];
    }

    /** `_handle_join_request` with `process_join_request` in place. */
    method HandleJoinRequest(raw: seq<byte>) returns (r: JoinReply)
      modifies this`otaa, this`nextNonce, this`nextAddr, this`devices
      ensures (JoinView(), r) == HandleJoin(p, old(JoinView()), raw)
      ensures devices == if r.Accept? then old(devices)[r.grant.addr := DeviceRecord(r.grant.keys, 0)] else old(devices)
    {
      hide DecodeJoinRequest, JoinMic, EncodeJoinAccept, EcbInverse, DeriveSessionKeys, Pow256;
      var appNonce := nextNonce;
      nextNonce := nextNonce + 1;
      var addr := nextAddr;
      nextAddr := nextAddr + 1;
      if |raw| != 23 || DecodeMhdr(raw[0]) != Some(JoinRequest) {
        return NoReply;
      }
      var j := DecodeJoinRequest(raw[1..19]);
      if j.devEui !in otaa {
        return NoReply;
      }
      var record := otaa[j.devEui];
      if JoinMic(p, record.appKey, raw[..19]) != raw[19..] {
        return NoReply;
      }
      if j.devNonce in record.usedNonces {
        return NoReply;
      }
      otaa := otaa[j.devEui := record.(usedNonces := record.usedNonces + {j.devNonce})];
      if !(appNonce < Pow256(3) && netId < Pow256(3) && addr < Pow256(4)) {
        return Overflow;
      }
      var body := EncodeJoinAccept(JoinAcceptPayload(appNonce, netId, addr, 0x00, 1, []));
      AcceptLength(JoinAcceptPayload(appNonce, netId, addr, 0x00, 1, []));
      var mic := JoinMic(p, record.appKey, [EncodeMhdr(JoinAccept)] + body);
      var accept := [EncodeMhdr(JoinAccept)] + EcbInverse(p, record.appKey, body + mic);
      var keys := DeriveSessionKeys(p, record.appKey, appNonce, netId, j.devNonce);
      devices := devices[addr := DeviceRecord(keys, 0)];
      return Accept(Grant(j.devEui, j.devNonce, addr, appNonce, keys), accept);
    }

    /** `_handle_data_uplink` up to what the application or the MAC layer is given. */
    method HandleDataUplink(raw: seq<byte>) returns (r: Option<(nat, Accepted)>)
      modifies this`devices
      ensures (devices, r) == HandleData(p, old(devices), raw)
    {
      hide DecodeData, DataMic, Crypt;
      var frame := DecodeData(raw);
      if frame.None? {
        return None;
      }
      var f := frame.value;
      var h := f.mac.fhdr;
      if h.addr !in devices {
        return None;
      }
      var d := devices[h.addr];
      if DataMic(p, d.keys.nwk, h.addr, h.fcnt, true, raw[..|raw| - 4]) != f.mic {
        return None;
      }
      if h.fcnt < d.fcntUp {
        return None;
      }
      devices := devices[h.addr := d.(fcntUp := h.fcnt + 1)];
      var key := if f.mac.fport == Some(0) then d.keys.nwk else d.keys.app;
      var plaintext := Crypt(p, key, h.addr, h.fcnt, true, f.mac.frmPayload);
      return Some((h.addr, Accepted(h.fcnt, Message(f.mtype, h.fctrl, h.fopts, f.mac.fport, plaintext))));
    }
  }
}
