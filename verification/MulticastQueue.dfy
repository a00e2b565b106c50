/** The network server's multicast queue and what it makes of it
    (simulator/lorawan/network_server.py): the order of the queue, what is due, what a Class B
    group is given in one beacon period, and the frames built from it. Times are milliseconds. */
module MulticastQueue {
  import opened Bytes
  import opened LorawanCrypto
  import opened LorawanFrames
  import opened LorawanLink
  import opened Sorting
  import opened Subsequences

  datatype Entry = Entry(group: nat, fport: byte, payload: seq<byte>, at: Option<int>, sequence: nat)

  /** The sort key (time, sequence); no time at all counts as minus infinity. */
  function EntryKey(e: Entry): SortKey {
    (if e.at.None? then 0 else 1, if e.at.None? then 0 else e.at.value, e.sequence)
  }

  predicate Less(a: Entry, b: Entry) {
    KeyLess(EntryKey(a), EntryKey(b))
  }

  predicate Sorted(q: seq<Entry>) {
    forall i, j :: 0 <= i < j < |q| ==> Less(q[i], q[j])
  }

  predicate Fresh(q: seq<Entry>, sequence: nat) {
    forall e :: e in q ==> e.sequence < sequence
  }

  function Enqueue(q: seq<Entry>, x: Entry): seq<Entry> {
    Insert(EntryKey, q, x)
  }

  function SortQueue(q: seq<Entry>): seq<Entry> {
    Sort(EntryKey, q)
  }

  lemma LessOrder(a: Entry, b: Entry, c: Entry)
    ensures Less(a, b) && Less(b, c) ==> Less(a, c)
    ensures a.sequence != b.sequence ==> Less(a, b) || Less(b, a)
    ensures !(Less(a, b) && Less(b, a))
  {
  }

  lemma EnqueueKeepsSorted(q: seq<Entry>, x: Entry)
    requires Sorted(q) && Fresh(q, x.sequence)
    ensures Sorted(Enqueue(q, x)) && multiset(Enqueue(q, x)) == multiset(q) + multiset{x}
  {
    hide Less, Position, KeyLess, EntryKey;
    var k, r := Position(EntryKey, q, x), Enqueue(q, x);
    InsertAddsOne(EntryKey, q, x);
    forall i, j | 0 <= i < j < |r|
      ensures Less(r[i], r[j])
    {
      if j == k {
        BehindAll(q, x, k, i);
      } else if i == k {
        assert Less(x, q[j - 1]) by { AheadOf(q, x, k, j - 1); }
      }
    }
  }

  lemma BehindAll(q: seq<Entry>, x: Entry, k: nat, i: nat)
    requires Sorted(q) && Fresh(q, x.sequence) && k == Position(EntryKey, q, x) && i < k
    ensures Less(q[i], x)
  {
    hide Less;
    assert !Less(x, q[k - 1]) by { NotBehind(q, x, k); }
    LessOrder(q[k - 1], x, x);
    if i + 1 < k {
      LessOrder(q[i], q[k - 1], x);
    }
  }

  lemma NotBehind(q: seq<Entry>, x: Entry, k: nat)
    requires k == Position(EntryKey, q, x) && k > 0
    ensures !Less(x, q[k - 1])
  {
  }

  lemma AheadOf(q: seq<Entry>, x: Entry, k: nat, i: nat)
    requires k == Position(EntryKey, q, x) && k <= i < |q|
    ensures Less(x, q[i])
  {
  }

  /** Appending to a sorted queue and sorting it is inserting. */
  lemma SortAppended(q: seq<Entry>, x: Entry)
    requires Sorted(q)
    ensures SortQueue(q + [x]) == Enqueue(q, x)
  {
    hide KeyLess, EntryKey;
    forall i, j | 0 <= i < j < |q|
      ensures !KeyLess(EntryKey(q[j]), EntryKey(q[i]))
    {
      assert Less(q[i], q[j]);
      KeyOrder(EntryKey(q[i]), EntryKey(q[j]), EntryKey(q[i]));
    }
    SortOfSorted(EntryKey, q);
    assert (q + [x])[..|q|] == q;
  }

  /** There is only one sorted order, so any sort gives the same queue. */
  lemma {:induction false} SortedIsUnique(a: seq<Entry>, b: seq<Entry>)
    requires Sorted(a) && Sorted(b) && multiset(a) == multiset(b)
    ensures a == b
  {
    hide Less, Sorted;
    assert |a| == |multiset(a)| == |multiset(b)| == |b|;
    if a != [] {
      SmallestFirst(a, b);
      Tail(a);
      Tail(b);
      SortedIsUnique(a[1..], b[1..]);
      assert a == [a[0]] + a[1..] && b == [b[0]] + b[1..];
    }
  }

  lemma SmallestFirst(a: seq<Entry>, b: seq<Entry>)
    requires Sorted(a) && Sorted(b) && multiset(a) == multiset(b) && a != [] && b != []
    ensures a[0] == b[0]
  {
    hide Less;
    assert a[0] in multiset(b) && b[0] in multiset(a);
    var i :| 0 <= i < |b| && b[i] == a[0];
    var j :| 0 <= j < |a| && a[j] == b[0];
    LessOrder(a[0], b[0], a[0]);
  }

  lemma Tail(a: seq<Entry>)
    requires Sorted(a) && a != []
    ensures Sorted(a[1..]) && multiset(a[1..]) == multiset(a) - multiset{a[0]}
  {
    hide Less;
    assert a == [a[0]] + a[1..];
  }

  // ---- What is due ----

  predicate IsDue(e: Entry, classB: set<nat>, now: int) {
    e.group !in classB && (e.at.None? || e.at.value <= now)
  }

  function Due(q: seq<Entry>, classB: set<nat>, now: int): seq<Entry> {
    if q == [] then []
    else
      var before, last := Due(q[..|q| - 1], classB, now), q[|q| - 1];
      if IsDue(last, classB, now) then before + [last] else before
  }

  function Remaining(q: seq<Entry>, classB: set<nat>, now: int): seq<Entry> {
    if q == [] then []
    else
      var before, last := Remaining(q[..|q| - 1], classB, now), q[|q| - 1];
      if IsDue(last, classB, now) then before else before + [last]
  }

  /** The first entry outside the Class B groups says when something is due. */
  function NextDue(q: seq<Entry>, classB: set<nat>, now: int): Option<int> {
    if q == [] then None
    else if q[0].group in classB then NextDue(q[1..], classB, now)
    else Some(if q[0].at.Some? then q[0].at.value else now)
  }

  /** Popping splits the queue: due entries leave, all others stay, both in queue order. */
  lemma {:induction false} PopSplits(q: seq<Entry>, classB: set<nat>, now: int)
    requires Sorted(q)
    ensures Sorted(Due(q, classB, now)) && Sorted(Remaining(q, classB, now))
    ensures multiset(q) == multiset(Due(q, classB, now)) + multiset(Remaining(q, classB, now))
    ensures forall e :: e in Due(q, classB, now) <==> e in q && IsDue(e, classB, now)
    ensures forall e :: e in Remaining(q, classB, now) <==> e in q && !IsDue(e, classB, now)
  {
    hide Less, IsDue, Sorted;
    if q == [] {
      NothingSorted();
    } else {
      var front, last := q[..|q| - 1], q[|q| - 1];
      assert q == front + [last];
      LastIsGreatest(front, last);
      PopSplits(front, classB, now);
      if IsDue(last, classB, now) {
        AppendSorted(Due(front, classB, now), last);
      } else {
        AppendSorted(Remaining(front, classB, now), last);
      }
    }
  }

  lemma NothingSorted()
    ensures Sorted([])
  {
  }

  lemma LastIsGreatest(front: seq<Entry>, last: Entry)
    requires Sorted(front + [last])
    ensures Sorted(front)
    ensures forall e :: e in front ==> Less(e, last)
  {
    hide Less;
    var q := front + [last];
    forall i, j | 0 <= i < j < |front|
      ensures Less(front[i], front[j])
    {
      assert Less(q[i], q[j]);
    }
    forall e | e in front
      ensures Less(e, last)
    {
      var k :| 0 <= k < |front| && front[k] == e;
      assert Less(q[k], q[|front|]);
    }
  }

  lemma AppendSorted(r: seq<Entry>, last: Entry)
    requires Sorted(r) && forall e :: e in r ==> Less(e, last)
    ensures Sorted(r + [last])
  {
    hide Less;
  }

  /** The next due time has come exactly when popping returns something. */
  lemma DueWhenNextIsPast(q: seq<Entry>, classB: set<nat>, now: int)
    requires Sorted(q)
    ensures var next := NextDue(q, classB, now);
            (next.Some? && next.value <= now) <==> Due(q, classB, now) != []
  {
    hide Sorted, Due, NextDue;
    NextIsEarliest(q, classB, now);
    PopSplits(q, classB, now);
    var next, due := NextDue(q, classB, now), Due(q, classB, now);
    if due != [] {
      assert due[0] in q && IsDue(due[0], classB, now);
    }
  }

  lemma {:induction false} NextIsEarliest(q: seq<Entry>, classB: set<nat>, now: int)
    requires Sorted(q)
    ensures var next := NextDue(q, classB, now);
            && (next.None? ==> forall e :: e in q ==> e.group in classB)
            && (next.Some? && next.value <= now ==> exists e :: e in q && IsDue(e, classB, now))
            && (next.Some? && next.value > now ==> forall e :: e in q ==> !IsDue(e, classB, now))
  {
    if q != [] {
      assert forall e :: e in q <==> e == q[0] || e in q[1..];
      if q[0].group in classB {
        NextIsEarliest(q[1..], classB, now);
      } else {
        assert IsDue(q[0], classB, now) <==> NextDue(q, classB, now).value <= now;
        forall e | e in q && q[0].at.Some?
          ensures e.at.Some? && q[0].at.value <= e.at.value
        {
          var k :| 0 <= k < |q| && q[k] == e;
          assert k > 0 ==> Less(q[0], q[k]);
        }
        assert q[0] in q;
      }
    }
  }

  // ---- One group's entries ----

  function OfGroup(q: seq<Entry>, group: nat): seq<Entry> {
    if q == [] then []
    else if q[0].group == group then [q[0]] + OfGroup(q[1..], group)
    else OfGroup(q[1..], group)
  }

  lemma {:induction false} OfGroupConcat(a: seq<Entry>, b: seq<Entry>, group: nat)
    ensures OfGroup(a + b, group) == OfGroup(a, group) + OfGroup(b, group)
    decreases |a|
  {
    if a == [] {
      assert a + b == b;
    } else {
      OfGroupConcat(a[1..], b, group);
      assert (a + b)[1..] == a[1..] + b;
    }
  }

  lemma {:induction false} NoneOfGroup(q: seq<Entry>, group: nat)
    requires forall e :: e in q ==> e.group != group
    ensures OfGroup(q, group) == []
  {
    if q != [] {
      NoneOfGroup(q[1..], group);
    }
  }

  /** Whether an entry may go out in a slot of its group. */
  predicate Fit(e: Entry, group: nat, slot: int) {
    e.group == group && (e.at.None? || e.at.value <= slot)
  }

  /** The first entry that fits is the group's first entry; nobody else's entries move. */
  lemma TakingIsFromTheFront(q: seq<Entry>, i: nat, group: nat, slot: int)
    requires Sorted(q) && i < |q| && Fit(q[i], group, slot)
    requires forall k :: 0 <= k < i ==> !Fit(q[k], group, slot)
    ensures var q' := q[..i] + q[i + 1..];
            && OfGroup(q, group) == [q[i]] + OfGroup(q', group)
            && (forall h :: h != group ==> OfGroup(q', h) == OfGroup(q, h))
            && Sorted(q')
  {
    hide Sorted;
    var q' := q[..i] + q[i + 1..];
    forall e | e in q[..i]
      ensures e.group != group
    {
      var k :| 0 <= k < i && q[k] == e;
      EarlierIsNotLater(q, k, i);
    }
    NoneOfGroup(q[..i], group);
    assert q == q[..i] + ([q[i]] + q[i + 1..]);
    forall h
      ensures OfGroup(q', h) == OfGroup(q[..i], h) + OfGroup(q[i + 1..], h)
      ensures OfGroup(q, h) == OfGroup(q[..i], h) + OfGroup([q[i]] + q[i + 1..], h)
    {
      OfGroupConcat(q[..i], q[i + 1..], h);
      OfGroupConcat(q[..i], [q[i]] + q[i + 1..], h);
    }
    assert ([q[i]] + q[i + 1..])[1..] == q[i + 1..];
    StillSorted(q, i);
  }

  lemma EarlierIsNotLater(q: seq<Entry>, k: nat, i: nat)
    requires Sorted(q) && k < i < |q|
    ensures q[k].at.None? || (q[i].at.Some? && q[k].at.value <= q[i].at.value)
  {
    assert Less(q[k], q[i]);
  }

  lemma StillSorted(q: seq<Entry>, i: nat)
    requires Sorted(q) && i < |q|
    ensures Sorted(q[..i] + q[i + 1..])
  {
    hide Less;
  }

  /** When nothing fits, the group has nothing, or its first entry is for later. */
  lemma {:induction false} NothingFits(q: seq<Entry>, group: nat, slot: int)
    requires forall e :: e in q ==> !Fit(e, group, slot)
    ensures var mine := OfGroup(q, group);
            mine == [] || (mine[0].at.Some? && mine[0].at.value > slot)
  {
    if q != [] {
      assert !Fit(q[0], group, slot);
      if q[0].group != group {
        NothingFits(q[1..], group, slot);
      }
    }
  }

  /** How many of a group's entries one beacon period takes: one per slot, in order, until one
      is not due by its slot. */
  function Served(entries: seq<Entry>, slots: seq<nat>): (n: nat)
    ensures n <= |entries| && n <= |slots|
  {
    if entries == [] || slots == [] || (entries[0].at.Some? && entries[0].at.value > slots[0]) then 0
    else 1 + Served(entries[1..], slots[1..])
  }

  lemma {:induction false} ServedStops(entries: seq<Entry>, slots: seq<nat>, k: nat)
    requires k <= |entries| && k <= |slots|
    requires forall j :: 0 <= j < k ==> entries[j].at.None? || entries[j].at.value <= slots[j]
    ensures k <= Served(entries, slots)
    ensures k == |entries| || k == |slots| || (entries[k].at.Some? && entries[k].at.value > slots[k]) ==>
              Served(entries, slots) == k
  {
    if k > 0 {
      ServedStops(entries[1..], slots[1..], k - 1);
    }
  }

  // ---- Building frames ----

  datatype Group = Group(keys: SessionKeys, fcntDown: nat, maxFcnt: nat, dataRate: int, classB: bool, pingNb: nat)

  /** A group as the server sets it up. */
  function NewRecord(keys: SessionKeys, minFcnt: nat, maxFcnt: nat, dataRate: int): Group {
    Group(keys, minFcnt, maxFcnt, dataRate, false, 16)
  }

  datatype BuildResult = Built(raw: seq<byte>) | TooLarge | AssertionFailed

  /** The largest payload at a data rate, less the bytes FOpts takes. */
  function MaxFrmPayload(dataRate: int, foptsLen: nat): Option<nat> {
    if !(0 <= dataRate < 6) || foptsLen > 15 then None
    else
      var n := if dataRate < 3 then 51 else if dataRate == 3 then 115 else 222;
      Some(if n < foptsLen then 0 else n - foptsLen)
  }

  const NO_FLAGS := FCtrl(false, false, false, false, 0)

  function MulticastMessage(fport: byte, payload: seq<byte>): Message {
    Message(UnconfirmedDown, NO_FLAGS, [], Some(fport), payload)
  }

  predicate TooLong(g: Group, payload: seq<byte>) {
    var limit := MaxFrmPayload(g.dataRate, 0);
    limit.Some? && |payload| > limit.value
  }

  /** `build_multicast_downlink`: the counter moves only when a frame is built. */
  function BuildMulticast(p: Primitives, addr: nat, g: Group, fport: byte, payload: seq<byte>): (Group, BuildResult) {
    if g.fcntDown > MAX_FCNT || g.fcntDown > g.maxFcnt || MaxFrmPayload(g.dataRate, 0).None? then (g, AssertionFailed)
    else if TooLong(g, payload) then (g, TooLarge)
    else (g.(fcntDown := g.fcntDown + 1), Built(Seal(p, g.keys, addr, g.fcntDown, MulticastMessage(fport, payload))))
  }

  /** Any sequence of requests, whichever scheduler makes them. */
  function BuildRun(p: Primitives, addr: nat, g: Group, requests: seq<(byte, seq<byte>)>): (Group, seq<seq<byte>>)
    decreases |requests|
  {
    if requests == [] then (g, [])
    else
      var (g1, r) := BuildMulticast(p, addr, g, requests[0].0, requests[0].1);
      var (g2, raws) := BuildRun(p, addr, g1, requests[1..]);
      (g2, if r.Built? then [r.raw] + raws else raws)
  }

  function BuiltMessages(p: Primitives, addr: nat, g: Group, requests: seq<(byte, seq<byte>)>): (m: seq<Message>)
    ensures |m| <= |requests|
    decreases |requests|
  {
    if requests == [] then []
    else
      var (g1, r) := BuildMulticast(p, addr, g, requests[0].0, requests[0].1);
      var rest := BuiltMessages(p, addr, g1, requests[1..]);
      if r.Built? then [MulticastMessage(requests[0].0, requests[0].1)] + rest else rest
  }

  function Messages(requests: seq<(byte, seq<byte>)>): (m: seq<Message>)
    ensures |m| == |requests|
    ensures forall i :: 0 <= i < |m| ==> m[i] == MulticastMessage(requests[i].0, requests[i].1)
  {
    seq(|requests|, i requires 0 <= i < |requests| => MulticastMessage(requests[i].0, requests[i].1))
  }

  /** Frames leave with consecutive counters, and those built are the requests that fit. */
  lemma {:induction false} BuildRunSeals(p: Primitives, addr: nat, g: Group, requests: seq<(byte, seq<byte>)>)
    ensures var (g', raws) := BuildRun(p, addr, g, requests);
            var messages := BuiltMessages(p, addr, g, requests);
            && raws == SealAll(p, g.keys, addr, g.fcntDown, messages)
            && g' == g.(fcntDown := g.fcntDown + |messages|)
    decreases |requests|
  {
    hide Seal, TooLong;
    if requests != [] {
      var (g1, r) := BuildMulticast(p, addr, g, requests[0].0, requests[0].1);
      BuildRunSeals(p, addr, g1, requests[1..]);
      var rest := BuiltMessages(p, addr, g1, requests[1..]);
      if r.Built? {
        var m := MulticastMessage(requests[0].0, requests[0].1);
        assert SealAll(p, g.keys, addr, g.fcntDown, [m] + rest)
               == [Seal(p, g.keys, addr, g.fcntDown, m)] + SealAll(p, g.keys, addr, g.fcntDown + 1, rest);
      }
    }
  }

  lemma {:induction false} BuiltInOrder(p: Primitives, addr: nat, g: Group, requests: seq<(byte, seq<byte>)>)
    ensures Subsequence(Items(BuiltMessages(p, addr, g, requests)), Items(Messages(requests)))
    decreases |requests|
  {
    hide Seal, Subsequence, BuildMulticast, Item;
    if requests == [] {
      assert Items(BuiltMessages(p, addr, g, requests)) == [];
      EmptyIsSubsequence(Items(Messages(requests)));
    } else {
      var (g1, r) := BuildMulticast(p, addr, g, requests[0].0, requests[0].1);
      BuiltInOrder(p, addr, g1, requests[1..]);
      var m := MulticastMessage(requests[0].0, requests[0].1);
      var rest, later := BuiltMessages(p, addr, g1, requests[1..]), Messages(requests[1..]);
      assert Messages(requests) == [m] + later;
      assert Items([m] + later) == [Item(m)] + Items(later);
      if r.Built? {
        assert Items([m] + rest) == [Item(m)] + Items(rest);
        SubsequenceCons(Item(m), Items(rest), Items(later));
      } else {
        SubsequenceOfMore(Items(rest), [Item(m)], Items(later));
      }
    }
  }

  lemma {:induction false} BuiltAreSendable(p: Primitives, addr: nat, g: Group, requests: seq<(byte, seq<byte>)>)
    requires addr < Pow256(4)
    ensures forall m :: m in BuiltMessages(p, addr, g, requests) ==> Sendable(addr, m) && !IsUplink(m.mtype)
    decreases |requests|
  {
    hide Seal;
    if requests != [] {
      var (g1, r) := BuildMulticast(p, addr, g, requests[0].0, requests[0].1);
      BuiltAreSendable(p, addr, g1, requests[1..]);
    }
  }

  /** Multicast from end to end: the payloads a device hands to its applications are a
      subsequence of the payloads the server was asked to send to the group, whatever the channel
      loses, repeats, reorders or invents without the key. */
  lemma MulticastEndToEnd(p: Primitives, g: Group, requests: seq<(byte, seq<byte>)>, r: Receiver, received: seq<seq<byte>>)
    requires r.addr < Pow256(4) && r.keys == g.keys && !r.uplink && g.fcntDown + |requests| <= 65536
    requires Unforged(p, r, BuildRun(p, r.addr, g, requests).1, received)
    ensures Subsequence(Somes(ItemsOf(ReceiveAll(p, r, received))), Somes(Items(Messages(requests))))
  {
    hide ReceiveAll, Subsequence, Somes, BuildRun, BuiltMessages, Sendable, Unforged;
    var messages := BuiltMessages(p, r.addr, g, requests);
    BuildRunSeals(p, r.addr, g, requests);
    BuiltAreSendable(p, r.addr, g, requests);
    DeliveredIsASubsequence(p, r, g.fcntDown, messages, received);
    BuiltInOrder(p, r.addr, g, requests);
    SomesKeepOrder(Items(messages), Items(Messages(requests)));
    SubsequenceTransitive(Somes(ItemsOf(ReceiveAll(p, r, received))), Somes(Items(messages)), Somes(Items(Messages(requests))));
  }

  lemma {:induction false} BuiltInsideTheWindow(p: Primitives, addr: nat, g: Group, requests: seq<(byte, seq<byte>)>)
    requires g.fcntDown <= g.maxFcnt + 1
    ensures g.fcntDown + |BuiltMessages(p, addr, g, requests)| <= g.maxFcnt + 1
    decreases |requests|
  {
    hide Seal, TooLong;
    if requests != [] {
      BuiltInsideTheWindow(p, addr, BuildMulticast(p, addr, g, requests[0].0, requests[0].1).0, requests[1..]);
    }
  }

  /** The other half: over a channel that keeps every frame in order, a device whose window is the
      server's gets every payload that was built. */
  lemma MulticastAllArrives(p: Primitives, g: Group, requests: seq<(byte, seq<byte>)>, r: Receiver)
    requires r.addr < Pow256(4) && r.keys == g.keys && !r.uplink && g.fcntDown + |requests| <= 65536
    requires r.next <= g.fcntDown && r.min <= g.fcntDown <= g.maxFcnt + 1 && r.max == g.maxFcnt
    ensures ItemsOf(ReceiveAll(p, r, BuildRun(p, r.addr, g, requests).1)) == Items(BuiltMessages(p, r.addr, g, requests))
  {
    hide ReceiveAll, BuildRun, BuiltMessages, Sendable, Items, ItemsOf;
    BuildRunSeals(p, r.addr, g, requests);
    BuiltAreSendable(p, r.addr, g, requests);
    BuiltInsideTheWindow(p, r.addr, g, requests);
    NothingIsLostInOrder(p, r, g.fcntDown, BuiltMessages(p, r.addr, g, requests));
  }

  // ---- One beacon period of one group ----

  datatype Transmission = Transmission(addr: nat, raw: seq<byte>, time: nat)

  datatype Slotted = Slotted(entry: Entry, time: nat)

  /** Entries with their slots, without those that do not fit a frame. Such an entry is dropped
      and its slot goes unused. */
  function Kept(g: Group, entries: seq<Entry>, slots: seq<nat>): (kept: seq<Slotted>)
    requires |entries| <= |slots|
    ensures |kept| <= |entries|
  {
    if entries == [] then []
    else
      var n := |entries| - 1;
      var before := Kept(g, entries[..n], slots);
      if TooLong(g, entries[n].payload) then before else before + [Slotted(entries[n], slots[n])]
  }

  function SlotFrame(p: Primitives, addr: nat, g: Group, x: Slotted, k: nat): Transmission {
    var raw := Seal(p, g.keys, addr, g.fcntDown + k, MulticastMessage(x.entry.fport, x.entry.payload));
    Transmission(addr, raw, x.time)
  }

  /** One frame per slot that is used, with consecutive counters in slot order. */
  function Sent(p: Primitives, addr: nat, g: Group, kept: seq<Slotted>): (sent: seq<Transmission>)
    ensures |sent| == |kept|
    ensures forall k :: 0 <= k < |kept| ==> sent[k] == SlotFrame(p, addr, g, kept[k], k)
  {
    seq(|kept|, k requires 0 <= k < |kept| => SlotFrame(p, addr, g, kept[k], k))
  }

  lemma SentAppend(p: Primitives, addr: nat, g: Group, kept: seq<Slotted>, x: Slotted)
    ensures Sent(p, addr, g, kept + [x]) == Sent(p, addr, g, kept) + [SlotFrame(p, addr, g, x, |kept|)]
  {
    hide SlotFrame;
  }

  function Requests(entries: seq<Entry>): (r: seq<(byte, seq<byte>)>)
    ensures |r| == |entries|
    ensures forall i :: 0 <= i < |r| ==> r[i] == (entries[i].fport, entries[i].payload)
  {
    seq(|entries|, i requires 0 <= i < |entries| => (entries[i].fport, entries[i].payload))
  }

  function Raws(sent: seq<Transmission>): (r: seq<seq<byte>>)
    ensures |r| == |sent|
    ensures forall i :: 0 <= i < |r| ==> r[i] == sent[i].raw
  {
    seq(|sent|, i requires 0 <= i < |sent| => sent[i].raw)
  }

  lemma {:induction false} BuildRunAppend(p: Primitives, addr: nat, g: Group, requests: seq<(byte, seq<byte>)>, last: (byte, seq<byte>))
    ensures var (g1, raws) := BuildRun(p, addr, g, requests);
            var (g2, r) := BuildMulticast(p, addr, g1, last.0, last.1);
            BuildRun(p, addr, g, requests + [last]) == (g2, if r.Built? then raws + [r.raw] else raws)
    decreases |requests|
  {
    hide BuildMulticast;
    if requests == [] {
      assert requests + [last] == [last];
      assert [last][1..] == [];
      var (h, r) := BuildMulticast(p, addr, g, last.0, last.1);
      NothingBuilt(p, addr, g);
      NothingBuilt(p, addr, h);
      if r.Built? {
        assert [] + [r.raw] == [r.raw] + [];
      }
    } else {
      var (h, r) := BuildMulticast(p, addr, g, requests[0].0, requests[0].1);
      BuildRunAppend(p, addr, h, requests[1..], last);
      assert (requests + [last])[1..] == requests[1..] + [last];
      var (g1, raws) := BuildRun(p, addr, h, requests[1..]);
      var (g2, x) := BuildMulticast(p, addr, g1, last.0, last.1);
      if r.Built? && x.Built? {
        assert [r.raw] + (raws + [x.raw]) == ([r.raw] + raws) + [x.raw];
      }
    }
  }

  /** What a beacon period sends for a group is what building its entries one after the other
      gives, so multicast is end to end through the ping slots too. */
  lemma {:induction false} PeriodIsABuildRun(p: Primitives, addr: nat, g: Group, entries: seq<Entry>, slots: seq<nat>)
    requires |entries| <= |slots| && MaxFrmPayload(g.dataRate, 0).Some?
    requires g.fcntDown + |Kept(g, entries, slots)| <= Min(g.maxFcnt, MAX_FCNT) + 1
    ensures BuildRun(p, addr, g, Requests(entries)).1 == Raws(Sent(p, addr, g, Kept(g, entries, slots)))
    ensures BuildRun(p, addr, g, Requests(entries)).0 == g.(fcntDown := g.fcntDown + |Kept(g, entries, slots)|)
    decreases |entries|
  {
    hide Seal, TooLong, MaxFrmPayload, BuildRun, BuildMulticast, Requests, Raws, Sent;
    if entries == [] {
      NothingBuilt(p, addr, g);
      assert Requests(entries) == [] && Raws(Sent(p, addr, g, [])) == [];
    } else {
      var n := |entries| - 1;
      var x := entries[n];
      var before := Kept(g, entries[..n], slots);
      PeriodIsABuildRun(p, addr, g, entries[..n], slots);
      assert Requests(entries) == Requests(entries[..n]) + [(x.fport, x.payload)];
      BuildRunAppend(p, addr, g, Requests(entries[..n]), (x.fport, x.payload));
      BuildLater(p, addr, g, |before|, Slotted(x, slots[n]));
      if !TooLong(g, x.payload) {
        SentAppend(p, addr, g, before, Slotted(x, slots[n]));
        RawsAppend(Sent(p, addr, g, before), SlotFrame(p, addr, g, Slotted(x, slots[n]), |before|));
      }
    }
  }

  lemma NothingBuilt(p: Primitives, addr: nat, g: Group)
    ensures BuildRun(p, addr, g, []) == (g, [])
  {
  }

  lemma RawsAppend(sent: seq<Transmission>, x: Transmission)
    ensures Raws(sent + [x]) == Raws(sent) + [x.raw]
  {
  }

  lemma BuildLater(p: Primitives, addr: nat, g: Group, k: nat, x: Slotted)
    requires MaxFrmPayload(g.dataRate, 0).Some?
    requires TooLong(g, x.entry.payload) || g.fcntDown + k < Min(g.maxFcnt, MAX_FCNT) + 1
    requires g.fcntDown + k <= Min(g.maxFcnt, MAX_FCNT) + 1
    ensures var (h, r) := BuildMulticast(p, addr, g.(fcntDown := g.fcntDown + k), x.entry.fport, x.entry.payload);
            if TooLong(g, x.entry.payload) then
              h == g.(fcntDown := g.fcntDown + k) && !r.Built?
            else
              h == g.(fcntDown := g.fcntDown + (k + 1)) && r == Built(SlotFrame(p, addr, g, x, k).raw)
  {
    hide Seal, MaxFrmPayload;
    SameLimit(g, g.(fcntDown := g.fcntDown + k), x.entry.payload);
  }

  lemma SameLimit(g: Group, h: Group, payload: seq<byte>)
    requires g.dataRate == h.dataRate
    ensures TooLong(g, payload) == TooLong(h, payload)
  {
  }

  /** What a data rate carries: 51 bytes at 0 to 2, 115 at 3, 222 at 4 and 5. A frame is built
      exactly for a payload within that and a counter within the group's window. */
  lemma BuiltExactly(p: Primitives, addr: nat, g: Group, fport: byte, payload: seq<byte>)
    ensures BuildMulticast(p, addr, g, fport, payload).1.Built? <==>
              && g.fcntDown <= 0xFFFF_FFFF && g.fcntDown <= g.maxFcnt && 0 <= g.dataRate <= 5
              && |payload| <= [51, 51, 51, 115, 222, 222][g.dataRate]
  {
    hide Seal;
  }

  lemma LongestPayload(dataRate: int, foptsLen: nat)
    ensures MaxFrmPayload(dataRate, foptsLen).Some? <==> 0 <= dataRate <= 5 && foptsLen <= 15
    ensures 0 <= dataRate <= 5 && foptsLen <= 15 ==>
              MaxFrmPayload(dataRate, foptsLen) == Some([51, 51, 51, 115, 222, 222][dataRate] - foptsLen)
  {
  }
}
