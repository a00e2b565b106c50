/** The receive chains of a LoRa radio (simulator/lora/radio.py), with the detailed capture effect
    switched off: which packets survive when transmissions overlap. Received power and the
    sensitivity of a configuration are arbitrary inputs. */
module RxChain {
  import opened Bytes

  datatype Bandwidth = KHz125 | KHz250 | KHz500

  function Hertz(b: Bandwidth): (h: real)
    ensures h > 0.0
  {
    match b
    case KHz125 => 125000.0
    case KHz250 => 250000.0
    case KHz500 => 500000.0
  }

  datatype SpreadingFactor = SF6 | SF7 | SF8 | SF9 | SF10 | SF11 | SF12

  function MinimumSnr(sf: SpreadingFactor): real {
    match sf
    case SF6 => -5.0
    case SF7 => -7.5
    case SF8 => -10.0
    case SF9 => -12.5
    case SF10 => -15.0
    case SF11 => -17.5
    case SF12 => -20.0
  }

  datatype Config = Config(
    bandwidth: Bandwidth, sf: SpreadingFactor, codeRate: nat, preambleLen: nat, payloadLen: nat,
    fixedPayloadLen: bool, crcEnabled: bool, iqInverted: bool, frequency: nat)

  function ChannelEdges(c: Config): (real, real) {
    var half := Hertz(c.bandwidth) / 2.0;
    (c.frequency as real - half, c.frequency as real + half)
  }

  predicate Overlaps(a: Config, b: Config) {
    ChannelEdges(a).0 < ChannelEdges(b).1 && ChannelEdges(b).0 < ChannelEdges(a).1
  }

  predicate SameChannel(a: Config, b: Config) {
    a.frequency == b.frequency && a.bandwidth == b.bandwidth
  }

  datatype Packet = Packet(id: nat, config: Config, payloadLen: nat, snr: real, rssi: real)

  datatype RadioState = Off | Standby | Rx | Tx

  /** What is known of a packet in transit on one chain. */
  datatype Meta = Meta(packet: Packet, collision: bool, missedStart: bool, interrupted: bool, demodulateFailure: bool)

  datatype Chain = Chain(config: Config, enabled: bool, inTransit: map<nat, Meta>)

  /** Whether a chain is tuned to exactly the packet's channel and modulation. */
  predicate Matches(c: Config, p: Packet) {
    && SameChannel(c, p.config)
    && p.config.codeRate == c.codeRate && p.config.sf == c.sf && p.config.crcEnabled == c.crcEnabled
    && p.config.fixedPayloadLen == c.fixedPayloadLen && p.config.preambleLen == c.preambleLen
    && p.config.iqInverted == c.iqInverted
    && (c.fixedPayloadLen ==> p.payloadLen == c.payloadLen)
  }

  predicate CanReceive(state: RadioState, c: Config, p: Packet) {
    state == Rx && Matches(c, p)
  }

  /** Which of two packets that overlap in time survive. */
  function CaptureEffect(first: Packet, second: Packet): (bool, bool) {
    if !Overlaps(first.config, second.config) then (true, true)
    else
      var delta := first.snr - second.snr;
      if first.config.sf == second.config.sf then
        if delta > 6.0 then (true, false) else (false, false)
      else if delta > MinimumSnr(first.config.sf) then (true, false)
      else (false, false)
  }

  /** Two packets that overlap in spectrum never both survive. */
  lemma OneOfTwoIsLost(first: Packet, second: Packet)
    ensures CaptureEffect(first, second) == (true, true) <==> !Overlaps(first.config, second.config)
  {
  }

  predicate Clean(m: Meta) {
    !m.collision && !m.missedStart && !m.interrupted && !m.demodulateFailure
  }

  function Interrupted(c: Chain): Chain {
    c.(inTransit := map id | id in c.inTransit.Keys :: c.inTransit[id].(interrupted := true))
  }

  function Marked(m: Meta, p: Packet): Meta {
    if CaptureEffect(m.packet, p).0 then m else m.(collision := true)
  }

  predicate Lost(inTransit: map<nat, Meta>, p: Packet) {
    exists id :: id in inTransit.Keys && !CaptureEffect(inTransit[id].packet, p).1
  }

  predicate Hears(c: Chain, p: Packet) {
    c.enabled && Overlaps(c.config, p.config)
  }

  /** `_on_receive_start` on one chain. */
  function Arrive(c: Chain, state: RadioState, p: Packet, sensitivity: Config -> real): Chain {
    if !Hears(c, p) then c
    else
      var marked := map id | id in c.inTransit.Keys :: Marked(c.inTransit[id], p);
      var mine := Meta(p, Lost(c.inTransit, p), !CanReceive(state, c.config, p), false, p.rssi < sensitivity(c.config));
      c.(inTransit := marked[p.id := mine])
  }

  /** `_on_receive_end` after the first k chains: the chains, the radio's state and the chain
      that delivered the packet, if one has. */
  datatype Ending = Ending(chains: seq<Chain>, state: RadioState, taker: Option<nat>)

  function EndOne(e: Ending, continuous: bool, id: nat, k: nat): (r: Ending)
    requires k < |e.chains|
    ensures |r.chains| == |e.chains|
  {
    var c := e.chains[k];
    if id !in c.inTransit then e
    else
      var meta := c.inTransit[id];
      var rest := e.chains[k := c.(inTransit := c.inTransit - {id})];
      if Clean(meta) && CanReceive(e.state, c.config, meta.packet) && e.taker.None? then
        Ending(rest, if e.state == Rx && !continuous then Off else e.state, Some(k))
      else Ending(rest, e.state, e.taker)
  }

  function EndUpTo(chains: seq<Chain>, state: RadioState, continuous: bool, id: nat, k: nat): (e: Ending)
    requires k <= |chains|
    ensures |e.chains| == |chains|
  {
    if k == 0 then Ending(chains, state, None)
    else EndOne(EndUpTo(chains, state, continuous, id, k - 1), continuous, id, k - 1)
  }

  /** Whatever a chain may still deliver is on the channel and modulation it is tuned to. */
  predicate Tuned(c: Chain) {
    forall id :: id in c.inTransit.Keys && Clean(c.inTransit[id]) ==> Matches(c.config, c.inTransit[id].packet)
  }

  predicate AllTuned(chains: seq<Chain>) {
    forall k :: 0 <= k < |chains| ==> Tuned(chains[k])
  }

  /** Nothing in transit on a chain can be delivered any more. */
  predicate NothingAlive(c: Chain) {
    forall id :: id in c.inTransit.Keys ==> !Clean(c.inTransit[id])
  }

  lemma ArriveStaysTuned(c: Chain, state: RadioState, p: Packet, sensitivity: Config -> real)
    requires Tuned(c)
    ensures Tuned(Arrive(c, state, p, sensitivity))
  {
    hide CaptureEffect, Overlaps, Matches;
  }

  lemma {:induction false} EndStaysTuned(chains: seq<Chain>, state: RadioState, continuous: bool, id: nat, k: nat)
    requires AllTuned(chains) && k <= |chains|
    ensures AllTuned(EndUpTo(chains, state, continuous, id, k).chains)
  {
    hide Clean, Matches;
    if k > 0 {
      EndStaysTuned(chains, state, continuous, id, k - 1);
    }
  }

  /** A chain that has the packet whole. */
  predicate Takes(c: Chain, state: RadioState, id: nat) {
    id in c.inTransit && Clean(c.inTransit[id]) && CanReceive(state, c.config, c.inTransit[id].packet)
  }

  /** The packet leaves every chain; the first one that has it whole delivers it, and a radio that
      does not receive continuously turns off then. */
  lemma {:induction false} EndIs(chains: seq<Chain>, state: RadioState, continuous: bool, id: nat, k: nat)
    requires k <= |chains|
    ensures var e := EndUpTo(chains, state, continuous, id, k);
            && (forall j :: 0 <= j < k ==> e.chains[j] == chains[j].(inTransit := chains[j].inTransit - {id}))
            && (forall j :: k <= j < |chains| ==> e.chains[j] == chains[j])
            && (e.taker.Some? <==> exists j :: 0 <= j < k && Takes(chains[j], state, id))
            && (e.taker.Some? ==> e.taker.value < k && Takes(chains[e.taker.value], state, id)
                                  && forall j :: 0 <= j < e.taker.value ==> !Takes(chains[j], state, id))
            && e.state == (if e.taker.Some? && !continuous then Off else state)
  {
    hide Clean, Matches;
    if k > 0 {
      EndIs(chains, state, continuous, id, k - 1);
      var c := chains[k - 1];
      if id !in c.inTransit {
        assert c.inTransit - {id} == c.inTransit;
      }
    }
  }

  class Radio {
    var state: RadioState
    var continuous: bool
    var chains: seq<Chain>
    const maxChains: nat

    constructor (maxChains: nat, config: Config)
      requires maxChains >= 1
      ensures state == Off && chains == [Chain(config, true, map[])] && this.maxChains == maxChains
    {
      state, continuous, chains := Off, true, [Chain(config, true, map[])];
      this.maxChains := maxChains;
    }

    /** Every packet already in transit on an enabled chain that overlaps is compared with the
        new one. */
    method OnReceiveStart(p: Packet, sensitivity: Config -> real)
      modifies this`chains
      ensures |chains| == |old(chains)|
      ensures forall k :: 0 <= k < |chains| ==> chains[k] == Arrive(old(chains)[k], state, p, sensitivity)
      ensures old(AllTuned(chains)) ==> AllTuned(chains)
    {
      hide CaptureEffect, CanReceive, Overlaps, Tuned;
      for k := 0 to |chains|
        invariant |chains| == |old(chains)|
        invariant forall j :: 0 <= j < k ==> chains[j] == Arrive(old(chains)[j], state, p, sensitivity)
        invariant forall j :: k <= j < |chains| ==> chains[j] == old(chains)[j]
      {
        var chain := chains[k];
        if !chain.enabled || !Overlaps(chain.config, p.config) {
          continue;
        }
        var missedStart := !CanReceive(state, chain.config, p);
        var demodulateFailure := p.rssi < sensitivity(chain.config);
        var inTransit, foundCollision := MarkCollisions(chain.inTransit, p);
        inTransit := inTransit[p.id := Meta(p, foundCollision, missedStart, false, demodulateFailure)];
        chains := chains[k := chain.(inTransit := inTransit)];
      }
      forall k | 0 <= k < |chains| && old(AllTuned(chains))
        ensures Tuned(chains[k])
      {
        ArriveStaysTuned(old(chains)[k], state, p, sensitivity);
      }
    }

    /** The inner loop; the order of the packets does not matter. */
    method MarkCollisions(before: map<nat, Meta>, p: Packet) returns (inTransit: map<nat, Meta>, foundCollision: bool)
      ensures inTransit == (map id | id in before.Keys :: Marked(before[id], p))
      ensures foundCollision <==> Lost(before, p)
    {
      hide CaptureEffect;
      inTransit := before;
      foundCollision := false;
      var todo := before.Keys;
      while todo != {}
        invariant todo <= before.Keys == inTransit.Keys
        invariant forall id :: id in before.Keys ==> inTransit[id] == if id in todo then before[id] else Marked(before[id], p)
        invariant foundCollision <==> exists id :: id in before.Keys - todo && !CaptureEffect(before[id].packet, p).1
        decreases |todo|
      {
        var id :| id in todo;
        var (fst, snd) := CaptureEffect(before[id].packet, p);
        ghost var seen := before.Keys - todo;
        if !fst {
          inTransit := inTransit[id := inTransit[id].(collision := true)];
        }
        if !snd {
          foundCollision := true;
        }
        todo := todo - {id};
        assert before.Keys - todo == seen + {id};
      }
    }

    /** The packet leaves every chain; the first chain that has it whole delivers it. */
    method OnReceiveEnd(id: nat) returns (taker: Option<nat>)
      modifies this`chains, this`state
      ensures Ending(chains, state, taker) == EndUpTo(old(chains), old(state), continuous, id, |old(chains)|)
      ensures forall k :: 0 <= k < |chains| ==> chains[k] == old(chains)[k].(inTransit := old(chains)[k].inTransit - {id})
      ensures taker.Some? <==> exists k :: 0 <= k < |old(chains)| && Takes(old(chains)[k], old(state), id)
      ensures taker.Some? ==> taker.value < |old(chains)| && Takes(old(chains)[taker.value], old(state), id)
                              && forall k :: 0 <= k < taker.value ==> !Takes(old(chains)[k], old(state), id)
      ensures state == if taker.Some? && !continuous then Off else old(state)
      ensures old(AllTuned(chains)) ==> AllTuned(chains)
    {
      hide CanReceive, Clean, AllTuned;
      if AllTuned(chains) {
        EndStaysTuned(chains, state, continuous, id, |chains|);
      }
      EndIs(chains, state, continuous, id, |chains|);
      taker := None;
      for k := 0 to |chains|
        invariant |chains| == |old(chains)|
        invariant Ending(chains, state, taker) == EndUpTo(old(chains), old(state), continuous, id, k)
      {
        var chain := chains[k];
        if id !in chain.inTransit {
          continue;
        }
        var meta := chain.inTransit[id];
        chains := chains[k := chain.(inTransit := chain.inTransit - {id})];
        var missedEnd := !CanReceive(state, chain.config, meta.packet);
        if Clean(meta) && !missedEnd && taker.None? {
          taker := Some(k);
          if state == Rx && !continuous {
            state := Off;
          }
        }
      }
    }

    /** `_set_chain_config`, and a client radio's `set_channel`: nothing that was in transit on the
        chain can be delivered any more, so the chain stays tuned to all it may deliver; the other
        chains do not notice. */
    method SetChainConfig(k: nat, config: Config)
      requires k < |chains|
      modifies this`chains
      ensures |chains| == |old(chains)| && chains[k].config == config && chains[k].enabled == old(chains)[k].enabled
      ensures NothingAlive(chains[k]) && chains[k].inTransit.Keys == old(chains)[k].inTransit.Keys
      ensures forall j :: 0 <= j < |chains| && j != k ==> chains[j] == old(chains)[j]
      ensures chains[k] == Interrupted(old(chains)[k]).(config := config)
      ensures old(AllTuned(chains)) ==> AllTuned(chains)
    {
      chains := chains[k := Interrupted(chains[k]).(config := config)];
    }

    /** A chain that is switched off delivers nothing it had in transit, and hears nothing new. */
    method EnableRxChain(k: nat, enabled: bool)
      requires k < |chains|
      modifies this`chains
      ensures |chains| == |old(chains)| && chains[k].config == old(chains)[k].config
      ensures !enabled ==> NothingAlive(chains[k]) && forall p :: !Hears(chains[k], p)
      ensures forall j :: 0 <= j < |chains| && j != k ==> chains[j] == old(chains)[j]
      ensures chains[k] == (if enabled then old(chains)[k] else Interrupted(old(chains)[k])).(enabled := enabled)
      ensures old(AllTuned(chains)) ==> AllTuned(chains)
    {
      var chain := chains[k].(enabled := enabled);
      chains := chains[k := if enabled then chain else Interrupted(chain)];
    }

    method AddRxChain(config: Config) returns (ok: bool)
      modifies this`chains
      ensures ok <==> |old(chains)| < maxChains
      ensures chains == if ok then old(chains) + [Chain(config, true, map[])] else old(chains)
      ensures old(AllTuned(chains)) ==> AllTuned(chains)
    {
      if |chains| >= maxChains {
        return false;
      }
      chains := chains + [Chain(config, true, map[])];
      return true;
    }

    /** Going to TX interrupts what is being received. */
    method BeginTransmit() returns (ok: bool)
      modifies this`chains, this`state
      ensures ok <==> old(state) != Tx
      ensures state == Tx && |chains| == |old(chains)|
      ensures forall k :: 0 <= k < |chains| ==> chains[k] == if old(state) == Rx then Interrupted(old(chains)[k]) else old(chains)[k]
      ensures ok && old(state) == Rx ==> forall k :: 0 <= k < |chains| ==> NothingAlive(chains[k])
      ensures old(AllTuned(chains)) ==> AllTuned(chains)
    {
      if state == Tx {
        return false;
      }
      if state == Rx {
        for k := 0 to |chains|
          invariant |chains| == |old(chains)| && state == old(state)
          invariant forall j :: 0 <= j < |chains| ==> chains[j] == if j < k then Interrupted(old(chains)[j]) else old(chains)[j]
        {
          chains := chains[k := Interrupted(chains[k])];
        }
      }
      state := Tx;
      return true;
    }
  }

  // ---- Runs ----

  datatype Event =
    | Start(packet: Packet)
    | EndOn(chain: nat, id: nat)
    | Configure(chain: nat, config: Config)
    | Enable(chain: nat, enabled: bool)
    | AddChain(config: Config)
    | Transmit
    | SetState(state: RadioState, continuous: bool)

  /** The radio, and what an observer notes: ids used, pairs that were in transit together on a
      chain, and packets that a chain delivered. */
  datatype Trace = Trace(
    state: RadioState, continuous: bool, chains: seq<Chain>,
    started: set<nat>, together: set<(nat, nat, nat)>, delivered: set<(nat, nat)>)

  function NewPairs(chains: seq<Chain>, p: Packet): set<(nat, nat, nat)> {
    set k, id | 0 <= k < |chains| && Hears(chains[k], p) && id in chains[k].inTransit.Keys :: (k, id, p.id)
  }

  /** Packet ids are unique. A packet ends on one chain after the other, and other things may happen
      in between, for the radio waits a tick when it has delivered one. A chain plan is a series of
      AddChain, Configure and Enable. */
  function Step(t: Trace, e: Event, sensitivity: Config -> real): Trace {
    match e
    case Start(p) =>
      if p.id in t.started then t
      else
        t.(chains := seq(|t.chains|, k requires 0 <= k < |t.chains| => Arrive(t.chains[k], t.state, p, sensitivity)),
           started := t.started + {p.id}, together := t.together + NewPairs(t.chains, p))
    case EndOn(k, id) =>
      if k < |t.chains| then
        var taken := exists j :: 0 <= j < |t.chains| && (j, id) in t.delivered;
        var end := EndOne(Ending(t.chains, t.state, if taken then Some(0) else None), t.continuous, id, k);
        t.(chains := end.chains, state := end.state,
           delivered := if !taken && end.taker.Some? then t.delivered + {(k, id)} else t.delivered)
      else t
    case Configure(k, config) =>
      if k < |t.chains| then t.(chains := t.chains[k := Interrupted(t.chains[k]).(config := config)]) else t
    case Enable(k, enabled) =>
      if k < |t.chains| then
        t.(chains := t.chains[k := (if enabled then t.chains[k] else Interrupted(t.chains[k])).(enabled := enabled)])
      else t
    case AddChain(config) => t.(chains := t.chains + [Chain(config, true, map[])])
    case Transmit =>
      t.(state := Tx,
         chains := if t.state == Rx then seq(|t.chains|, k requires 0 <= k < |t.chains| => Interrupted(t.chains[k])) else t.chains)
    case SetState(state, continuous) => t.(state := state, continuous := continuous)
  }

  function Run(t: Trace, events: seq<Event>, sensitivity: Config -> real): Trace
    decreases |events|
  {
    if events == [] then t else Run(Step(t, events[0], sensitivity), events[1..], sensitivity)
  }

  /** A chain whose unspoilt packets are all on the channel it is tuned to. */
  predicate ChainInv(c: Chain, started: set<nat>) {
    forall id :: id in c.inTransit.Keys ==>
      && c.inTransit[id].packet.id == id && id in started
      && (Clean(c.inTransit[id]) ==> Matches(c.config, c.inTransit[id].packet))
  }

  /** A packet that a chain delivered, or still may. */
  predicate Alive(t: Trace, k: nat, id: nat) {
    || (k, id) in t.delivered
    || (k < |t.chains| && id in t.chains[k].inTransit && Clean(t.chains[k].inTransit[id]))
  }

  predicate Gone(t: Trace, k: nat, id: nat) {
    id in t.started && (k < |t.chains| ==> id !in t.chains[k].inTransit)
  }

  predicate Inv(t: Trace) {
    && (forall k :: 0 <= k < |t.chains| ==> ChainInv(t.chains[k], t.started))
    && (forall x :: x in t.delivered ==> Gone(t, x.0, x.1))
    && (forall x :: x in t.together ==>
          x.1 in t.started && x.2 in t.started && x.1 != x.2 && !(Alive(t, x.0, x.1) && Alive(t, x.0, x.2)))
  }

  /** Nothing comes alive by this step. */
  ghost predicate NoneRevived(t: Trace, t': Trace) {
    && t'.started == t.started && t'.together == t.together
    && (forall k: nat, id {:trigger Alive(t', k, id)} :: Alive(t', k, id) ==> Alive(t, k, id))
  }

  lemma QuietStep(t: Trace, t': Trace)
    requires Inv(t) && NoneRevived(t, t')
    requires forall k :: 0 <= k < |t'.chains| ==> ChainInv(t'.chains[k], t'.started)
    requires forall x :: x in t'.delivered ==> Gone(t', x.0, x.1)
    ensures Inv(t')
  {
    hide ChainInv, Gone, Alive;
    forall x | x in t'.together
      ensures !(Alive(t', x.0, x.1) && Alive(t', x.0, x.2))
    {
      assert x in t.together;
    }
  }

  lemma InterruptedIsDead(c: Chain, config: Config, started: set<nat>)
    requires ChainInv(c, started)
    ensures var c' := Interrupted(c).(config := config);
            ChainInv(c', started) && forall id :: id in c'.inTransit.Keys ==> !Clean(c'.inTransit[id])
    ensures ChainInv(Interrupted(c), started)
    ensures forall id :: id in Interrupted(c).inTransit.Keys ==> !Clean(Interrupted(c).inTransit[id])
  {
  }

  /** The heart of it: on a chain that hears the new packet, an unspoilt earlier packet and an
      unspoilt new one would be on the chain's own channel, so they overlap and one is marked. */
  lemma NewcomerOrEarlier(c: Chain, state: RadioState, p: Packet, sensitivity: Config -> real, started: set<nat>, id: nat)
    requires ChainInv(c, started) && p.id !in started && Hears(c, p) && id in c.inTransit.Keys
    ensures var c' := Arrive(c, state, p, sensitivity);
            id in c'.inTransit && p.id in c'.inTransit && !(Clean(c'.inTransit[id]) && Clean(c'.inTransit[p.id]))
  {
    hide CaptureEffect;
    var m := c.inTransit[id];
    OneOfTwoIsLost(m.packet, p);
    if Clean(m) && Matches(c.config, p) {
      SameChannelOverlaps(m.packet.config, p.config);
    }
  }

  lemma SameChannelOverlaps(a: Config, b: Config)
    requires SameChannel(a, b)
    ensures Overlaps(a, b)
  {
  }

  lemma ArriveKeepsChain(c: Chain, state: RadioState, p: Packet, sensitivity: Config -> real, started: set<nat>)
    requires ChainInv(c, started) && p.id !in started
    ensures var c' := Arrive(c, state, p, sensitivity);
            && ChainInv(c', started + {p.id})
            && (forall id :: id in c'.inTransit.Keys && id != p.id && Clean(c'.inTransit[id]) ==>
                  id in c.inTransit && Clean(c.inTransit[id]))
            && (p.id in c'.inTransit.Keys ==> Hears(c, p))
            && c'.inTransit.Keys <= c.inTransit.Keys + {p.id}
  {
    hide CaptureEffect, Overlaps, Matches;
  }

  lemma StartKeepsInv(t: Trace, p: Packet, sensitivity: Config -> real)
    requires Inv(t) && p.id !in t.started
    ensures Inv(Step(t, Start(p), sensitivity))
  {
    hide ChainInv, Arrive, Clean, Hears;
    var t' := Step(t, Start(p), sensitivity);
    forall k | 0 <= k < |t.chains|
      ensures ChainInv(t'.chains[k], t'.started)
    {
      ArriveKeepsChain(t.chains[k], t.state, p, sensitivity, t.started);
    }
    forall x | x in t'.delivered
      ensures Gone(t', x.0, x.1)
    {
      assert Gone(t, x.0, x.1);
      if x.0 < |t.chains| {
        ArriveKeepsChain(t.chains[x.0], t.state, p, sensitivity, t.started);
      }
    }
    forall x | x in t'.together
      ensures x.1 in t'.started && x.2 in t'.started && x.1 != x.2 && !(Alive(t', x.0, x.1) && Alive(t', x.0, x.2))
    {
      if x in t.together {
        OldPair(t, p, sensitivity, x.0, x.1);
        OldPair(t, p, sensitivity, x.0, x.2);
      } else {
        NewPair(t, p, sensitivity, x);
      }
    }
  }

  lemma OldPair(t: Trace, p: Packet, sensitivity: Config -> real, k: nat, id: nat)
    requires Inv(t) && p.id !in t.started && id in t.started
    ensures Alive(Step(t, Start(p), sensitivity), k, id) ==> Alive(t, k, id)
  {
    hide ChainInv, Arrive, Clean;
    if k < |t.chains| {
      ArriveKeepsChain(t.chains[k], t.state, p, sensitivity, t.started);
    }
  }

  lemma NewPair(t: Trace, p: Packet, sensitivity: Config -> real, x: (nat, nat, nat))
    requires Inv(t) && p.id !in t.started && x in NewPairs(t.chains, p)
    ensures var t' := Step(t, Start(p), sensitivity);
            x.1 in t.started && x.2 == p.id && !(Alive(t', x.0, x.1) && Alive(t', x.0, x.2))
  {
    hide Arrive, Clean, Hears, Matches;
    var (k, id) := (x.0, x.1);
    var t' := Step(t, Start(p), sensitivity);
    assert ChainInv(t.chains[k], t.started);
    NewcomerOrEarlier(t.chains[k], t.state, p, sensitivity, t.started, id);
    assert (k, p.id) in t.delivered ==> Gone(t, k, p.id);
    assert (k, id) in t.delivered ==> Gone(t, k, id);
  }

  lemma ConfigureKeepsInv(t: Trace, k: nat, config: Config, sensitivity: Config -> real)
    requires Inv(t) && k < |t.chains|
    ensures Inv(Step(t, Configure(k, config), sensitivity))
  {
    hide ChainInv, Clean, Interrupted;
    var t' := Step(t, Configure(k, config), sensitivity);
    InterruptedIsDead(t.chains[k], config, t.started);
    InterruptedKeeps(t.chains[k]);
    GoneStays(t, t');
    QuietStep(t, t');
  }

  lemma InterruptedKeeps(c: Chain)
    ensures Interrupted(c).inTransit.Keys == c.inTransit.Keys
  {
  }

  lemma GoneStays(t: Trace, t': Trace)
    requires t'.started == t.started && |t'.chains| == |t.chains|
    requires forall k :: 0 <= k < |t.chains| ==> t'.chains[k].inTransit.Keys <= t.chains[k].inTransit.Keys
    ensures forall k: nat, id: nat :: Gone(t, k, id) ==> Gone(t', k, id)
  {
  }

  lemma EnableKeepsInv(t: Trace, k: nat, enabled: bool, sensitivity: Config -> real)
    requires Inv(t) && k < |t.chains|
    ensures Inv(Step(t, Enable(k, enabled), sensitivity))
  {
    hide Clean, Interrupted;
    var t' := Step(t, Enable(k, enabled), sensitivity);
    InterruptedIsDead(t.chains[k], t.chains[k].config, t.started);
    InterruptedKeeps(t.chains[k]);
    GoneStays(t, t');
    QuietStep(t, t');
  }

  lemma TransmitKeepsInv(t: Trace, sensitivity: Config -> real)
    requires Inv(t)
    ensures Inv(Step(t, Transmit, sensitivity))
  {
    hide ChainInv, Clean, Interrupted;
    var t' := Step(t, Transmit, sensitivity);
    forall k | 0 <= k < |t.chains|
      ensures ChainInv(t'.chains[k], t'.started)
      ensures t'.chains[k].inTransit.Keys == t.chains[k].inTransit.Keys
      ensures forall id: nat :: Alive(t', k, id) ==> Alive(t, k, id)
    {
      InterruptedIsDead(t.chains[k], t.chains[k].config, t.started);
      InterruptedKeeps(t.chains[k]);
    }
    GoneStays(t, t');
    QuietStep(t, t');
  }

  lemma AddChainKeepsInv(t: Trace, config: Config, sensitivity: Config -> real)
    requires Inv(t)
    ensures Inv(Step(t, AddChain(config), sensitivity))
  {
    hide Clean;
    var t' := Step(t, AddChain(config), sensitivity);
    assert forall k :: 0 <= k < |t.chains| ==> t'.chains[k] == t.chains[k];
    QuietStep(t, t');
  }

  lemma EndKeepsInv(t: Trace, k: nat, id: nat, sensitivity: Config -> real)
    requires Inv(t) && k < |t.chains|
    ensures Inv(Step(t, EndOn(k, id), sensitivity))
  {
    hide Clean, Matches;
    var t' := Step(t, EndOn(k, id), sensitivity);
    forall j | 0 <= j < |t.chains|
      ensures t'.chains[j] == if j == k then t.chains[k].(inTransit := t.chains[k].inTransit - {id}) else t.chains[j]
    {
      if id !in t.chains[k].inTransit {
        assert t.chains[k].inTransit - {id} == t.chains[k].inTransit;
      }
    }
    GoneStays(t, t');
    QuietStep(t, t');
  }

  lemma StepKeepsInv(t: Trace, e: Event, sensitivity: Config -> real)
    requires Inv(t)
    ensures Inv(Step(t, e, sensitivity))
  {
    hide ChainInv, Arrive, Interrupted, EndOne;
    match e
    case Start(p) =>
      if p.id !in t.started {
        StartKeepsInv(t, p, sensitivity);
      }
    case EndOn(k, id) =>
      if k < |t.chains| {
        EndKeepsInv(t, k, id, sensitivity);
      }
    case Configure(k, config) =>
      if k < |t.chains| {
        ConfigureKeepsInv(t, k, config, sensitivity);
      }
    case Enable(k, enabled) =>
      if k < |t.chains| {
        EnableKeepsInv(t, k, enabled, sensitivity);
      }
    case AddChain(config) => AddChainKeepsInv(t, config, sensitivity);
    case Transmit => TransmitKeepsInv(t, sensitivity);
    case SetState(state, continuous) =>
  }

  lemma {:induction false} RunKeepsInv(t: Trace, events: seq<Event>, sensitivity: Config -> real)
    requires Inv(t)
    ensures Inv(Run(t, events, sensitivity))
    decreases |events|
  {
    hide Inv, Step;
    if events != [] {
      StepKeepsInv(t, events[0], sensitivity);
      RunKeepsInv(Step(t, events[0], sensitivity), events[1..], sensitivity);
    }
  }

  function Fresh(state: RadioState, continuous: bool, configs: seq<Config>): Trace {
    Trace(state, continuous, seq(|configs|, k requires 0 <= k < |configs| => Chain(configs[k], true, map[])), {}, {}, {})
  }

  /** Over every sequence of starts, ends, retunes, chain switches and state changes: no two
      packets that one chain delivered were ever in transit on it together. */
  lemma DeliveredNeverOverlapped(state: RadioState, continuous: bool, configs: seq<Config>, events: seq<Event>,
                                 sensitivity: Config -> real, k: nat, a: nat, b: nat)
    ensures var t := Run(Fresh(state, continuous, configs), events, sensitivity);
            (k, a, b) in t.together ==> !((k, a) in t.delivered && (k, b) in t.delivered)
  {
    hide Run;
    assert Inv(Fresh(state, continuous, configs));
    RunKeepsInv(Fresh(state, continuous, configs), events, sensitivity);
    var t := Run(Fresh(state, continuous, configs), events, sensitivity);
    if (k, a, b) in t.together {
      assert !(Alive(t, k, a) && Alive(t, k, b));
    }
  }

  /** The observer misses nothing: packets that are in transit on a chain are noted as a pair. */
  predicate AllNoted(t: Trace) {
    && (forall k :: 0 <= k < |t.chains| ==> forall a :: a in t.chains[k].inTransit ==> a in t.started)
    && (forall k, a, b :: 0 <= k < |t.chains| && a in t.chains[k].inTransit && b in t.chains[k].inTransit && a != b ==>
          (k, a, b) in t.together || (k, b, a) in t.together)
  }

  lemma StepNotesAll(t: Trace, e: Event, sensitivity: Config -> real)
    requires AllNoted(t)
    ensures AllNoted(Step(t, e, sensitivity))
  {
    hide CaptureEffect, Overlaps, CanReceive, Marked, Lost, Clean;
    var t' := Step(t, e, sensitivity);
    forall k, a, b | 0 <= k < |t'.chains| && a in t'.chains[k].inTransit && b in t'.chains[k].inTransit && a != b
      ensures (k, a, b) in t'.together || (k, b, a) in t'.together
    {
      if e.Start? && e.packet.id !in t.started {
        var p := e.packet;
        if a == p.id {
          assert (k, b, p.id) in NewPairs(t.chains, p);
        } else if b == p.id {
          assert (k, a, p.id) in NewPairs(t.chains, p);
        }
      }
    }
  }

  lemma {:induction false} RunNotesAll(t: Trace, events: seq<Event>, sensitivity: Config -> real)
    requires AllNoted(t)
    ensures AllNoted(Run(t, events, sensitivity))
    decreases |events|
  {
    hide AllNoted, Step;
    if events != [] {
      StepNotesAll(t, events[0], sensitivity);
      RunNotesAll(Step(t, events[0], sensitivity), events[1..], sensitivity);
    }
  }

  lemma {:induction false} PairsStay(t: Trace, events: seq<Event>, sensitivity: Config -> real)
    ensures t.together <= Run(t, events, sensitivity).together
    decreases |events|
  {
    hide NewPairs, EndOne, Arrive;
    if events != [] {
      PairsStay(Step(t, events[0], sensitivity), events[1..], sensitivity);
    }
  }

  /** The same without the observer: two packets seen in transit on one chain at some moment are
      never both delivered by it, whatever happens afterwards. */
  lemma OverlapLosesOne(state: RadioState, continuous: bool, configs: seq<Config>, before: seq<Event>, after: seq<Event>,
                        sensitivity: Config -> real, k: nat, a: nat, b: nat)
    ensures var now := Run(Fresh(state, continuous, configs), before, sensitivity);
            var later := Run(now, after, sensitivity);
            k < |now.chains| && a in now.chains[k].inTransit && b in now.chains[k].inTransit && a != b ==>
              !((k, a) in later.delivered && (k, b) in later.delivered)
  {
    hide Run, Inv, AllNoted;
    var start := Fresh(state, continuous, configs);
    assert Inv(start) && AllNoted(start) by { StartsWell(state, continuous, configs); }
    var now := Run(start, before, sensitivity);
    RunKeepsInv(start, before, sensitivity);
    RunNotesAll(start, before, sensitivity);
    RunKeepsInv(now, after, sensitivity);
    PairsStay(now, after, sensitivity);
    if k < |now.chains| && a in now.chains[k].inTransit && b in now.chains[k].inTransit && a != b {
      PairIsSafe(now, Run(now, after, sensitivity), k, a, b);
    }
  }

  lemma StartsWell(state: RadioState, continuous: bool, configs: seq<Config>)
    ensures Inv(Fresh(state, continuous, configs)) && AllNoted(Fresh(state, continuous, configs))
  {
  }

  lemma PairIsSafe(now: Trace, later: Trace, k: nat, a: nat, b: nat)
    requires AllNoted(now) && Inv(later) && now.together <= later.together
    requires k < |now.chains| && a in now.chains[k].inTransit && b in now.chains[k].inTransit && a != b
    ensures !((k, a) in later.delivered && (k, b) in later.delivered)
  {
    assert (k, a, b) in later.together || (k, b, a) in later.together;
    assert !(Alive(later, k, a) && Alive(later, k, b));
  }

  /** A packet alone on a radio is delivered exactly when the chain it meets is tuned to it, the
      radio listens and the signal is strong enough. */
  lemma LonePacket(c: Chain, state: RadioState, continuous: bool, p: Packet, sensitivity: Config -> real)
    requires c.inTransit == map[]
    ensures EndUpTo([Arrive(c, state, p, sensitivity)], state, continuous, p.id, 1).taker.Some? <==>
              c.enabled && state == Rx && Matches(c.config, p) && p.rssi >= sensitivity(c.config)
  {
    hide CaptureEffect;
    var chains := [Arrive(c, state, p, sensitivity)];
    assert EndUpTo(chains, state, continuous, p.id, 0) == Ending(chains, state, None);
    if Matches(c.config, p) {
      SameChannelOverlaps(c.config, p.config);
    }
  }

  // ---- Who survives an overlap ----

  function BandwidthHertz(b: Bandwidth): nat {
    match b
    case KHz125 => 125_000
    case KHz250 => 250_000
    case KHz500 => 500_000
  }

  /** The channels leave each other alone: their centres are at least half of both widths apart. */
  predicate Disjoint(a: Config, b: Config) {
    var apart := if a.frequency > b.frequency then a.frequency - b.frequency else b.frequency - a.frequency;
    2 * apart >= BandwidthHertz(a.bandwidth) + BandwidthHertz(b.bandwidth)
  }

  lemma OverlapsExactly(a: Config, b: Config)
    ensures Overlaps(a, b) <==> !Disjoint(a, b)
  {
  }

  /** A chain is tuned to a packet when every parameter agrees; the length counts only in a fixed
      length mode, and then it is the packet's. */
  lemma MatchesExactly(c: Config, p: Packet)
    ensures Matches(c, p) <==>
              p.config.(payloadLen := c.payloadLen) == c && (c.fixedPayloadLen ==> p.payloadLen == c.payloadLen)
  {
  }

  function SfNumber(sf: SpreadingFactor): nat {
    match sf
    case SF6 => 6
    case SF7 => 7
    case SF8 => 8
    case SF9 => 9
    case SF10 => 10
    case SF11 => 11
    case SF12 => 12
  }

  /** The earlier packet can still be read: more than 6 dB above a newcomer of its own SF, and more
      than what its SF needs against noise above one of another. That is -7.5 dB at SF7 and 2.5 dB
      less for each step up. */
  predicate StaysAhead(p: Packet, q: Packet) {
    p.snr - q.snr > if SfNumber(p.config.sf) == SfNumber(q.config.sf) then 6.0 else 10.0 - 2.5 * SfNumber(p.config.sf) as real
  }

  predicate Survives(p: Packet, q: Packet) {
    Disjoint(p.config, q.config) || StaysAhead(p, q)
  }

  lemma CaptureIs(first: Packet, second: Packet)
    ensures CaptureEffect(first, second).0 <==> Survives(first, second)
    ensures CaptureEffect(first, second).1 <==> Disjoint(first.config, second.config)
  {
    OverlapsExactly(first.config, second.config);
  }

  /** Other packets come, with ids of their own, and go. */
  predicate OthersComeAndGo(id: nat, started: set<nat>, events: seq<Event>)
    decreases |events|
  {
    events == [] ||
    (match events[0]
     case Start(q) => q.id !in started && OthersComeAndGo(id, started + {q.id}, events[1..])
     case EndOn(j, other) => other != id && OthersComeAndGo(id, started, events[1..])
     case _ => false)
  }

  /** A packet in transit on a listening chain that is tuned to it. */
  predicate Under(t: Trace, k: nat, p: Packet) {
    && t.state == Rx && t.continuous && p.id in t.started && (forall x :: x in t.delivered ==> x.1 != p.id)
    && k < |t.chains| && t.chains[k].enabled && Matches(t.chains[k].config, p)
    && p.id in t.chains[k].inTransit && t.chains[k].inTransit[p.id].packet == p
  }

  lemma OneMoreEvent(t: Trace, k: nat, p: Packet, e: Event, sensitivity: Config -> real)
    requires Under(t, k, p)
    requires match e { case Start(q) => q.id !in t.started case EndOn(j, other) => other != p.id case _ => false }
    ensures var t' := Step(t, e, sensitivity);
            && Under(t', k, p) && t'.chains[k].config == t.chains[k].config
            && (Clean(t'.chains[k].inTransit[p.id]) <==>
                  Clean(t.chains[k].inTransit[p.id]) && (e.Start? ==> Survives(p, e.packet)))
            && t'.started == (if e.Start? then t.started + {e.packet.id} else t.started)
  {
    hide CaptureEffect, Overlaps, Matches, Survives;
    if e.Start? {
      CaptureIs(p, e.packet);
      SameBand(t.chains[k].config, p, e.packet);
    }
  }

  lemma SameBand(c: Config, p: Packet, q: Packet)
    requires Matches(c, p)
    ensures Overlaps(c, q.config) <==> Overlaps(p.config, q.config)
    ensures !Overlaps(p.config, q.config) ==> Survives(p, q)
  {
    OverlapsExactly(p.config, q.config);
  }

  lemma {:induction false} ComeAndGo(t: Trace, k: nat, p: Packet, events: seq<Event>, sensitivity: Config -> real)
    requires Under(t, k, p) && OthersComeAndGo(p.id, t.started, events)
    ensures var t' := Run(t, events, sensitivity);
            && Under(t', k, p)
            && (Clean(t'.chains[k].inTransit[p.id]) <==>
                  Clean(t.chains[k].inTransit[p.id]) && forall e :: e in events && e.Start? ==> Survives(p, e.packet))
    decreases |events|
  {
    hide Step, Under, Clean, Survives;
    UnderMeans(t, k, p);
    if events != [] {
      OneMoreEvent(t, k, p, events[0], sensitivity);
      ComeAndGo(Step(t, events[0], sensitivity), k, p, events[1..], sensitivity);
      UnderMeans(Run(t, events, sensitivity), k, p);
      assert forall e :: e in events <==> e == events[0] || e in events[1..];
    }
  }

  lemma UnderMeans(t: Trace, k: nat, p: Packet)
    requires Under(t, k, p)
    ensures k < |t.chains| && p.id in t.chains[k].inTransit
  {
  }

  /** What a packet meets when it starts: it is unspoilt when nothing in transit shares its band. */
  lemma StartsUnder(t: Trace, k: nat, p: Packet, sensitivity: Config -> real)
    requires Inv(t) && k < |t.chains| && t.state == Rx && t.continuous && p.id !in t.started
    requires t.chains[k].enabled && Matches(t.chains[k].config, p)
    ensures var t' := Step(t, Start(p), sensitivity);
            && Under(t', k, p) && t'.started == t.started + {p.id}
            && (Clean(t'.chains[k].inTransit[p.id]) <==>
                  && p.rssi >= sensitivity(t.chains[k].config)
                  && forall id :: id in t.chains[k].inTransit ==> Disjoint(t.chains[k].inTransit[id].packet.config, p.config))
  {
    hide CaptureEffect, Overlaps, Matches, Disjoint, Survives, ChainInv;
    var c := t.chains[k];
    MatchesOverlaps(c.config, p);
    forall id | id in c.inTransit.Keys
      ensures CaptureEffect(c.inTransit[id].packet, p).1 <==> Disjoint(c.inTransit[id].packet.config, p.config)
    {
      CaptureIs(c.inTransit[id].packet, p);
    }
    assert forall x :: x in t.delivered ==> Gone(t, x.0, x.1);
  }

  lemma MatchesOverlaps(c: Config, p: Packet)
    requires Matches(c, p)
    ensures Overlaps(c, p.config)
  {
    SameChannelOverlaps(c, p.config);
  }

  lemma EndsUnder(t: Trace, k: nat, p: Packet, sensitivity: Config -> real)
    requires Under(t, k, p)
    ensures (k, p.id) in Step(t, EndOn(k, p.id), sensitivity).delivered <==> Clean(t.chains[k].inTransit[p.id])
  {
    hide Matches;
  }

  /** Which of several packets that overlap is delivered by a listening chain that is tuned to it:
      one that is strong enough, that started while nothing shared its band, and that stays ahead of
      every packet that started in its band before it ended. */
  lemma CapturedExactly(t: Trace, k: nat, p: Packet, others: seq<Event>, sensitivity: Config -> real)
    requires Inv(t) && k < |t.chains| && t.state == Rx && t.continuous && p.id !in t.started
    requires t.chains[k].enabled && Matches(t.chains[k].config, p)
    requires OthersComeAndGo(p.id, t.started + {p.id}, others)
    ensures (k, p.id) in Step(Run(Step(t, Start(p), sensitivity), others, sensitivity), EndOn(k, p.id), sensitivity).delivered <==>
              && p.rssi >= sensitivity(t.chains[k].config)
              && (forall id :: id in t.chains[k].inTransit ==> Disjoint(t.chains[k].inTransit[id].packet.config, p.config))
              && (forall e :: e in others && e.Start? ==> Survives(p, e.packet))
  {
    hide Step, Under, Clean, Survives, Inv, Matches, Disjoint;
    StartsUnder(t, k, p, sensitivity);
    var t1 := Step(t, Start(p), sensitivity);
    ComeAndGo(t1, k, p, others, sensitivity);
    var t2 := Run(t1, others, sensitivity);
    UnderMeans(t1, k, p);
    UnderMeans(t2, k, p);
    EndsUnder(t2, k, p, sensitivity);
  }

  /** A packet that starts while another one is in transit in its band is never delivered, however
      strong it is. */
  lemma NewcomerIsLost(t: Trace, k: nat, p: Packet, others: seq<Event>, sensitivity: Config -> real, id: nat)
    requires Inv(t) && k < |t.chains| && t.state == Rx && t.continuous && p.id !in t.started
    requires t.chains[k].enabled && Matches(t.chains[k].config, p)
    requires OthersComeAndGo(p.id, t.started + {p.id}, others)
    requires id in t.chains[k].inTransit && !Disjoint(t.chains[k].inTransit[id].packet.config, p.config)
    ensures (k, p.id) !in Step(Run(Step(t, Start(p), sensitivity), others, sensitivity), EndOn(k, p.id), sensitivity).delivered
  {
    hide Step, Run, Inv, Matches, Disjoint;
    CapturedExactly(t, k, p, others, sensitivity);
  }

  // ---- Retunes, chain switches and states ----

  /** A packet that a chain has missed or spoilt never comes back. */
  lemma StepRevivesNone(t: Trace, e: Event, sensitivity: Config -> real, k: nat, id: nat)
    requires Inv(t) && id in t.started
    ensures Alive(Step(t, e, sensitivity), k, id) ==> Alive(t, k, id)
    ensures t.started <= Step(t, e, sensitivity).started
  {
    hide CaptureEffect, Overlaps, Matches, ChainInv, Arrive;
    match e
    case Start(p) =>
      if p.id !in t.started {
        OldPair(t, p, sensitivity, k, id);
      }
    case _ =>
  }

  lemma {:induction false} RunRevivesNone(t: Trace, events: seq<Event>, sensitivity: Config -> real, k: nat, id: nat)
    requires Inv(t) && id in t.started
    ensures Alive(Run(t, events, sensitivity), k, id) ==> Alive(t, k, id)
    decreases |events|
  {
    hide Inv, Step, Alive;
    if events != [] {
      StepRevivesNone(t, events[0], sensitivity, k, id);
      StepKeepsInv(t, events[0], sensitivity);
      RunRevivesNone(Step(t, events[0], sensitivity), events[1..], sensitivity, k, id);
    }
  }

  /** What makes a chain let go of all it has in transit. */
  predicate LetsGo(t: Trace, k: nat, e: Event) {
    || (e.Configure? && e.chain == k) || (e.Enable? && e.chain == k && !e.enabled) || (e.Transmit? && t.state == Rx)
  }

  /** Nothing that is in transit on a chain when it is retuned or switched off, or when the radio
      transmits, is ever delivered by it, whatever happens afterwards. */
  lemma LetGoIsLost(t: Trace, k: nat, e: Event, later: seq<Event>, sensitivity: Config -> real, id: nat)
    requires Inv(t) && k < |t.chains| && id in t.chains[k].inTransit && LetsGo(t, k, e)
    ensures (k, id) !in Run(Step(t, e, sensitivity), later, sensitivity).delivered
  {
    hide Run, Matches;
    var t' := Step(t, e, sensitivity);
    assert ChainInv(t.chains[k], t.started);
    assert (k, id) in t.delivered ==> Gone(t, k, id);
    assert !Alive(t', k, id);
    StepKeepsInv(t, e, sensitivity);
    RunRevivesNone(t', later, sensitivity, k, id);
  }

  /** What a chain that hears nothing else makes of a packet is decided by the last setting of its
      configuration, its switch and the radio's state, whatever they were before. */
  lemma SettingsDecide(t: Trace, k: nat, config: Config, enabled: bool, state: RadioState, p: Packet, sensitivity: Config -> real)
    requires Inv(t) && k < |t.chains| && t.chains[k].inTransit == map[] && p.id !in t.started
    ensures var ready := Step(Step(Step(t, Configure(k, config), sensitivity), Enable(k, enabled), sensitivity),
                              SetState(state, true), sensitivity);
            (k, p.id) in Step(Step(ready, Start(p), sensitivity), EndOn(k, p.id), sensitivity).delivered <==>
              enabled && state == Rx && Matches(config, p) && p.rssi >= sensitivity(config)
  {
    hide CaptureEffect, Overlaps, Matches, ChainInv;
    if Matches(config, p) {
      MatchesOverlaps(config, p);
    }
    assert forall x :: x in t.delivered ==> Gone(t, x.0, x.1);
  }
}
