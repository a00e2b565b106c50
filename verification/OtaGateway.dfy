/** The gateway side of the update, one class for its three variants (gateway_base.py, unicast_only/gateway.py,
    broadcast_unicast/gateway.py and broadcast_only/gateway.py). The field `links` is the
    world outside: every node and what is in the air. Between any two actions of the gateway
    `Drift` lets that world take any steps. */
module OtaGateway {
  import opened Bytes
  import opened OtaFrames
  import opened OtaNode
  import opened OtaLink
  import opened OtaStages
  import opened OtaExchange
  import opened OtaServing
  import opened OtaLossFree
  import opened OtaCalm

  lemma PieceAsks(img: Image, kind: Kind, which: Which, i: nat)
    requires img.Valid() && i < Total(img, which) && (which.Binary? ==> kind.Unicast?)
    ensures Asks(kind, Piece(img, which, i), AckWanted(which))
  {
  }

  class Gateway {
    const img: Image
    const variant: Variant
    const nodes: seq<nat>
    const maxAttempts: nat
    const maxRestarts: nat
    const rounds: nat
    const maxRepairRounds: nat
    // An air that loses nothing, with nodes that answer before the gateway stops waiting.
    const calm: bool
    var links: map<nat, Link>
    var results: map<nat, NodeResult>

    ghost predicate Valid()
      reads this
    {
      && img.Valid()
      && AllSafe(img, KindOf(variant), links)
      && Truthful(img, links, results)
      && (forall a :: a in results.Keys ==> a in links.Keys)
    }

    /** Every node can be updated at the first attempt. */
    predicate Sure() {
      calm && Suffices(variant, maxAttempts, maxRepairRounds)
    }

    function Bounds(clean: bool): Limits {
      Limits(variant, maxAttempts, maxRepairRounds, clean && Sure())
    }

    /** Nothing stands between the gateway and an answer of this node. */
    ghost predicate Calm(address: nat)
      reads this
    {
      Sure() && address in links.Keys && Hushed(links[address])
    }

    /** A gateway with its nodes, which have booted with the versions given; nothing is in the
        air and nothing is known about anybody. */
    constructor (img: Image, variant: Variant, nodes: seq<nat>, versions: map<nat, byte>,
                 maxAttempts: nat, maxRestarts: nat, rounds: nat, maxRepairRounds: nat, calm: bool)
      requires img.Valid() && Distinct(nodes) && forall a :: a in nodes ==> a in versions.Keys
      ensures Valid() && results == map[] && AllQuiet(links, nodes)
      ensures this.img == img && this.variant == variant && this.nodes == nodes
      ensures this.maxAttempts == maxAttempts && this.maxRepairRounds == maxRepairRounds
      ensures this.rounds == rounds && this.calm == calm
      ensures forall a :: a in nodes ==> a in links.Keys && links[a] == Booted(KindOf(variant), versions[a])
    {
      this.img, this.variant, this.nodes := img, variant, nodes;
      this.maxAttempts, this.maxRestarts, this.rounds, this.maxRepairRounds := maxAttempts, maxRestarts, rounds, maxRepairRounds;
      this.calm := calm;
      links := map a | a in nodes :: Booted(KindOf(variant), versions[a]);
      results := map[];
      new;
      hide SafeLink, Booted;
      forall a | a in nodes
        ensures SafeLink(img, links[a]) && Quiet(links[a]) && links[a].node.kind == KindOf(variant)
      {
        BootedIsSafe(img, KindOf(variant), versions[a]);
        BootedAs(KindOf(variant), versions[a]);
      }
    }

    /** What the world does while the gateway transmits, sleeps or waits. */
    method Drift()
      requires img.Valid()
      modifies this`links
      ensures Drifted(img, old(links), links)
      ensures calm ==> forall a :: a in links.Keys ==> links[a] == Drain(img, old(links)[a])
    {
      ghost var before := links;
      if calm {
        links := map a | a in links.Keys :: Drain(img, links[a]);
        forall a | a in links.Keys
          ensures Evolves(img, false, before[a], links[a])
        {
          DrainEvolves(img, before[a]);
        }
        return;
      }
      DriftedReflexive(img, links);
      var steps: nat := *;
      while steps > 0
        invariant Drifted(img, before, links)
      {
        var a: nat := *;
        var e: Event := *;
        if a in links.Keys && !e.Hear? {
          DriftedStep(img, before, links, a, e);
          links := links[a := Step(img, links[a], e)];
        }
        steps := steps - 1;
      }
    }

    /** Sends one unicast frame; it reaches the air as bytes. */
    method Transmit(address: nat, m: GatewayMessage) returns (ghost mid: Link)
      requires img.Valid() && AllSafe(img, KindOf(variant), links)
      requires address in links.Keys && Honest(img, KindOf(variant), m)
      modifies this`links
      ensures AllSafe(img, KindOf(variant), links)
      ensures Serving(img, address, false, old(links), links)
      ensures Evolves(img, false, old(links)[address], mid) && links[address] == Sent(mid, m)
      ensures SafeLink(img, mid) && (calm ==> mid == Drain(img, old(links)[address]))
    {
      ghost var before := links;
      Drift();
      DriftedSafe(img, KindOf(variant), before, links);
      mid := links[address];
      SentIsSafe(img, mid, m);
      ServingUpdate(img, KindOf(variant), address, before, links, Sent(mid, m));
      HonestFits(img, KindOf(variant), m);
      GatewayRoundTrip(m);
      var payload := EncodeGateway(m).value;
      links := links[address := Sent(links[address], DecodeGateway(payload).value)];
    }

    /** `receive_data_within`: the next frame of the node, or a timeout. */
    method Receive(address: nat) returns (packet: Option<NodeMessage>, ghost mid: Link)
      requires img.Valid() && AllSafe(img, KindOf(variant), links)
      requires address in links.Keys
      modifies this`links
      ensures AllSafe(img, KindOf(variant), links)
      ensures Serving(img, address, false, old(links), links)
      ensures Evolves(img, false, old(links)[address], mid) && SafeLink(img, mid)
      ensures packet.None? ==> links[address] == mid
      ensures packet.Some? ==> mid.toGateway != [] && packet.value == mid.toGateway[0]
                               && links[address] == Popped(mid)
      ensures calm ==> mid == Drain(img, old(links)[address]) && (packet.None? ==> mid.toGateway == [])
    {
      ghost var before := links;
      Drift();
      DriftedSafe(img, KindOf(variant), before, links);
      mid := links[address];
      var inTime: bool := *;
      inTime := inTime || calm;
      if inTime && links[address].toGateway != [] {
        PoppedIsSafe(img, mid);
        ServingUpdate(img, KindOf(variant), address, before, links, Popped(mid));
        packet := Some(links[address].toGateway[0]);
        links := links[address := Popped(links[address])];
      } else {
        assert links[address := mid] == links;
        ServingUpdate(img, KindOf(variant), address, before, links, mid);
        packet := None;
      }
    }

    /** Reads until a wanted reply arrives or the deadline passes; other replies are dropped. */
    method WaitForReply(address: nat, want: Want) returns (reply: Option<NodeMessage>, ghost mid: Link)
      requires img.Valid() && AllSafe(img, KindOf(variant), links)
      requires address in links.Keys
      modifies this`links
      ensures AllSafe(img, KindOf(variant), links)
      ensures Serving(img, address, false, old(links), links)
      ensures Evolves(img, false, old(links)[address], mid) && SafeLink(img, mid)
      ensures reply.None? ==> links[address] == mid
      ensures reply.Some? ==> mid.toGateway != [] && reply.value == mid.toGateway[0]
                              && Matches(want, reply.value) && links[address] == Popped(mid)
      ensures calm ==> AnswerRead(Drain(img, old(links)[address]), want, reply, links[address])
    {
      hide SafeLink, Evolves, Drain, Matches, Popped, Kept;
      ghost var before := links;
      ServingReflexive(img, address, false, links);
      EvolvesReflexive(img, false, links[address]);
      var beforeDeadline: int := *;
      if calm && beforeDeadline < 1 {
        beforeDeadline := 1;
      }
      ghost var d := Drain(img, links[address]);
      ghost var answered := calm && d.toGateway != [] && Matches(want, d.toGateway[0]);
      while beforeDeadline > 0
        invariant AllSafe(img, KindOf(variant), links) && links.Keys == before.Keys
        invariant Serving(img, address, false, before, links)
        invariant Evolves(img, false, before[address], links[address])
        invariant answered ==> links == before && beforeDeadline > 0
      {
        ghost var previous := links;
        reply, mid := Receive(address);
        ServingTransitive(img, address, false, before, previous, links);
        EvolvesTransitive(img, false, before[address], previous[address], mid);
        if reply.None? {
          return;
        }
        if Matches(want, reply.value) {
          return;
        }
        PopIsALoss(img, mid);
        EvolvesStep(img, false, mid, LoseToGateway(0));
        EvolvesTransitive(img, false, before[address], mid, links[address]);
        beforeDeadline := beforeDeadline - 1;
      }
      reply, mid := None, links[address];
    }

    /** One transmission and the wait for its reply. */
    method Attempt(address: nat, m: GatewayMessage, want: Want, ghost stage: Stage, ghost meter: Meter)
      returns (reply: Option<NodeMessage>)
      requires Valid() && address in links.Keys
      requires Honest(img, KindOf(variant), m) && Allowed(img, stage, m)
      requires StageInv(img, stage, links[address])
      requires Metered(img, meter, KindOf(variant), m, want)
      modifies this`links
      ensures Valid() && links.Keys == old(links).Keys
      ensures Serving(img, address, false, old(links), links)
      ensures reply.None? ==> StageInv(img, stage, links[address])
                              && NotAbove(Level(img, meter, links[address]), Level(img, meter, old(links)[address]))
      ensures reply.Some? ==> Matches(want, reply.value)
                              && StageInv(img, NextStage(img, stage, reply.value), links[address])
                              && Learned(img, stage, reply.value, links[address].node)
      ensures reply.Some? ==> Progressed(img, meter, reply.value, old(links)[address], links[address])
      ensures calm && Hushed(old(links)[address]) && Asks(KindOf(variant), m, want) ==>
                CalmAnswer(img, old(links)[address], m, reply, links[address])
    {
      hide SafeLink, StageInv, Evolves, Level, Below, NotAbove, Progressed, Learned, Serving, AllSafe, Truthful,
           Hushed, Asks, CalmAnswer, Drain, NextStage, Allowed, Honest, Metered, Matches, Sent, AsReceived;
      ghost var before, kind := links, KindOf(variant);
      ServedIsSafe(img, kind, address, links);
      if calm && Hushed(links[address]) && Asks(kind, m, want) {
        CalmExchange(img, links[address], m, want);
      }
      ghost var mid := Transmit(address, m);
      StageThroughTransmit(img, stage, before[address], mid, m);
      MeterThroughTransmit(img, meter, kind, m, want, before[address], mid);
      ServingTruthful(img, kind, address, false, before, links, results);

      ghost var sent := links;
      ServedIsSafe(img, kind, address, links);
      reply, mid := WaitForReply(address, want);
      StageThroughWait(img, stage, sent[address], mid);
      MeterThroughWait(img, meter, kind, m, want, sent[address], mid);
      NotAboveTransitive(Level(img, meter, mid), Level(img, meter, sent[address]), Level(img, meter, before[address]));
      ServingTruthful(img, kind, address, false, sent, links, results);
      if reply.Some? {
        ProgressedSince(img, meter, reply.value, before[address], sent[address], links[address]);
      }
      ServingTransitive(img, address, false, before, sent, links);
    }

    /** `exchange`: either an answer that tells the truth about the node, or `maxAttempts`
        transmissions in a row without one. */
    method Exchange(address: nat, m: GatewayMessage, want: Want, ghost stage: Stage, ghost meter: Meter)
      returns (reply: Option<NodeMessage>, ghost sent: nat)
      requires Valid() && address in links.Keys && address in results.Keys
      requires Honest(img, KindOf(variant), m) && Allowed(img, stage, m)
      requires StageInv(img, stage, links[address])
      requires Metered(img, meter, KindOf(variant), m, want)
      modifies this
      ensures Valid() && links.Keys == old(links).Keys && results.Keys == old(results).Keys
      ensures Serving(img, address, false, old(links), links)
      ensures if reply.Some? then 1 <= sent <= maxAttempts else sent == maxAttempts
      ensures Charged(address, old(results), results, sent, if reply.Some? then sent - 1 else sent)
      ensures Silent(address, results, if reply.Some? then 0 else maxAttempts)
      ensures reply.None? ==> StageInv(img, stage, links[address])
      ensures reply.Some? ==>
        && Matches(want, reply.value)
        && StageInv(img, NextStage(img, stage, reply.value), links[address])
        && Learned(img, stage, reply.value, links[address].node)
      ensures reply.Some? ==> Progressed(img, meter, reply.value, old(links)[address], links[address])
      ensures old(Calm(address)) && Asks(KindOf(variant), m, want) ==>
                CalmAnswer(img, old(links)[address], m, reply, links[address]) && sent == 1
    {
      hide SafeLink, StageInv, Evolves, Level, Below, NotAbove, Progressed, Learned, Serving, AllSafe, Truthful, Charged, Metered, Matches,
           Hushed, Asks, CalmAnswer, Drain, NextStage, Allowed, Honest, Charge, ChargeLost, NoneLost;
      ghost var settled := Calm(address) && Asks(KindOf(variant), m, want);
      ghost var before, counted := links, results;
      ghost var start := Level(img, meter, links[address]);
      ServingReflexive(img, address, false, links);
      LevelReflexive(start);
      ChargedTruthful(img, links, address, results, NoneLost(address, results), 0, 0);
      results := NoneLost(address, results);
      sent := 0;
      reply := None;
      for attempt := 0 to maxAttempts
        invariant Valid() && links.Keys == before.Keys && results.Keys == counted.Keys
        invariant Serving(img, address, false, before, links)
        invariant StageInv(img, stage, links[address])
        invariant NotAbove(Level(img, meter, links[address]), start)
        invariant reply.None? && sent == attempt && Charged(address, counted, results, sent, sent)
        invariant results[address].unanswered == attempt
        invariant settled ==> attempt == 0 && links == before
      {
        ghost var previous := links;
        reply := Attempt(address, m, want, stage, meter);
        if settled {
          CalmLeavesHush(img, before[address], m, reply, links[address]);
        }
        ServingTransitive(img, address, false, before, previous, links);
        OneMoreTransmission(img, links, address, counted, results, sent);
        sent := sent + 1;
        if reply.Some? {
          ProgressedSince(img, meter, reply.value, before[address], previous[address], links[address]);
          results := NoneLost(address, Charge(address, results, 1, 0));
          return;
        }
        NotAboveTransitive(Level(img, meter, links[address]), Level(img, meter, previous[address]), start);
        results := ChargeLost(address, Charge(address, results, 1, 0));
      }
    }

    /** `sim.sleep` */
    method Sleep(address: nat, ghost stage: Stage)
      requires Valid() && address in links.Keys && StageInv(img, stage, links[address])
      modifies this`links
      ensures Valid() && links.Keys == old(links).Keys
      ensures Serving(img, address, false, old(links), links)
      ensures StageInv(img, stage, links[address])
      ensures calm ==> links[address] == Drain(img, old(links)[address])
      ensures old(Calm(address)) ==> Calm(address)
    {
      hide SafeLink, StageInv, Evolves, Serving, AllSafe, Truthful;
      ghost var before := links;
      ServedIsSafe(img, KindOf(variant), address, links);
      if Calm(address) {
        HushedDrains(img, links[address]);
        QuietIsHushed(Drain(img, links[address]));
      }
      Drift();
      DriftedServing(img, KindOf(variant), address, before, links);
      ServingTruthful(img, KindOf(variant), address, false, before, links, results);
      EvolvesKeepsStage(img, stage, false, before[address], links[address]);
    }

    /** One fragment, and the number of the one that the node asks for then. Over an air that loses
        nothing that is the next one, after one transmission. */
    method SendPiece(address: nat, which: Which, next: nat, ghost clean: bool) returns (expected: Option<nat>)
      requires Valid() && address in links.Keys && address in results.Keys
      requires (which.Binary? ==> variant.UnicastOnly?) && next < Total(img, which)
      requires StageInv(img, Mode(clean, StageOf(which, next)), links[address])
      modifies this
      ensures Valid() && links.Keys == old(links).Keys && results.Keys == old(results).Keys
      ensures Serving(img, address, false, old(links), links)
      ensures CountersOnly(address, old(results), results)
      ensures expected.None? ==> Silent(address, results, maxAttempts)
      ensures StageInv(img, Mode(clean, StageOf(which, if expected.Some? then expected.value else next)), links[address])
      ensures expected.Some? ==>
                Below(PotentialOf(img, which, expected.value, links[address]), PotentialOf(img, which, next, old(links)[address]))
      ensures old(Calm(address)) ==> expected.Some? && Calm(address)
      ensures old(Calm(address)) && Stands(old(links)[address], which, next) ==>
                expected == Some(next + 1) && Stands(links[address], which, next + 1) && Spent(address, old(results), results, 1)
    {
      hide SafeLink, StageInv, Evolves, Level, Progressed, Metered, Learned, Serving, AllSafe, Truthful, Charged,
           CountersOnly, Silent, NextStage, Allowed, Honest, PotentialOf, Hushed, CalmAnswer, Drain, Sent, Asks, Matches, Piece, AckWanted, Charge,
           StageOf, Stands, Spent, Below;
      ghost var asked, counted := links[address], results;
      ghost var stage, meter := Mode(clean, StageOf(which, next)), Meter(which, next);
      CountersOnlyReflexive(address, results);
      ServedIsSafe(img, KindOf(variant), address, links);
      PieceIsAllowed(img, KindOf(variant), clean, which, next);
      ghost var sent;
      var reply;
      reply, sent := Exchange(address, Piece(img, which, next), AckWanted(which), stage, meter);
      if old(Calm(address)) {
        PieceAsks(img, KindOf(variant), which, next);
        CalmLeavesHush(img, asked, Piece(img, which, next), reply, links[address]);
        ChargedIsSpent(address, counted, results, 1);
        if Stands(asked, which, next) {
          CalmPiece(img, which, next, asked, reply, links[address]);
        }
      }
      ghost var lost: nat := if reply.Some? then sent - 1 else sent;
      CountersOnlyCharged(address, counted, counted, results, sent, lost);
      if reply.None? {
        return None;
      }
      AckMeansValue(img, meter, KindOf(variant), which, next, reply.value, asked, links[address]);
      NextFragmentStage(img, clean, which, next, reply.value);
      expected := AckValue(which, reply.value);
      if expected.value <= next {
        ChargedTruthful(img, links, address, results, Charge(address, results, 0, 1), 0, 1);
        CountersOnlyCharged(address, counted, results, Charge(address, results, 0, 1), 0, 1);
        results := Charge(address, results, 0, 1);
      }
    }

    /** `_send_fragments`: the loop ends against any air, for each accepted acknowledgement lowers
        the potential. In a clean attempt the cursor never overtakes what the node has stored. Over an
        air that loses nothing every fragment is sent once. */
    method SendFragments(address: nat, which: Which, ghost clean: bool) returns (ok: bool, ghost last: nat)
      requires Valid() && address in links.Keys && address in results.Keys
      requires which.Binary? ==> variant.UnicastOnly?
      requires StageInv(img, Mode(clean, StageOf(which, 0)), links[address])
      modifies this
      ensures Valid() && links.Keys == old(links).Keys && results.Keys == old(results).Keys
      ensures Serving(img, address, false, old(links), links)
      ensures CountersOnly(address, old(results), results)
      ensures if ok then last >= Total(img, which) else Silent(address, results, maxAttempts)
      ensures StageInv(img, Mode(clean, StageOf(which, last)), links[address])
      ensures old(Calm(address)) ==> ok && Calm(address)
      ensures old(Calm(address)) && Stands(old(links)[address], which, 0) ==>
                Stands(links[address], which, Total(img, which)) && Spent(address, old(results), results, Total(img, which))
    {
      hide SafeLink, StageInv, Evolves, Serving, AllSafe, Truthful, CountersOnly, Silent, PotentialOf, Hushed, StageOf, Stands, Spent;
      ghost var before, counted := links, results;
      ghost var settled := Calm(address) && Stands(links[address], which, 0);
      ServingReflexive(img, address, false, links);
      CountersOnlyReflexive(address, results);
      SpentReflexive(address, results);
      var next: nat := 0;
      while next < Total(img, which)
        invariant Valid() && links.Keys == before.Keys && results.Keys == counted.Keys
        invariant Serving(img, address, false, before, links)
        invariant CountersOnly(address, counted, results)
        invariant StageInv(img, Mode(clean, StageOf(which, next)), links[address])
        invariant old(Calm(address)) ==> Calm(address)
        invariant settled ==> next <= Total(img, which) && Stands(links[address], which, next) && Spent(address, counted, results, next)
        decreases PotentialOf(img, which, next, links[address]).droppers,
                  PotentialOf(img, which, next, links[address]).remaining,
                  PotentialOf(img, which, next, links[address]).otherAcks,
                  PotentialOf(img, which, next, links[address]).apart,
                  PotentialOf(img, which, next, links[address]).queued
      {
        ghost var previous, charged := links, results;
        ServedIsSafe(img, KindOf(variant), address, links);
        RemainingIsNatural(img, which, next, links[address]);
        var expected := SendPiece(address, which, next, clean);
        ServingTransitive(img, address, false, before, previous, links);
        CountersOnlyTransitive(address, counted, charged, results);
        if settled {
          SpentTwice(address, counted, charged, results, next, 1);
        }
        if expected.None? {
          ok, last := false, next;
          return;
        }
        next := expected.value;
      }
      ok, last := true, next;
    }

    /** An exchange whose reply does not steer a fragment loop. */
    method Ask(address: nat, m: GatewayMessage, want: Want, ghost stage: Stage) returns (reply: Option<NodeMessage>)
      requires Valid() && address in links.Keys && address in results.Keys
      requires Honest(img, KindOf(variant), m) && Allowed(img, stage, m)
      requires StageInv(img, stage, links[address])
      modifies this
      ensures Valid() && links.Keys == old(links).Keys && results.Keys == old(results).Keys
      ensures Serving(img, address, false, old(links), links)
      ensures CountersOnly(address, old(results), results)
      ensures reply.None? ==> StageInv(img, stage, links[address])
                              && Silent(address, results, maxAttempts)
      ensures reply.Some? ==> Matches(want, reply.value)
                              && StageInv(img, NextStage(img, stage, reply.value), links[address])
                              && Learned(img, stage, reply.value, links[address].node)
      ensures old(Calm(address)) && Asks(KindOf(variant), m, want) ==>
                CalmAnswer(img, old(links)[address], m, reply, links[address]) && Calm(address) && reply.Some?
                && Spent(address, old(results), results, 1)
    {
      hide SafeLink, StageInv, Evolves, Progressed, Learned, Serving, AllSafe, Truthful, Charged, CountersOnly, Silent,
           NextStage, Allowed, Honest, Hushed, Asks, CalmAnswer, Drain, Matches, Spent;
      ghost var counted := results;
      ghost var sent;
      ghost var asked := links[address];
      reply, sent := Exchange(address, m, want, stage, Unmetered);
      if old(Calm(address)) && Asks(KindOf(variant), m, want) {
        CalmLeavesHush(img, asked, m, reply, links[address]);
        ChargedIsSpent(address, counted, results, 1);
      }
      CountersOnlyReflexive(address, counted);
      ghost var lost: nat := if reply.Some? then sent - 1 else sent;
      CountersOnlyCharged(address, counted, counted, results, sent, lost);
    }

    /** A status request, and what the status proves. */
    method AskStatus(address: nat, ghost clean: bool, ghost stage: Stage) returns (status: Option<NodeMessage>)
      requires Valid() && address in links.Keys && address in results.Keys
      requires stage.CheckingBinary? || stage.Confirming? || stage.Flashing?
      requires StageInv(img, Mode(clean, stage), links[address])
      modifies this
      ensures Valid() && links.Keys == old(links).Keys && results.Keys == old(results).Keys
      ensures Serving(img, address, false, old(links), links)
      ensures CountersOnly(address, old(results), results)
      ensures status.None? ==> Silent(address, results, maxAttempts)
      ensures status.Some? ==> Told(img, clean, stage, status.value, links[address])
      ensures old(Calm(address)) ==>
                CalmAnswer(img, old(links)[address], StatusRequest, status, links[address]) && Calm(address) && status.Some?
                && Spent(address, old(results), results, 1)
    {
      hide SafeLink, StageInv, Evolves, Learned, Serving, AllSafe, Truthful, CountersOnly, Silent,
           NextStage, Allowed, Honest, Hushed, CalmAnswer, Drain, Spent, Told;
      PlainMessages(img, KindOf(variant), clean, stage);
      status := Ask(address, StatusRequest, WantStatus, Mode(clean, stage));
      if status.Some? {
        StatusMeans(img, clean, stage, status.value, links[address]);
      }
    }

    /** `_finish_update`: done only with the node on the new version. From a clean start neither
        status check can fail. */
    method FinishUpdate(address: nat, ghost clean: bool, ghost checked: NodeMessage) returns (outcome: Outcome)
      requires Valid() && address in links.Keys && address in results.Keys && CountIs(img, checked)
      requires StageInv(img, Mode(clean, SendingChecksum(0)), links[address])
      modifies this
      ensures Valid() && links.Keys == old(links).Keys && results.Keys == old(results).Keys
      ensures Serving(img, address, false, old(links), links)
      ensures CountersOnly(address, old(results), results)
      ensures outcome == Done ==> links[address].node.version == img.NewVersion()
      ensures outcome != OutOfRange && (clean ==> outcome != Failed)
      ensures outcome == Unreachable ==> NoAnswer(address, results, maxAttempts)
      ensures old(Calm(address)) && clean ==> outcome == Done
      ensures old(Calm(address)) && clean && Stands(old(links)[address], Checksum, 0) ==>
                Spent(address, old(results), results, img.K() + 5)
    {
      hide SafeLink, StageInv, Evolves, Serving, AllSafe, Truthful, CountersOnly, Silent, Hushed, Stands, Spent, CountIs, ReadyToFlash;
      ghost var before, counted := links, results;
      ghost var settled := Calm(address) && clean && Stands(links[address], Checksum, 0);
      var ok;
      ghost var last;
      ok, last := SendFragments(address, Checksum, clean);
      if !ok {
        return Unreachable;
      }
      ChecksumSent(img, clean, links[address], last);

      ghost var l1, r1 := links, results;
      var end;
      ghost var first, second;
      end, first, second := ConfirmChecksum(address, clean);
      ServingTransitive(img, address, false, before, l1, links);
      CountersOnlyTransitive(address, counted, r1, results);
      if end.Some? {
        return end.value;
      }
      if settled {
        SpentTwice(address, counted, r1, results, img.K(), 2);
      }
      l1, r1 := links, results;
      outcome := FlashUntilUpdated(address, clean, first, second);
      ServingTransitive(img, address, false, before, l1, links);
      CountersOnlyTransitive(address, counted, r1, results);
      if settled {
        SpentTwice(address, counted, r1, results, img.K() + 2, 3);
      }
    }

    /** The two status checks behind the checksum; the second one after the node has had time to verify
        it. None: both were passed, and only then may the node be told to flash. */
    method ConfirmChecksum(address: nat, ghost clean: bool)
      returns (end: Option<Outcome>, ghost first: NodeMessage, ghost second: NodeMessage)
      requires Valid() && address in links.Keys && address in results.Keys
      requires StageInv(img, Mode(clean, Confirming), links[address])
      modifies this
      ensures Valid() && links.Keys == old(links).Keys && results.Keys == old(results).Keys
      ensures Serving(img, address, false, old(links), links)
      ensures CountersOnly(address, old(results), results)
      ensures end.None? ==> ReadyToFlash(img, first, second) && StageInv(img, Mode(clean, Flashing), links[address])
      ensures end.Some? ==> end.value == Unreachable || end.value == Failed
      ensures end == Some(Unreachable) ==> Silent(address, results, maxAttempts)
      ensures end == Some(Failed) ==> !clean && NotReady(img, first, second)
      ensures old(Calm(address)) && clean ==> end.None? && Calm(address) && Spent(address, old(results), results, 2)
    {
      hide SafeLink, StageInv, Evolves, Serving, AllSafe, Truthful, CountersOnly, Silent, Hushed, CalmAnswer, Drain, Spent;
      ghost var before, counted := links, results;
      first, second := HandshakeResponse, HandshakeResponse;
      var status := AskStatus(address, clean, Confirming);
      if status.None? {
        return Some(Unreachable), first, second;
      }
      first := status.value;
      if status.value.checksumFragments != img.K() {
        return Some(Failed), first, second;
      }

      ghost var l1 := links;
      Sleep(address, Mode(clean, Confirming));
      ServingTransitive(img, address, false, before, l1, links);
      l1 := links;
      ghost var r1 := results;
      status := AskStatus(address, clean, Confirming);
      ServingTransitive(img, address, false, before, l1, links);
      CountersOnlyTransitive(address, counted, r1, results);
      if status.None? {
        return Some(Unreachable), first, second;
      }
      second := status.value;
      if !status.value.checksumValid {
        return Some(Failed), first, second;
      }
      if old(Calm(address)) && clean {
        SpentTwice(address, counted, r1, results, 1, 1);
      }
      StartFlashing(img, clean, links[address]);
      end := None;
    }

    /** The flash command until the node runs the new version. */
    method FlashUntilUpdated(address: nat, ghost clean: bool, ghost first: NodeMessage, ghost second: NodeMessage)
      returns (outcome: Outcome)
      requires Valid() && address in links.Keys && address in results.Keys && ReadyToFlash(img, first, second)
      requires StageInv(img, Mode(clean, Flashing), links[address])
      modifies this
      ensures Valid() && links.Keys == old(links).Keys && results.Keys == old(results).Keys
      ensures Serving(img, address, false, old(links), links)
      ensures CountersOnly(address, old(results), results)
      ensures outcome == Done ==> links[address].node.version == img.NewVersion()
      ensures outcome != OutOfRange && (clean ==> outcome != Failed)
      ensures outcome == Unreachable ==> NoAnswer(address, results, maxAttempts)
      ensures old(Calm(address)) && clean ==> outcome == Done && Spent(address, old(results), results, 3)
    {
      hide SafeLink, StageInv, Evolves, Serving, AllSafe, Truthful, CountersOnly, Silent, Hushed, FlashLost, Spent, Ignored, ReadyToFlash;
      ghost var before, counted := links, results;
      ServingReflexive(img, address, false, links);
      NoneIgnored(img, links, address, results);
      NothingSpent(address, results, results[address].(ignoredFlashes := 0));
      results := results[address := results[address].(ignoredFlashes := 0)];
      for attempt := 0 to maxAttempts
        invariant Valid() && links.Keys == before.Keys && results.Keys == counted.Keys
        invariant Serving(img, address, false, before, links)
        invariant CountersOnly(address, counted, results)
        invariant FlashIgnored(address, results, attempt)
        invariant StageInv(img, Mode(clean, Flashing), links[address])
        invariant old(Calm(address)) && clean ==> Calm(address) && attempt == 0 && Spent(address, counted, results, 0)
      {
        ghost var l1, r1 := links, results;
        var end;
        ghost var report;
        end, report := FlashOnce(address, clean);
        ServingTransitive(img, address, false, before, l1, links);
        CountersOnlyTransitive(address, counted, r1, results);
        if end.Some? {
          if old(Calm(address)) && clean {
            SpentTwice(address, counted, r1, results, 0, 3);
          }
          return end.value;
        }
        OneMoreIgnored(img, links, address, counted, results, attempt + 1);
        results := FlashLost(address, results, attempt + 1);
      }
      return Unreachable;
    }

    /** One flash command, and the version the node reports after it has had time to reboot.
        None: the command was ignored. */
    method FlashOnce(address: nat, ghost clean: bool) returns (end: Option<Outcome>, ghost report: Option<NodeMessage>)
      requires Valid() && address in links.Keys && address in results.Keys
      requires StageInv(img, Mode(clean, Flashing), links[address])
      modifies this
      ensures Valid() && links.Keys == old(links).Keys && results.Keys == old(results).Keys
      ensures Serving(img, address, false, old(links), links)
      ensures CountersOnly(address, old(results), results)
      ensures end.None? ==> StageInv(img, Mode(clean, Flashing), links[address])
      ensures end == Some(Done) ==> links[address].node.version == img.NewVersion()
      ensures end != Some(OutOfRange) && (clean ==> end != Some(Failed))
      ensures end == Some(Unreachable) ==> Silent(address, results, maxAttempts)
      ensures old(Calm(address)) && clean ==> end == Some(Done) && Spent(address, old(results), results, 3)
      ensures end.None? ==> Ignored(img, report, true)
      ensures end == Some(Failed) ==> Ignored(img, report, false)
    {
      hide SafeLink, StageInv, Evolves, Progressed, Learned, Serving, AllSafe, Truthful, Charged, CountersOnly, Silent,
           NextStage, Allowed, Honest, Hushed, CalmAnswer, Drain, Sent, Spent;
      report := None;
      ghost var kind, before, counted := KindOf(variant), links, results;
      ghost var stage := Mode(clean, Flashing);
      PlainMessages(img, kind, clean, Flashing);
      SendFlash(address, stage);

      ghost var l1, r1 := links, results;
      var handshake := Ask(address, HandshakeRequest, WantHandshake, stage);
      VersionKept(img, kind, address, l1, links);
      ServingTransitive(img, address, false, before, l1, links);
      CountersOnlyTransitive(address, counted, r1, results);
      if handshake.None? {
        return Some(Unreachable), None;
      }
      HandshakeKeepsStage(img, clean, handshake.value, links[address]);
      if old(Calm(address)) && clean {
        SpentTwice(address, counted, r1, results, 1, 1);
      }

      l1, r1 := links, results;
      ServedIsSafe(img, kind, address, links);
      var status := AskStatus(address, clean, Flashing);
      ServingTransitive(img, address, false, before, l1, links);
      CountersOnlyTransitive(address, counted, r1, results);
      if status.None? {
        return Some(Unreachable), None;
      }
      if old(Calm(address)) && clean {
        CalmStatus(img, l1[address], status, links[address]);
        SpentTwice(address, counted, r1, results, 2, 1);
      }
      if status.value.firmwareVersion == img.NewVersion() {
        return Some(Done), status;
      }
      if !status.value.checksumValid {
        return Some(Failed), status;
      }
      return None, status;
    }

    /** The flash command, which nobody acknowledges, and the time to reboot. */
    method SendFlash(address: nat, ghost stage: Stage)
      requires Valid() && address in links.Keys && address in results.Keys
      requires Honest(img, KindOf(variant), FlashNewVersion) && Allowed(img, stage, FlashNewVersion)
      requires StageInv(img, stage, links[address])
      modifies this
      ensures Valid() && links.Keys == old(links).Keys && results.Keys == old(results).Keys
      ensures StageInv(img, stage, links[address])
      ensures Serving(img, address, false, old(links), links) && CountersOnly(address, old(results), results)
      ensures Spent(address, old(results), results, 1)
      ensures old(Calm(address)) && stage == Flashing ==>
                Calm(address) && links[address].node.version == img.NewVersion()
    {
      hide SafeLink, StageInv, Evolves, Serving, AllSafe, Truthful, Charged, CountersOnly, Allowed, Honest, Hushed, Drain, Spent;
      ghost var before, counted := links, results;
      ServedIsSafe(img, KindOf(variant), address, links);
      if Calm(address) && stage == Flashing {
        CalmFlashing(img, links[address]);
      }
      ghost var mid := Transmit(address, FlashNewVersion);
      StageThroughTransmit(img, stage, before[address], mid, FlashNewVersion);
      ServingTruthful(img, KindOf(variant), address, false, before, links, results);
      ChargedTruthful(img, links, address, results, Charge(address, results, 1, 0), 1, 0);
      CountersOnlyReflexive(address, counted);
      CountersOnlyCharged(address, counted, results, Charge(address, results, 1, 0), 1, 0);
      ChargedIsSpent(address, results, Charge(address, results, 1, 0), 1);
      results := Charge(address, results, 1, 0);
      ghost var l1 := links;
      Sleep(address, stage);
      ServingTransitive(img, address, false, before, l1, links);
    }

    /** The reset, and the version the node answers with. */
    method ResetNode(address: nat, ghost clean: bool) returns (version: Option<nat>)
      requires Valid() && variant.UnicastOnly? && address in links.Keys && address in results.Keys
      requires clean ==> Quiet(links[address])
      modifies this
      ensures Valid() && links.Keys == old(links).Keys && results.Keys == old(results).Keys
      ensures Serving(img, address, false, old(links), links)
      ensures CountersOnly(address, old(results), results)
      ensures version.None? ==> Silent(address, results, maxAttempts)
      ensures version == Some(img.NewVersion()) ==> links[address].node.version == img.NewVersion()
      ensures version.Some? && version.value != img.NewVersion() ==> StageInv(img, Mode(clean, StageOf(Binary, 0)), links[address])
      ensures old(Calm(address)) && clean ==>
                && version == Some(old(links)[address].node.version) && Calm(address)
                && Stands(links[address], Binary, 0) && Spent(address, old(results), results, 1)
    {
      hide SafeLink, StageInv, Evolves, Learned, Serving, AllSafe, Truthful, CountersOnly, Silent,
           NextStage, Allowed, Honest, Hushed, CalmAnswer, Drain, Stands, Spent;
      ghost var asked := links[address];
      ServedIsSafe(img, Unicast, address, links);
      ReadyToReset(img, clean, links[address]);
      var confirmed := Ask(address, ResetRequest, WantResetConfirmed, Mode(clean, Resetting));
      if confirmed.None? {
        return None;
      }
      ResetDone(img, clean, confirmed.value, links[address]);
      if old(Calm(address)) && clean {
        CalmReset(img, asked, confirmed, links[address]);
      }
      return Some(confirmed.value.firmwareVersion);
    }

    /** `UnicastGateway._update_node_once`. Over an air that loses nothing, a node that runs the new
        version already is sent the reset alone, and any other every fragment and request once. */
    method UnicastOnce(address: nat, ghost clean: bool) returns (outcome: Outcome)
      requires Valid() && variant.UnicastOnly? && address in links.Keys && address in results.Keys
      requires clean ==> Quiet(links[address])
      modifies this
      ensures Valid() && links.Keys == old(links).Keys && results.Keys == old(results).Keys
      ensures Serving(img, address, false, old(links), links)
      ensures CountersOnly(address, old(results), results)
      ensures outcome == Done ==> links[address].node.version == img.NewVersion()
      ensures outcome != OutOfRange && (clean ==> outcome != Failed)
      ensures outcome == Unreachable ==> NoAnswer(address, results, maxAttempts)
      ensures old(Calm(address)) && clean ==> outcome == Done
      ensures old(Calm(address)) && clean ==>
                Spent(address, old(results), results, if old(links)[address].node.version == img.NewVersion() then 1 else UnicastFrames(img))
    {
      hide SafeLink, StageInv, Evolves, Serving, AllSafe, Truthful, CountersOnly, Silent, Hushed, Stands, Spent;
      ghost var settled := Calm(address) && clean;
      ghost var before, counted := links, results;
      var version := ResetNode(address, clean);
      if version.None? {
        return Unreachable;
      }
      if version.value == img.NewVersion() {
        return Done;
      }

      ghost var l1, r1 := links, results;
      var ok;
      ghost var last;
      ok, last := SendFragments(address, Binary, clean);
      ServingTransitive(img, address, false, before, l1, links);
      CountersOnlyTransitive(address, counted, r1, results);
      if !ok {
        return Unreachable;
      }
      BinarySent(img, clean, links[address], last);
      if settled {
        SpentTwice(address, counted, r1, results, 1, img.N());
      }
      l1, r1 := links, results;
      outcome := CompleteBinary(address, clean);
      if settled {
        SpentTwice(address, counted, r1, results, 1 + img.N(), img.K() + 6);
      }
      ServingTransitive(img, address, false, before, l1, links);
      CountersOnlyTransitive(address, counted, r1, results);
    }

    /** `_complete_binary`: the count in the node's status is checked, which from a clean start
        cannot fail, before the checksum is sent. */
    method CompleteBinary(address: nat, ghost clean: bool) returns (outcome: Outcome)
      requires Valid() && address in links.Keys && address in results.Keys
      requires StageInv(img, Mode(clean, CheckingBinary), links[address])
      modifies this
      ensures Valid() && links.Keys == old(links).Keys && results.Keys == old(results).Keys
      ensures Serving(img, address, false, old(links), links)
      ensures CountersOnly(address, old(results), results)
      ensures outcome == Done ==> links[address].node.version == img.NewVersion()
      ensures outcome != OutOfRange && (clean ==> outcome != Failed)
      ensures outcome == Unreachable ==> NoAnswer(address, results, maxAttempts)
      ensures old(Calm(address)) && clean ==> outcome == Done && Spent(address, old(results), results, img.K() + 6)
    {
      hide SafeLink, StageInv, Evolves, Serving, AllSafe, Truthful, CountersOnly, Silent, Hushed, CalmAnswer, Drain, Stands, Spent;
      ghost var before, counted := links, results;
      var status := AskStatus(address, clean, CheckingBinary);
      if status.None? {
        return Unreachable;
      }
      if status.value.binaryFragments != img.N() {
        return Failed;
      }
      BinaryChecked(img, clean, links[address]);
      if old(Calm(address)) && clean {
        CalmCheck(img, before[address], status, links[address]);
      }
      assert CountIs(img, status.value);
      ghost var l1, r1 := links, results;
      outcome := FinishUpdate(address, clean, status.value);
      ServingTransitive(img, address, false, before, l1, links);
      CountersOnlyTransitive(address, counted, r1, results);
      if old(Calm(address)) && clean {
        SpentTwice(address, counted, r1, results, 1, img.K() + 5);
      }
    }

    /** The first count of missing chunks is the one that is reported. */
    method NoteMissing(address: nat, count: nat)
      requires Valid() && address in results.Keys
      modifies this`results
      ensures Valid() && SameVerdict(address, old(results), results) && Spent(address, old(results), results, 0)
      ensures address in results.Keys &&
              results[address].missingAfterBroadcast ==
                if old(results)[address].missingAfterBroadcast.None? then Some(count) else old(results)[address].missingAfterBroadcast
    {
      hide AllSafe, Truthful, SameVerdict, Spent;
      SameVerdictReflexive(address, results);
      SpentReflexive(address, results);
      if results[address].missingAfterBroadcast.None? {
        ghost var noted := results[address].(missingAfterBroadcast := Some(count));
        NothingSpent(address, results, noted);
        Noted(img, links, address, results, noted);
        results := results[address := results[address].(missingAfterBroadcast := Some(count))];
      }
    }

    /** `request_bitmap`: from a clean start the answer, however old, contains every chunk the
        node lacks now. */
    method RequestBitmap(address: nat, ghost clean: bool, ghost known: set<nat>, ghost sure: bool)
      returns (outcome: Outcome, missing: seq<nat>, ghost known': set<nat>)
      requires Valid() && !variant.UnicastOnly? && address in links.Keys && address in results.Keys
      requires StageInv(img, Mode(clean, Collecting(known, sure)), links[address])
      modifies this
      ensures Valid() && links.Keys == old(links).Keys
      ensures Serving(img, address, false, old(links), links)
      ensures SameVerdict(address, old(results), results)
      ensures outcome == Done || outcome == Unreachable || outcome == OutOfRange
      ensures outcome == Unreachable ==> Silent(address, results, maxAttempts)
      ensures outcome == Done ==>
        && StageInv(img, Mode(clean, Collecting(known', true)), links[address])
        && (forall i :: i in missing ==> i < img.N())
        && (forall i: nat :: i < img.N() && i !in missing ==> i in known')
      ensures outcome == Done && clean ==>
        && |links[address].node.chunks| == img.N()
        && forall i :: 0 <= i < img.N() && links[address].node.chunks[i].None? ==> i in missing
      ensures clean ==> outcome != OutOfRange
      ensures old(Calm(address)) && clean ==> outcome == Done && Calm(address)
      ensures old(Calm(address)) && clean && AllCovered(img, old(links)[address]) ==> missing == []
      ensures old(Calm(address)) && clean ==> Spent(address, old(results), results, 1)
      ensures outcome == Done ==>
                address in results.Keys &&
                results[address].missingAfterBroadcast ==
                  (var noted := old(results)[address].missingAfterBroadcast; if noted.None? then Some(|missing|) else noted)
      ensures old(Calm(address)) && clean ==>
                && (forall i :: i in missing <==> 0 <= i < img.N() && links[address].node.chunks[i].None?)
                && (forall j, k :: 0 <= j < k < |missing| ==> missing[j] < missing[k])
    {
      hide SafeLink, StageInv, Evolves, Progressed, Learned, Serving, AllSafe, Truthful, Charged, CountersOnly, Silent,
           NextStage, Allowed, Honest, Hushed, CalmAnswer, Drain, Sent, CoveredBut, AllCovered, SameVerdict, MissingFrom, Spent;
      ghost var counted := results;
      ghost var asked := links[address];
      ServedIsSafe(img, Broadcast, address, links);
      missing, known' := [], {};
      CollectingMessages(img, clean, known, sure);
      var reply := Ask(address, SendMeTheBitmap, WantBitmap, Mode(clean, Collecting(known, sure)));
      if old(Calm(address)) && clean && AllCovered(img, asked) {
        CalmComplete(img, asked, reply, links[address]);
      }
      SameVerdictReflexive(address, counted);
      SameVerdictCounters(address, counted, counted, results);
      MissingKept(address, counted, results);
      if reply.None? {
        outcome := Unreachable;
        return;
      }
      known' := BitmapMeans(img, clean, known, sure, reply.value, links[address]);
      if reply.value.Bitmap? {
        if |reply.value.received| < img.N() {
          outcome := OutOfRange;
          return;
        }
        missing := MissingFrom(reply.value.received, img.N());
      }
      if clean {
        KnownIsHeld(img, known', links[address]);
        if old(Calm(address)) {
          DrainKeepsKind(img, asked);
          CalmBitmap(img, asked, reply, links[address]);
        }
      }
      ghost var r1 := results;
      NoteMissing(address, |missing|);
      SameVerdictTransitive(address, counted, r1, results);
      if old(Calm(address)) && clean {
        SpentTwice(address, counted, r1, results, 1, 0);
      }
      outcome := Done;
    }

    /** `BroadcastUnicastGateway._update_node_once` */
    method BroadcastUnicastOnce(address: nat, ghost clean: bool) returns (outcome: Outcome)
      requires Valid() && variant.BroadcastUnicast? && address in links.Keys && address in results.Keys
      requires clean ==> StageInv(img, Collecting({}, false), links[address])
      modifies this
      ensures Valid() && links.Keys == old(links).Keys
      ensures Serving(img, address, false, old(links), links)
      ensures SameVerdict(address, old(results), results)
      ensures outcome == Done ==> links[address].node.version == img.NewVersion()
      ensures clean ==> outcome == Done || outcome == Unreachable
      ensures outcome == Unreachable ==> GaveUp(address, old(results), results, Bounds(clean))
      ensures old(Calm(address)) && clean ==> outcome == Done
      ensures old(Calm(address)) && clean && AllCovered(img, old(links)[address]) ==>
                AtOnce(img, address, old(results), results)
    {
      hide SafeLink, StageInv, Evolves, Progressed, Learned, Serving, AllSafe, Truthful, Charged, CountersOnly, Silent,
           NextStage, Allowed, Honest, Hushed, CalmAnswer, Drain, Sent, CoveredBut, AllCovered, SameVerdict, Spent, AtOnce;
      ghost var before, counted := links, results;
      SafeMeansAnyStage(img, Broadcast, address, links);
      var missing;
      ghost var known;
      outcome, missing, known := RequestBitmap(address, clean, {}, false);
      SameVerdictKeys(address, counted, results);
      if outcome != Done {
        return;
      }
      ghost var asked := results;
      for k := 0 to |missing|
        invariant Valid() && links.Keys == before.Keys && address in results.Keys
        invariant Serving(img, address, false, before, links)
        invariant SameVerdict(address, counted, results)
        invariant StageInv(img, Mode(clean, Collecting(known, true)), links[address])
        invariant forall i: nat :: i < img.N() && i !in missing[k..] ==> i in known
        invariant old(Calm(address)) && clean ==> Calm(address)
        invariant k == 0 ==> results == asked
      {
        ghost var l1, r1 := links, results;
        CollectingMessages(img, clean, known, true);
        assert missing[k] in missing;
        var ack := Ask(address, FragmentOf(img, missing[k]), WantFragmentAck(missing[k]), Mode(clean, Collecting(known, true)));
        ServingTransitive(img, address, false, before, l1, links);
        SameVerdictCounters(address, counted, r1, results);
        if ack.None? {
          return Unreachable;
        }
        FragmentAcked(img, clean, known, missing[k], ack.value, links[address]);
        known := known + {missing[k]};
        assert forall i :: i in missing[k..] ==> i == missing[k] || i in missing[k + 1..];
      }
      assert missing[|missing|..] == [];
      Collected(img, clean, links[address], known);
      ghost var l1, r1 := links, results;
      outcome := CompleteBinary(address, clean);
      if old(Calm(address)) && clean && AllCovered(img, before[address]) {
        ThenCompleted(img, address, counted, r1, results);
      }
      ServingTransitive(img, address, false, before, l1, links);
      SameVerdictCounters(address, counted, r1, results);
    }

    /** `broadcast` of one fragment: every collecting node may hear it. */
    method BroadcastFragment(number: nat, ghost address: nat) returns (ghost mid: map<nat, Link>)
      requires Valid() && number < img.N()
      modifies this`links
      ensures Valid() && links.Keys == old(links).Keys
      ensures Drifted(img, old(links), mid) && links == Heard(img, mid, number)
      ensures address in links.Keys ==> Evolves(img, false, old(links)[address], mid[address])
                                        && links[address] == Step(img, mid[address], Hear(number))
      ensures Serving(img, address, true, old(links), links) && EvolveAll(img, old(links), links)
      ensures calm && address in links.Keys ==> links[address] == Step(img, Drain(img, old(links)[address]), Hear(number))
      ensures calm ==> forall a :: a in links.Keys ==> mid[a] == Drain(img, old(links)[a])
    {
      hide SafeLink, Evolves, Serving, AllSafe, Truthful, Drain, Step;
      ghost var before := links;
      Drift();
      mid := links;
      HeardServing(img, KindOf(variant), address, before, links, number);
      links := Heard(img, links, number);
      ServingTruthful(img, KindOf(variant), address, true, before, links, results);
    }

    /** Broadcasts the missing fragments of one repair round. */
    method BroadcastMissing(address: nat, missing: seq<nat>, ghost stage: Stage)
      requires Valid() && !variant.UnicastOnly? && address in links.Keys && address in results.Keys
      requires forall i :: i in missing ==> i < img.N()
      requires StageInv(img, stage, links[address]) && HearsBroadcasts(stage)
      modifies this
      ensures Valid() && links.Keys == old(links).Keys
      ensures StageInv(img, stage, links[address])
      ensures Serving(img, address, true, old(links), links)
      ensures Charged(address, old(results), results, |missing|, 0)
      ensures old(Calm(address)) && CoveredBut(img, old(links)[address], missing, 0) ==>
                Calm(address) && AllCovered(img, links[address])
    {
      hide SafeLink, StageInv, Evolves, Serving, AllSafe, Truthful, Charged, HearsBroadcasts, Hushed, CoveredBut, AllCovered;
      ghost var before, counted := links, results;
      ghost var settled := Calm(address) && CoveredBut(img, links[address], missing, 0);
      ServingReflexive(img, address, true, links);
      ChargedNothing(address, results);
      for k := 0 to |missing|
        invariant Valid() && links.Keys == before.Keys && results.Keys == counted.Keys
        invariant StageInv(img, stage, links[address])
        invariant Serving(img, address, true, before, links)
        invariant Charged(address, counted, results, k, 0)
        invariant settled ==> Calm(address) && CoveredBut(img, links[address], missing, k)
      {
        ghost var l1, r1 := links, results;
        BroadcastNext(address, missing, k, stage);
        ServingTransitive(img, address, true, before, l1, links);
        ChargedTwice(address, counted, r1, results, k, 0, 1, 0);
      }
      if settled {
        NoneLeftOut(img, links[address], missing);
      }
    }

    /** One of them, into an air that may or may not lose it. */
    method BroadcastNext(address: nat, missing: seq<nat>, k: nat, ghost stage: Stage)
      requires Valid() && !variant.UnicastOnly? && address in links.Keys && address in results.Keys
      requires k < |missing| && forall i :: i in missing ==> i < img.N()
      requires StageInv(img, stage, links[address]) && HearsBroadcasts(stage)
      modifies this
      ensures Valid() && links.Keys == old(links).Keys && results.Keys == old(results).Keys
      ensures StageInv(img, stage, links[address])
      ensures Serving(img, address, true, old(links), links)
      ensures Charged(address, old(results), results, 1, 0)
      ensures old(Calm(address)) && CoveredBut(img, old(links)[address], missing, k) ==>
                Calm(address) && CoveredBut(img, links[address], missing, k + 1)
    {
      hide SafeLink, StageInv, Evolves, Serving, AllSafe, Truthful, Charged, Drifted, Heard, Step, Drain, Hushed, CoveredBut;
      ghost var before := links[address];
      assert missing[k] in missing;
      if Calm(address) && CoveredBut(img, before, missing, k) {
        ServedIsSafe(img, KindOf(variant), address, links);
        CalmBroadcast(img, before, missing, k);
      }
      ghost var mid := BroadcastFragment(missing[k], address);
      HeardKeepsStage(img, stage, before, mid[address], missing[k]);
      ChargedTruthful(img, links, address, results, Charge(address, results, 1, 0), 1, 0);
      results := Charge(address, results, 1, 0);
    }

    /** One repair round: asks what is missing and broadcasts it. From a clean start every chunk
        the node lacked is then on its way, unless the air loses it. */
    method RepairRound(address: nat, ghost clean: bool, ghost known: set<nat>, ghost sure: bool)
      returns (outcome: Outcome, repaired: bool, ghost known': set<nat>)
      requires Valid() && variant.BroadcastOnly? && address in links.Keys && address in results.Keys
      requires StageInv(img, Mode(clean, Collecting(known, sure)), links[address])
      modifies this
      ensures Valid() && links.Keys == old(links).Keys
      ensures Serving(img, address, true, old(links), links)
      ensures SameVerdict(address, old(results), results) && address in results.Keys
      ensures outcome == Done || outcome == Unreachable || outcome == OutOfRange
      ensures outcome == Unreachable ==> Silent(address, results, maxAttempts)
      ensures clean ==> outcome != OutOfRange
      ensures outcome == Done ==> StageInv(img, Mode(clean, Collecting(known', true)), links[address])
      ensures outcome == Done && repaired ==> forall i: nat :: i < img.N() ==> i in known'
      ensures outcome == Done && !repaired ==> old(results)[address].repairRounds + 1 <= results[address].repairRounds
      ensures old(Calm(address)) && clean ==>
                && outcome == Done && Calm(address)
                && (if AllCovered(img, old(links)[address]) then repaired else repaired || AllCovered(img, links[address]))
      ensures outcome == Done && repaired ==>
                && Serving(img, address, false, old(links), links)
                && results[address].missingAfterBroadcast == NoneMissing(old(results)[address])
      ensures old(Calm(address)) && clean && repaired ==> Spent(address, old(results), results, 1)
    {
      hide SafeLink, StageInv, Evolves, Learned, Serving, AllSafe, Truthful, Charged, CountersOnly, Silent,
           Hushed, Drain, CoveredBut, AllCovered, SameVerdict, Spent;
      ghost var before, counted := links, results;
      var missing;
      outcome, missing, known' := RequestBitmap(address, clean, known, sure);
      ServingWeaken(img, address, true, before, links);
      SameVerdictKeys(address, counted, results);
      RoundsKept(address, counted, results);
      repaired := missing == [];
      if outcome != Done || repaired {
        return;
      }
      if clean {
        HeldIsCovered(img, links[address], missing);
      }
      ghost var r1 := results;
      results := results[address := results[address].(repairRounds := results[address].repairRounds + 1)];
      RepairRoundCounted(img, links, address, counted, r1, results);
      ghost var l2, r2 := links, results;
      BroadcastMissing(address, missing, Mode(clean, Collecting(known', true)));
      ServingTransitive(img, address, true, before, l2, links);
      ChargedVerdict(address, counted, r2, results, |missing|);
      SameVerdictKeys(address, counted, results);
    }

    /** `BroadcastOnlyGateway._update_node_once`: the repair loop ends normally only with a
        node that holds every chunk. */
    method BroadcastOnlyOnce(address: nat, ghost clean: bool) returns (outcome: Outcome)
      requires Valid() && variant.BroadcastOnly? && address in links.Keys && address in results.Keys
      requires clean ==> StageInv(img, Collecting({}, false), links[address])
      modifies this
      ensures Valid() && links.Keys == old(links).Keys
      ensures Serving(img, address, true, old(links), links)
      ensures SameVerdict(address, old(results), results)
      ensures outcome == Done ==> links[address].node.version == img.NewVersion()
      ensures clean ==> outcome == Done || outcome == Unreachable
      ensures outcome == Unreachable ==> GaveUp(address, old(results), results, Bounds(clean))
      ensures old(Calm(address)) && clean ==> outcome == Done
      ensures old(Calm(address)) && clean && AllCovered(img, old(links)[address]) ==>
                && Serving(img, address, false, old(links), links)
                && AtOnce(img, address, old(results), results)
    {
      hide SafeLink, StageInv, Evolves, Serving, AllSafe, Truthful, CountersOnly, Silent, Hushed, AllCovered, SameVerdict, Spent, AtOnce;
      ghost var before, counted := links, results;
      SafeMeansAnyStage(img, Broadcast, address, links);
      ServingReflexive(img, address, true, links);
      SameVerdictReflexive(address, results);
      ghost var known, sure := {}, false;
      ghost var settled := Calm(address) && clean;
      ghost var covered := settled && AllCovered(img, links[address]);
      var repaired := false;
      for round := 0 to maxRepairRounds
        invariant Valid() && links.Keys == before.Keys && address in results.Keys
        invariant Serving(img, address, true, before, links)
        invariant SameVerdict(address, counted, results)
        invariant StageInv(img, Mode(clean, Collecting(known, sure)), links[address])
        invariant settled ==> Calm(address) && round <= 1 && (round == 1 ==> AllCovered(img, links[address]))
        invariant covered ==> round == 0 && links == before && results == counted
        invariant !repaired && counted[address].repairRounds + round <= results[address].repairRounds
      {
        ghost var l1, r1 := links, results;
        outcome, repaired, known := RepairRound(address, clean, known, sure);
        sure := true;
        ServingTransitive(img, address, true, before, l1, links);
        SameVerdictTransitive(address, counted, r1, results);
        if outcome != Done {
          return;
        }
        if repaired {
          break;
        }
      }
      if !repaired {
        return Unreachable;
      }
      Collected(img, clean, links[address], known);
      ghost var l1, r1 := links, results;
      outcome := CompleteBinary(address, clean);
      if covered {
        ThenCompleted(img, address, counted, r1, results);
        ServingTransitive(img, address, false, before, l1, links);
      }
      ServingWeaken(img, address, true, l1, links);
      ServingTransitive(img, address, true, before, l1, links);
      SameVerdictCounters(address, counted, r1, results);
    }

    /** `_update_node_once` of the variant at hand. */
    method UpdateNodeOnce(address: nat, ghost clean: bool) returns (outcome: Outcome)
      requires Valid() && address in links.Keys && address in results.Keys
      requires clean ==> Ready(img, Bounds(clean), links[address])
      modifies this
      ensures Valid() && links.Keys == old(links).Keys
      ensures Serving(img, address, variant.BroadcastOnly?, old(links), links)
      ensures SameVerdict(address, old(results), results)
      ensures outcome == Done ==> links[address].node.version == img.NewVersion()
      ensures clean ==> outcome == Done || outcome == Unreachable
      ensures variant.UnicastOnly? ==> outcome != OutOfRange
      ensures outcome == Unreachable ==> GaveUp(address, old(results), results, Bounds(clean))
      ensures clean && Sure() ==> outcome == Done
      ensures clean && Sure() && !variant.UnicastOnly? && AllCovered(img, old(links)[address]) ==>
                && Serving(img, address, false, old(links), links)
                && AtOnce(img, address, old(results), results)
      ensures clean && Sure() && variant.UnicastOnly? ==>
                Spent(address, old(results), results, if old(links)[address].node.version == img.NewVersion() then 1 else UnicastFrames(img))
    {
      hide SafeLink, StageInv, Evolves, Serving, AllSafe, Truthful, CountersOnly, SameVerdict, Hushed, Spent, AtOnce;
      ghost var counted := results;
      match variant {
        case UnicastOnly =>
          outcome := UnicastOnce(address, clean);
          SameVerdictReflexive(address, counted);
          SameVerdictCounters(address, counted, counted, results);
        case BroadcastUnicast =>
          outcome := BroadcastUnicastOnce(address, clean);
        case BroadcastOnly =>
          outcome := BroadcastOnlyOnce(address, clean);
      }
    }

    /** `update_node`: whatever is stale, the node is reported updated only if it runs the new
        version; from a clean start no stage ever fails, so the first attempt decides. */
    method UpdateNode(address: nat, ghost clean: bool) returns (raised: bool)
      requires Valid() && address in links.Keys
      requires clean ==> Ready(img, Bounds(clean), links[address])
      modifies this
      ensures Valid() && links.Keys == old(links).Keys && Truthful(img, links, results)
      ensures Serving(img, address, variant.BroadcastOnly?, old(links), links)
      ensures OthersSame(address, old(results), results)
      ensures results[address].restarts <= maxRestarts
      ensures raised ==> !variant.UnicastOnly?
      ensures raised || results[address].updated || results[address].restarts == maxRestarts
              || Abandoned(results[address], Bounds(clean))
      ensures clean ==> !raised && Decided(results[address], Bounds(clean))
      ensures clean && Sure() && !variant.UnicastOnly? && address in old(results).Keys && AllCovered(img, old(links)[address]) ==>
                && Serving(img, address, false, old(links), links)
                && AtOnce(img, address, old(results), results)
      ensures clean && Sure() && variant.UnicastOnly? && address !in old(results).Keys ==>
                && results[address].framesSent == (if old(links)[address].node.version == img.NewVersion() then 1 else UnicastFrames(img))
                && results[address].retransmissions == 0
    {
      hide SafeLink, StageInv, Evolves, Serving, AllSafe, Truthful, SameVerdict, Ready, OthersSame, AllCovered, Spent, AtOnce, UnicastFrames, Abandoned;
      ghost var before, start := links, results;
      raised := false;
      if address !in results.Keys {
        FreshResult(img, links, address, results);
        OwnUpdate(address, start, results, NodeResult(0, 0, 0, false, None, 0, 0, 0));
        results := results[address := NodeResult(0, 0, 0, false, None, 0, 0, 0)];
      } else {
        OthersSameReflexive(address, start);
      }
      ServingReflexive(img, address, variant.BroadcastOnly?, links);
      for restart := 0 to maxRestarts + 1
        invariant Valid() && links.Keys == before.Keys && address in results.Keys
        invariant Serving(img, address, variant.BroadcastOnly?, before, links)
        invariant OthersSame(address, start, results)
        invariant clean ==> Ready(img, Bounds(clean), links[address]) && restart == 0
        invariant restart == 0 ==> links == before
        invariant restart == 0 ==>
                    SameSpending(if address in start.Keys then start[address] else NodeResult(0, 0, 0, false, None, 0, 0, 0), results[address])
        invariant restart > 0 ==> results[address].restarts == restart - 1
      {
        RestartCounted(img, links, address, results, restart);
        OwnUpdate(address, start, results, results[address].(restarts := restart));
        results := results[address := results[address].(restarts := restart)];
        ghost var l1, r1 := links, results;
        var outcome := UpdateNodeOnce(address, clean);
        ServingTransitive(img, address, variant.BroadcastOnly?, before, l1, links);
        VerdictEffects(address, start, r1, results);
        GivenUp(address, start, r1, results, Bounds(clean));
        if outcome == Done {
          ghost var r2 := results;
          UpdatedCounted(img, links, address, results);
          OwnUpdate(address, start, results, results[address].(updated := true));
          results := results[address := results[address].(updated := true)];
          if clean && Sure() {
            if variant.UnicastOnly? {
              if address !in start.Keys {
                SpentSince(address, r1, r2, results, if before[address].node.version == img.NewVersion() then 1 else UnicastFrames(img));
              }
            } else if address in start.Keys && AllCovered(img, before[address]) {
              AtOnceSince(img, address, start, r1, r2, results);
            }
          }
          return;
        }
        if outcome == Unreachable {
          GivenUpAtLast(address, r1, results, Bounds(clean));
          return;
        }
        if outcome == OutOfRange {
          raised := true;
          return;
        }
      }
    }

    /** `UnicastGateway.run`: the nodes one after the other. Starting from silence, no attempt
        ever has to be restarted and nothing raises. */
    method RunUnicast(ghost clean: bool) returns (raised: bool)
      requires Valid() && variant.UnicastOnly? && results == map[] && Distinct(nodes)
      requires forall a :: a in nodes ==> a in links.Keys
      requires clean ==> AllQuiet(links, nodes)
      modifies this
      ensures Valid() && Truthful(img, links, results) && !raised
      ensures clean ==> forall a :: a in nodes ==>
        a in results.Keys && Decided(results[a], Bounds(clean))
      ensures clean && Sure() ==> EachOnce(img, old(links), results, nodes, |nodes|)
    {
      hide SafeLink, StageInv, Evolves, Serving, AllSafe, Truthful, Quiet, Decided, OthersSame, AnsweredFor,
           EachOnce, UnicastFrames;
      raised := false;
      NothingAnnounced(img, Bounds(clean), links, results, nodes);
      assert EachOnce(img, links, results, nodes, 0) by { NobodyServed(img, links, results, nodes); }
      for k := 0 to |nodes|
        invariant Valid() && links.Keys == old(links).Keys && !raised
        invariant clean ==> AllQuiet(links, nodes[k..])
        invariant clean ==> AllDecided(results, [], Bounds(clean))
        invariant AnsweredFor(results, nodes, k)
        invariant clean ==> forall a :: a in nodes[k..] ==> a in links.Keys && links[a] == old(links)[a]
        invariant clean && Sure() ==> EachOnce(img, old(links), results, nodes, k)
      {
        TheRest(nodes, k);
        NobodyAmong(nodes);
        NextToAnnounce(links, results, [], nodes, k);
        assert nodes[k] in nodes[k..];
        ghost var before, verdicts := links, results;
        if clean {
          QuietIsReady(img, Bounds(clean), links[nodes[k]]);
        }
        raised := UpdateNode(nodes[k], clean);
        KeysStay(nodes[k], verdicts, results);
        OneMoreKey(verdicts, results, nodes, k);
        if raised {
          return;
        }
        if clean {
          OneMoreDecided(nodes[k], verdicts, results, [], Bounds(clean));
          AllQuietStays(img, nodes[k], before, links, nodes[k + 1..]);
          if Sure() {
            OneMoreOnce(img, old(links), verdicts, results, nodes, k);
          }
        }
      }
      NobodyAmong(nodes);
      EveryNodeAnswered(results, [], nodes);
    }

    /** `_announce`: every node has its result afterwards; whoever is not returned is decided. */
    method Announce(ghost clean: bool) returns (pending: seq<nat>)
      requires Valid() && !variant.UnicastOnly? && results == map[] && Distinct(nodes)
      requires forall a :: a in nodes ==> a in links.Keys
      requires clean ==> AllQuiet(links, nodes)
      modifies this
      ensures Valid() && links.Keys == old(links).Keys
      ensures Distinct(pending) && forall a :: a in pending ==> a in nodes && a in results.Keys
      ensures AllDecided(results, pending, Bounds(clean))
      ensures forall a :: a in nodes ==> a in results.Keys
      ensures clean ==> AllReady(img, Bounds(clean), links, pending)
      ensures clean && Sure() ==> forall a :: a in nodes && old(links)[a].node.version != img.NewVersion() ==> a in pending
      ensures AllAnnounced(results, pending, clean && Sure())
    {
      hide SafeLink, StageInv, Evolves, Serving, AllSafe, Truthful, Quiet, Ready, Learned, NextStage, Allowed, Honest,
           CountersOnly, OnlyAnnounced, AllAnnounced;
      pending := [];
      assert AllAnnounced(results, pending, clean && Sure()) by { NobodyAnnounced(results, clean && Sure()); }
      NothingAnnounced(img, Bounds(clean), links, results, nodes);
      for k := 0 to |nodes|
        invariant Valid() && links.Keys == old(links).Keys
        invariant Distinct(pending) && AmongFirst(pending, nodes, k) && AnsweredFor(results, nodes, k)
        invariant AllAnnounced(results, pending, clean && Sure())
        invariant AllDecided(results, pending, Bounds(clean))
        invariant clean ==> forall a :: a in nodes[k..] ==> a in links.Keys && links[a] == old(links)[a]
        invariant clean && Sure() ==>
                    forall a :: a in nodes[..k] && old(links)[a].node.version != img.NewVersion() ==> a in pending
        invariant clean ==> AllQuiet(links, nodes[k..]) && AllReady(img, Bounds(clean), links, pending)
      {
        var address := nodes[k];
        assert nodes[..k + 1] == nodes[..k] + [address];
        assert forall a :: a in nodes[k + 1..] ==> a in nodes[k..];
        assert address in nodes[k..];
        NextToAnnounce(links, results, pending, nodes, k);
        ghost var before, verdicts := links, results;
        if clean {
          AllQuietHead(links, nodes, k);
        }
        var confirmed := AnnounceTo(address, clean);
        if clean {
          AllQuietStays(img, address, before, links, nodes[k + 1..]);
          ReadyStays(img, Bounds(clean), address, false, before, links, pending);
        }
        if confirmed.Some? && confirmed.value == img.NewVersion() {
          UpdatedCounted(img, links, address, results);
          OwnUpdate(address, verdicts, results, results[address].(updated := true));
          results := results[address := results[address].(updated := true)];
        }
        StillAnnounced(address, verdicts, results, pending, clean && Sure());
        OneMoreAnnounced(address, verdicts, results, pending, nodes, k, Bounds(clean));
        if confirmed.Some? && confirmed.value != img.NewVersion() {
          if clean {
            OneMoreReady(img, Bounds(clean), links, pending, address);
          }
          pending := pending + [address];
        }
      }
      EveryNodeAnswered(results, pending, nodes);
      assert nodes[..|nodes|] == nodes;
    }

    /** Announces the update to one node; returns the version it answered with. */
    method AnnounceTo(address: nat, ghost clean: bool) returns (confirmed: Option<nat>)
      requires Valid() && !variant.UnicastOnly? && address in links.Keys && address !in results.Keys
      requires clean ==> Quiet(links[address])
      modifies this
      ensures Valid() && links.Keys == old(links).Keys && OthersSame(address, old(results), results)
      ensures results[address].restarts == 0
      ensures confirmed.None? || confirmed.value == img.NewVersion() ==>
        Decided(results[address].(updated := confirmed.Some?), Bounds(clean))
      ensures confirmed.None? ==> !results[address].updated
      ensures Serving(img, address, false, old(links), links)
      ensures confirmed.Some? && confirmed.value == img.NewVersion() ==> links[address].node.version == img.NewVersion()
      ensures confirmed.Some? && confirmed.value != img.NewVersion() && clean ==> Ready(img, Bounds(clean), links[address])
      ensures results[address].missingAfterBroadcast.None?
      ensures clean && Sure() ==> confirmed == Some(old(links)[address].node.version) && OnlyAnnounced(results[address])
    {
      hide SafeLink, StageInv, Evolves, Serving, AllSafe, Truthful, Quiet, Ready, Learned, NextStage, Allowed, Honest,
           Hushed, CalmAnswer, Drain, CountersOnly, OthersSame, Spent;
      ghost var start := results;
      if clean {
        QuietIsHushed(links[address]);
      }
      FreshResult(img, links, address, results);
      results := results[address := NodeResult(0, 0, 0, false, None, 0, 0, 0)];
      ServedIsSafe(img, Broadcast, address, links);
      QuietToAnnounce(img, clean, links[address]);
      var request := BroadcastStartRequest(img.NewVersion(), img.N(), img.chunkSize);
      ghost var asked, blank := links[address], results;
      var confirmation := Ask(address, request, WantStartConfirmation, Mode(clean, Announcing));
      BlankResult(address, start, blank, results);
      if clean && Sure() {
        CalmConfirmation(img, asked, img.NewVersion(), img.N(), img.chunkSize, confirmation, links[address]);
        SpentSince(address, blank, results, results, 1);
      }
      if confirmation.None? {
        return None;
      }
      Announced(img, Bounds(clean), clean, confirmation.value, links[address]);
      return Some(confirmation.value.firmwareVersion);
    }

    /** `_broadcast_rounds`: all fragments in order, `rounds` times, unless nobody is pending. Whoever
        hears them stays ready to collect; over an air that loses nothing, one round is enough for
        every pending node to hold every chunk. */
    method BroadcastRounds(pending: seq<nat>, ghost clean: bool) returns (ghost numbers: seq<nat>)
      requires Valid() && !variant.UnicastOnly?
      requires clean ==> AllReady(img, Bounds(clean), links, pending)
      modifies this`links
      ensures Valid() && links.Keys == old(links).Keys
      ensures clean ==> AllReady(img, Bounds(clean), links, pending)
      ensures Aired(img, old(links), links, numbers) && InRounds(numbers, img.N(), if pending == [] then 0 else rounds)
      ensures clean && Sure() && rounds > 0 ==> AllComplete(img, links, pending)
    {
      hide SafeLink, StageInv, Evolves, Serving, AllSafe, Truthful, AllReady, Heard, EvolveAll, Drifted, Aired, InRounds, InRound,
           ReachedUpTo, AllComplete, Drain;
      ghost var settled := clean && Sure();
      numbers := [];
      NothingAired(img, links);
      if pending == [] {
        NobodyToComplete(img, links);
        return;
      }
      if settled {
        NobodyReached(img, Bounds(clean), links, pending);
      }
      for round := 0 to rounds
        invariant Valid() && links.Keys == old(links).Keys
        invariant clean ==> AllReady(img, Bounds(clean), links, pending)
        invariant Aired(img, old(links), links, numbers) && InRounds(numbers, img.N(), round)
        invariant settled ==> ReachedUpTo(img, links, pending, if round == 0 then 0 else img.N())
      {
        RoundBegins(numbers, img.N(), round);
        for number := 0 to img.N()
          invariant Valid() && links.Keys == old(links).Keys
          invariant clean ==> AllReady(img, Bounds(clean), links, pending)
          invariant Aired(img, old(links), links, numbers) && InRound(numbers, img.N(), round, number)
          invariant settled ==> ReachedUpTo(img, links, pending, if round == 0 then number else img.N())
        {
          ghost var before := links;
          ghost var mid := BroadcastFragment(number, 0);
          OneMoreAired(img, old(links), before, mid, numbers, number);
          OneMoreInRound(numbers, img.N(), round, number);
          if clean {
            ReadyThroughBroadcast(img, Bounds(clean), before, links, pending);
          }
          if settled {
            if round == 0 {
              NextReached(img, KindOf(variant), before, mid, pending, number);
            } else {
              StillReached(img, KindOf(variant), before, mid, pending, number);
            }
          }
          numbers := numbers + [number];
        }
        RoundIsOver(numbers, img.N(), round);
      }
      ghost var before := links;
      Drift();
      DriftedSafe(img, KindOf(variant), before, links);
      TruthfulKept(img, KindOf(variant), before, links, results);
      AiredDrifts(img, old(links), before, links, numbers);
      DriftedEvolvesAll(img, before, links);
      if clean {
        ReadyThroughBroadcast(img, Bounds(clean), before, links, pending);
      }
      if settled && rounds > 0 {
        ReachedThenComplete(img, KindOf(variant), before, links, pending);
      }
    }

    /** Serves the next pending node; the others stay as the broadcast stage left them. */
    method UpdatePending(pending: seq<nat>, k: nat, ghost clean: bool, ghost settled: bool) returns (raised: bool)
      requires Valid() && !variant.UnicastOnly? && k < |pending| && Distinct(pending) && pending[k] in links.Keys
      requires clean ==> AllReady(img, Bounds(clean), links, pending[k..]) && AllDecided(results, pending[k..], Bounds(clean))
      requires settled ==> clean && Sure() && AllComplete(img, links, pending[k..]) && AtOnceSoFar(img, results, pending, k)
      modifies this
      ensures Valid() && links.Keys == old(links).Keys && old(results).Keys <= results.Keys
      ensures clean ==> !raised && AllReady(img, Bounds(clean), links, pending[k + 1..])
                        && AllDecided(results, pending[k + 1..], Bounds(clean))
      ensures settled ==> AllComplete(img, links, pending[k + 1..]) && AtOnceSoFar(img, results, pending, k + 1)
    {
      hide SafeLink, StageInv, Evolves, Serving, AllSafe, Truthful, Ready, Decided, AllComplete, AllCovered, OthersSame, AllDecided,
           AtOnceSoFar, AtOnce, Spent;
      TheRest(pending, k);
      assert pending[k..][0] == pending[k] && pending[k..][1..] == pending[k + 1..];
      ghost var before, verdicts := links, results;
      if settled {
        NextComplete(img, links, pending, k);
        NotAskedYet(img, results, pending, k);
      }
      raised := UpdateNode(pending[k], clean);
      KeysStay(pending[k], verdicts, results);
      if settled {
        OneMoreAtOnce(img, verdicts, results, pending, k);
        CompleteStays(img, pending[k], before, links, pending[k + 1..]);
      }
      if clean {
        OneMoreDecided(pending[k], verdicts, results, pending[k..], Bounds(clean));
        ReadyStays(img, Bounds(clean), pending[k], variant.BroadcastOnly?, before, links, pending[k + 1..]);
      }
    }

    /** `BroadcastGateway.run`, for both broadcast methods. */
    method RunBroadcast(ghost clean: bool) returns (raised: bool)
      requires Valid() && !variant.UnicastOnly? && results == map[] && Distinct(nodes)
      requires forall a :: a in nodes ==> a in links.Keys
      requires clean ==> AllQuiet(links, nodes)
      modifies this
      ensures Valid() && Truthful(img, links, results)
      ensures clean ==> !raised && forall a :: a in nodes ==>
        a in results.Keys && Decided(results[a], Bounds(clean))
      ensures clean && Sure() && rounds > 0 ==> forall a :: a in nodes && old(links)[a].node.version != img.NewVersion() ==>
                ServedAtOnce(img, results[a])
    {
      hide SafeLink, StageInv, Evolves, Serving, AllSafe, Truthful, Ready, Decided, AllComplete, AllCovered, OthersSame, Aired, InRounds,
           AtOnceSoFar, OnlyAnnounced, ServedAtOnce;
      raised := false;
      var pending := Announce(clean);
      ghost var numbers := BroadcastRounds(pending, clean);
      ghost var settled := clean && Sure() && rounds > 0;
      if settled {
        NobodyAskedYet(img, results, pending);
        assert pending[0..] == pending;
      }
      for k := 0 to |pending|
        invariant Valid() && links.Keys == old(links).Keys
        invariant clean ==> AllReady(img, Bounds(clean), links, pending[k..])
        invariant clean ==> AllDecided(results, pending[k..], Bounds(clean))
        invariant forall a :: a in nodes ==> a in results.Keys
        invariant settled ==> AllComplete(img, links, pending[k..]) && AtOnceSoFar(img, results, pending, k)
      {
        raised := UpdatePending(pending, k, clean, settled);
        if raised {
          return;
        }
      }
      if settled {
        AllAtOnce(img, results, pending);
      }
    }
  }

  /** A whole update from boot, by any of the three methods, over any air: nothing raises, every
      node is decided in its first attempt, and those reported updated run the new version. Over
      an air that loses nothing every node is updated, and no chunk is missing after a broadcast. */
  method UpdateEveryNode(img: Image, variant: Variant, nodes: seq<nat>, versions: map<nat, byte>,
                         maxAttempts: nat, maxRestarts: nat, rounds: nat, maxRepairRounds: nat, calm: bool)
    returns (gateway: Gateway, raised: bool)
    requires img.Valid() && Distinct(nodes) && forall a :: a in nodes ==> a in versions.Keys
    ensures !raised && gateway.img == img
    ensures var limits := Limits(variant, maxAttempts, maxRepairRounds, calm && Suffices(variant, maxAttempts, maxRepairRounds));
            forall a :: a in nodes ==>
              && a in gateway.results.Keys && a in gateway.links.Keys && Decided(gateway.results[a], limits)
              && (gateway.results[a].updated ==> gateway.links[a].node.version == img.NewVersion())
    ensures calm && Suffices(variant, maxAttempts, maxRepairRounds) ==>
              forall a :: a in nodes ==> gateway.results[a].updated && gateway.links[a].node.version == img.NewVersion()
    ensures calm && Suffices(variant, maxAttempts, maxRepairRounds) && rounds > 0 && !variant.UnicastOnly? ==>
              forall a :: a in nodes && versions[a] != img.NewVersion() ==>
                && gateway.results[a].missingAfterBroadcast == Some(0)
                && gateway.results[a].framesSent == img.K() + 8 && gateway.results[a].retransmissions == 0
    ensures calm && Suffices(variant, maxAttempts, maxRepairRounds) && variant.UnicastOnly? ==>
              forall a :: a in nodes ==>
                && gateway.results[a].framesSent == (if versions[a] == img.NewVersion() then 1 else img.N() + img.K() + 7)
                && gateway.results[a].retransmissions == 0
  {
    hide Quiet, SafeLink;
    gateway := new Gateway(img, variant, nodes, versions, maxAttempts, maxRestarts, rounds, maxRepairRounds, calm);
    if variant.UnicastOnly? {
      raised := gateway.RunUnicast(true);
      assert nodes[..|nodes|] == nodes;
    } else {
      raised := gateway.RunBroadcast(true);
    }
  }
}
