/** What a gateway keeps and may conclude while it serves one node: the
    other links, the results that are counted, and the stage of the update. The gateway itself
    (OtaGateway) is written with these facts. */
module OtaServing {
  import opened Bytes
  import opened OtaFrames
  import opened OtaNode
  import opened OtaLink
  import opened OtaStages
  import opened OtaExchange
  import opened OtaCalm
  import opened OtaLossFree

  datatype Variant = UnicastOnly | BroadcastUnicast | BroadcastOnly

  function KindOf(variant: Variant): Kind {
    if variant.UnicastOnly? then Unicast else Broadcast
  }

  /** The counters of a node's result; the timing fields are not modelled. The last two are
      history: transmissions of the latest exchange that went unanswered, one after the other,
      and flash commands that the node ignored, one after the other. */
  datatype NodeResult = NodeResult(framesSent: nat, retransmissions: nat, restarts: nat, updated: bool,
                                   missingAfterBroadcast: Option<nat>, repairRounds: nat,
                                   unanswered: nat, ignoredFlashes: nat)

  /** The bounds within which nodes are updated. `sure`: the air loses nothing, nodes answer in
      time, and the bounds suffice. */
  datatype Limits = Limits(variant: Variant, attempts: nat, repairRounds: nat, sure: bool)

  /** Room for one transmission, and for a repair round and the one that finds it successful. */
  predicate Suffices(variant: Variant, attempts: nat, repairRounds: nat) {
    attempts > 0 && (variant.BroadcastOnly? ==> repairRounds >= 2)
  }

  /** How one attempt ends: normally, or in one of the exceptions. `OutOfRange` is the
      IndexError of reading a bitmap that is shorter than the list of chunks. */
  datatype Outcome = Done | Unreachable | Failed | OutOfRange

  /** While the gateway serves one address: every node stays safe and keeps the new version
      once it has it, and every other link only evolves by itself (or hears broadcasts). */
  ghost predicate Serving(img: Image, address: nat, hears: bool, before: map<nat, Link>, after: map<nat, Link>)
    requires img.Valid()
  {
    && before.Keys == after.Keys
    && (forall a :: a in before.Keys ==> Kept(img, before[a], after[a]))
    && (forall a :: a in before.Keys && a != address ==> Evolves(img, hears, before[a], after[a]))
  }

  ghost predicate Kept(img: Image, l: Link, l': Link)
    requires img.Valid()
  {
    SafeLink(img, l) ==>
      && SafeLink(img, l') && l'.node.kind == l.node.kind
      && (l.node.version == img.NewVersion() ==> l'.node.version == img.NewVersion())
  }

  lemma ServingReflexive(img: Image, address: nat, hears: bool, links: map<nat, Link>)
    requires img.Valid()
    ensures Serving(img, address, hears, links, links)
  {
    forall a | a in links.Keys
      ensures Evolves(img, hears, links[a], links[a])
    {
      EvolvesReflexive(img, hears, links[a]);
    }
  }

  lemma ServingTransitive(img: Image, address: nat, hears: bool,
                          a: map<nat, Link>, b: map<nat, Link>, c: map<nat, Link>)
    requires img.Valid()
    requires Serving(img, address, hears, a, b) && Serving(img, address, hears, b, c)
    ensures Serving(img, address, hears, a, c)
  {
    forall x | x in a.Keys && x != address
      ensures Evolves(img, hears, a[x], c[x])
    {
      EvolvesTransitive(img, hears, a[x], b[x], c[x]);
    }
    forall x | x in a.Keys
      ensures Kept(img, a[x], c[x])
    {
      assert Kept(img, a[x], b[x]) && Kept(img, b[x], c[x]);
    }
  }

  lemma ServingWeaken(img: Image, address: nat, hears: bool, before: map<nat, Link>, after: map<nat, Link>)
    requires img.Valid() && Serving(img, address, false, before, after)
    ensures Serving(img, address, hears, before, after)
  {
    forall x | x in before.Keys && x != address
      ensures Evolves(img, hears, before[x], after[x])
    {
      var events :| (false || NoHears(events)) && after[x] == Run(img, before[x], events);
    }
  }

  ghost predicate AllSafe(img: Image, kind: Kind, links: map<nat, Link>)
    requires img.Valid()
  {
    forall a :: a in links.Keys ==> SafeLink(img, links[a]) && links[a].node.kind == kind
  }

  /** The world moved on by itself. */
  ghost predicate Drifted(img: Image, before: map<nat, Link>, after: map<nat, Link>)
    requires img.Valid()
  {
    && before.Keys == after.Keys
    && (forall a :: a in before.Keys ==> Evolves(img, false, before[a], after[a]))
  }

  lemma DriftedReflexive(img: Image, links: map<nat, Link>)
    requires img.Valid()
    ensures Drifted(img, links, links)
  {
    forall a | a in links.Keys
      ensures Evolves(img, false, links[a], links[a])
    {
      EvolvesReflexive(img, false, links[a]);
    }
  }

  lemma DriftedStep(img: Image, before: map<nat, Link>, links: map<nat, Link>, a: nat, e: Event)
    requires img.Valid() && Drifted(img, before, links) && a in links.Keys && !e.Hear?
    ensures Drifted(img, before, links[a := Step(img, links[a], e)])
  {
    EvolvesStep(img, false, links[a], e);
    EvolvesTransitive(img, false, before[a], links[a], Step(img, links[a], e));
  }

  lemma DriftedSafe(img: Image, kind: Kind, before: map<nat, Link>, after: map<nat, Link>)
    requires img.Valid() && Drifted(img, before, after) && AllSafe(img, kind, before)
    ensures AllSafe(img, kind, after)
    ensures forall a :: a in before.Keys ==> Kept(img, before[a], after[a])
  {
    forall a | a in before.Keys
      ensures SafeLink(img, after[a]) && after[a].node.kind == kind && Kept(img, before[a], after[a])
    {
      EvolvesKeepsSafe(img, false, before[a], after[a]);
    }
  }

  /** Drifting and then touching only the served link. */
  lemma ServingUpdate(img: Image, kind: Kind, address: nat,
                      before: map<nat, Link>, drifted: map<nat, Link>, l: Link)
    requires img.Valid() && Drifted(img, before, drifted) && AllSafe(img, kind, before)
    requires address in before.Keys && SafeLink(img, l) && l.node == drifted[address].node
    ensures AllSafe(img, kind, drifted[address := l])
    ensures Serving(img, address, false, before, drifted[address := l])
  {
    hide SafeLink, Evolves;
    DriftedSafe(img, kind, before, drifted);
    var after := drifted[address := l];
    KeptByTouch(img, before[address], drifted[address], l);
    forall a | a in before.Keys && a != address
      ensures Kept(img, before[a], after[a]) && Evolves(img, false, before[a], after[a])
    {
      assert after[a] == drifted[a];
    }
  }

  lemma KeptByTouch(img: Image, l: Link, drifted: Link, l': Link)
    requires img.Valid() && SafeLink(img, l) && Kept(img, l, drifted)
    requires SafeLink(img, l') && l'.node == drifted.node
    ensures Kept(img, l, l') && l'.node.kind == l.node.kind
  {
  }

  lemma HonestFits(img: Image, kind: Kind, m: GatewayMessage)
    requires img.Valid() && Honest(img, kind, m)
    ensures GatewayInRange(m)
  {
  }

  lemma SentIsSafe(img: Image, l: Link, m: GatewayMessage)
    requires img.Valid() && SafeLink(img, l) && Honest(img, l.node.kind, m)
    ensures SafeLink(img, Sent(l, m))
  {
  }

  lemma PoppedIsSafe(img: Image, l: Link)
    requires img.Valid() && SafeLink(img, l) && l.toGateway != []
    ensures SafeLink(img, Popped(l))
  {
  }

  /** A node is reported updated only if it runs the new version. */
  ghost predicate Truthful(img: Image, links: map<nat, Link>, results: map<nat, NodeResult>)
    requires img.Valid()
  {
    forall a :: a in results.Keys && results[a].updated ==>
      a in links.Keys && links[a].node.version == img.NewVersion()
  }

  /** One result was charged `sent` frames and `lost` retransmissions; nothing else changed, but
      for the count of the exchange under way. */
  predicate Charged(address: nat, before: map<nat, NodeResult>, after: map<nat, NodeResult>, sent: nat, lost: nat) {
    && address in before.Keys
    && address in after.Keys
    && after == before[address := before[address].(framesSent := before[address].framesSent + sent,
                                                   retransmissions := before[address].retransmissions + lost,
                                                   unanswered := after[address].unanswered)]
  }

  function Charge(address: nat, results: map<nat, NodeResult>, sent: nat, lost: nat): (after: map<nat, NodeResult>)
    requires address in results.Keys
    ensures Charged(address, results, after, sent, lost)
    ensures after.Keys == results.Keys && after[address].unanswered == results[address].unanswered
  {
    results[address := results[address].(framesSent := results[address].framesSent + sent,
                                         retransmissions := results[address].retransmissions + lost)]
  }

  /** One more transmission of an exchange that nobody answered. */
  function ChargeLost(address: nat, results: map<nat, NodeResult>): (after: map<nat, NodeResult>)
    requires address in results.Keys
    ensures Charged(address, results, after, 0, 1)
    ensures after.Keys == results.Keys && after[address].unanswered == results[address].unanswered + 1
  {
    Charge(address, results, 0, 1)[address := Charge(address, results, 0, 1)[address].(unanswered := results[address].unanswered + 1)]
  }

  /** An exchange begins, or has its answer. */
  function NoneLost(address: nat, results: map<nat, NodeResult>): (after: map<nat, NodeResult>)
    requires address in results.Keys
    ensures Charged(address, results, after, 0, 0)
    ensures after.Keys == results.Keys && after[address].unanswered == 0
  {
    results[address := results[address].(unanswered := 0)]
  }

  lemma ChargedTwice(address: nat, a: map<nat, NodeResult>, b: map<nat, NodeResult>, c: map<nat, NodeResult>,
                     sent: nat, lost: nat, sent': nat, lost': nat)
    requires Charged(address, a, b, sent, lost) && Charged(address, b, c, sent', lost')
    ensures Charged(address, a, c, sent + sent', lost + lost') && a.Keys == b.Keys == c.Keys
  {
  }

  /** One transmission of an exchange that was under way, answered or not. */
  lemma OneMoreTransmission(img: Image, links: map<nat, Link>, address: nat, start: map<nat, NodeResult>,
                            results: map<nat, NodeResult>, sent: nat)
    requires img.Valid() && Truthful(img, links, results) && Charged(address, start, results, sent, sent)
    ensures address in results.Keys && results.Keys == start.Keys
    ensures var answered := NoneLost(address, Charge(address, results, 1, 0));
            Truthful(img, links, answered) && Charged(address, start, answered, sent + 1, sent)
    ensures var lost := ChargeLost(address, Charge(address, results, 1, 0));
            Truthful(img, links, lost) && Charged(address, start, lost, sent + 1, sent + 1)
  {
    hide Truthful, Charge, ChargeLost, NoneLost;
    var once := Charge(address, results, 1, 0);
    ChargedTwice(address, start, results, once, sent, sent, 1, 0);
    ChargedTruthful(img, links, address, results, once, 1, 0);
    ChargedTwice(address, start, once, NoneLost(address, once), sent + 1, sent, 0, 0);
    ChargedTruthful(img, links, address, once, NoneLost(address, once), 0, 0);
    ChargedTwice(address, start, once, ChargeLost(address, once), sent + 1, sent, 0, 1);
    ChargedTruthful(img, links, address, once, ChargeLost(address, once), 0, 1);
  }

  lemma ChargedTruthful(img: Image, links: map<nat, Link>, address: nat,
                        before: map<nat, NodeResult>, after: map<nat, NodeResult>, sent: nat, lost: nat)
    requires img.Valid() && Truthful(img, links, before) && Charged(address, before, after, sent, lost)
    ensures Truthful(img, links, after) && after.Keys == before.Keys
    ensures after[address].updated == before[address].updated
  {
  }

  /** So many frames were sent to the node in between, none of them again. */
  predicate Spent(address: nat, before: map<nat, NodeResult>, after: map<nat, NodeResult>, frames: nat) {
    && address in before.Keys && address in after.Keys
    && after[address].framesSent == before[address].framesSent + frames
    && after[address].retransmissions == before[address].retransmissions
  }

  /** What one unicast update takes: the reset, the binary, its check, the checksum, two more status
      requests, the flash command, the handshake and the last status request. */
  function UnicastFrames(img: Image): nat
    requires img.Valid()
  {
    img.N() + img.K() + 7
  }

  lemma ChargedIsSpent(address: nat, before: map<nat, NodeResult>, after: map<nat, NodeResult>, sent: nat)
    requires Charged(address, before, after, sent, 0)
    ensures Spent(address, before, after, sent)
  {
  }

  lemma SpentReflexive(address: nat, results: map<nat, NodeResult>)
    requires address in results.Keys
    ensures Spent(address, results, results, 0)
  {
  }

  lemma SpentTwice(address: nat, a: map<nat, NodeResult>, b: map<nat, NodeResult>, c: map<nat, NodeResult>, m: nat, n: nat)
    requires Spent(address, a, b, m) && Spent(address, b, c, n)
    ensures Spent(address, a, c, m + n)
  {
  }

  /** Nothing is spent by notes on a result. */
  lemma NothingSpent(address: nat, results: map<nat, NodeResult>, r: NodeResult)
    requires address in results.Keys
    requires r.framesSent == results[address].framesSent && r.retransmissions == results[address].retransmissions
    ensures Spent(address, results, results[address := r], 0)
  {
  }

  lemma TruthfulKept(img: Image, kind: Kind, before: map<nat, Link>, after: map<nat, Link>, results: map<nat, NodeResult>)
    requires img.Valid() && AllSafe(img, kind, before)
    requires before.Keys == after.Keys && forall a :: a in before.Keys ==> Kept(img, before[a], after[a])
    requires Truthful(img, before, results)
    ensures Truthful(img, after, results)
  {
    hide SafeLink;
    forall a | a in results.Keys && results[a].updated
      ensures after[a].node.version == img.NewVersion()
    {
      assert Kept(img, before[a], after[a]);
    }
  }

  lemma ServingTruthful(img: Image, kind: Kind, address: nat, hears: bool,
                        before: map<nat, Link>, after: map<nat, Link>, results: map<nat, NodeResult>)
    requires img.Valid() && AllSafe(img, kind, before) && Serving(img, address, hears, before, after)
    requires Truthful(img, before, results)
    ensures before.Keys == after.Keys && Truthful(img, after, results)
  {
    hide SafeLink;
    TruthfulKept(img, kind, before, after, results);
  }

  lemma ServedIsSafe(img: Image, kind: Kind, address: nat, links: map<nat, Link>)
    requires img.Valid() && AllSafe(img, kind, links) && address in links.Keys
    ensures SafeLink(img, links[address]) && links[address].node.kind == kind
  {
  }

  lemma VersionKept(img: Image, kind: Kind, address: nat, before: map<nat, Link>, after: map<nat, Link>)
    requires img.Valid() && AllSafe(img, kind, before) && Serving(img, address, false, before, after)
    requires address in before.Keys
    ensures address in after.Keys
    ensures before[address].node.version == img.NewVersion() ==> after[address].node.version == img.NewVersion()
  {
    hide SafeLink;
    assert Kept(img, before[address], after[address]);
  }

  lemma ChargedNothing(address: nat, results: map<nat, NodeResult>)
    requires address in results.Keys
    ensures Charged(address, results, results, 0, 0)
  {
    assert results == results[address := results[address]];
  }

  lemma LevelReflexive(p: Potential)
    ensures NotAbove(p, p)
  {
  }

  lemma StageThroughTransmit(img: Image, stage: Stage, l: Link, mid: Link, m: GatewayMessage)
    requires img.Valid() && StageInv(img, stage, l) && Evolves(img, false, l, mid)
    requires Honest(img, l.node.kind, m) && Allowed(img, stage, m)
    ensures StageInv(img, stage, Sent(mid, m))
  {
    hide CollectingInv, SendingInv, SendingChecksumInv, ConfirmingInv, FlashingInv, CheckingBinaryInv, ResettingInv,
         AnnouncingInv;
    EvolvesKeepsStage(img, stage, false, l, mid);
    EvolvesKeepsSafe(img, false, l, mid);
    TransmitKeepsStage(img, stage, mid, m);
  }

  lemma StageThroughWait(img: Image, stage: Stage, l: Link, mid: Link)
    requires img.Valid() && StageInv(img, stage, l) && Evolves(img, false, l, mid)
    ensures StageInv(img, stage, mid)
    ensures mid.toGateway != [] ==>
              StageInv(img, NextStage(img, stage, mid.toGateway[0]), Popped(mid))
              && Learned(img, stage, mid.toGateway[0], mid.node)
  {
    hide StageInv;
    EvolvesKeepsStage(img, stage, false, l, mid);
    if mid.toGateway != [] {
      AcceptMovesStage(img, stage, mid);
    }
  }

  /** The frame counters of one result may have grown; nothing else differs. */
  predicate CountersOnly(address: nat, before: map<nat, NodeResult>, after: map<nat, NodeResult>) {
    && address in before.Keys && address in after.Keys
    && before[address].framesSent <= after[address].framesSent
    && before[address].retransmissions <= after[address].retransmissions
    && after == before[address := before[address].(framesSent := after[address].framesSent,
                                                   retransmissions := after[address].retransmissions,
                                                   unanswered := after[address].unanswered,
                                                   ignoredFlashes := after[address].ignoredFlashes)]
  }

  lemma CountersOnlyReflexive(address: nat, results: map<nat, NodeResult>)
    requires address in results.Keys
    ensures CountersOnly(address, results, results)
  {
    assert results == results[address := results[address]];
  }

  lemma CountersOnlyCharged(address: nat, before: map<nat, NodeResult>, mid: map<nat, NodeResult>,
                            after: map<nat, NodeResult>, sent: nat, lost: nat)
    requires CountersOnly(address, before, mid) && Charged(address, mid, after, sent, lost)
    ensures CountersOnly(address, before, after) && after.Keys == before.Keys == mid.Keys
  {
  }

  lemma NoneIgnored(img: Image, links: map<nat, Link>, address: nat, results: map<nat, NodeResult>)
    requires img.Valid() && Truthful(img, links, results) && address in results.Keys
    ensures var after := results[address := results[address].(ignoredFlashes := 0)];
            Truthful(img, links, after) && CountersOnly(address, results, after) && after.Keys == results.Keys
  {
  }

  /** A flash command that the node ignored counts as a retransmission. */
  function FlashLost(address: nat, results: map<nat, NodeResult>, ignored: nat): (after: map<nat, NodeResult>)
    requires address in results.Keys
    ensures after.Keys == results.Keys && after[address].ignoredFlashes == ignored
  {
    results[address := results[address].(retransmissions := results[address].retransmissions + 1,
                                         ignoredFlashes := ignored)]
  }

  lemma OneMoreIgnored(img: Image, links: map<nat, Link>, address: nat, before: map<nat, NodeResult>,
                       results: map<nat, NodeResult>, ignored: nat)
    requires img.Valid() && Truthful(img, links, results) && CountersOnly(address, before, results)
    ensures address in results.Keys && results.Keys == before.Keys
    ensures Truthful(img, links, FlashLost(address, results, ignored))
    ensures CountersOnly(address, before, FlashLost(address, results, ignored))
  {
  }

  function StageOf(which: Which, cursor: nat): Stage {
    if which.Binary? then Sending(cursor) else SendingChecksum(cursor)
  }

  lemma NextFragmentStage(img: Image, clean: bool, which: Which, cursor: nat, reply: NodeMessage)
    requires img.Valid() && AckValue(which, reply).Some?
    ensures NextStage(img, Mode(clean, StageOf(which, cursor)), reply)
            == Mode(clean, StageOf(which, AckValue(which, reply).value))
  {
  }

  lemma PieceIsAllowed(img: Image, kind: Kind, clean: bool, which: Which, cursor: nat)
    requires img.Valid() && cursor < Total(img, which)
    requires which.Binary? ==> kind.Unicast?
    ensures var m := Piece(img, which, cursor);
            Honest(img, kind, m) && Allowed(img, Mode(clean, StageOf(which, cursor)), m)
            && Metered(img, Meter(which, cursor), kind, m, AckWanted(which))
  {
  }

  lemma RemainingIsNatural(img: Image, which: Which, cursor: nat, l: Link)
    requires img.Valid() && SafeLink(img, l)
    ensures PotentialOf(img, which, cursor, l).remaining >= 0
  {
  }

  lemma DriftedServing(img: Image, kind: Kind, address: nat, before: map<nat, Link>, after: map<nat, Link>)
    requires img.Valid() && Drifted(img, before, after) && AllSafe(img, kind, before)
    ensures Serving(img, address, false, before, after) && AllSafe(img, kind, after)
  {
    hide SafeLink, Evolves;
    DriftedSafe(img, kind, before, after);
  }

  /** A status read while the image is confirmed, or while the node is told to flash. */
  /** What a status proves in the stages in which the gateway asks for one. */
  ghost predicate Told(img: Image, clean: bool, stage: Stage, r: NodeMessage, l: Link)
    requires img.Valid()
  {
    && r.StatusResponse? && StageInv(img, Mode(clean, stage), l)
    && (r.firmwareVersion == img.NewVersion() ==> l.node.version == img.NewVersion())
    && (clean && stage.CheckingBinary? ==> r.binaryFragments == img.N())
    && (clean && stage.Confirming? ==> r.checksumFragments == img.K() && r.checksumValid)
    && (clean && stage.Flashing? ==> r.firmwareVersion == img.NewVersion() || r.checksumValid)
  }

  lemma StatusMeans(img: Image, clean: bool, stage: Stage, r: NodeMessage, l: Link)
    requires img.Valid() && r.StatusResponse?
    requires stage.CheckingBinary? || stage.Confirming? || stage.Flashing?
    requires StageInv(img, NextStage(img, Mode(clean, stage), r), l) && Learned(img, Mode(clean, stage), r, l.node)
    ensures Told(img, clean, stage, r, l)
  {
    hide StageInv;
  }

  lemma PlainMessages(img: Image, kind: Kind, clean: bool, stage: Stage)
    requires img.Valid()
    requires stage.CheckingBinary? || stage.Confirming? || stage.Flashing?
    ensures Honest(img, kind, StatusRequest) && Allowed(img, Mode(clean, stage), StatusRequest)
    ensures Honest(img, kind, HandshakeRequest) && Honest(img, kind, FlashNewVersion)
    ensures stage.Flashing? ==>
              Allowed(img, Mode(clean, stage), HandshakeRequest) && Allowed(img, Mode(clean, stage), FlashNewVersion)
    ensures Metered(img, Unmetered, kind, StatusRequest, WantStatus)
    ensures Metered(img, Unmetered, kind, HandshakeRequest, WantHandshake)
  {
  }

  lemma HandshakeKeepsStage(img: Image, clean: bool, r: NodeMessage, l: Link)
    requires img.Valid() && r.HandshakeResponse?
    requires StageInv(img, NextStage(img, Mode(clean, Flashing), r), l)
    ensures StageInv(img, Mode(clean, Flashing), l)
  {
    hide StageInv;
  }

  lemma ChecksumSent(img: Image, clean: bool, l: Link, last: nat)
    requires img.Valid() && StageInv(img, Mode(clean, StageOf(Checksum, last)), l) && last >= img.K()
    ensures StageInv(img, Mode(clean, Confirming), l)
  {
    if clean {
      ChecksumThenConfirm(img, l, last);
    }
  }

  lemma StartFlashing(img: Image, clean: bool, l: Link)
    requires img.Valid() && StageInv(img, Mode(clean, Confirming), l)
    ensures StageInv(img, Mode(clean, Flashing), l)
  {
    if clean {
      ConfirmThenFlash(img, l);
    }
  }

  lemma CountersOnlyTransitive(address: nat, a: map<nat, NodeResult>, b: map<nat, NodeResult>, c: map<nat, NodeResult>)
    requires CountersOnly(address, a, b) && CountersOnly(address, b, c)
    ensures CountersOnly(address, a, c)
  {
  }

  /** Nothing but statistics changed: no verdict, no restart count, no other node's result. */
  predicate SameVerdict(address: nat, before: map<nat, NodeResult>, after: map<nat, NodeResult>) {
    && before.Keys == after.Keys && address in before.Keys
    && (forall a :: a in before.Keys && a != address ==> after[a] == before[a])
    && after[address].updated == before[address].updated
    && after[address].restarts == before[address].restarts
    && before[address].retransmissions <= after[address].retransmissions
    && before[address].repairRounds <= after[address].repairRounds
  }

  /** The latest exchange with the address ended after this many transmissions, none answered. */
  predicate Silent(address: nat, results: map<nat, NodeResult>, attempts: nat) {
    address in results.Keys && results[address].unanswered == attempts
  }

  predicate FlashIgnored(address: nat, results: map<nat, NodeResult>, attempts: nat) {
    address in results.Keys && results[address].ignoredFlashes == attempts
  }

  /** The two ways in which a node becomes unreachable outside the broadcast repair. */
  predicate NoAnswer(address: nat, results: map<nat, NodeResult>, attempts: nat) {
    Silent(address, results, attempts) || FlashIgnored(address, results, attempts)
  }

  /** A node is given up on only after an exchange of `maxAttempts` unanswered transmissions,
      after as many ignored flash commands, or (in the broadcast repair) after the allowed number
      of repair rounds. */
  predicate GaveUp(address: nat, before: map<nat, NodeResult>, after: map<nat, NodeResult>,
                   limits: Limits) {
    || NoAnswer(address, after, limits.attempts)
    || (limits.variant.BroadcastOnly? && address in before.Keys && address in after.Keys
        && before[address].repairRounds + limits.repairRounds <= after[address].repairRounds)
  }

  /** What the result of such a node says. */
  predicate Abandoned(r: NodeResult, limits: Limits) {
    || r.unanswered == limits.attempts || r.ignoredFlashes == limits.attempts
    || (limits.variant.BroadcastOnly? && limits.repairRounds <= r.repairRounds)
  }

  lemma SameVerdictReflexive(address: nat, results: map<nat, NodeResult>)
    requires address in results.Keys
    ensures SameVerdict(address, results, results)
  {
  }

  lemma SameVerdictCounters(address: nat, a: map<nat, NodeResult>, b: map<nat, NodeResult>, c: map<nat, NodeResult>)
    requires SameVerdict(address, a, b) && CountersOnly(address, b, c)
    ensures SameVerdict(address, a, c)
  {
  }

  lemma SameVerdictTransitive(address: nat, a: map<nat, NodeResult>, b: map<nat, NodeResult>, c: map<nat, NodeResult>)
    requires SameVerdict(address, a, b) && SameVerdict(address, b, c)
    ensures SameVerdict(address, a, c)
  {
  }

  lemma RepairRoundCounted(img: Image, links: map<nat, Link>, address: nat, a: map<nat, NodeResult>,
                           b: map<nat, NodeResult>, c: map<nat, NodeResult>)
    requires img.Valid() && Truthful(img, links, b) && SameVerdict(address, a, b)
    requires c == b[address := b[address].(repairRounds := b[address].repairRounds + 1)]
    ensures SameVerdict(address, a, c) && Truthful(img, links, c) && c.Keys == b.Keys
  {
  }

  lemma ChargedVerdict(address: nat, a: map<nat, NodeResult>, b: map<nat, NodeResult>, c: map<nat, NodeResult>, sent: nat)
    requires SameVerdict(address, a, b) && Charged(address, b, c, sent, 0)
    ensures SameVerdict(address, a, c) && c.Keys == b.Keys && address in b.Keys
    ensures c[address].repairRounds == b[address].repairRounds
  {
  }

  lemma FreshResult(img: Image, links: map<nat, Link>, address: nat, results: map<nat, NodeResult>)
    requires img.Valid() && Truthful(img, links, results)
    ensures Truthful(img, links, results[address := NodeResult(0, 0, 0, false, None, 0, 0, 0)])
  {
  }

  lemma RestartCounted(img: Image, links: map<nat, Link>, address: nat, results: map<nat, NodeResult>, restart: nat)
    requires img.Valid() && Truthful(img, links, results) && address in results.Keys
    ensures Truthful(img, links, results[address := results[address].(restarts := restart)])
  {
  }

  lemma UpdatedCounted(img: Image, links: map<nat, Link>, address: nat, results: map<nat, NodeResult>)
    requires img.Valid() && Truthful(img, links, results) && address in results.Keys
    requires address in links.Keys && links[address].node.version == img.NewVersion()
    ensures Truthful(img, links, results[address := results[address].(updated := true)])
  {
  }

  /** No other result was touched; this address has one. */
  predicate OthersSame(address: nat, before: map<nat, NodeResult>, after: map<nat, NodeResult>) {
    && after.Keys == before.Keys + {address}
    && (forall a :: a in before.Keys && a != address ==> after[a] == before[a])
  }

  lemma VerdictEffects(address: nat, start: map<nat, NodeResult>, before: map<nat, NodeResult>, after: map<nat, NodeResult>)
    requires OthersSame(address, start, before) && SameVerdict(address, before, after)
    ensures address in before.Keys && OthersSame(address, start, after) && address in after.Keys
    ensures after[address].restarts == before[address].restarts
  {
  }

  lemma GivenUp(address: nat, start: map<nat, NodeResult>, before: map<nat, NodeResult>, after: map<nat, NodeResult>,
                limits: Limits)
    requires OthersSame(address, start, after)
    ensures address in after.Keys
    ensures GaveUp(address, before, after, limits) && after[address].restarts == 0 && !limits.sure ==>
              Decided(after[address], limits)
  {
  }

  lemma GivenUpAtLast(address: nat, before: map<nat, NodeResult>, after: map<nat, NodeResult>, limits: Limits)
    requires GaveUp(address, before, after, limits)
    ensures address in after.Keys && Abandoned(after[address], limits)
  {
  }

  lemma OneMoreDecided(address: nat, before: map<nat, NodeResult>, after: map<nat, NodeResult>, pending: seq<nat>,
                       limits: Limits)
    requires OthersSame(address, before, after)
    requires AllDecided(before, pending, limits)
    requires address in after.Keys && Decided(after[address], limits)
    requires pending != [] ==> pending[0] == address
    ensures AllDecided(after, if pending == [] then [] else pending[1..], limits)
  {
    if pending != [] {
      assert forall a :: a in pending ==> a == address || a in pending[1..];
    }
  }

  lemma OthersSameReflexive(address: nat, results: map<nat, NodeResult>)
    requires address in results.Keys
    ensures OthersSame(address, results, results)
  {
  }

  /** A node's result after the announcement: no verdict yet. */
  lemma BlankResult(address: nat, start: map<nat, NodeResult>, blank: map<nat, NodeResult>, after: map<nat, NodeResult>)
    requires blank == start[address := NodeResult(0, 0, 0, false, None, 0, 0, 0)] && CountersOnly(address, blank, after)
    ensures OthersSame(address, start, after) && address in after.Keys
    ensures after[address].restarts == 0 && !after[address].updated && after[address].missingAfterBroadcast.None?
  {
  }

  lemma KeysStay(address: nat, before: map<nat, NodeResult>, after: map<nat, NodeResult>)
    requires OthersSame(address, before, after)
    ensures before.Keys <= after.Keys && address in after.Keys
  {
  }

  lemma OwnUpdate(address: nat, start: map<nat, NodeResult>, before: map<nat, NodeResult>, r: NodeResult)
    requires OthersSame(address, start, before) || (before == start && address !in start.Keys)
    ensures OthersSame(address, start, before[address := r])
  {
  }

  lemma RoundsKept(address: nat, before: map<nat, NodeResult>, after: map<nat, NodeResult>)
    requires SameVerdict(address, before, after)
    ensures address in after.Keys && address in before.Keys
    ensures before[address].repairRounds <= after[address].repairRounds
  {
  }

  lemma SameVerdictKeys(address: nat, before: map<nat, NodeResult>, after: map<nat, NodeResult>)
    requires SameVerdict(address, before, after)
    ensures before.Keys == after.Keys && address in after.Keys
  {
  }

  lemma SafeMeansAnyStage(img: Image, kind: Kind, address: nat, links: map<nat, Link>)
    requires img.Valid() && AllSafe(img, kind, links) && address in links.Keys
    ensures StageInv(img, AnyTraffic, links[address])
  {
  }

  /** What a clean attempt starts from: for unicast nothing in the air, for the broadcast
      methods a node that has confirmed the announcement. Over an air that loses nothing, no
      reply is left over either. */
  ghost predicate Ready(img: Image, limits: Limits, l: Link)
    requires img.Valid()
  {
    && (if limits.variant.UnicastOnly? then Quiet(l) else StageInv(img, Collecting({}, false), l))
    && (limits.sure ==> Hushed(l))
  }

  lemma ReadyToReset(img: Image, clean: bool, l: Link)
    requires img.Valid() && SafeLink(img, l) && l.node.kind.Unicast? && (clean ==> Quiet(l))
    ensures StageInv(img, Mode(clean, Resetting), l)
    ensures Honest(img, Unicast, ResetRequest) && Allowed(img, Mode(clean, Resetting), ResetRequest)
  {
  }

  lemma ResetDone(img: Image, clean: bool, r: NodeMessage, l: Link)
    requires img.Valid() && r.ResetConfirmed?
    requires StageInv(img, NextStage(img, Mode(clean, Resetting), r), l) && Learned(img, Mode(clean, Resetting), r, l.node)
    ensures r.firmwareVersion == img.NewVersion() ==> l.node.version == img.NewVersion()
    ensures r.firmwareVersion != img.NewVersion() ==> StageInv(img, Mode(clean, StageOf(Binary, 0)), l)
  {
    if clean && r.firmwareVersion != img.NewVersion() {
      ResetThenSend(img, l);
    }
  }

  lemma BinarySent(img: Image, clean: bool, l: Link, last: nat)
    requires img.Valid() && StageInv(img, Mode(clean, StageOf(Binary, last)), l) && last >= img.N()
    ensures StageInv(img, Mode(clean, CheckingBinary), l)
    ensures clean ==> BinaryComplete(l.node)
  {
    if clean {
      SentEverything(img, l, last);
    }
  }

  lemma BinaryChecked(img: Image, clean: bool, l: Link)
    requires img.Valid() && StageInv(img, Mode(clean, CheckingBinary), l)
    ensures StageInv(img, Mode(clean, SendingChecksum(0)), l)
  {
    if clean {
      CheckedThenChecksum(img, l);
    }
  }

  /** The numbers a bitmap does not mark, among the first n. */
  function MissingFrom(received: seq<bool>, n: nat): (missing: seq<nat>)
    requires n <= |received|
    ensures forall i: nat :: i in missing <==> i < n && !received[i]
    ensures forall j, k :: 0 <= j < k < |missing| ==> missing[j] < missing[k]
  {
    if n == 0 then []
    else
      var before := MissingFrom(received, n - 1);
      assert forall j :: 0 <= j < |before| ==> before[j] in before;
      before + (if received[n - 1] then [] else [n - 1])
  }

  /** What a reply to the bitmap request proves about the chunks that are not asked for again. */
  lemma BitmapMeans(img: Image, clean: bool, known: set<nat>, sure: bool, r: NodeMessage, l: Link)
    returns (known': set<nat>)
    requires img.Valid() && (r.Bitmap? || r.AllChunksReceived?)
    requires StageInv(img, NextStage(img, Mode(clean, Collecting(known, sure)), r), l)
    requires Learned(img, Mode(clean, Collecting(known, sure)), r, l.node)
    ensures StageInv(img, Mode(clean, Collecting(known', true)), l)
    ensures clean && r.Bitmap? ==> |r.received| >= img.N()
    ensures r.Bitmap? && |r.received| >= img.N() ==>
              forall i: nat :: i < img.N() && i !in MissingFrom(r.received, img.N()) ==> i in known'
    ensures r.AllChunksReceived? ==> forall i: nat :: i < img.N() ==> i in known'
  {
    hide StageInv;
    known' := known + (if r.Bitmap? then MarkedIn(r.received, img.N()) else Numbers(img.N()));
    if clean && r.AllChunksReceived? {
      known' := Numbers(img.N());
    }
  }

  /** Nothing outside the list of missing chunks is lacking at the node. */
  lemma KnownIsHeld(img: Image, known: set<nat>, l: Link)
    requires img.Valid() && StageInv(img, Collecting(known, true), l)
    ensures |l.node.chunks| == img.N()
    ensures forall i :: 0 <= i < img.N() && l.node.chunks[i].None? ==> i !in known
  {
  }

  lemma Collected(img: Image, clean: bool, l: Link, known: set<nat>)
    requires img.Valid() && StageInv(img, Mode(clean, Collecting(known, true)), l)
    requires forall i: nat :: i < img.N() ==> i in known
    ensures StageInv(img, Mode(clean, CheckingBinary), l)
    ensures clean ==> BinaryComplete(l.node)
  {
    if clean {
      CollectedEverything(img, l, known);
    }
  }

  lemma CollectingMessages(img: Image, clean: bool, known: set<nat>, sure: bool)
    requires img.Valid()
    ensures Honest(img, Broadcast, SendMeTheBitmap) && Allowed(img, Mode(clean, Collecting(known, sure)), SendMeTheBitmap)
    ensures forall i: nat :: i < img.N() ==>
              Honest(img, Broadcast, FragmentOf(img, i)) && Allowed(img, Mode(clean, Collecting(known, sure)), FragmentOf(img, i))
  {
  }

  lemma FragmentAcked(img: Image, clean: bool, known: set<nat>, number: nat, r: NodeMessage, l: Link)
    requires img.Valid() && Matches(WantFragmentAck(number), r)
    requires StageInv(img, NextStage(img, Mode(clean, Collecting(known, true)), r), l)
    ensures StageInv(img, Mode(clean, Collecting(known + {number}, true)), l)
  {
    hide StageInv;
  }

  /** Every node within earshot of one broadcast fragment. */
  function Heard(img: Image, links: map<nat, Link>, number: nat): (after: map<nat, Link>)
    requires img.Valid()
    ensures after.Keys == links.Keys
    ensures forall a :: a in links.Keys ==> after[a] == Step(img, links[a], Hear(number))
  {
    map a | a in links.Keys :: Step(img, links[a], Hear(number))
  }

  ghost predicate EvolveAll(img: Image, before: map<nat, Link>, after: map<nat, Link>)
    requires img.Valid()
  {
    before.Keys == after.Keys && forall a :: a in before.Keys ==> Evolves(img, true, before[a], after[a])
  }

  lemma HeardServing(img: Image, kind: Kind, address: nat, before: map<nat, Link>, drifted: map<nat, Link>, number: nat)
    requires img.Valid() && Drifted(img, before, drifted) && AllSafe(img, kind, before)
    ensures AllSafe(img, kind, Heard(img, drifted, number))
    ensures Serving(img, address, true, before, Heard(img, drifted, number))
    ensures EvolveAll(img, before, Heard(img, drifted, number))
  {
    hide SafeLink;
    DriftedSafe(img, kind, before, drifted);
    var after := Heard(img, drifted, number);
    forall a | a in before.Keys
      ensures SafeLink(img, after[a]) && after[a].node.kind == kind
      ensures Kept(img, before[a], after[a]) && Evolves(img, true, before[a], after[a])
    {
      StepKeepsSafe(img, drifted[a], Hear(number));
      EvolvesStep(img, true, drifted[a], Hear(number));
      WeakenEvolves(img, before[a], drifted[a]);
      EvolvesTransitive(img, true, before[a], drifted[a], after[a]);
      EvolvesKeepsSafe(img, true, before[a], after[a]);
    }
  }

  lemma WeakenEvolves(img: Image, l: Link, l': Link)
    requires img.Valid() && Evolves(img, false, l, l')
    ensures Evolves(img, true, l, l')
  {
    var events :| (false || NoHears(events)) && l' == Run(img, l, events);
    assert (true || NoHears(events)) && l' == Run(img, l, events);
  }

  lemma HeardKeepsStage(img: Image, stage: Stage, l: Link, drifted: Link, number: nat)
    requires img.Valid() && StageInv(img, stage, l) && HearsBroadcasts(stage) && Evolves(img, false, l, drifted)
    ensures StageInv(img, stage, Step(img, drifted, Hear(number)))
  {
    hide StageInv;
    EvolvesKeepsStage(img, stage, false, l, drifted);
    StepKeepsStage(img, stage, drifted, Hear(number));
  }

  /** The verdict on a node after a clean run: first attempt only, and either updated or given
      up on after an exchange that stayed unanswered throughout, the allowed number of ignored
      flash commands, or the allowed number of repair rounds. */
  predicate Decided(r: NodeResult, limits: Limits) {
    && r.restarts == 0
    && (limits.sure ==> r.updated)
    && (r.updated || Abandoned(r, limits))
  }

  predicate AllDecided(results: map<nat, NodeResult>, pending: seq<nat>, limits: Limits) {
    forall a :: a in results.Keys ==> a in pending || Decided(results[a], limits)
  }

  ghost predicate AllReady(img: Image, limits: Limits, links: map<nat, Link>, addresses: seq<nat>)
    requires img.Valid()
  {
    forall a :: a in addresses ==> a in links.Keys && Ready(img, limits, links[a])
  }

  /** Addresses that are not served stay ready. */
  lemma ReadyStays(img: Image, limits: Limits, address: nat, hears: bool,
                   before: map<nat, Link>, after: map<nat, Link>, addresses: seq<nat>)
    requires img.Valid() && Serving(img, address, hears, before, after)
    requires AllReady(img, limits, before, addresses) && address !in addresses
    requires hears ==> !limits.variant.UnicastOnly?
    ensures AllReady(img, limits, after, addresses)
  {
    hide StageInv, Hushed;
    forall a | a in addresses
      ensures a in after.Keys && Ready(img, limits, after[a])
    {
      assert a in before.Keys && a != address;
      if limits.sure {
        HushedEvolves(img, hears, before[a], after[a]);
      }
      if limits.variant.UnicastOnly? {
        var events :| (false || NoHears(events)) && after[a] == Run(img, before[a], events);
        QuietStays(img, before[a], events);
      } else {
        EvolvesKeepsStage(img, Collecting({}, false), hears, before[a], after[a]);
      }
    }
  }

  lemma ReadyThroughBroadcast(img: Image, limits: Limits, before: map<nat, Link>, after: map<nat, Link>, addresses: seq<nat>)
    requires img.Valid() && EvolveAll(img, before, after) && !limits.variant.UnicastOnly?
    requires AllReady(img, limits, before, addresses)
    ensures AllReady(img, limits, after, addresses)
  {
    hide StageInv, Evolves, Hushed;
    forall a | a in addresses
      ensures a in after.Keys && Ready(img, limits, after[a])
    {
      if limits.sure {
        HushedEvolves(img, true, before[a], after[a]);
      }
      EvolvesKeepsStage(img, Collecting({}, false), true, before[a], after[a]);
    }
  }

  // ---- What the broadcast stage sends ----

  /** The links are what becomes of them when fragments with these numbers are broadcast in this
      order, and the world moves on in between. */
  ghost predicate Aired(img: Image, before: map<nat, Link>, after: map<nat, Link>, numbers: seq<nat>)
    requires img.Valid()
    decreases |numbers|
  {
    if numbers == [] then Drifted(img, before, after)
    else
      var n := |numbers| - 1;
      exists mid :: Aired(img, before, mid, numbers[..n]) && Drifted(img, Heard(img, mid, numbers[n]), after)
  }

  lemma DriftedTransitive(img: Image, a: map<nat, Link>, b: map<nat, Link>, c: map<nat, Link>)
    requires img.Valid() && Drifted(img, a, b) && Drifted(img, b, c)
    ensures Drifted(img, a, c)
  {
    hide Evolves;
    forall x | x in a.Keys
      ensures Evolves(img, false, a[x], c[x])
    {
      EvolvesTransitive(img, false, a[x], b[x], c[x]);
    }
  }

  lemma AiredDrifts(img: Image, before: map<nat, Link>, links: map<nat, Link>, after: map<nat, Link>, numbers: seq<nat>)
    requires img.Valid() && Aired(img, before, links, numbers) && Drifted(img, links, after)
    ensures Aired(img, before, after, numbers)
  {
    hide Drifted, Heard;
    if numbers == [] {
      DriftedTransitive(img, before, links, after);
    } else {
      var n := |numbers| - 1;
      var mid :| Aired(img, before, mid, numbers[..n]) && Drifted(img, Heard(img, mid, numbers[n]), links);
      DriftedTransitive(img, Heard(img, mid, numbers[n]), links, after);
    }
  }

  lemma NothingAired(img: Image, links: map<nat, Link>)
    requires img.Valid()
    ensures Aired(img, links, links, []) && InRounds([], img.N(), 0)
  {
    DriftedReflexive(img, links);
  }

  lemma NobodyToComplete(img: Image, links: map<nat, Link>)
    requires img.Valid()
    ensures AllComplete(img, links, [])
  {
  }

  /** One more fragment. */
  lemma OneMoreAired(img: Image, before: map<nat, Link>, links: map<nat, Link>, drifted: map<nat, Link>,
                     numbers: seq<nat>, number: nat)
    requires img.Valid() && Aired(img, before, links, numbers) && Drifted(img, links, drifted)
    ensures Aired(img, before, Heard(img, drifted, number), numbers + [number])
  {
    hide Drifted, Heard;
    AiredDrifts(img, before, links, drifted, numbers);
    DriftedReflexive(img, Heard(img, drifted, number));
    var all := numbers + [number];
    assert all[..|all| - 1] == numbers;
  }

  /** Fragments 0 to n - 1 in order, as many times as asked for. */
  predicate InRounds(numbers: seq<nat>, n: nat, rounds: nat) {
    n > 0 && |numbers| == rounds * n && forall j :: 0 <= j < |numbers| ==> numbers[j] == j % n
  }

  /** The same with a round under way. */
  predicate InRound(numbers: seq<nat>, n: nat, round: nat, next: nat) {
    n > 0 && |numbers| == round * n + next && forall j :: 0 <= j < |numbers| ==> numbers[j] == j % n
  }

  lemma OneMoreInRound(numbers: seq<nat>, n: nat, round: nat, next: nat)
    requires InRound(numbers, n, round, next) && next < n
    ensures InRound(numbers + [next], n, round, next + 1)
  {
    ModuloUnique(round * n + next, n, round, next);
  }

  lemma RoundIsOver(numbers: seq<nat>, n: nat, round: nat)
    requires InRound(numbers, n, round, n)
    ensures InRounds(numbers, n, round + 1)
  {
  }

  lemma RoundBegins(numbers: seq<nat>, n: nat, round: nat)
    requires InRounds(numbers, n, round)
    ensures InRound(numbers, n, round, 0)
  {
  }

  /** Every one of these nodes holds, or has on its way, all chunks but those from number k on. */
  ghost predicate ReachedUpTo(img: Image, links: map<nat, Link>, addresses: seq<nat>, k: nat)
    requires img.Valid()
  {
    forall a :: a in addresses ==>
      && a in links.Keys && Hushed(links[a]) && links[a].node.kind.Broadcast?
      && CoveredBut(img, links[a], UpTo(img.N()), k)
  }

  lemma NobodyReached(img: Image, limits: Limits, links: map<nat, Link>, addresses: seq<nat>)
    requires img.Valid() && limits.sure && !limits.variant.UnicastOnly? && AllReady(img, limits, links, addresses)
    ensures ReachedUpTo(img, links, addresses, 0)
  {
    hide Hushed, CoveredBut;
    forall a | a in addresses
      ensures links[a].node.kind.Broadcast? && CoveredBut(img, links[a], UpTo(img.N()), 0)
    {
      assert Ready(img, limits, links[a]);
      NothingSentYet(img, links[a]);
    }
  }

  lemma NextReached(img: Image, kind: Kind, before: map<nat, Link>, mid: map<nat, Link>, addresses: seq<nat>, k: nat)
    requires img.Valid() && AllSafe(img, kind, before) && ReachedUpTo(img, before, addresses, k) && k < img.N()
    requires mid.Keys == before.Keys && forall a :: a in before.Keys ==> mid[a] == Drain(img, before[a])
    ensures ReachedUpTo(img, Heard(img, mid, k), addresses, k + 1)
  {
    hide Hushed, CoveredBut, SafeLink, Drain, Step;
    forall a | a in addresses
      ensures var l := Heard(img, mid, k)[a];
              Hushed(l) && l.node.kind.Broadcast? && CoveredBut(img, l, UpTo(img.N()), k + 1)
    {
      CalmBroadcast(img, before[a], UpTo(img.N()), k);
      HushedDrains(img, before[a]);
      HearKeepsKind(img, mid[a], k);
    }
  }

  lemma HearKeepsKind(img: Image, l: Link, number: nat)
    requires img.Valid()
    ensures Step(img, l, Hear(number)).node == l.node
  {
  }

  lemma StillReached(img: Image, kind: Kind, before: map<nat, Link>, mid: map<nat, Link>, addresses: seq<nat>, number: nat)
    requires img.Valid() && AllSafe(img, kind, before) && ReachedUpTo(img, before, addresses, img.N()) && number < img.N()
    requires mid.Keys == before.Keys && forall a :: a in before.Keys ==> mid[a] == Drain(img, before[a])
    ensures ReachedUpTo(img, Heard(img, mid, number), addresses, img.N())
  {
    hide Hushed, CoveredBut, AllCovered, SafeLink, Drain, Step;
    forall a | a in addresses
      ensures var l := Heard(img, mid, number)[a];
              Hushed(l) && l.node.kind.Broadcast? && CoveredBut(img, l, UpTo(img.N()), img.N())
    {
      NoneLeftOut(img, before[a], UpTo(img.N()));
      CalmHearing(img, before[a], number);
      CoveredButNone(img, Heard(img, mid, number)[a]);
    }
  }

  lemma CoveredButNone(img: Image, l: Link)
    requires img.Valid() && AllCovered(img, l)
    ensures CoveredBut(img, l, UpTo(img.N()), img.N())
  {
    hide Covered;
  }

  /** Nothing is under way to these nodes, and they hold every chunk. */
  ghost predicate AllComplete(img: Image, links: map<nat, Link>, addresses: seq<nat>)
    requires img.Valid()
  {
    forall a :: a in addresses ==> a in links.Keys && Quiet(links[a]) && AllCovered(img, links[a])
  }

  lemma ReachedThenComplete(img: Image, kind: Kind, before: map<nat, Link>, after: map<nat, Link>, addresses: seq<nat>)
    requires img.Valid() && AllSafe(img, kind, before) && ReachedUpTo(img, before, addresses, img.N())
    requires after.Keys == before.Keys && forall a :: a in before.Keys ==> after[a] == Drain(img, before[a])
    ensures AllComplete(img, after, addresses)
  {
    hide Hushed, CoveredBut, AllCovered, SafeLink, Drain, Quiet;
    forall a | a in addresses
      ensures Quiet(after[a]) && AllCovered(img, after[a])
    {
      NoneLeftOut(img, before[a], UpTo(img.N()));
      DrainedHasAll(img, before[a]);
    }
  }

  lemma CompleteStays(img: Image, address: nat, before: map<nat, Link>, after: map<nat, Link>, addresses: seq<nat>)
    requires img.Valid() && Serving(img, address, false, before, after)
    requires AllComplete(img, before, addresses) && address !in addresses
    ensures AllComplete(img, after, addresses)
  {
    hide AllCovered, Quiet;
    assert AllQuiet(before, addresses);
    AllQuietStays(img, address, before, after, addresses);
  }

  lemma NextComplete(img: Image, links: map<nat, Link>, pending: seq<nat>, k: nat)
    requires img.Valid() && k < |pending| && AllComplete(img, links, pending[k..])
    ensures pending[k] in links.Keys && AllCovered(img, links[pending[k]]) && AllComplete(img, links, pending[k + 1..])
  {
    hide AllCovered, Quiet;
    assert pending[k] in pending[k..];
    assert forall a :: a in pending[k + 1..] ==> a in pending[k..];
  }

  /** A result after an update at once: nothing was sent again. */
  predicate ServedAtOnce(img: Image, r: NodeResult)
    requires img.Valid()
  {
    r.framesSent == img.K() + 8 && r.retransmissions == 0 && r.missingAfterBroadcast == Some(0)
  }

  /** The nodes that were served were so at once; the others were announced to and no more. */
  predicate AtOnceSoFar(img: Image, results: map<nat, NodeResult>, pending: seq<nat>, k: nat)
    requires img.Valid()
  {
    && k <= |pending| && Distinct(pending)
    && (forall a :: a in pending ==> a in results.Keys)
    && (forall a :: a in pending[..k] ==> ServedAtOnce(img, results[a]))
    && (forall a :: a in pending[k..] ==> OnlyAnnounced(results[a]))
  }

  lemma NobodyAskedYet(img: Image, results: map<nat, NodeResult>, pending: seq<nat>)
    requires img.Valid() && Distinct(pending) && forall a :: a in pending ==> a in results.Keys && OnlyAnnounced(results[a])
    ensures AtOnceSoFar(img, results, pending, 0)
  {
  }

  lemma NotAskedYet(img: Image, results: map<nat, NodeResult>, pending: seq<nat>, k: nat)
    requires img.Valid() && AtOnceSoFar(img, results, pending, k) && k < |pending|
    ensures pending[k] in results.Keys && OnlyAnnounced(results[pending[k]])
  {
    assert pending[k] in pending[k..];
  }

  lemma AllAtOnce(img: Image, results: map<nat, NodeResult>, pending: seq<nat>)
    requires img.Valid() && AtOnceSoFar(img, results, pending, |pending|)
    ensures forall a :: a in pending ==> a in results.Keys && ServedAtOnce(img, results[a])
  {
    assert pending[..|pending|] == pending;
  }

  lemma OneMoreAtOnce(img: Image, before: map<nat, NodeResult>, after: map<nat, NodeResult>, pending: seq<nat>, k: nat)
    requires img.Valid() && AtOnceSoFar(img, before, pending, k) && k < |pending| && OthersSame(pending[k], before, after)
    requires AtOnce(img, pending[k], before, after)
    ensures AtOnceSoFar(img, after, pending, k + 1)
  {
    TheRest(pending, k);
    assert pending[..k + 1] == pending[..k] + [pending[k]];
    assert pending[k] in pending[k..];
  }

  lemma DriftedEvolvesAll(img: Image, before: map<nat, Link>, after: map<nat, Link>)
    requires img.Valid() && Drifted(img, before, after)
    ensures EvolveAll(img, before, after)
  {
    hide Evolves;
    forall a | a in before.Keys
      ensures Evolves(img, true, before[a], after[a])
    {
      WeakenEvolves(img, before[a], after[a]);
    }
  }

  /** Nothing is in the air, and so many fragments are stored. */
  predicate Stands(l: Link, which: Which, next: nat) {
    Quiet(l) && Stored(which, l.node) == next
  }

  /** Over a calm air every fragment is stored at once, and the next one is asked for. */
  lemma CalmPiece(img: Image, which: Which, next: nat, l: Link, reply: Option<NodeMessage>, l': Link)
    requires img.Valid() && SafeLink(img, l) && (which.Binary? ==> l.node.kind.Unicast?)
    requires Stands(l, which, next) && next < Total(img, which)
    requires CalmAnswer(img, l, Piece(img, which, next), reply, l')
    ensures reply.Some? && AckValue(which, reply.value) == Some(next + 1) && Stands(l', which, next + 1)
  {
    assert Drain(img, l) == l;
  }

  lemma CalmReset(img: Image, l: Link, reply: Option<NodeMessage>, l': Link)
    requires img.Valid() && SafeLink(img, l) && Quiet(l) && l.node.kind.Unicast?
    requires CalmAnswer(img, l, ResetRequest, reply, l')
    ensures reply == Some(ResetConfirmed(l.node.version)) && Stands(l', Binary, 0)
  {
    assert Drain(img, l) == l;
  }

  /** A node whose binary is being checked has none of the checksum yet. */
  lemma CalmCheck(img: Image, l: Link, reply: Option<NodeMessage>, l': Link)
    requires img.Valid() && StageInv(img, CheckingBinary, l)
    requires CalmAnswer(img, l, StatusRequest, reply, l')
    ensures Stands(l', Checksum, 0)
  {
    hide Drain, Evolves, SafeLink;
    DrainEvolves(img, l);
    EvolvesKeepsStage(img, CheckingBinary, false, l, Drain(img, l));
  }

  /** What a status must say before the checksum is sent, and before the node is told to flash. */
  predicate CountIs(img: Image, report: NodeMessage)
    requires img.Valid()
  {
    report.StatusResponse? && report.binaryFragments == img.N()
  }

  predicate ReadyToFlash(img: Image, first: NodeMessage, second: NodeMessage)
    requires img.Valid()
  {
    first.StatusResponse? && first.checksumFragments == img.K() && second.StatusResponse? && second.checksumValid
  }

  predicate NotReady(img: Image, first: NodeMessage, second: NodeMessage)
    requires img.Valid()
  {
    first.StatusResponse? && (first.checksumFragments != img.K() || (second.StatusResponse? && !second.checksumValid))
  }

  /** What the status after a flash command means: it was ignored, or the update has failed. */
  predicate Ignored(img: Image, report: Option<NodeMessage>, again: bool)
    requires img.Valid()
  {
    report.Some? && report.value.StatusResponse? && report.value.firmwareVersion != img.NewVersion()
    && report.value.checksumValid == again
  }

  /** What the count of chunks missing after the broadcast becomes when none is missing. */
  function NoneMissing(r: NodeResult): Option<nat> {
    if r.missingAfterBroadcast.None? then Some(0) else r.missingAfterBroadcast
  }

  /** A node that has every chunk, or soon will, is updated at once: one bitmap request, which finds
      nothing missing, and one frame for each of the other steps. */
  predicate AtOnce(img: Image, address: nat, before: map<nat, NodeResult>, after: map<nat, NodeResult>)
    requires img.Valid()
  {
    && Spent(address, before, after, img.K() + 7)
    && after[address].missingAfterBroadcast == NoneMissing(before[address])
  }

  /** The other steps follow the bitmap request. */
  lemma ThenCompleted(img: Image, address: nat, a: map<nat, NodeResult>, b: map<nat, NodeResult>, c: map<nat, NodeResult>)
    requires img.Valid() && Spent(address, a, b, 1) && Spent(address, b, c, img.K() + 6) && CountersOnly(address, b, c)
    requires b[address].missingAfterBroadcast == NoneMissing(a[address])
    ensures AtOnce(img, address, a, c)
  {
  }

  lemma Noted(img: Image, links: map<nat, Link>, address: nat, results: map<nat, NodeResult>, r: NodeResult)
    requires img.Valid() && Truthful(img, links, results) && address in results.Keys
    requires exists missing :: r == results[address].(missingAfterBroadcast := missing)
    ensures Truthful(img, links, results[address := r]) && SameVerdict(address, results, results[address := r])
  {
  }

  /** What is spent does not depend on the restarts and the verdict. */
  predicate SameSpending(a: NodeResult, b: NodeResult) {
    a.framesSent == b.framesSent && a.retransmissions == b.retransmissions && a.missingAfterBroadcast == b.missingAfterBroadcast
  }

  lemma AtOnceSince(img: Image, address: nat, start: map<nat, NodeResult>, before: map<nat, NodeResult>,
                    after: map<nat, NodeResult>, end: map<nat, NodeResult>)
    requires img.Valid() && AtOnce(img, address, before, after)
    requires address in start.Keys && SameSpending(start[address], before[address])
    requires address in end.Keys && SameSpending(after[address], end[address])
    ensures AtOnce(img, address, start, end)
  {
  }

  lemma SpentSince(address: nat, before: map<nat, NodeResult>, after: map<nat, NodeResult>, end: map<nat, NodeResult>, frames: nat)
    requires Spent(address, before, after, frames) && SameSpending(before[address], NodeResult(0, 0, 0, false, None, 0, 0, 0))
    requires address in end.Keys && SameSpending(after[address], end[address])
    ensures end[address].framesSent == frames && end[address].retransmissions == 0
  {
  }

  lemma MissingKept(address: nat, before: map<nat, NodeResult>, after: map<nat, NodeResult>)
    requires CountersOnly(address, before, after)
    ensures address in before.Keys && address in after.Keys
    ensures after[address].missingAfterBroadcast == before[address].missingAfterBroadcast
  {
  }

  predicate AllQuiet(links: map<nat, Link>, addresses: seq<nat>) {
    forall a :: a in addresses ==> a in links.Keys && Quiet(links[a])
  }

  lemma AllQuietStays(img: Image, address: nat, before: map<nat, Link>, after: map<nat, Link>, addresses: seq<nat>)
    requires img.Valid() && Serving(img, address, false, before, after)
    requires AllQuiet(before, addresses) && address !in addresses
    ensures AllQuiet(after, addresses) && forall a :: a in addresses ==> after[a] == before[a]
  {
    forall a | a in addresses
      ensures a in after.Keys && Quiet(after[a]) && after[a] == before[a]
    {
      var events :| (false || NoHears(events)) && after[a] == Run(img, before[a], events);
      QuietStays(img, before[a], events);
    }
  }

  lemma QuietIsReady(img: Image, limits: Limits, l: Link)
    requires img.Valid() && limits.variant.UnicastOnly? && Quiet(l)
    ensures Ready(img, limits, l)
  {
    QuietIsHushed(l);
  }

  lemma QuietToAnnounce(img: Image, clean: bool, l: Link)
    requires img.Valid() && SafeLink(img, l) && l.node.kind.Broadcast? && (clean ==> Quiet(l))
    ensures StageInv(img, Mode(clean, Announcing), l)
    ensures var m := BroadcastStartRequest(img.NewVersion(), img.N(), img.chunkSize);
            Honest(img, Broadcast, m) && Allowed(img, Mode(clean, Announcing), m)
  {
  }

  lemma Announced(img: Image, limits: Limits, clean: bool, r: NodeMessage, l: Link)
    requires img.Valid() && r.BroadcastStartConfirmation? && !limits.variant.UnicastOnly?
    requires StageInv(img, NextStage(img, Mode(clean, Announcing), r), l)
    requires Learned(img, Mode(clean, Announcing), r, l.node) && (limits.sure ==> Hushed(l))
    ensures r.firmwareVersion == img.NewVersion() ==> l.node.version == img.NewVersion()
    ensures clean && r.firmwareVersion != img.NewVersion() ==> Ready(img, limits, l)
  {
    if clean && r.firmwareVersion != img.NewVersion() {
      AnnouncedThenCollect(img, l);
    }
  }

  lemma TheRest(addresses: seq<nat>, k: nat)
    requires Distinct(addresses) && k < |addresses|
    ensures addresses[k] in addresses && addresses[k] !in addresses[k + 1..] && addresses[k] !in addresses[..k]
    ensures forall a :: a in addresses[k + 1..] ==> a in addresses[k..]
  {
  }

  predicate AmongFirst(pending: seq<nat>, nodes: seq<nat>, k: nat) {
    k <= |nodes| && forall a :: a in pending ==> a in nodes[..k]
  }

  ghost predicate AnsweredFor(results: map<nat, NodeResult>, nodes: seq<nat>, k: nat) {
    k <= |nodes| && forall a :: a in results.Keys <==> a in nodes[..k]
  }

  /** What the first k nodes were sent, none of it again: the reset alone for those that ran the new
      version already, a whole update for the others. */
  predicate EachOnce(img: Image, links: map<nat, Link>, results: map<nat, NodeResult>, nodes: seq<nat>, k: nat)
    requires img.Valid()
  {
    && k <= |nodes|
    && forall a :: a in nodes[..k] ==>
         && a in links.Keys && a in results.Keys && results[a].retransmissions == 0
         && results[a].framesSent == if links[a].node.version == img.NewVersion() then 1 else UnicastFrames(img)
  }

  lemma NobodyServed(img: Image, links: map<nat, Link>, results: map<nat, NodeResult>, nodes: seq<nat>)
    requires img.Valid()
    ensures EachOnce(img, links, results, nodes, 0)
  {
  }

  lemma OneMoreOnce(img: Image, links: map<nat, Link>, before: map<nat, NodeResult>, after: map<nat, NodeResult>,
                    nodes: seq<nat>, k: nat)
    requires img.Valid() && k < |nodes| && Distinct(nodes) && EachOnce(img, links, before, nodes, k)
    requires OthersSame(nodes[k], before, after) && nodes[k] in links.Keys && after[nodes[k]].retransmissions == 0
    requires after[nodes[k]].framesSent == if links[nodes[k]].node.version == img.NewVersion() then 1 else UnicastFrames(img)
    ensures EachOnce(img, links, after, nodes, k + 1)
  {
    assert nodes[..k + 1] == nodes[..k] + [nodes[k]];
  }

  lemma OneMoreKey(before: map<nat, NodeResult>, after: map<nat, NodeResult>, nodes: seq<nat>, k: nat)
    requires k < |nodes| && AnsweredFor(before, nodes, k) && OthersSame(nodes[k], before, after)
    ensures AnsweredFor(after, nodes, k + 1)
  {
    assert nodes[..k + 1] == nodes[..k] + [nodes[k]];
  }

  /** A result after the announcement alone. */
  predicate OnlyAnnounced(r: NodeResult) {
    r.framesSent == 1 && r.retransmissions == 0 && r.missingAfterBroadcast.None?
  }

  /** The pending nodes' results: no restart and no bitmap yet, and over a calm air one frame each. */
  predicate AllAnnounced(results: map<nat, NodeResult>, pending: seq<nat>, sure: bool) {
    forall a :: a in pending ==>
      && a in results.Keys && results[a].restarts == 0 && results[a].missingAfterBroadcast.None?
      && (sure ==> OnlyAnnounced(results[a]))
  }

  lemma NobodyAnnounced(results: map<nat, NodeResult>, sure: bool)
    ensures AllAnnounced(results, [], sure)
  {
  }

  lemma StillAnnounced(address: nat, before: map<nat, NodeResult>, after: map<nat, NodeResult>, pending: seq<nat>, sure: bool)
    requires AllAnnounced(before, pending, sure) && OthersSame(address, before, after) && address !in pending
    ensures AllAnnounced(after, pending, sure)
    ensures address in after.Keys
    ensures after[address].restarts == 0 && after[address].missingAfterBroadcast.None? && (sure ==> OnlyAnnounced(after[address])) ==>
              AllAnnounced(after, pending + [address], sure)
  {
  }

  lemma NothingAnnounced(img: Image, limits: Limits, links: map<nat, Link>, results: map<nat, NodeResult>, nodes: seq<nat>)
    requires img.Valid() && results == map[]
    ensures Distinct<nat>([]) && AmongFirst([], nodes, 0) && AnsweredFor(results, nodes, 0)
    ensures AllDecided(results, [], limits) && AllReady(img, limits, links, [])
    ensures nodes[0..] == nodes
  {
  }

  lemma NextToAnnounce(links: map<nat, Link>, results: map<nat, NodeResult>, pending: seq<nat>, nodes: seq<nat>, k: nat)
    requires Distinct(nodes) && k < |nodes| && AmongFirst(pending, nodes, k) && AnsweredFor(results, nodes, k)
    ensures nodes[k] in nodes && nodes[k] !in results.Keys && nodes[k] !in pending && nodes[k] !in nodes[k + 1..]
  {
    TheRest(nodes, k);
  }

  lemma AllQuietHead(links: map<nat, Link>, nodes: seq<nat>, k: nat)
    requires k < |nodes| && AllQuiet(links, nodes[k..])
    ensures nodes[k] in links.Keys && Quiet(links[nodes[k]]) && AllQuiet(links, nodes[k + 1..])
  {
    assert nodes[k] in nodes[k..];
    assert forall a :: a in nodes[k + 1..] ==> a in nodes[k..];
  }

  lemma OneMoreAnnounced(address: nat, before: map<nat, NodeResult>, after: map<nat, NodeResult>, pending: seq<nat>,
                         nodes: seq<nat>, k: nat, limits: Limits)
    requires k < |nodes| && address == nodes[k] && Distinct(nodes)
    requires OthersSame(address, before, after) && Distinct(pending)
    requires AmongFirst(pending, nodes, k) && AnsweredFor(before, nodes, k)
    requires AllDecided(before, pending, limits)
    requires forall a :: a in pending ==> a in before.Keys && before[a].restarts == 0
    ensures AnsweredFor(after, nodes, k + 1) && AmongFirst(pending, nodes, k + 1) && AmongFirst(pending + [address], nodes, k + 1)
    ensures Distinct(pending + [address]) && address in after.Keys
    ensures forall a :: a in pending ==> a in after.Keys && after[a].restarts == 0
    ensures AllDecided(after, pending + [address], limits)
    ensures Decided(after[address], limits) ==>
              AllDecided(after, pending, limits)
  {
    hide Decided;
    TheRest(nodes, k);
    assert nodes[..k + 1] == nodes[..k] + [address];
  }

  lemma OneMoreReady(img: Image, limits: Limits, links: map<nat, Link>, pending: seq<nat>, address: nat)
    requires img.Valid() && AllReady(img, limits, links, pending)
    requires address in links.Keys && Ready(img, limits, links[address])
    ensures AllReady(img, limits, links, pending + [address])
  {
    hide Ready;
  }

  lemma NobodyAmong(nodes: seq<nat>)
    ensures forall k: nat :: k <= |nodes| ==> AmongFirst([], nodes, k)
  {
  }

  lemma EveryNodeAnswered(results: map<nat, NodeResult>, pending: seq<nat>, nodes: seq<nat>)
    requires AnsweredFor(results, nodes, |nodes|) && AmongFirst(pending, nodes, |nodes|)
    ensures forall a :: a in nodes ==> a in results.Keys
    ensures forall a :: a in pending ==> a in nodes && a in results.Keys
  {
    assert nodes[..|nodes|] == nodes;
  }

  datatype Meter = Unmetered | Meter(which: Which, cursor: nat)

  /** A metered exchange sends the fragment under the cursor and wants its acknowledgement. */
  predicate Metered(img: Image, meter: Meter, kind: Kind, m: GatewayMessage, want: Want)
    requires img.Valid()
  {
    meter.Meter? ==>
      && meter.cursor < Total(img, meter.which) && m == Piece(img, meter.which, meter.cursor)
      && want == AckWanted(meter.which) && (meter.which.Binary? ==> kind.Unicast?)
  }

  function Level(img: Image, meter: Meter, l: Link): Potential
    requires img.Valid()
  {
    if meter.Meter? then PotentialOf(img, meter.which, meter.cursor, l) else Potential(0, 0, 0, 0, 0)
  }

  lemma NotAboveTransitive(p: Potential, q: Potential, r: Potential)
    requires NotAbove(p, q) && NotAbove(q, r)
    ensures NotAbove(p, r)
  {
  }

  /** The accepted acknowledgement moves the cursor to a strictly lower potential. */
  predicate Progressed(img: Image, meter: Meter, reply: NodeMessage, before: Link, after: Link)
    requires img.Valid()
  {
    meter.Meter? ==>
      var value := AckValue(meter.which, reply);
      value.Some? && Below(Level(img, meter.(cursor := value.value), after), Level(img, meter, before))
  }

  /** A matching reply has a number, and moving the cursor to it lowers the potential. */
  lemma AckMeansValue(img: Image, meter: Meter, kind: Kind, which: Which, cursor: nat, reply: NodeMessage,
                      before: Link, after: Link)
    requires img.Valid() && meter == Meter(which, cursor) && Matches(AckWanted(which), reply)
    requires Progressed(img, meter, reply, before, after)
    ensures AckValue(which, reply).Some?
    ensures Below(PotentialOf(img, which, AckValue(which, reply).value, after), PotentialOf(img, which, cursor, before))
  {
    hide PotentialOf;
  }

  lemma ProgressedSince(img: Image, meter: Meter, reply: NodeMessage, before: Link, l: Link, after: Link)
    requires img.Valid() && Progressed(img, meter, reply, l, after)
    requires NotAbove(Level(img, meter, l), Level(img, meter, before))
    ensures Progressed(img, meter, reply, before, after)
  {
    hide Level;
  }

  lemma MeterThroughTransmit(img: Image, meter: Meter, kind: Kind, m: GatewayMessage, want: Want, l: Link, mid: Link)
    requires img.Valid() && SafeLink(img, l) && l.node.kind == kind && Evolves(img, false, l, mid)
    requires Metered(img, meter, kind, m, want)
    ensures NotAbove(Level(img, meter, Sent(mid, m)), Level(img, meter, l))
  {
    hide SafeLink, Evolves;
    if meter.Meter? {
      EvolvesNeverRaises(img, meter.which, meter.cursor, false, l, mid);
      TransmitIsFree(img, meter.which, meter.cursor, mid);
    }
  }

  lemma MeterThroughWait(img: Image, meter: Meter, kind: Kind, m: GatewayMessage, want: Want, l: Link, mid: Link)
    requires img.Valid() && SafeLink(img, l) && l.node.kind == kind && Evolves(img, false, l, mid)
    requires Metered(img, meter, kind, m, want)
    ensures NotAbove(Level(img, meter, mid), Level(img, meter, l))
    ensures mid.toGateway != [] && Matches(want, mid.toGateway[0]) ==>
              Progressed(img, meter, mid.toGateway[0], l, Popped(mid))
  {
    hide SafeLink, Evolves;
    if meter.Meter? {
      EvolvesNeverRaises(img, meter.which, meter.cursor, false, l, mid);
      if mid.toGateway != [] && Matches(want, mid.toGateway[0]) {
        AcceptIsProgress(img, meter.which, meter.cursor, mid);
        NotAboveTransitive(Level(img, meter, mid), Level(img, meter, l), Level(img, meter, l));
      }
    }
  }

  /** The stage a clean attempt is in; an attempt amid arbitrary stale traffic is in none. */
  function Mode(clean: bool, stage: Stage): Stage {
    if clean then stage else AnyTraffic
  }
}
