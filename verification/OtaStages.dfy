/** What the gateway may rely on at each stage of an update that began with empty queues:
    the invariants of the link, their preservation by every event, and what an accepted
    reply proves about the node. */
module OtaStages {
  import opened Bytes
  import opened OtaFrames
  import opened OtaNode
  import opened OtaLink

  datatype Stage =
    | AnyTraffic                               // nothing is known about stale traffic
    | Resetting                                // unicast (a)
    | Sending(cursor: nat)                     // unicast (b)
    | Announcing                               // broadcast (a)
    | Collecting(known: set<nat>, sure: bool)  // broadcast (b) and (c)
    | CheckingBinary
    | SendingChecksum(cursor: nat)             // (c) to (e), shared
    | Confirming
    | Flashing

  /** The node discards its update state on these. */
  predicate IsStart(m: GatewayMessage) {
    m.ResetRequest? || m.BroadcastStartRequest?
  }

  predicate NoStarts(toNode: seq<Frame>) {
    forall f :: f in toNode ==> !IsStart(f.message)
  }

  /** No frame overtakes a start: every start is ahead of everything else. */
  predicate StartsFirst(toNode: seq<Frame>) {
    forall i, j :: 0 <= i < j < |toNode| && IsStart(toNode[j].message) ==> IsStart(toNode[i].message)
  }

  predicate Fresh(n: NodeState) {
    n == WithoutUpdateState(n)
  }

  /** The number of checksum fragments a reply reports, if it reports one. */
  function Progress(r: NodeMessage): Option<nat> {
    match r
    case WaitingForChecksumFragment(expected) => Some(expected)
    case StatusResponse(_, _, checksum, _) => Some(checksum)
    case _ => None
  }

  /** Queued acknowledgements of binary fragments never go back. */
  predicate AcksSorted(toGateway: seq<NodeMessage>) {
    forall i, j ::
      0 <= i < j < |toGateway| && toGateway[i].WaitingForBinaryFragment? && toGateway[j].WaitingForBinaryFragment?
      ==> toGateway[i].expected <= toGateway[j].expected
  }

  /** Nor do the reported numbers of checksum fragments, over all kinds of replies. */
  predicate ProgressSorted(toGateway: seq<NodeMessage>) {
    forall i, j ::
      0 <= i < j < |toGateway| && Progress(toGateway[i]).Some? && Progress(toGateway[j]).Some?
      ==> Progress(toGateway[i]).value <= Progress(toGateway[j]).value
  }

  lemma OrderSurvivesLoss(toNode: seq<Frame>, toGateway: seq<NodeMessage>, at: nat)
    ensures StartsFirst(toNode) ==> StartsFirst(RemoveAt(toNode, at))
    ensures AcksSorted(toGateway) ==> AcksSorted(RemoveAt(toGateway, at))
    ensures ProgressSorted(toGateway) ==> ProgressSorted(RemoveAt(toGateway, at))
  {
  }

  ghost predicate ResettingInv(img: Image, l: Link)
    requires img.Valid()
  {
    && l.node.kind.Unicast?
    && (forall f :: f in l.toNode ==> f.message.ResetRequest?)
    && (forall r :: r in l.toGateway ==> r == ResetConfirmed(l.node.version))
    && (l.toGateway != [] ==> Fresh(l.node))
  }

  ghost predicate SendingInv(img: Image, cursor: nat, l: Link)
    requires img.Valid()
  {
    && l.node.kind.Unicast?
    && l.node.version != img.NewVersion()
    && l.node.checksumFragments == 0
    && cursor <= |l.node.chunks|
    && StartsFirst(l.toNode)
    && (forall f :: f in l.toNode ==> f.message.ResetRequest? || f.message.BinaryFragment?)
    && (forall r :: r in l.toGateway ==> r.ResetConfirmed? || r.WaitingForBinaryFragment?)
    && (forall r :: r in l.toGateway && r.WaitingForBinaryFragment? ==> cursor <= r.expected <= |l.node.chunks|)
    && AcksSorted(l.toGateway)
    && ((l.node.chunks != [] || exists r :: r in l.toGateway && r.WaitingForBinaryFragment?) ==>
          NoStarts(l.toNode))
  }

  ghost predicate AnnouncingInv(img: Image, l: Link)
    requires img.Valid()
  {
    && l.node.kind.Broadcast?
    && (forall f :: f in l.toNode ==> f.message.BroadcastStartRequest?)
    && (forall r :: r in l.toGateway ==> r == BroadcastStartConfirmation(l.node.version))
    && (l.toGateway != [] ==> |l.node.chunks| == img.N() && l.node.checksumFragments == 0)
  }

  ghost predicate CollectingInv(img: Image, known: set<nat>, sure: bool, l: Link)
    requires img.Valid()
  {
    && l.node.kind.Broadcast?
    && l.node.version != img.NewVersion()
    && l.node.checksumFragments == 0
    && |l.node.chunks| == img.N()
    && StartsFirst(l.toNode)
    && (forall f :: f in l.toNode ==>
          f.message.BroadcastStartRequest? || f.message.BinaryFragment? || f.message.SendMeTheBitmap?)
    && (forall r :: r in l.toGateway ==> r.BroadcastStartConfirmation? || Reports(img, l.node, r))
    && ((sure || exists r :: r in l.toGateway && !r.BroadcastStartConfirmation?) ==> NoStarts(l.toNode))
    && (known != {} ==> sure)
    && (forall i :: i in known && i < img.N() ==> l.node.chunks[i].Some?)
  }

  /** Everything a queued bitmap, acknowledgement or "all received" marks as received, the
      node holds: the bitmap's complement over-approximates what the node still lacks. */
  ghost predicate Reports(img: Image, n: NodeState, r: NodeMessage)
    requires img.Valid() && |n.chunks| == img.N()
  {
    match r
    case Bitmap(received) =>
      |received| >= img.N() && forall i :: 0 <= i < img.N() && received[i] ==> n.chunks[i].Some?
    case AllChunksReceived => forall i :: 0 <= i < img.N() ==> n.chunks[i].Some?
    case BinaryFragmentAck(number) => number < img.N() && n.chunks[number].Some?
    case _ => false
  }

  ghost predicate CheckingBinaryInv(img: Image, l: Link)
    requires img.Valid()
  {
    && l.node.version != img.NewVersion()
    && BinaryComplete(l.node)
    && l.node.checksumFragments == 0
    && NoStarts(l.toNode)
    && (forall f :: f in l.toNode ==> !f.message.ChecksumFragment? && !f.message.FlashNewVersion?)
    && (forall r :: r in l.toGateway ==> !r.WaitingForChecksumFragment?)
    && (forall r :: r in l.toGateway && r.StatusResponse? ==>
          r == StatusResponse(l.node.version, img.N(), 0, false))
  }

  ghost predicate SendingChecksumInv(img: Image, cursor: nat, l: Link)
    requires img.Valid()
  {
    && l.node.version != img.NewVersion()
    && BinaryComplete(l.node)
    && (l.node.checksumComplete ==> l.node.checksumValid)
    && cursor <= l.node.checksumFragments
    && NoStarts(l.toNode)
    && (forall f :: f in l.toNode ==> !f.message.FlashNewVersion?)
    && (forall r :: r in l.toGateway && Progress(r).Some? ==>
          cursor <= Progress(r).value <= l.node.checksumFragments)
    && ProgressSorted(l.toGateway)
    && (forall r :: r in l.toGateway && r.StatusResponse? ==>
          r.firmwareVersion == l.node.version
          && (r.checksumFragments == img.K() ==> r.checksumValid))
  }

  ghost predicate ConfirmingInv(img: Image, l: Link)
    requires img.Valid()
  {
    && l.node.version != img.NewVersion()
    && l.node.checksumValid
    && NoStarts(l.toNode)
    && (forall f :: f in l.toNode ==> !f.message.FlashNewVersion?)
    && (forall r :: r in l.toGateway && r.StatusResponse? ==>
          r.checksumFragments == img.K() && r.checksumValid)
  }

  ghost predicate FlashingInv(img: Image, l: Link)
    requires img.Valid()
  {
    && (l.node.version == img.NewVersion() || l.node.checksumValid)
    && NoStarts(l.toNode)
    && (forall r :: r in l.toGateway && r.StatusResponse? ==>
          r.firmwareVersion == img.NewVersion() || r.checksumValid)
  }

  ghost predicate StageInv(img: Image, stage: Stage, l: Link)
    requires img.Valid()
  {
    SafeLink(img, l) &&
    match stage
    case AnyTraffic => true
    case Resetting => ResettingInv(img, l)
    case Sending(cursor) => SendingInv(img, cursor, l)
    case Announcing => AnnouncingInv(img, l)
    case Collecting(known, sure) => CollectingInv(img, known, sure, l)
    case CheckingBinary => CheckingBinaryInv(img, l)
    case SendingChecksum(cursor) => SendingChecksumInv(img, cursor, l)
    case Confirming => ConfirmingInv(img, l)
    case Flashing => FlashingInv(img, l)
  }

  /** A stage survives the gateway's own broadcasts, except while starts are still being sent. */
  predicate HearsBroadcasts(stage: Stage) {
    !stage.Resetting? && !stage.Sending? && !stage.Announcing?
  }

  // ---- Every event keeps the stage's invariant ----

  lemma LossKeepsStage(img: Image, stage: Stage, l: Link, e: Event)
    requires img.Valid() && StageInv(img, stage, l)
    requires e.LoseToNode? || e.LoseToGateway?
    ensures StageInv(img, stage, Step(img, l, e))
  {
    StepKeepsSafe(img, l, e);
    OrderSurvivesLoss(l.toNode, l.toGateway, e.at);
    if stage.Sending? {
      LossKeepsSending(img, stage.cursor, l, e);
    }
  }

  lemma LossKeepsSending(img: Image, cursor: nat, l: Link, e: Event)
    requires img.Valid() && StageInv(img, Sending(cursor), l)
    requires e.LoseToNode? || e.LoseToGateway?
    ensures StageInv(img, Sending(cursor), Step(img, l, e))
  {
    StepKeepsSafe(img, l, e);
    OrderSurvivesLoss(l.toNode, l.toGateway, e.at);
  }

  lemma HearKeepsStage(img: Image, stage: Stage, l: Link, e: Event)
    requires img.Valid() && StageInv(img, stage, l)
    requires e.Hear? && HearsBroadcasts(stage)
    ensures StageInv(img, stage, Step(img, l, e))
  {
    hide Safe, Honest, SafeReply, Reports;
    StepKeepsSafe(img, l, e);
  }

  lemma TakeKeepsResetting(img: Image, l: Link)
    requires img.Valid() && StageInv(img, Resetting, l) && l.toNode != []
    ensures StageInv(img, Resetting, Step(img, l, NodeTakes))
  {
    StepKeepsSafe(img, l, NodeTakes);
    TakeOnSafeLink(img, l);
  }

  lemma AfterANonStart(toNode: seq<Frame>)
    requires toNode != [] && StartsFirst(toNode)
    ensures StartsFirst(toNode[1..])
    ensures !IsStart(toNode[0].message) ==> NoStarts(toNode[1..])
  {
    var rest := toNode[1..];
    assert forall i :: 0 <= i < |rest| ==> rest[i] == toNode[i + 1];
    if !IsStart(toNode[0].message) {
      forall f | f in rest
        ensures !IsStart(f.message)
      {
        var i :| 0 <= i < |rest| && rest[i] == f;
        assert toNode[i + 1] == f;
      }
    }
  }

  lemma FragmentToUnicast(img: Image, n: NodeState, m: GatewayMessage, broadcast: bool)
    requires img.Valid() && Safe(img, n) && Honest(img, n.kind, m)
    requires n.kind.Unicast? && m.BinaryFragment?
    ensures var h := Handle(img.sha, n, m, broadcast);
            h.Handled? && |n.chunks| <= |h.node.chunks|
            && h.reply == Some(WaitingForBinaryFragment(|h.node.chunks|))
            && h.node.version == n.version && h.node.checksumFragments == n.checksumFragments
            && h.node.kind == n.kind
  {
  }

  lemma SendingAfterAck(img: Image, cursor: nat, l: Link, n: NodeState)
    requires img.Valid() && SendingInv(img, cursor, l) && l.toNode != []
    requires !IsStart(l.toNode[0].message)
    requires n.kind == l.node.kind && n.version == l.node.version && n.checksumFragments == 0
    requires |l.node.chunks| <= |n.chunks|
    ensures SendingInv(img, cursor, Link(n, l.toNode[1..],
              l.toGateway + [WaitingForBinaryFragment(|n.chunks|)], false))
  {
    AfterANonStart(l.toNode);
    var toGateway := l.toGateway + [WaitingForBinaryFragment(|n.chunks|)];
    assert forall r :: r in l.toGateway && r.WaitingForBinaryFragment? ==> r.expected <= |n.chunks|;
    assert AcksSorted(toGateway);
  }

  lemma SendingAfterReset(img: Image, cursor: nat, l: Link, n: NodeState)
    requires img.Valid() && SendingInv(img, cursor, l) && l.toNode != []
    requires IsStart(l.toNode[0].message)
    requires n == WithoutUpdateState(l.node)
    ensures SendingInv(img, cursor, Link(n, l.toNode[1..],
              l.toGateway + [ResetConfirmed(n.version)], false))
  {
    AfterANonStart(l.toNode);
    assert l.toNode[0] in l.toNode;
    assert !NoStarts(l.toNode);
    assert l.node.chunks == [];
    var toGateway := l.toGateway + [ResetConfirmed(n.version)];
    assert forall r :: r in toGateway ==> !r.WaitingForBinaryFragment?;
  }

  lemma ResetReply(img: Image, n: NodeState, m: GatewayMessage, broadcast: bool)
    ensures n.kind.Unicast? && m.ResetRequest? ==>
            Handle(img.sha, n, m, broadcast) == Handled(WithoutUpdateState(n), Some(ResetConfirmed(n.version)))
  {
  }

  lemma TakeKeepsSending(img: Image, cursor: nat, l: Link)
    requires img.Valid() && StageInv(img, Sending(cursor), l) && l.toNode != []
    ensures StageInv(img, Sending(cursor), Step(img, l, NodeTakes))
  {
    hide Handle, Safe;
    StepKeepsSafe(img, l, NodeTakes);
    TakeOnSafeLink(img, l);
    var f := l.toNode[0];
    assert f in l.toNode;
    ResetReply(img, l.node, f.message, f.broadcast);
    var n := Handle(img.sha, l.node, f.message, f.broadcast).node;
    if f.message.ResetRequest? {
      SendingAfterReset(img, cursor, l, n);
    } else {
      FragmentToUnicast(img, l.node, f.message, f.broadcast);
      SendingAfterAck(img, cursor, l, n);
    }
  }

  lemma TakeKeepsAnnouncing(img: Image, l: Link)
    requires img.Valid() && StageInv(img, Announcing, l) && l.toNode != []
    ensures StageInv(img, Announcing, Step(img, l, NodeTakes))
  {
    StepKeepsSafe(img, l, NodeTakes);
    TakeOnSafeLink(img, l);
  }

  /** Within one update a node's missing set never grows: nothing it holds is dropped. */
  lemma FragmentKeepsChunks(img: Image, n: NodeState, m: GatewayMessage, broadcast: bool)
    requires img.Valid() && Safe(img, n) && Honest(img, n.kind, m)
    requires !IsStart(m) && !m.FlashNewVersion?
    ensures var n' := Handle(img.sha, n, m, broadcast).node;
            && |n.chunks| <= |n'.chunks| && (n.kind.Broadcast? ==> |n'.chunks| == |n.chunks|)
            && (forall i :: 0 <= i < |n.chunks| && n.chunks[i].Some? ==> n'.chunks[i] == n.chunks[i])
            && (BinaryComplete(n) ==> n'.chunks == n.chunks && BinaryComplete(n'))
            && n'.version == n.version
            && n.checksumFragments <= n'.checksumFragments
            && (!m.ChecksumFragment? ==> n'.checksumFragments == n.checksumFragments)
            && (!m.ChecksumFragment? ==> n'.checksumValid == n.checksumValid)
  {
  }

  lemma CollectingAfterReply(img: Image, known: set<nat>, sure: bool, l: Link, n: NodeState,
                             reply: Option<NodeMessage>)
    requires img.Valid() && CollectingInv(img, known, sure, l) && l.toNode != []
    requires !IsStart(l.toNode[0].message)
    requires n.kind == l.node.kind && n.version == l.node.version && n.checksumFragments == 0
    requires |n.chunks| == img.N()
    requires forall i :: 0 <= i < img.N() && l.node.chunks[i].Some? ==> n.chunks[i].Some?
    requires reply.Some? ==> Reports(img, n, reply.value)
    ensures CollectingInv(img, known, sure, Link(n, l.toNode[1..],
              if reply.Some? then l.toGateway + [reply.value] else l.toGateway, false))
  {
    AfterANonStart(l.toNode);
    forall r | r in l.toGateway && !r.BroadcastStartConfirmation?
      ensures Reports(img, n, r)
    {
      assert Reports(img, l.node, r);
    }
  }

  lemma CollectingAfterStart(img: Image, known: set<nat>, sure: bool, l: Link, n: NodeState, reply: NodeMessage)
    requires img.Valid() && CollectingInv(img, known, sure, l) && l.toNode != []
    requires IsStart(l.toNode[0].message)
    requires n.kind == l.node.kind && n.version == l.node.version && n.checksumFragments == 0
    requires |n.chunks| == img.N() && reply.BroadcastStartConfirmation?
    ensures CollectingInv(img, known, sure, Link(n, l.toNode[1..], l.toGateway + [reply], false))
  {
    AfterANonStart(l.toNode);
    assert l.toNode[0] in l.toNode;
    assert !NoStarts(l.toNode);
    assert !sure && known == {};
    assert forall r :: r in l.toGateway + [reply] ==> r.BroadcastStartConfirmation?;
  }

  lemma TakeKeepsCollecting(img: Image, known: set<nat>, sure: bool, l: Link)
    requires img.Valid() && StageInv(img, Collecting(known, sure), l) && l.toNode != []
    ensures StageInv(img, Collecting(known, sure), Step(img, l, NodeTakes))
  {
    hide CollectingInv, Reports;
    StepKeepsSafe(img, l, NodeTakes);
    TakeOnSafeLink(img, l);
    var f := l.toNode[0];
    assert f in l.toNode;
    CollectingSituation(img, known, sure, l);
    var h := Handle(img.sha, l.node, f.message, f.broadcast);
    if IsStart(f.message) {
      CollectingAfterStart(img, known, sure, l, h.node, AsReceived(h.reply.value));
    } else {
      FragmentKeepsChunks(img, l.node, f.message, f.broadcast);
      CollectingReply(img, l.node, f.message, f.broadcast);
      var reply := if h.reply.Some? then Some(AsReceived(h.reply.value)) else None;
      CollectingAfterReply(img, known, sure, l, h.node, reply);
    }
  }

  lemma CollectingSituation(img: Image, known: set<nat>, sure: bool, l: Link)
    requires img.Valid() && CollectingInv(img, known, sure, l) && l.toNode != []
    ensures l.node.kind.Broadcast? && |l.node.chunks| == img.N() && l.node.checksumFragments == 0
    ensures var m := l.toNode[0].message;
            m.BroadcastStartRequest? || m.BinaryFragment? || m.SendMeTheBitmap?
  {
    assert l.toNode[0] in l.toNode;
  }

  lemma CollectingReply(img: Image, n: NodeState, m: GatewayMessage, broadcast: bool)
    requires img.Valid() && Safe(img, n) && Honest(img, n.kind, m)
    requires n.kind.Broadcast? && |n.chunks| == img.N()
    requires m.BinaryFragment? || m.SendMeTheBitmap?
    ensures var h := Handle(img.sha, n, m, broadcast);
            |h.node.chunks| == img.N() && (h.reply.Some? ==> Reports(img, h.node, AsReceived(h.reply.value)))
  {
  }

  lemma TakeKeepsCheckingBinary(img: Image, l: Link)
    requires img.Valid() && StageInv(img, CheckingBinary, l) && l.toNode != []
    ensures StageInv(img, CheckingBinary, Step(img, l, NodeTakes))
  {
    StepKeepsSafe(img, l, NodeTakes);
    TakeOnSafeLink(img, l);
    var f := l.toNode[0];
    assert f in l.toNode;
    FragmentKeepsChunks(img, l.node, f.message, f.broadcast);
    CompleteMeansWholeImage(img, l.node);
  }

  lemma ChecksumAfterReply(img: Image, cursor: nat, l: Link, n: NodeState, reply: Option<NodeMessage>)
    requires img.Valid() && SendingChecksumInv(img, cursor, l) && l.toNode != []
    requires n.version == l.node.version && BinaryComplete(n)
    requires n.checksumComplete ==> n.checksumValid
    requires l.node.checksumFragments <= n.checksumFragments
    requires reply.Some? && Progress(reply.value).Some? ==> Progress(reply.value).value == n.checksumFragments
    requires reply.Some? && reply.value.StatusResponse? ==>
               reply.value.firmwareVersion == n.version
               && (reply.value.checksumFragments == img.K() ==> reply.value.checksumValid)
    ensures SendingChecksumInv(img, cursor, Link(n, l.toNode[1..],
              if reply.Some? then l.toGateway + [reply.value] else l.toGateway, false))
  {
    if reply.Some? {
      var toGateway := l.toGateway + [reply.value];
      assert ProgressSorted(toGateway) by {
        forall i, j | 0 <= i < j < |toGateway| && Progress(toGateway[i]).Some? && Progress(toGateway[j]).Some?
          ensures Progress(toGateway[i]).value <= Progress(toGateway[j]).value
        {
          if j == |l.toGateway| { assert toGateway[i] in l.toGateway; }
        }
      }
    }
  }

  lemma ChecksumReply(img: Image, n: NodeState, m: GatewayMessage, broadcast: bool)
    requires img.Valid() && Safe(img, n) && Honest(img, n.kind, m)
    requires BinaryComplete(n) && (n.checksumComplete ==> n.checksumValid)
    requires !IsStart(m) && !m.FlashNewVersion?
    ensures var h := Handle(img.sha, n, m, broadcast);
            && h.Handled?
            && (h.node.checksumComplete ==> h.node.checksumValid)
            && (h.reply.Some? && Progress(h.reply.value).Some? ==>
                  Progress(h.reply.value).value == h.node.checksumFragments)
            && (h.reply.Some? && h.reply.value.StatusResponse? ==> h.reply.value == StatusOf(n))
  {
    if m.ChecksumFragment? && m.number == n.checksumFragments && m.last {
      VerdictIsCompleteness(img, n, m);
    }
  }

  lemma TakeKeepsSendingChecksum(img: Image, cursor: nat, l: Link)
    requires img.Valid() && StageInv(img, SendingChecksum(cursor), l) && l.toNode != []
    ensures StageInv(img, SendingChecksum(cursor), Step(img, l, NodeTakes))
  {
    StepKeepsSafe(img, l, NodeTakes);
    TakeOnSafeLink(img, l);
    var f := l.toNode[0];
    assert f in l.toNode;
    var h := Handle(img.sha, l.node, f.message, f.broadcast);
    FragmentKeepsChunks(img, l.node, f.message, f.broadcast);
    ChecksumReply(img, l.node, f.message, f.broadcast);
    var reply := if h.reply.Some? then Some(AsReceived(h.reply.value)) else None;
    ChecksumAfterReply(img, cursor, l, h.node, reply);
  }

  lemma TakeKeepsConfirming(img: Image, l: Link)
    requires img.Valid() && StageInv(img, Confirming, l) && l.toNode != []
    ensures StageInv(img, Confirming, Step(img, l, NodeTakes))
  {
    StepKeepsSafe(img, l, NodeTakes);
    TakeOnSafeLink(img, l);
    var f := l.toNode[0];
    assert f in l.toNode;
    FragmentKeepsChunks(img, l.node, f.message, f.broadcast);
  }

  lemma TakeKeepsFlashing(img: Image, l: Link)
    requires img.Valid() && StageInv(img, Flashing, l) && l.toNode != []
    ensures StageInv(img, Flashing, Step(img, l, NodeTakes))
  {
    StepKeepsSafe(img, l, NodeTakes);
    TakeOnSafeLink(img, l);
    var f := l.toNode[0];
    assert f in l.toNode;
    if f.message.FlashNewVersion? {
      FlashInstallsTheImage(img, l.node, f.message, f.broadcast);
    } else {
      FragmentKeepsChunks(img, l.node, f.message, f.broadcast);
    }
  }

  lemma StepKeepsStage(img: Image, stage: Stage, l: Link, e: Event)
    requires img.Valid() && StageInv(img, stage, l)
    requires e.Hear? ==> HearsBroadcasts(stage)
    ensures StageInv(img, stage, Step(img, l, e))
  {
    match e
    case LoseToNode(_) => LossKeepsStage(img, stage, l, e);
    case LoseToGateway(_) => LossKeepsStage(img, stage, l, e);
    case Hear(_) => HearKeepsStage(img, stage, l, e);
    case NodeTakes =>
      if l.toNode != [] {
        match stage
        case AnyTraffic => StepKeepsSafe(img, l, e);
        case Resetting => TakeKeepsResetting(img, l);
        case Sending(cursor) => TakeKeepsSending(img, cursor, l);
        case Announcing => TakeKeepsAnnouncing(img, l);
        case Collecting(known, sure) => TakeKeepsCollecting(img, known, sure, l);
        case CheckingBinary => TakeKeepsCheckingBinary(img, l);
        case SendingChecksum(cursor) => TakeKeepsSendingChecksum(img, cursor, l);
        case Confirming => TakeKeepsConfirming(img, l);
        case Flashing => TakeKeepsFlashing(img, l);
      }
  }

  /** Every run keeps a stage's invariant, whatever the air does. */
  lemma {:induction false} RunKeepsStage(img: Image, stage: Stage, l: Link, events: seq<Event>)
    requires img.Valid() && StageInv(img, stage, l)
    requires forall e :: e in events && e.Hear? ==> HearsBroadcasts(stage)
    ensures StageInv(img, stage, Run(img, l, events))
    decreases |events|
  {
    hide Step, StageInv;
    if events != [] {
      StepKeepsStage(img, stage, l, events[0]);
      RunKeepsStage(img, stage, Step(img, l, events[0]), events[1..]);
    }
  }

  lemma EvolvesKeepsStage(img: Image, stage: Stage, hears: bool, l: Link, l': Link)
    requires img.Valid() && StageInv(img, stage, l) && Evolves(img, hears, l, l')
    requires hears ==> HearsBroadcasts(stage)
    ensures StageInv(img, stage, l')
  {
    var events :| (hears || NoHears(events)) && l' == Run(img, l, events);
    RunKeepsStage(img, stage, l, events);
  }

  /** While fragments are being sent in an attempt that began with empty queues, the gateway's
      cursor never exceeds what the node has stored, nor any acknowledgement that may still be
      read; so an acknowledgement never takes the cursor past the list, and at its end the node
      is complete. */
  lemma CursorNeverOvertakes(img: Image, cursor: nat, l: Link, events: seq<Event>)
    requires img.Valid() && StageInv(img, Sending(cursor), l) && NoHears(events)
    ensures var l' := Run(img, l, events);
            && cursor <= |l'.node.chunks| <= img.N()
            && (forall r :: r in l'.toGateway && r.WaitingForBinaryFragment? ==>
                  cursor <= r.expected <= |l'.node.chunks|)
            && (cursor >= img.N() ==> BinaryComplete(l'.node))
  {
    hide Run;
    RunKeepsStage(img, Sending(cursor), l, events);
  }

  /** While a broadcast node collects, what it holds only grows, and every bitmap that may still
      be read marks nothing the node lacks: its gaps over-approximate what is missing. */
  lemma MissingNeverGrows(img: Image, known: set<nat>, l: Link, events: seq<Event>)
    requires img.Valid() && StageInv(img, Collecting(known, true), l)
    ensures var l' := Run(img, l, events);
            && |l'.node.chunks| == img.N()
            && (forall i :: 0 <= i < img.N() && l.node.chunks[i].Some? ==> l'.node.chunks[i] == l.node.chunks[i])
            && (forall r, i :: r in l'.toGateway && r.Bitmap? && 0 <= i < img.N() && l'.node.chunks[i].None? ==>
                  i < |r.received| && !r.received[i])
  {
    hide Run, SafeLink;
    var held := set i | 0 <= i < img.N() && l.node.chunks[i].Some?;
    assert StageInv(img, Collecting(held, true), l);
    RunKeepsStage(img, Collecting(held, true), l, events);
    var l' := Run(img, l, events);
    forall i | 0 <= i < img.N() && l.node.chunks[i].Some?
      ensures l'.node.chunks[i] == l.node.chunks[i]
    {
      assert i in held;
      assert l'.node.chunks[i].Some?;
      SafeChunk(img, l, i);
      SafeChunk(img, l', i);
    }
    forall r, i | r in l'.toGateway && r.Bitmap? && 0 <= i < img.N() && l'.node.chunks[i].None?
      ensures i < |r.received| && !r.received[i]
    {
      assert r.BroadcastStartConfirmation? || Reports(img, l'.node, r);
    }
  }

  lemma SafeChunk(img: Image, l: Link, i: nat)
    requires img.Valid() && SafeLink(img, l) && i < |l.node.chunks| && l.node.chunks[i].Some?
    ensures i < img.N() && l.node.chunks[i].value == img.Chunks()[i]
  {
  }
}
