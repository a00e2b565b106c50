/** One stop-and-wait exchange over the link: what may be transmitted at each stage, what an
    accepted reply proves, how one stage leads to the next, and a potential that every
    accepted acknowledgement lowers. */
module OtaExchange {
  import opened Bytes
  import opened OtaFrames
  import opened OtaNode
  import opened OtaLink
  import opened OtaStages

  /** The `reply_type` and `accept` arguments of an exchange. */
  datatype Want =
    | WantResetConfirmed
    | WantBinaryAck
    | WantStatus
    | WantChecksumAck
    | WantHandshake
    | WantStartConfirmation
    | WantBitmap
    | WantFragmentAck(number: nat)

  predicate Matches(want: Want, r: NodeMessage) {
    match want
    case WantResetConfirmed => r.ResetConfirmed?
    case WantBinaryAck => r.WaitingForBinaryFragment?
    case WantStatus => r.StatusResponse?
    case WantChecksumAck => r.WaitingForChecksumFragment?
    case WantHandshake => r.HandshakeResponse?
    case WantStartConfirmation => r.BroadcastStartConfirmation?
    case WantBitmap => r.Bitmap? || r.AllChunksReceived?
    case WantFragmentAck(number) => r == BinaryFragmentAck(number)
  }

  function Numbers(n: nat): (all: set<nat>)
    ensures forall i: nat :: i in all <==> i < n
  {
    if n == 0 then {} else Numbers(n - 1) + {n - 1}
  }

  function MarkedIn(received: seq<bool>, n: nat): (marked: set<nat>)
    ensures forall i: nat :: i in marked <==> i < n && i < |received| && received[i]
  {
    if n == 0 then {}
    else MarkedIn(received, n - 1) + (if n - 1 < |received| && received[n - 1] then {n - 1} else {})
  }

  function NextStage(img: Image, stage: Stage, r: NodeMessage): Stage
    requires img.Valid()
  {
    match (stage, r)
    case (Sending(_), WaitingForBinaryFragment(expected)) => Sending(expected)
    case (SendingChecksum(_), WaitingForChecksumFragment(expected)) => SendingChecksum(expected)
    case (Collecting(known, _), Bitmap(received)) => Collecting(known + MarkedIn(received, img.N()), true)
    case (Collecting(_, _), AllChunksReceived) => Collecting(Numbers(img.N()), true)
    case (Collecting(known, _), BinaryFragmentAck(number)) => Collecting(known + {number}, true)
    case _ => stage
  }

  /** What a reply read at a stage says about the node as it is now. */
  ghost predicate Learned(img: Image, stage: Stage, r: NodeMessage, n: NodeState)
    requires img.Valid()
  {
    SafeReply(img, n, r) &&
    match (stage, r)
    case (Resetting, ResetConfirmed(version)) => Fresh(n) && version == n.version
    case (Announcing, BroadcastStartConfirmation(version)) =>
      |n.chunks| == img.N() && n.checksumFragments == 0 && version == n.version
    case (Sending(cursor), WaitingForBinaryFragment(expected)) => cursor <= expected <= |n.chunks|
    case (Collecting(_, _), Bitmap(received)) =>
      && |received| >= img.N() && |n.chunks| == img.N()
      && (forall i :: 0 <= i < img.N() && n.chunks[i].None? ==> !received[i])
    case (CheckingBinary, StatusResponse(_, binary, _, _)) => binary == img.N()
    case (SendingChecksum(cursor), WaitingForChecksumFragment(expected)) =>
      cursor <= expected <= n.checksumFragments
    case (Confirming, StatusResponse(_, _, checksum, valid)) => checksum == img.K() && valid
    case (Flashing, StatusResponse(version, _, _, valid)) => version == img.NewVersion() || valid
    case _ => true
  }

  function Popped(l: Link): Link
    requires l.toGateway != []
  {
    l.(toGateway := l.toGateway[1..])
  }

  lemma PopIsALoss(img: Image, l: Link)
    requires img.Valid() && l.toGateway != [] && !l.raised
    ensures Step(img, l, LoseToGateway(0)) == Popped(l)
  {
    assert RemoveAt(l.toGateway, 0) == l.toGateway[1..];
  }

  /** Reading the head of the gateway's queue moves the stage on and is truthful. */
  lemma AcceptMovesStage(img: Image, stage: Stage, l: Link)
    requires img.Valid() && StageInv(img, stage, l) && l.toGateway != []
    ensures var r := l.toGateway[0];
            StageInv(img, NextStage(img, stage, r), Popped(l)) && Learned(img, stage, r, l.node)
  {
    PopIsALoss(img, l);
    StepKeepsStage(img, stage, l, LoseToGateway(0));
    var r := l.toGateway[0];
    assert r in l.toGateway;
    match stage
    case Sending(cursor) => AcceptWhileSending(img, cursor, l);
    case SendingChecksum(cursor) => AcceptWhileSendingChecksum(img, cursor, l);
    case Collecting(known, sure) => AcceptWhileCollecting(img, known, sure, l);
    case _ =>
  }

  lemma AcceptWhileSending(img: Image, cursor: nat, l: Link)
    requires img.Valid() && StageInv(img, Sending(cursor), l) && l.toGateway != []
    requires StageInv(img, Sending(cursor), Popped(l))
    ensures var r := l.toGateway[0];
            StageInv(img, NextStage(img, Sending(cursor), r), Popped(l))
  {
    var r := l.toGateway[0];
    if r.WaitingForBinaryFragment? {
      var rest := l.toGateway[1..];
      forall q | q in rest && q.WaitingForBinaryFragment?
        ensures r.expected <= q.expected
      {
        var i :| 0 <= i < |rest| && rest[i] == q;
        assert l.toGateway[i + 1] == q;
      }
    }
  }

  lemma AcceptWhileSendingChecksum(img: Image, cursor: nat, l: Link)
    requires img.Valid() && StageInv(img, SendingChecksum(cursor), l) && l.toGateway != []
    requires StageInv(img, SendingChecksum(cursor), Popped(l))
    ensures var r := l.toGateway[0];
            StageInv(img, NextStage(img, SendingChecksum(cursor), r), Popped(l))
  {
    var r := l.toGateway[0];
    if r.WaitingForChecksumFragment? {
      assert Progress(r) == Some(r.expected);
      var rest := l.toGateway[1..];
      forall q | q in rest && Progress(q).Some?
        ensures r.expected <= Progress(q).value
      {
        var i :| 0 <= i < |rest| && rest[i] == q;
        assert l.toGateway[i + 1] == q;
      }
    }
  }

  lemma AcceptWhileCollecting(img: Image, known: set<nat>, sure: bool, l: Link)
    requires img.Valid() && StageInv(img, Collecting(known, sure), l) && l.toGateway != []
    requires StageInv(img, Collecting(known, sure), Popped(l))
    ensures var r := l.toGateway[0];
            StageInv(img, NextStage(img, Collecting(known, sure), r), Popped(l))
  {
    var r := l.toGateway[0];
    assert r in l.toGateway;
    if !r.BroadcastStartConfirmation? {
      assert Reports(img, l.node, r);
      assert NoStarts(l.toNode);
    }
  }

  /** What the gateway transmits at each stage. */
  predicate Allowed(img: Image, stage: Stage, m: GatewayMessage)
    requires img.Valid()
  {
    match stage
    case AnyTraffic => true
    case Resetting => m.ResetRequest?
    case Announcing => m.BroadcastStartRequest?
    case Sending(cursor) => m.BinaryFragment? && m.number == cursor
    case Collecting(_, _) => m.BinaryFragment? || m.SendMeTheBitmap?
    case CheckingBinary => m.StatusRequest?
    case SendingChecksum(cursor) => m.ChecksumFragment? && m.number == cursor
    case Confirming => m.StatusRequest?
    case Flashing => m.FlashNewVersion? || m.HandshakeRequest? || m.StatusRequest?
  }

  function Sent(l: Link, m: GatewayMessage): Link {
    l.(toNode := l.toNode + [Frame(m, false)])
  }

  lemma TransmitKeepsStage(img: Image, stage: Stage, l: Link, m: GatewayMessage)
    requires img.Valid() && StageInv(img, stage, l)
    requires Honest(img, l.node.kind, m) && Allowed(img, stage, m)
    ensures StageInv(img, stage, Sent(l, m))
  {
    hide Safe, SafeReply, Reports;
    var f := Frame(m, false);
    assert forall g :: g in l.toNode + [f] <==> g in l.toNode || g == f;
  }

  // ---- From one stage to the next ----

  lemma ResetThenSend(img: Image, l: Link)
    requires img.Valid() && StageInv(img, Resetting, l)
    requires Fresh(l.node) && l.node.version != img.NewVersion()
    ensures StageInv(img, Sending(0), l)
  {
  }

  /** When the cursor reaches the end of the list the node holds every fragment. */
  lemma SentEverything(img: Image, l: Link, cursor: nat)
    requires img.Valid() && StageInv(img, Sending(cursor), l) && cursor >= img.N()
    ensures BinaryComplete(l.node) && |l.node.chunks| == img.N()
    ensures StageInv(img, CheckingBinary, l)
  {
  }

  lemma AnnouncedThenCollect(img: Image, l: Link)
    requires img.Valid() && StageInv(img, Announcing, l)
    requires |l.node.chunks| == img.N() && l.node.checksumFragments == 0
    requires l.node.version != img.NewVersion()
    ensures StageInv(img, Collecting({}, false), l)
  {
  }

  /** When every missing chunk was acknowledged, or a bitmap showed none, the node is complete. */
  lemma CollectedEverything(img: Image, l: Link, known: set<nat>)
    requires img.Valid() && StageInv(img, Collecting(known, true), l)
    requires forall i :: 0 <= i < img.N() ==> i in known
    ensures BinaryComplete(l.node)
    ensures StageInv(img, CheckingBinary, l)
  {
  }

  lemma CheckedThenChecksum(img: Image, l: Link)
    requires img.Valid() && StageInv(img, CheckingBinary, l)
    ensures StageInv(img, SendingChecksum(0), l)
  {
  }

  /** When the checksum cursor reaches the end, the node has verified the image. */
  lemma ChecksumThenConfirm(img: Image, l: Link, cursor: nat)
    requires img.Valid() && StageInv(img, SendingChecksum(cursor), l) && cursor >= img.K()
    ensures l.node.checksumValid
    ensures StageInv(img, Confirming, l)
  {
    assert forall r :: r in l.toGateway && r.StatusResponse? ==> Progress(r) == Some(r.checksumFragments);
  }

  lemma ConfirmThenFlash(img: Image, l: Link)
    requires img.Valid() && StageInv(img, Confirming, l)
    ensures StageInv(img, Flashing, l)
  {
  }

  // ---- Termination of the fragment loop against any air ----

  datatype Which = Binary | Checksum

  function Stored(which: Which, n: NodeState): nat {
    if which.Binary? then |n.chunks| else n.checksumFragments
  }

  function Total(img: Image, which: Which): nat
    requires img.Valid()
  {
    if which.Binary? then img.N() else img.K()
  }

  function Piece(img: Image, which: Which, i: nat): GatewayMessage
    requires img.Valid() && i < Total(img, which)
  {
    if which.Binary? then FragmentOf(img, i) else ChecksumFragmentOf(img, i)
  }

  function AckWanted(which: Which): Want {
    if which.Binary? then WantBinaryAck else WantChecksumAck
  }

  /** The number an acknowledgement of this kind of fragment carries. */
  function AckValue(which: Which, r: NodeMessage): Option<nat> {
    match r
    case WaitingForBinaryFragment(expected) => if which.Binary? then Some(expected) else None
    case WaitingForChecksumFragment(expected) => if which.Checksum? then Some(expected) else None
    case _ => None
  }

  function PieceNumber(which: Which, m: GatewayMessage): Option<nat> {
    match m
    case BinaryFragment(number, _, _) => if which.Binary? then Some(number) else None
    case ChecksumFragment(number, _, _) => if which.Checksum? then Some(number) else None
    case _ => None
  }

  /** Frames that make a node drop its progress. */
  function Droppers(toNode: seq<Frame>): nat {
    if toNode == [] then 0
    else (if IsStart(toNode[0].message) || toNode[0].message.FlashNewVersion? then 1 else 0) + Droppers(toNode[1..])
  }

  /** Queued fragments other than number c. */
  function OtherPieces(which: Which, c: nat, toNode: seq<Frame>): nat {
    if toNode == [] then 0
    else
      var number := PieceNumber(which, toNode[0].message);
      (if number.Some? && number.value != c then 1 else 0) + OtherPieces(which, c, toNode[1..])
  }

  /** Queued acknowledgements, and those among them that ask for something other than c. */
  function Acks(which: Which, toGateway: seq<NodeMessage>): nat {
    if toGateway == [] then 0
    else (if AckValue(which, toGateway[0]).Some? then 1 else 0) + Acks(which, toGateway[1..])
  }

  function OtherAcks(which: Which, c: nat, toGateway: seq<NodeMessage>): nat {
    if toGateway == [] then 0
    else
      var value := AckValue(which, toGateway[0]);
      (if value.Some? && value.value != c then 1 else 0) + OtherAcks(which, c, toGateway[1..])
  }

  lemma {:induction false} CountsAppendFrame(which: Which, c: nat, s: seq<Frame>, f: Frame)
    ensures Droppers(s + [f]) == Droppers(s) + Droppers([f])
    ensures OtherPieces(which, c, s + [f]) == OtherPieces(which, c, s) + OtherPieces(which, c, [f])
  {
    if s == [] {
      assert s + [f] == [f];
    } else {
      CountsAppendFrame(which, c, s[1..], f);
      assert (s + [f])[1..] == s[1..] + [f];
    }
  }

  lemma {:induction false} CountsAppendReply(which: Which, c: nat, s: seq<NodeMessage>, r: NodeMessage)
    ensures Acks(which, s + [r]) == Acks(which, s) + Acks(which, [r])
    ensures OtherAcks(which, c, s + [r]) == OtherAcks(which, c, s) + OtherAcks(which, c, [r])
  {
    if s == [] {
      assert s + [r] == [r];
    } else {
      CountsAppendReply(which, c, s[1..], r);
      assert (s + [r])[1..] == s[1..] + [r];
    }
  }

  lemma {:induction false} CountsRemoveFrame(which: Which, c: nat, s: seq<Frame>, at: nat)
    ensures Droppers(RemoveAt(s, at)) <= Droppers(s)
    ensures OtherPieces(which, c, RemoveAt(s, at)) <= OtherPieces(which, c, s)
    decreases |s|
  {
    if at < |s| {
      if at == 0 {
        assert RemoveAt(s, 0) == s[1..];
      } else {
        CountsRemoveFrame(which, c, s[1..], at - 1);
        assert RemoveAt(s, at)[1..] == RemoveAt(s[1..], at - 1);
      }
    }
  }

  lemma {:induction false} CountsRemoveReply(which: Which, c: nat, s: seq<NodeMessage>, at: nat)
    ensures Acks(which, RemoveAt(s, at)) <= Acks(which, s)
    ensures OtherAcks(which, c, RemoveAt(s, at)) <= OtherAcks(which, c, s)
    decreases |s|
  {
    if at < |s| {
      if at == 0 {
        assert RemoveAt(s, 0) == s[1..];
      } else {
        CountsRemoveReply(which, c, s[1..], at - 1);
        assert RemoveAt(s, at)[1..] == RemoveAt(s[1..], at - 1);
      }
    }
  }

  /** Compared lexicographically, first component first. */
  datatype Potential = Potential(droppers: nat, remaining: int, otherAcks: nat, apart: nat, queued: nat)

  function PotentialOf(img: Image, which: Which, cursor: nat, l: Link): Potential
    requires img.Valid()
  {
    var stored := Stored(which, l.node);
    Potential(Droppers(l.toNode),
              Total(img, which) - stored,
              OtherAcks(which, stored, l.toGateway),
              if cursor == stored then 0 else 1,
              if cursor == stored then Acks(which, l.toGateway) + OtherPieces(which, stored, l.toNode) else 0)
  }

  predicate Below(p: Potential, q: Potential) {
    || p.droppers < q.droppers
    || (p.droppers == q.droppers && p.remaining < q.remaining)
    || (p.droppers == q.droppers && p.remaining == q.remaining && p.otherAcks < q.otherAcks)
    || (p.droppers == q.droppers && p.remaining == q.remaining && p.otherAcks == q.otherAcks && p.apart < q.apart)
    || (p.droppers == q.droppers && p.remaining == q.remaining && p.otherAcks == q.otherAcks && p.apart == q.apart
        && p.queued < q.queued)
  }

  predicate NotAbove(p: Potential, q: Potential) {
    Below(p, q) || p == q || (p.droppers == q.droppers && p.remaining == q.remaining && p.otherAcks == q.otherAcks
                              && p.apart == q.apart && p.queued <= q.queued)
  }

  /** How handling one frame moves the stored count. */
  lemma HandleCount(img: Image, which: Which, n: NodeState, m: GatewayMessage, broadcast: bool)
    requires img.Valid() && Safe(img, n) && Honest(img, n.kind, m)
    requires which.Binary? ==> n.kind.Unicast?
    requires !IsStart(m) && !m.FlashNewVersion?
    ensures var h := Handle(img.sha, n, m, broadcast);
            var number := PieceNumber(which, m);
            && h.Handled?
            && Stored(which, n) <= Total(img, which)
            && Stored(which, h.node) == (if number == Some(Stored(which, n)) then Stored(which, n) + 1 else Stored(which, n))
            && (number.Some? ==> h.reply.Some? && AckValue(which, AsReceived(h.reply.value)) == Some(Stored(which, h.node)))
            && (number.None? && h.reply.Some? ==> AckValue(which, AsReceived(h.reply.value)).None?)
  {
    HandleKeepsSafe(img, n, m, broadcast);
  }

  lemma TakeNeverRaises(img: Image, which: Which, cursor: nat, l: Link)
    requires img.Valid() && SafeLink(img, l) && l.toNode != []
    requires which.Binary? ==> l.node.kind.Unicast?
    ensures NotAbove(PotentialOf(img, which, cursor, Step(img, l, NodeTakes)), PotentialOf(img, which, cursor, l))
  {
    TakeOnSafeLink(img, l);
    var f := l.toNode[0];
    assert f in l.toNode;
    var h := Handle(img.sha, l.node, f.message, f.broadcast);
    if !IsStart(f.message) && !f.message.FlashNewVersion? {
      HandleCount(img, which, l.node, f.message, f.broadcast);
      if h.reply.Some? {
        var r := AsReceived(h.reply.value);
        CountsAppendReply(which, Stored(which, h.node), l.toGateway, r);
        assert [r][1..] == [];
      }
    }
  }

  lemma StepNeverRaises(img: Image, which: Which, cursor: nat, l: Link, e: Event)
    requires img.Valid() && SafeLink(img, l)
    requires which.Binary? ==> l.node.kind.Unicast?
    ensures NotAbove(PotentialOf(img, which, cursor, Step(img, l, e)), PotentialOf(img, which, cursor, l))
  {
    var stored := Stored(which, l.node);
    match e
    case NodeTakes => if l.toNode != [] { TakeNeverRaises(img, which, cursor, l); }
    case LoseToNode(at) => CountsRemoveFrame(which, stored, l.toNode, at);
    case LoseToGateway(at) => CountsRemoveReply(which, stored, l.toGateway, at);
    case Hear(number) =>
      if l.node.kind.Broadcast? && number < img.N() {
        var f := Frame(FragmentOf(img, number), true);
        CountsAppendFrame(which, stored, l.toNode, f);
        assert [f][1..] == [];
      }
  }

  lemma {:induction false} RunNeverRaises(img: Image, which: Which, cursor: nat, l: Link, events: seq<Event>)
    requires img.Valid() && SafeLink(img, l)
    requires which.Binary? ==> l.node.kind.Unicast?
    ensures NotAbove(PotentialOf(img, which, cursor, Run(img, l, events)), PotentialOf(img, which, cursor, l))
    decreases |events|
  {
    if events != [] {
      StepNeverRaises(img, which, cursor, l, events[0]);
      StepKeepsSafe(img, l, events[0]);
      RunNeverRaises(img, which, cursor, Step(img, l, events[0]), events[1..]);
    }
  }

  lemma EvolvesNeverRaises(img: Image, which: Which, cursor: nat, hears: bool, l: Link, l': Link)
    requires img.Valid() && SafeLink(img, l) && Evolves(img, hears, l, l')
    requires which.Binary? ==> l.node.kind.Unicast?
    ensures NotAbove(PotentialOf(img, which, cursor, l'), PotentialOf(img, which, cursor, l))
  {
    var events :| (hears || NoHears(events)) && l' == Run(img, l, events);
    RunNeverRaises(img, which, cursor, l, events);
  }

  /** Sending the fragment under the cursor costs nothing. */
  lemma TransmitIsFree(img: Image, which: Which, cursor: nat, l: Link)
    requires img.Valid() && cursor < Total(img, which)
    ensures PotentialOf(img, which, cursor, Sent(l, Piece(img, which, cursor))) == PotentialOf(img, which, cursor, l)
  {
    var f := Frame(Piece(img, which, cursor), false);
    CountsAppendFrame(which, Stored(which, l.node), l.toNode, f);
    assert [f][1..] == [];
  }

  /** Accepting any acknowledgement, however stale, and moving the cursor to it is progress. */
  lemma AcceptIsProgress(img: Image, which: Which, cursor: nat, l: Link)
    requires img.Valid() && l.toGateway != [] && AckValue(which, l.toGateway[0]).Some?
    ensures Below(PotentialOf(img, which, AckValue(which, l.toGateway[0]).value, Popped(l)),
                  PotentialOf(img, which, cursor, l))
  {
  }
}
