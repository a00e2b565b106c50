/** The node side of the update, both kinds of node (node_base.py, unicast_only/node.py and
    broadcast_unicast/node.py of papers/fuota-unicast-broadcast-2024). */
module OtaNode {
  import opened Bytes
  import opened OtaFrames

  /** Which subclass of the node base class runs: the two broadcast methods share one. */
  datatype Kind = Unicast | Broadcast

  datatype NodeState = NodeState(
    kind: Kind,
    version: nat,
    flashCount: nat,
    chunks: seq<Option<seq<byte>>>,
    receivedLast: bool,
    checksumFragments: nat,
    checksum: seq<byte>,
    checksumComplete: bool,
    checksumValid: bool)

  /** What handling a message does: the new state and the reply, or an exception. */
  datatype Handled = Handled(node: NodeState, reply: Option<NodeMessage>) | Raises

  function BinaryComplete(n: NodeState): bool {
    match n.kind
    case Unicast => n.receivedLast
    case Broadcast => n.chunks != [] && forall i :: 0 <= i < |n.chunks| ==> n.chunks[i].Some?
  }

  function Assembled(chunks: seq<Option<seq<byte>>>): seq<byte> {
    if chunks == [] then []
    else (if chunks[0].Some? then chunks[0].value else []) + Assembled(chunks[1..])
  }

  function CountReceived(chunks: seq<Option<seq<byte>>>): nat {
    if chunks == [] then 0
    else (if chunks[0].Some? then 1 else 0) + CountReceived(chunks[1..])
  }

  function ReceivedMap(chunks: seq<Option<seq<byte>>>): (received: seq<bool>)
    ensures |received| == |chunks|
    ensures forall i :: 0 <= i < |chunks| ==> received[i] == chunks[i].Some?
  {
    seq(|chunks|, i requires 0 <= i < |chunks| => chunks[i].Some?)
  }

  function WithoutUpdateState(n: NodeState): NodeState {
    n.(chunks := [], receivedLast := false, checksumFragments := 0, checksum := [],
       checksumComplete := false, checksumValid := false)
  }

  function StoreChecksum(sha: seq<byte> -> seq<byte>, n: NodeState, data: seq<byte>, last: bool): NodeState {
    var stored := n.(checksum := n.checksum + data, checksumFragments := n.checksumFragments + 1,
                     checksumComplete := last);
    if last then
      stored.(checksumValid := BinaryComplete(n) && sha(Assembled(n.chunks)) == stored.checksum)
    else stored
  }

  function StatusOf(n: NodeState): NodeMessage {
    StatusResponse(n.version, CountReceived(n.chunks), n.checksumFragments, n.checksumValid)
  }

  /** The specification of `handle`: one gateway message against one node state. */
  function Handle(sha: seq<byte> -> seq<byte>, n: NodeState, m: GatewayMessage, broadcast: bool): Handled {
    match m
    case ChecksumFragment(number, data, last) =>
      var next := if number == n.checksumFragments && !n.checksumComplete
                  then StoreChecksum(sha, n, data, last) else n;
      Handled(next, Some(WaitingForChecksumFragment(next.checksumFragments)))
    case StatusRequest => Handled(n, Some(StatusOf(n)))
    case FlashNewVersion =>
      if !n.checksumValid then Handled(n, None)
      else
        var image := Assembled(n.chunks);
        if image == [] then Raises
        else Handled(WithoutUpdateState(n.(version := image[0], flashCount := n.flashCount + 1)), None)
    case HandshakeRequest => Handled(n, Some(HandshakeResponse))
    case _ => HandleUpdateMessage(n, m, broadcast)
  }

  function HandleUpdateMessage(n: NodeState, m: GatewayMessage, broadcast: bool): Handled {
    match (n.kind, m)
    case (Unicast, ResetRequest) => Handled(WithoutUpdateState(n), Some(ResetConfirmed(n.version)))
    case (Unicast, BinaryFragment(number, data, last)) =>
      var next := if number == |n.chunks| && !BinaryComplete(n)
                  then n.(chunks := n.chunks + [Some(data)], receivedLast := last) else n;
      Handled(next, Some(WaitingForBinaryFragment(|next.chunks|)))
    case (Broadcast, BroadcastStartRequest(_, chunks, _)) =>
      Handled(WithoutUpdateState(n).(chunks := seq(chunks, i => None)),
              Some(BroadcastStartConfirmation(n.version)))
    case (Broadcast, BinaryFragment(number, data, _)) =>
      var next := if number < |n.chunks| && n.chunks[number].None?
                  then n.(chunks := n.chunks[number := Some(data)]) else n;
      Handled(next, if broadcast then None else Some(BinaryFragmentAck(number)))
    case (Broadcast, SendMeTheBitmap) =>
      Handled(n, Some(if BinaryComplete(n) then AllChunksReceived else Bitmap(ReceivedMap(n.chunks))))
    case _ => Raises
  }

  /** The node object: its fields are updated in place, message by message. */
  class Node {
    const kind: Kind
    const sha: seq<byte> -> seq<byte>
    var firmwareVersion: nat
    var flashCount: nat
    var chunks: seq<Option<seq<byte>>>
    var receivedLast: bool
    var checksumFragments: nat
    var checksum: seq<byte>
    var checksumComplete: bool
    var checksumValid: bool

    ghost function State(): NodeState
      reads this
    {
      NodeState(kind, firmwareVersion, flashCount, chunks, receivedLast,
                checksumFragments, checksum, checksumComplete, checksumValid)
    }

    constructor (kind: Kind, sha: seq<byte> -> seq<byte>, oldVersion: nat)
      ensures this.kind == kind && this.sha == sha
      ensures State() == NodeState(kind, oldVersion, 0, [], false, 0, [], false, false)
    {
      this.kind, this.sha := kind, sha;
      firmwareVersion, flashCount := oldVersion, 0;
      chunks, receivedLast := [], false;
      checksumFragments, checksum, checksumComplete, checksumValid := 0, [], false, false;
    }

    method ResetUpdateState()
      modifies this
      ensures State() == WithoutUpdateState(old(State()))
    {
      chunks, receivedLast := [], false;
      checksumFragments, checksum := 0, [];
      checksumComplete, checksumValid := false, false;
    }

    method AssembledBinary() returns (image: seq<byte>)
      ensures image == Assembled(chunks)
    {
      image := [];
      var i := |chunks|;
      while i > 0
        invariant 0 <= i <= |chunks|
        invariant image == Assembled(chunks[i..])
      {
        i := i - 1;
        assert chunks[i..][1..] == chunks[i + 1..];
        image := (if chunks[i].Some? then chunks[i].value else []) + image;
      }
    }

    method BinaryFragments() returns (count: nat)
      ensures count == CountReceived(chunks)
    {
      count := 0;
      var i := |chunks|;
      while i > 0
        invariant 0 <= i <= |chunks|
        invariant count == CountReceived(chunks[i..])
      {
        i := i - 1;
        assert chunks[i..][1..] == chunks[i + 1..];
        count := (if chunks[i].Some? then 1 else 0) + count;
      }
    }

    method VerifyChecksum()
      modifies this`checksumValid
      ensures checksumValid ==
              (BinaryComplete(old(State())) && sha(Assembled(chunks)) == checksum)
    {
      var image := AssembledBinary();
      var complete := if kind.Unicast? then receivedLast
                      else chunks != [] && forall i :: 0 <= i < |chunks| ==> chunks[i].Some?;
      checksumValid := complete && sha(image) == checksum;
    }

    method Flash() returns (raised: bool)
      modifies this
      ensures raised == Handle(sha, old(State()), FlashNewVersion, false).Raises?
      ensures !raised ==> Handled(State(), None) == Handle(sha, old(State()), FlashNewVersion, false)
      ensures raised ==> State() == old(State())
    {
      raised := false;
      if !checksumValid {
        return;
      }
      var image := AssembledBinary();
      if image == [] {
        raised := true;
        return;
      }
      firmwareVersion := image[0];
      flashCount := flashCount + 1;
      ResetUpdateState();
    }

    /** Applies one message; `Raises` leaves the state as it was. */
    method HandleMessage(m: GatewayMessage, broadcast: bool) returns (raised: bool, reply: Option<NodeMessage>)
      modifies this
      ensures raised == Handle(sha, old(State()), m, broadcast).Raises?
      ensures !raised ==> Handle(sha, old(State()), m, broadcast) == Handled(State(), reply)
      ensures raised ==> State() == old(State())
    {
      raised, reply := false, None;
      match m
      case ChecksumFragment(number, data, last) =>
        if number == checksumFragments && !checksumComplete {
          checksum := checksum + data;
          checksumFragments := checksumFragments + 1;
          checksumComplete := last;
          if last {
            VerifyChecksum();
          }
        }
        reply := Some(WaitingForChecksumFragment(checksumFragments));
      case StatusRequest =>
        var binary := BinaryFragments();
        reply := Some(StatusResponse(firmwareVersion, binary, checksumFragments, checksumValid));
      case FlashNewVersion =>
        raised := Flash();
      case HandshakeRequest =>
        reply := Some(HandshakeResponse);
      case _ =>
        raised, reply := UpdateMessage(m, broadcast);
    }

    method UpdateMessage(m: GatewayMessage, broadcast: bool) returns (raised: bool, reply: Option<NodeMessage>)
      modifies this
      ensures raised == HandleUpdateMessage(old(State()), m, broadcast).Raises?
      ensures !raised ==> HandleUpdateMessage(old(State()), m, broadcast) == Handled(State(), reply)
      ensures raised ==> State() == old(State())
    {
      raised, reply := false, None;
      if kind.Unicast? && m.ResetRequest? {
        ResetUpdateState();
        reply := Some(ResetConfirmed(firmwareVersion));
      } else if kind.Unicast? && m.BinaryFragment? {
        if m.number == |chunks| && !receivedLast {
          chunks := chunks + [Some(m.data)];
          receivedLast := m.last;
        }
        reply := Some(WaitingForBinaryFragment(|chunks|));
      } else if kind.Broadcast? && m.BroadcastStartRequest? {
        ResetUpdateState();
        chunks := seq(m.chunks, i => None);
        reply := Some(BroadcastStartConfirmation(firmwareVersion));
      } else if kind.Broadcast? && m.BinaryFragment? {
        if m.number < |chunks| && chunks[m.number].None? {
          chunks := chunks[m.number := Some(m.data)];
        }
        if !broadcast {
          reply := Some(BinaryFragmentAck(m.number));
        }
      } else if kind.Broadcast? && m.SendMeTheBitmap? {
        var complete := chunks != [] && forall i :: 0 <= i < |chunks| ==> chunks[i].Some?;
        reply := Some(if complete then AllChunksReceived else Bitmap(ReceivedMap(chunks)));
      } else {
        raised := true;
      }
    }
  }

  // ---- The image and what an honest gateway says about it ----

  /** What the gateway was built from; `sha` stands for SHA-256. */
  datatype Image = Image(firmware: seq<byte>, chunkSize: nat, sha: seq<byte> -> seq<byte>) {

    /** Non-empty image, fragment numbers that fit their fields, 32 byte digests. */
    predicate Valid() {
      && firmware != []
      && 0 < chunkSize < 0x1_0000
      && |Split(firmware, chunkSize)| < 0x1_0000
      && |sha(firmware)| == 32
    }

    function Chunks(): seq<seq<byte>>
      requires Valid()
    {
      Split(firmware, chunkSize)
    }

    function ChecksumChunks(): seq<seq<byte>>
      requires Valid()
    {
      Split(sha(firmware), chunkSize)
    }

    function N(): (n: nat)
      requires Valid()
      ensures 0 < n < 0x1_0000
    {
      |Chunks()|
    }

    function K(): (k: nat)
      requires Valid()
      ensures 0 < k <= 32
    {
      SplitLength(sha(firmware), chunkSize);
      |ChecksumChunks()|
    }

    function NewVersion(): byte
      requires Valid()
    {
      firmware[0]
    }
  }

  function FragmentOf(img: Image, i: nat): GatewayMessage
    requires img.Valid() && i < img.N()
  {
    BinaryFragment(i, img.Chunks()[i], i == img.N() - 1)
  }

  function ChecksumFragmentOf(img: Image, i: nat): GatewayMessage
    requires img.Valid() && i < img.K()
  {
    ChecksumFragment(i, img.ChecksumChunks()[i], i == img.K() - 1)
  }

  /** The messages the gateway of each method sends. */
  predicate Honest(img: Image, kind: Kind, m: GatewayMessage)
    requires img.Valid()
  {
    match m
    case BinaryFragment(i, _, _) => i < img.N() && m == FragmentOf(img, i)
    case ChecksumFragment(i, _, _) => i < img.K() && m == ChecksumFragmentOf(img, i)
    case ResetRequest => kind.Unicast?
    case BroadcastStartRequest(_, _, _) =>
      kind.Broadcast? && m == BroadcastStartRequest(img.NewVersion(), img.N(), img.chunkSize)
    case SendMeTheBitmap => kind.Broadcast?
    case _ => true
  }

  /** Every chunk a node holds is the gateway's chunk at that position; a complete node holds
      the whole list; a node that may flash holds the whole image. */
  ghost predicate Safe(img: Image, n: NodeState)
    requires img.Valid()
  {
    && |n.chunks| <= img.N()
    && (forall i :: 0 <= i < |n.chunks| && n.chunks[i].Some? ==> n.chunks[i].value == img.Chunks()[i])
    && (n.kind.Unicast? ==>
          && (forall i :: 0 <= i < |n.chunks| ==> n.chunks[i].Some?)
          && (n.receivedLast <==> |n.chunks| == img.N()))
    && (n.kind.Broadcast? ==> n.chunks == [] || |n.chunks| == img.N())
    && n.checksumFragments <= img.K()
    && n.checksum == Join(img.ChecksumChunks()[..n.checksumFragments])
    && (n.checksumComplete <==> n.checksumFragments == img.K())
    && (n.checksumValid ==> n.checksumComplete && BinaryComplete(n))
    && n.version < 0x100
  }

  lemma {:induction false} AssembledAll(chunks: seq<Option<seq<byte>>>, whole: seq<seq<byte>>)
    requires |chunks| == |whole|
    requires forall i :: 0 <= i < |chunks| ==> chunks[i] == Some(whole[i])
    ensures Assembled(chunks) == Join(whole)
    ensures CountReceived(chunks) == |chunks|
  {
    if chunks != [] {
      AssembledAll(chunks[1..], whole[1..]);
    }
  }

  lemma {:induction false} CountBound(chunks: seq<Option<seq<byte>>>)
    ensures CountReceived(chunks) <= |chunks|
    ensures CountReceived(chunks) == |chunks| <==> forall i :: 0 <= i < |chunks| ==> chunks[i].Some?
  {
    if chunks != [] {
      CountBound(chunks[1..]);
      var rest := chunks[1..];
      assert forall i :: 0 <= i < |rest| ==> rest[i] == chunks[i + 1];
      assert (forall i :: 0 <= i < |chunks| ==> chunks[i].Some?) <==>
        (chunks[0].Some? && forall i :: 0 <= i < |rest| ==> rest[i].Some?) by {
        if chunks[0].Some? && forall i :: 0 <= i < |rest| ==> rest[i].Some? {
          forall i | 0 <= i < |chunks| ensures chunks[i].Some? {
            if i > 0 { assert rest[i - 1].Some?; }
          }
        }
      }
    }
  }

  /** A node that considers itself complete holds exactly the gateway's firmware image, and a
      safe node is complete exactly when it counts as many fragments as the gateway has. */
  lemma CompleteMeansWholeImage(img: Image, n: NodeState)
    requires img.Valid() && Safe(img, n)
    ensures BinaryComplete(n) ==> Assembled(n.chunks) == img.firmware
    ensures BinaryComplete(n) <==> CountReceived(n.chunks) == img.N()
  {
    CountBound(n.chunks);
    if BinaryComplete(n) {
      AssembledAll(n.chunks, img.Chunks());
      JoinSplit(img.firmware, img.chunkSize);
    }
  }

  /** Handling a message of the gateway never raises, keeps the node safe, and never takes a
      node off the new version again. */
  lemma HandleKeepsSafe(img: Image, n: NodeState, m: GatewayMessage, broadcast: bool)
    requires img.Valid() && Safe(img, n) && Honest(img, n.kind, m)
    ensures var h := Handle(img.sha, n, m, broadcast);
            && h.Handled? && Safe(img, h.node) && h.node.kind == n.kind
            && (h.node.version == n.version || h.node.version == img.NewVersion())
  {
    match m
    case ChecksumFragment(_, _, _) => ChecksumKeepsSafe(img, n, m);
    case FlashNewVersion => CompleteMeansWholeImage(img, n);
    case BinaryFragment(_, _, _) => FragmentKeepsSafe(img, n, m, broadcast);
    case _ =>
  }

  lemma ChecksumKeepsSafe(img: Image, n: NodeState, m: GatewayMessage)
    requires img.Valid() && Safe(img, n) && Honest(img, n.kind, m) && m.ChecksumFragment?
    ensures var h := Handle(img.sha, n, m, false);
            h.Handled? && Safe(img, h.node) && h.node.kind == n.kind && h.node.version == n.version
            && h.node.flashCount == n.flashCount
  {
    var i := m.number;
    if i == n.checksumFragments && !n.checksumComplete {
      var all := img.ChecksumChunks();
      JoinAppend(all[..i], all[i]);
      assert all[..i + 1] == all[..i] + [all[i]];
      var next := StoreChecksum(img.sha, n, m.data, m.last);
      assert next.checksum == Join(all[..next.checksumFragments]);
    }
  }

  lemma FragmentKeepsSafe(img: Image, n: NodeState, m: GatewayMessage, broadcast: bool)
    requires img.Valid() && Safe(img, n) && Honest(img, n.kind, m) && m.BinaryFragment?
    ensures var h := HandleUpdateMessage(n, m, broadcast);
            h.Handled? && Safe(img, h.node) && h.node.kind == n.kind && h.node.version == n.version
            && h.node.flashCount == n.flashCount
  {
    var h := HandleUpdateMessage(n, m, broadcast);
    assert m == FragmentOf(img, m.number);
    var next := h.node;
    assert forall i :: 0 <= i < |n.chunks| && n.chunks[i].Some? ==> next.chunks[i] == n.chunks[i];
  }

  /** Every flash installs exactly the gateway's image: it happens precisely when the node has
      verified it, the assembled bytes are the firmware, and the node comes back with the
      version in its first byte and an empty update state. */
  lemma FlashInstallsTheImage(img: Image, n: NodeState, m: GatewayMessage, broadcast: bool)
    requires img.Valid() && Safe(img, n) && Honest(img, n.kind, m)
    ensures var h := Handle(img.sha, n, m, broadcast);
            h.node.flashCount != n.flashCount <==> m.FlashNewVersion? && n.checksumValid
    ensures m.FlashNewVersion? && n.checksumValid ==>
            var after := Handle(img.sha, n, m, broadcast).node;
            && Assembled(n.chunks) == img.firmware
            && after == WithoutUpdateState(n.(version := img.NewVersion(), flashCount := n.flashCount + 1))
  {
    HandleKeepsSafe(img, n, m, broadcast);
    CompleteMeansWholeImage(img, n);
  }

  /** The checksum verdict is right: when the last fragment of the digest is stored, the node
      declares the image valid exactly if it holds the whole binary by then. */
  lemma VerdictIsCompleteness(img: Image, n: NodeState, m: GatewayMessage)
    requires img.Valid() && Safe(img, n) && Honest(img, n.kind, m)
    requires m.ChecksumFragment? && m.number == n.checksumFragments && m.last
    ensures Handle(img.sha, n, m, false).node.checksumValid <==> BinaryComplete(n)
    ensures Handle(img.sha, n, m, false).node.checksumFragments == img.K()
  {
    var i := m.number;
    var all := img.ChecksumChunks();
    JoinAppend(all[..i], all[i]);
    assert all[..i + 1] == all[..i] + [all[i]] == all;
    JoinSplit(img.sha(img.firmware), img.chunkSize);
    CompleteMeansWholeImage(img, n);
  }

  // ---- What a node answers, whoever asks ----

  /** Handling ends in an exception exactly for the requests of the other kind's protocol, and for a
      flash command once the checksum of an empty image was verified. */
  lemma RaisesExactly(sha: seq<byte> -> seq<byte>, n: NodeState, m: GatewayMessage, broadcast: bool)
    ensures Handle(sha, n, m, broadcast).Raises? <==>
              match m
              case BroadcastStartRequest(_, _, _) => n.kind.Unicast?
              case SendMeTheBitmap => n.kind.Unicast?
              case ResetRequest => n.kind.Broadcast?
              case FlashNewVersion => n.checksumValid && forall c :: c in n.chunks && c.Some? ==> c.value == []
              case _ => false
  {
    EmptyImage(n.chunks);
  }

  lemma {:induction false} EmptyImage(chunks: seq<Option<seq<byte>>>)
    ensures Assembled(chunks) == [] <==> forall c :: c in chunks && c.Some? ==> c.value == []
  {
    if chunks != [] {
      EmptyImage(chunks[1..]);
      assert forall c :: c in chunks <==> c == chunks[0] || c in chunks[1..];
    }
  }

  /** The numbers of the chunks a node holds. */
  function HeldNumbers(chunks: seq<Option<seq<byte>>>): set<nat> {
    set i: nat | i < |chunks| && chunks[i].Some?
  }

  lemma {:induction false} CountIsHeld(chunks: seq<Option<seq<byte>>>)
    ensures CountReceived(chunks) == |HeldNumbers(chunks)|
  {
    if chunks == [] {
      assert HeldNumbers(chunks) == {};
    } else {
      var n := |chunks| - 1;
      CountIsHeld(chunks[..n]);
      CountAppend(chunks[..n], chunks[n]);
      assert chunks == chunks[..n] + [chunks[n]];
      assert HeldNumbers(chunks) == HeldNumbers(chunks[..n]) + if chunks[n].Some? then {n} else {};
    }
  }

  lemma {:induction false} CountAppend(chunks: seq<Option<seq<byte>>>, c: Option<seq<byte>>)
    ensures CountReceived(chunks + [c]) == CountReceived(chunks) + if c.Some? then 1 else 0
  {
    if chunks != [] {
      CountAppend(chunks[1..], c);
      assert (chunks + [c])[1..] == chunks[1..] + [c];
    }
  }

  /** What is said about the node in its answers: what it runs, how much it has, which chunks, and
      nothing at all to a fragment it heard in a broadcast. */
  lemma AnswersTell(sha: seq<byte> -> seq<byte>, n: NodeState, m: GatewayMessage, broadcast: bool)
    requires Handle(sha, n, m, broadcast).Handled?
    ensures var h := Handle(sha, n, m, broadcast);
            match m
            case HandshakeRequest => h == Handled(n, Some(HandshakeResponse))
            case StatusRequest =>
              h == Handled(n, Some(StatusResponse(n.version, |HeldNumbers(n.chunks)|, n.checksumFragments, n.checksumValid)))
            case SendMeTheBitmap =>
              && h.node == n && h.reply.Some?
              && (if n.chunks != [] && |HeldNumbers(n.chunks)| == |n.chunks| then h.reply.value == AllChunksReceived
                  else h.reply.value.Bitmap? && |h.reply.value.received| == |n.chunks|
                       && forall i: nat :: i < |n.chunks| ==> (h.reply.value.received[i] <==> i in HeldNumbers(n.chunks)))
            case BinaryFragment(number, _, _) =>
              if n.kind.Unicast? then h.reply == Some(WaitingForBinaryFragment(|h.node.chunks|))
              else h.reply == if broadcast then None else Some(BinaryFragmentAck(number))
            case ChecksumFragment(_, _, _) => h.reply == Some(WaitingForChecksumFragment(h.node.checksumFragments))
            case BroadcastStartRequest(_, chunks, _) =>
              h.reply == Some(BroadcastStartConfirmation(n.version)) && |h.node.chunks| == chunks && HeldNumbers(h.node.chunks) == {}
            case ResetRequest => h.reply == Some(ResetConfirmed(n.version)) && h.node.chunks == []
            case FlashNewVersion => h.reply == None
  {
    CountIsHeld(n.chunks);
    CountBound(n.chunks);
  }

  predicate Restarts(m: GatewayMessage) {
    m.ResetRequest? || m.BroadcastStartRequest? || m.FlashNewVersion?
  }

  /** A node that is given one message after the other, as long as none raises. */
  function AfterAll(sha: seq<byte> -> seq<byte>, n: NodeState, messages: seq<(GatewayMessage, bool)>): NodeState
    decreases |messages|
  {
    if messages == [] then n
    else
      match Handle(sha, n, messages[0].0, messages[0].1)
      case Raises => n
      case Handled(n', _) => AfterAll(sha, n', messages[1..])
  }

  /** The first fragment with a number wins: until the update starts over, a chunk that a node holds
      stays as it is, whatever it is sent, in any order and however often. */
  lemma {:induction false} FirstFragmentWins(sha: seq<byte> -> seq<byte>, n: NodeState, messages: seq<(GatewayMessage, bool)>, i: nat)
    requires forall m :: m in messages ==> !Restarts(m.0)
    requires i < |n.chunks| && n.chunks[i].Some?
    ensures var n' := AfterAll(sha, n, messages);
            i < |n'.chunks| && n'.chunks[i] == n.chunks[i]
    decreases |messages|
  {
    if messages != [] {
      assert messages[0] in messages;
      var h := Handle(sha, n, messages[0].0, messages[0].1);
      if h.Handled? {
        FirstFragmentWins(sha, h.node, messages[1..], i);
      }
    }
  }
}
