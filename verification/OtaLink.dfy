/** The air between the gateway and one node: a first-in-first-out queue in each direction
    from which any frame may be lost at any time, with the node at the far end. A step of the
    link is deterministic given the event; the events of a run are arbitrary. */
module OtaLink {
  import opened Bytes
  import opened OtaFrames
  import opened OtaNode

  datatype Frame = Frame(message: GatewayMessage, broadcast: bool)

  /** `raised` records that the node's receive loop ended in an exception. */
  datatype Link = Link(node: NodeState, toNode: seq<Frame>, toGateway: seq<NodeMessage>, raised: bool)

  /** NodeTakes: the node handles the next frame and answers. LoseToNode, LoseToGateway: a frame
      is lost in the air, to a powered down radio, or because the receiver was busy. Hear: the
      gateway broadcasts a fragment of the image, for whichever node it is meant. */
  datatype Event = NodeTakes | LoseToNode(at: nat) | LoseToGateway(at: nat) | Hear(number: nat)

  function RemoveAt<T>(s: seq<T>, at: nat): (r: seq<T>)
    ensures at >= |s| ==> r == s
    ensures at < |s| ==> |r| == |s| - 1 &&
                         forall i :: 0 <= i < |r| ==> r[i] == s[if i < at then i else i + 1]
    ensures forall x :: x in r ==> x in s
  {
    if at < |s| then s[..at] + s[at + 1..] else s
  }

  /** A reply crosses the air as bytes. */
  function OverTheAir(reply: NodeMessage): Option<NodeMessage> {
    var payload := EncodeNode(reply);
    if payload.None? then None else DecodeNode(payload.value)
  }

  function Take(img: Image, l: Link): Link {
    if l.toNode == [] then l
    else
      var f := l.toNode[0];
      match Handle(img.sha, l.node, f.message, f.broadcast)
      case Raises => l.(raised := true)
      case Handled(node, None) => l.(node := node, toNode := l.toNode[1..])
      case Handled(node, Some(reply)) =>
        var arrives := OverTheAir(reply);
        if arrives.None? then l.(raised := true)
        else l.(node := node, toNode := l.toNode[1..], toGateway := l.toGateway + [arrives.value])
  }

  function Step(img: Image, l: Link, e: Event): Link
    requires img.Valid()
  {
    if l.raised then l
    else
      match e
      case NodeTakes => Take(img, l)
      case LoseToNode(at) => l.(toNode := RemoveAt(l.toNode, at))
      case LoseToGateway(at) => l.(toGateway := RemoveAt(l.toGateway, at))
      case Hear(number) =>
        if l.node.kind.Broadcast? && number < img.N()
        then l.(toNode := l.toNode + [Frame(FragmentOf(img, number), true)])
        else l
  }

  function Run(img: Image, l: Link, events: seq<Event>): Link
    requires img.Valid()
    decreases |events|
  {
    if events == [] then l else Run(img, Step(img, l, events[0]), events[1..])
  }

  lemma {:induction false} RunConcat(img: Image, l: Link, a: seq<Event>, b: seq<Event>)
    requires img.Valid()
    ensures Run(img, l, a + b) == Run(img, Run(img, l, a), b)
    decreases |a|
  {
    hide Step;
    if a == [] {
      assert a + b == b;
    } else {
      RunConcat(img, Step(img, l, a[0]), a[1..], b);
      assert (a + b)[1..] == a[1..] + b;
    }
  }

  /** A node's receive loop ends in an exception exactly when handling the next frame does, or the
      answer does not fit its format. */
  lemma RaisedExactly(img: Image, l: Link)
    requires img.Valid() && !l.raised && l.toNode != []
    ensures var h := Handle(img.sha, l.node, l.toNode[0].message, l.toNode[0].broadcast);
            Step(img, l, NodeTakes).raised <==> h.Raises? || (h.reply.Some? && !NodeInRange(h.reply.value))
  {
    hide Handle, EncodeNode, DecodeNode, NodeInRange, AsReceived;
    var h := Handle(img.sha, l.node, l.toNode[0].message, l.toNode[0].broadcast);
    if h.Handled? && h.reply.Some? {
      NodeRoundTrip(h.reply.value);
    }
  }

  predicate NoHears(events: seq<Event>) {
    forall e :: e in events ==> !e.Hear?
  }

  /** One link state can turn into another through some run of the air and the node; `hears`
      says whether the gateway may broadcast meanwhile. */
  ghost predicate Evolves(img: Image, hears: bool, l: Link, l': Link)
    requires img.Valid()
  {
    exists events :: (hears || NoHears(events)) && l' == Run(img, l, events)
  }

  lemma EvolvesReflexive(img: Image, hears: bool, l: Link)
    requires img.Valid()
    ensures Evolves(img, hears, l, l)
  {
    assert NoHears([]) && l == Run(img, l, []);
  }

  lemma EvolvesStep(img: Image, hears: bool, l: Link, e: Event)
    requires img.Valid() && (e.Hear? ==> hears)
    ensures Evolves(img, hears, l, Step(img, l, e))
  {
    assert Run(img, Step(img, l, e), []) == Step(img, l, e);
    assert [e][1..] == [];
    assert (hears || NoHears([e])) && Step(img, l, e) == Run(img, l, [e]);
  }

  lemma EvolvesTransitive(img: Image, hears: bool, a: Link, b: Link, c: Link)
    requires img.Valid() && Evolves(img, hears, a, b) && Evolves(img, hears, b, c)
    ensures Evolves(img, hears, a, c)
  {
    var first :| (hears || NoHears(first)) && b == Run(img, a, first);
    var second :| (hears || NoHears(second)) && c == Run(img, b, second);
    RunConcat(img, a, first, second);
    assert (hears || NoHears(first + second)) && c == Run(img, a, first + second);
  }

  // ---- What holds whatever is stale, lost or repeated ----

  /** What a queued reply says about the node as it is now. */
  predicate SafeReply(img: Image, n: NodeState, r: NodeMessage)
    requires img.Valid()
  {
    match r
    case WaitingForBinaryFragment(expected) => expected <= img.N()
    case WaitingForChecksumFragment(expected) => expected <= img.K()
    case StatusResponse(version, binary, checksum, _) =>
      (version == img.NewVersion() ==> n.version == img.NewVersion())
      && binary <= img.N() && checksum <= img.K()
    case ResetConfirmed(version) => version == img.NewVersion() ==> n.version == img.NewVersion()
    case BroadcastStartConfirmation(version) =>
      version == img.NewVersion() ==> n.version == img.NewVersion()
    case _ => true
  }

  ghost predicate SafeLink(img: Image, l: Link)
    requires img.Valid()
  {
    && !l.raised
    && Safe(img, l.node)
    && (forall f :: f in l.toNode ==> Honest(img, l.node.kind, f.message))
    && (forall r :: r in l.toGateway ==> SafeReply(img, l.node, r))
  }

  /** A reply of a safe node fits the format, so the gateway reads what the node said. */
  lemma SafeReplyArrives(img: Image, n: NodeState, m: GatewayMessage, broadcast: bool)
    requires img.Valid() && Safe(img, n) && Honest(img, n.kind, m)
    ensures var h := Handle(img.sha, n, m, broadcast);
            h.Handled? && (h.reply.Some? ==> OverTheAir(h.reply.value) == Some(AsReceived(h.reply.value)))
    ensures var h := Handle(img.sha, n, m, broadcast);
            h.reply.Some? ==> SafeReply(img, h.node, AsReceived(h.reply.value))
  {
    HandleKeepsSafe(img, n, m, broadcast);
    CountBound(n.chunks);
    var h := Handle(img.sha, n, m, broadcast);
    if h.reply.Some? {
      assert NodeInRange(h.reply.value);
      NodeRoundTrip(h.reply.value);
    }
  }

  /** The node's side of one step, spelled out for a safe link. */
  lemma TakeOnSafeLink(img: Image, l: Link)
    requires img.Valid() && SafeLink(img, l) && l.toNode != []
    ensures var f := l.toNode[0];
            var h := Handle(img.sha, l.node, f.message, f.broadcast);
            && h.Handled?
            && Step(img, l, NodeTakes) == Link(h.node, l.toNode[1..],
                 if h.reply.Some? then l.toGateway + [AsReceived(h.reply.value)] else l.toGateway, false)
  {
    var f := l.toNode[0];
    SafeReplyArrives(img, l.node, f.message, f.broadcast);
  }

  lemma StepKeepsSafe(img: Image, l: Link, e: Event)
    requires img.Valid() && SafeLink(img, l)
    ensures var l' := Step(img, l, e);
            && SafeLink(img, l') && l'.node.kind == l.node.kind
            && (l'.node.version == l.node.version || l'.node.version == img.NewVersion())
  {
    hide Safe, Handle;
    if e.NodeTakes? && l.toNode != [] {
      var f := l.toNode[0];
      HandleKeepsSafe(img, l.node, f.message, f.broadcast);
      SafeReplyArrives(img, l.node, f.message, f.broadcast);
      TakeOnSafeLink(img, l);
    }
  }

  /** Safety over whole runs: from a safe link, whatever is lost, delayed, repeated or stale,
      no node ever raises, every stored chunk is the gateway's, and once a node runs the new
      version it stays on it. */
  lemma {:induction false} RunKeepsSafe(img: Image, l: Link, events: seq<Event>)
    requires img.Valid() && SafeLink(img, l)
    ensures var l' := Run(img, l, events);
            && SafeLink(img, l') && l'.node.kind == l.node.kind
            && (l'.node.version == l.node.version || l'.node.version == img.NewVersion())
    decreases |events|
  {
    hide Step, SafeLink;
    if events != [] {
      StepKeepsSafe(img, l, events[0]);
      RunKeepsSafe(img, Step(img, l, events[0]), events[1..]);
    }
  }

  /** Every flash in every run installs exactly the gateway's image. */
  lemma EveryFlashInstallsTheImage(img: Image, l: Link, events: seq<Event>, e: Event)
    requires img.Valid() && SafeLink(img, l)
    ensures var before := Run(img, l, events);
            var after := Step(img, before, e);
            after.node.flashCount != before.node.flashCount ==>
              && Assembled(before.node.chunks) == img.firmware
              && after.node.version == img.firmware[0]
              && after.node.flashCount == before.node.flashCount + 1
              && after.node.chunks == [] && !after.node.checksumValid
  {
    RunKeepsSafe(img, l, events);
    var before := Run(img, l, events);
    if e.NodeTakes? && before.toNode != [] {
      var f := before.toNode[0];
      FlashInstallsTheImage(img, before.node, f.message, f.broadcast);
      TakeOnSafeLink(img, before);
    }
  }

  lemma EvolvesKeepsSafe(img: Image, hears: bool, l: Link, l': Link)
    requires img.Valid() && SafeLink(img, l) && Evolves(img, hears, l, l')
    ensures SafeLink(img, l') && l'.node.kind == l.node.kind
    ensures l.node.version == img.NewVersion() ==> l'.node.version == img.NewVersion()
  {
    var events :| (hears || NoHears(events)) && l' == Run(img, l, events);
    RunKeepsSafe(img, l, events);
  }

  /** Nothing is under way in either direction. */
  predicate Quiet(l: Link) {
    !l.raised && l.toNode == [] && l.toGateway == []
  }

  lemma {:induction false} QuietStays(img: Image, l: Link, events: seq<Event>)
    requires img.Valid() && Quiet(l) && NoHears(events)
    ensures Run(img, l, events) == l
    decreases |events|
  {
    if events != [] {
      assert events[0] in events;
      assert Step(img, l, events[0]) == l;
      QuietStays(img, l, events[1..]);
    }
  }

  // ---- From the first moment ----

  /** A node that has just booted, running some version, with nothing in the air. */
  function Booted(kind: Kind, version: byte): Link {
    Link(NodeState(kind, version, 0, [], false, 0, [], false, false), [], [], false)
  }

  lemma BootedIsSafe(img: Image, kind: Kind, version: byte)
    requires img.Valid()
    ensures SafeLink(img, Booted(kind, version)) && Quiet(Booted(kind, version))
  {
    assert img.ChecksumChunks()[..0] == [];
  }

  /** What happens on a link with a gateway at the other end: the air and the node take a step,
      the gateway sends a frame, or it reads one. */
  datatype Move = World(e: Event) | Send(frame: Frame) | Read

  function MoveOn(img: Image, l: Link, m: Move): Link
    requires img.Valid()
  {
    match m
    case World(e) => Step(img, l, e)
    case Send(frame) => l.(toNode := l.toNode + [frame])
    case Read => l.(toGateway := RemoveAt(l.toGateway, 0))
  }

  function Moves(img: Image, l: Link, moves: seq<Move>): Link
    requires img.Valid()
    decreases |moves|
  {
    if moves == [] then l else Moves(img, MoveOn(img, l, moves[0]), moves[1..])
  }

  lemma {:induction false} MovesKeepSafe(img: Image, l: Link, moves: seq<Move>)
    requires img.Valid() && SafeLink(img, l)
    requires forall m :: m in moves && m.Send? ==> Honest(img, l.node.kind, m.frame.message)
    ensures var l' := Moves(img, l, moves);
            && SafeLink(img, l') && l'.node.kind == l.node.kind
            && (l'.node.version == l.node.version || l'.node.version == img.NewVersion())
    decreases |moves|
  {
    hide Step, Safe, SafeReply, Honest;
    if moves != [] {
      var m := moves[0];
      assert m in moves;
      if m.World? {
        StepKeepsSafe(img, l, m.e);
      }
      MovesKeepSafe(img, MoveOn(img, l, m), moves[1..]);
    }
  }

  /** From boot, over every run: whichever messages the gateway sends and in whichever order,
      whatever is lost, delayed, repeated or stale. Nothing raises, every stored chunk is the
      gateway's, a complete node holds the whole image, and the node runs the version it booted
      with or the new one; the next flash, if there is one, installs exactly the image. */
  lemma SafeFromBoot(img: Image, kind: Kind, version: byte, moves: seq<Move>, e: Event)
    requires img.Valid()
    requires forall m :: m in moves && m.Send? ==> Honest(img, kind, m.frame.message)
    ensures var l := Moves(img, Booted(kind, version), moves);
            && !l.raised
            && (forall i :: 0 <= i < |l.node.chunks| && l.node.chunks[i].Some? ==>
                  i < img.N() && l.node.chunks[i].value == img.Chunks()[i])
            && (BinaryComplete(l.node) ==> Assembled(l.node.chunks) == img.firmware)
            && l.node.version in {version as int, img.NewVersion() as int}
            && (Step(img, l, e).node.flashCount != l.node.flashCount ==>
                  Assembled(l.node.chunks) == img.firmware && Step(img, l, e).node.version == img.firmware[0])
  {
    hide Moves, Step, Booted;
    BootedIsSafe(img, kind, version);
    assert Booted(kind, version).node.kind == kind && Booted(kind, version).node.version == version by { BootedAs(kind, version); }
    MovesKeepSafe(img, Booted(kind, version), moves);
    var l := Moves(img, Booted(kind, version), moves);
    CompleteMeansWholeImage(img, l.node);
    NoMoreEvents(img, l);
    EveryFlashInstallsTheImage(img, l, [], e);
  }

  lemma BootedAs(kind: Kind, version: byte)
    ensures Booted(kind, version).node.kind == kind && Booted(kind, version).node.version == version
  {
  }

  lemma NoMoreEvents(img: Image, l: Link)
    requires img.Valid()
    ensures Run(img, l, []) == l
  {
  }
}
