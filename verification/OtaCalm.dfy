/** An air that loses nothing, with nodes that answer in time: what a gateway that transmits into
    it gets back. */
module OtaCalm {
  import opened Bytes
  import opened OtaFrames
  import opened OtaNode
  import opened OtaLink
  import opened OtaStages
  import opened OtaExchange
  import opened OtaLossFree

  /** Nothing will come back by itself: no reply is queued, and all the node still has to take are
      broadcast fragments, which nobody answers. */
  predicate Hushed(l: Link) {
    && !l.raised && l.toGateway == []
    && forall f :: f in l.toNode ==> f.broadcast && f.message.BinaryFragment? && l.node.kind.Broadcast?
  }

  lemma QuietIsHushed(l: Link)
    requires Quiet(l)
    ensures Hushed(l)
  {
  }

  lemma FragmentIsSilent(img: Image, n: NodeState, m: GatewayMessage)
    requires n.kind.Broadcast? && m.BinaryFragment?
    ensures var h := Handle(img.sha, n, m, true);
            h.Handled? && h.reply.None? && h.node.kind == n.kind
  {
  }

  lemma HushedStep(img: Image, l: Link, e: Event)
    requires img.Valid() && Hushed(l)
    ensures Hushed(Step(img, l, e)) && Step(img, l, e).node.kind == l.node.kind
  {
    hide Handle;
    if e.NodeTakes? && l.toNode != [] {
      assert l.toNode[0] in l.toNode;
      FragmentIsSilent(img, l.node, l.toNode[0].message);
    }
  }

  /** Whatever else happens on the link, it stays hushed until the gateway transmits to it. */
  lemma {:induction false} HushedStays(img: Image, l: Link, events: seq<Event>)
    requires img.Valid() && Hushed(l)
    ensures Hushed(Run(img, l, events))
    decreases |events|
  {
    hide Step, Hushed;
    if events != [] {
      HushedStep(img, l, events[0]);
      HushedStays(img, Step(img, l, events[0]), events[1..]);
    }
  }

  lemma HushedEvolves(img: Image, hears: bool, l: Link, l': Link)
    requires img.Valid() && Hushed(l) && Evolves(img, hears, l, l')
    ensures Hushed(l')
  {
    var events :| (hears || NoHears(events)) && l' == Run(img, l, events);
    HushedStays(img, l, events);
  }

  /** Emptying a node's queue is a run of the link. */
  lemma {:induction false} DrainEvolves(img: Image, l: Link)
    requires img.Valid()
    ensures Evolves(img, false, l, Drain(img, l))
    decreases |l.toNode|
  {
    hide Evolves;
    if l.toNode == [] || l.raised {
      EvolvesReflexive(img, false, l);
    } else {
      var l' := Step(img, l, NodeTakes);
      EvolvesStep(img, false, l, NodeTakes);
      if |l'.toNode| < |l.toNode| {
        DrainEvolves(img, l');
        EvolvesTransitive(img, false, l, l', Drain(img, l'));
      }
    }
  }

  lemma {:induction false} DrainEmpties(img: Image, l: Link)
    requires img.Valid() && SafeLink(img, l)
    ensures Drain(img, l).toNode == []
    decreases |l.toNode|
  {
    hide SafeLink, Handle;
    assert !l.raised by { NotRaised(img, l); }
    if l.toNode != [] {
      TakeOnSafeLink(img, l);
      StepKeepsSafe(img, l, NodeTakes);
      DrainEmpties(img, Step(img, l, NodeTakes));
    }
  }

  lemma NotRaised(img: Image, l: Link)
    requires img.Valid() && SafeLink(img, l)
    ensures !l.raised
  {
  }

  lemma HushedDrains(img: Image, l: Link)
    requires img.Valid() && SafeLink(img, l) && Hushed(l)
    ensures Quiet(Drain(img, l)) && SafeLink(img, Drain(img, l)) && Drain(img, l).node.kind == l.node.kind
    ensures Drain(img, l) == Link(Drain(img, l).node, [], [], false)
  {
    hide SafeLink, Drain, Evolves;
    DrainEvolves(img, l);
    HushedEvolves(img, false, l, Drain(img, l));
    DrainEmpties(img, l);
    EvolvesKeepsSafe(img, false, l, Drain(img, l));
  }

  /** Which reply a message asks for. */
  predicate Asks(kind: Kind, m: GatewayMessage, want: Want) {
    match m
    case ResetRequest => kind.Unicast? && want == WantResetConfirmed
    case StatusRequest => want == WantStatus
    case ChecksumFragment(_, _, _) => want == WantChecksumAck
    case HandshakeRequest => want == WantHandshake
    case BroadcastStartRequest(_, _, _) => kind.Broadcast? && want == WantStartConfirmation
    case SendMeTheBitmap => kind.Broadcast? && want == WantBitmap
    case BinaryFragment(number, _, _) => want == if kind.Unicast? then WantBinaryAck else WantFragmentAck(number)
    case FlashNewVersion => false
  }

  /** Every node answers what it is asked, in whatever state it is. */
  lemma AskedIsAnswered(img: Image, n: NodeState, m: GatewayMessage, want: Want)
    requires img.Valid() && Asks(n.kind, m, want)
    ensures var h := Handle(img.sha, n, m, false);
            h.Handled? && h.reply.Some? && Matches(want, AsReceived(h.reply.value))
  {
  }

  /** The answer of a node that first takes all it was sent, and the link afterwards. */
  function NodeAfter(img: Image, l: Link, m: GatewayMessage): Handled
    requires img.Valid()
  {
    Handle(img.sha, Drain(img, l).node, m, false)
  }

  predicate CalmAnswer(img: Image, l: Link, m: GatewayMessage, reply: Option<NodeMessage>, l': Link)
    requires img.Valid()
  {
    var h := NodeAfter(img, l, m);
    h.Handled? && h.reply.Some? && reply == Some(AsReceived(h.reply.value)) && l' == Link(h.node, [], [], false)
  }

  lemma CalmLeavesHush(img: Image, l: Link, m: GatewayMessage, reply: Option<NodeMessage>, l': Link)
    requires img.Valid() && CalmAnswer(img, l, m, reply, l')
    ensures reply.Some? && Quiet(l') && Hushed(l') && Drain(img, l') == l'
  {
    hide Handle;
  }

  /** One message into silence, taken at once. */
  lemma SentAndTaken(img: Image, l: Link, m: GatewayMessage)
    requires img.Valid() && SafeLink(img, l) && l == Link(l.node, [], [], false) && Honest(img, l.node.kind, m)
    ensures var h := Handle(img.sha, l.node, m, false);
            && h.Handled?
            && Drain(img, Sent(l, m)) == Link(h.node, [], if h.reply.Some? then [AsReceived(h.reply.value)] else [], false)
  {
    hide Handle, Safe, SafeReply, Honest;
    var sent := Sent(l, m);
    assert SafeLink(img, sent);
    TakeOnSafeLink(img, sent);
    var l' := Step(img, sent, NodeTakes);
    assert sent.toNode[1..] == [];
    assert l'.toNode == [];
    assert Drain(img, sent) == Drain(img, l') == l';
  }

  /** A wanted answer at the head of the queue is the one that is read. */
  predicate AnswerRead(l: Link, want: Want, reply: Option<NodeMessage>, l': Link) {
    l.toGateway != [] && Matches(want, l.toGateway[0]) ==> reply == Some(l.toGateway[0]) && l' == Popped(l)
  }

  /** The gateway asks into a calm air: what it reads first is the answer. */
  lemma CalmExchange(img: Image, l: Link, m: GatewayMessage, want: Want)
    requires img.Valid() && SafeLink(img, l) && Hushed(l) && Honest(img, l.node.kind, m) && Asks(l.node.kind, m, want)
    ensures var d := Drain(img, Sent(Drain(img, l), m));
            && d.toGateway != [] && Matches(want, d.toGateway[0])
            && CalmAnswer(img, l, m, Some(d.toGateway[0]), Popped(d))
  {
    hide SafeLink, Drain, Handle, Honest, Hushed;
    HushedDrains(img, l);
    var quiet := Drain(img, l);
    SentAndTaken(img, quiet, m);
    AskedIsAnswered(img, quiet.node, m, want);
    var d := Drain(img, Sent(quiet, m));
    assert d.toGateway[1..] == [];
  }

  /** A flash command into a calm air is obeyed by a node that holds a verified image. */
  lemma CalmFlash(img: Image, l: Link)
    requires img.Valid() && SafeLink(img, l) && Hushed(l)
    requires Drain(img, l).node.checksumValid || Drain(img, l).node.version == img.NewVersion()
    ensures var d := Drain(img, Sent(Drain(img, l), FlashNewVersion));
            Quiet(d) && Hushed(d) && d.node.version == img.NewVersion()
  {
    hide SafeLink, Drain, Handle;
    HushedDrains(img, l);
    var quiet := Drain(img, l);
    SentAndTaken(img, quiet, FlashNewVersion);
    FlashObeyed(img, quiet);
  }

  lemma FlashObeyed(img: Image, l: Link)
    requires img.Valid() && SafeLink(img, l) && (l.node.checksumValid || l.node.version == img.NewVersion())
    ensures var h := Handle(img.sha, l.node, FlashNewVersion, false);
            h.Handled? && h.reply.None? && h.node.version == img.NewVersion()
  {
    HandleKeepsSafe(img, l.node, FlashNewVersion, false);
    if l.node.checksumValid {
      FlashInstallsTheImage(img, l.node, FlashNewVersion, false);
    }
  }

  /** Taking a step, or hearing a fragment, uncovers nothing. */
  lemma {:induction false} DrainKeepsCovered(img: Image, l: Link, i: nat)
    requires img.Valid() && SafeLink(img, l) && Hushed(l) && l.node.kind.Broadcast? && |l.node.chunks| == img.N()
    requires i < img.N() && Covered(img, l, i)
    ensures |Drain(img, l).node.chunks| == img.N() && Covered(img, Drain(img, l), i)
    decreases |l.toNode|
  {
    hide SafeLink, Handle, Covered;
    assert !l.raised by { NotRaised(img, l); }
    if l.toNode != [] {
      assert l.toNode[0] in l.toNode;
      CoveredAfterTake(img, l, i);
      StepKeepsSafe(img, l, NodeTakes);
      HushedStep(img, l, NodeTakes);
      TakeOnSafeLink(img, l);
      DrainKeepsCovered(img, Step(img, l, NodeTakes), i);
    }
  }

  lemma {:induction false} DrainKeepsLength(img: Image, l: Link)
    requires img.Valid() && SafeLink(img, l) && Hushed(l) && l.node.kind.Broadcast? && |l.node.chunks| == img.N()
    ensures |Drain(img, l).node.chunks| == img.N()
    decreases |l.toNode|
  {
    hide SafeLink;
    assert !l.raised by { NotRaised(img, l); }
    if l.toNode != [] {
      assert l.toNode[0] in l.toNode;
      StepKeepsSafe(img, l, NodeTakes);
      HushedStep(img, l, NodeTakes);
      TakeOnSafeLink(img, l);
      DrainKeepsLength(img, Step(img, l, NodeTakes));
    }
  }

  /** A node with a fragment on its way for every chunk it lacks will say that it has them all. */
  lemma CoveredIsComplete(img: Image, l: Link)
    requires img.Valid() && SafeLink(img, l) && Hushed(l) && l.node.kind.Broadcast? && |l.node.chunks| == img.N()
    requires forall i: nat :: i < img.N() ==> Covered(img, l, i)
    ensures NodeAfter(img, l, SendMeTheBitmap) == Handled(Drain(img, l).node, Some(AllChunksReceived))
  {
    hide SafeLink, Covered, Drain;
    assert NoStarts(l.toNode) && forall f :: f in l.toNode ==> !f.message.FlashNewVersion?;
    DrainCompletes(img, l);
    HushedDrains(img, l);
  }

  /** Every chunk is held, or on its way to the node, but for those listed from an index on. */
  ghost predicate CoveredBut(img: Image, l: Link, missing: seq<nat>, from: nat)
    requires img.Valid()
  {
    && |l.node.chunks| == img.N() && from <= |missing|
    && forall i: nat :: i < img.N() ==> i in missing[from..] || Covered(img, l, i)
  }

  ghost predicate AllCovered(img: Image, l: Link)
    requires img.Valid()
  {
    |l.node.chunks| == img.N() && forall i: nat :: i < img.N() ==> Covered(img, l, i)
  }

  lemma NoneLeftOut(img: Image, l: Link, missing: seq<nat>)
    requires img.Valid() && CoveredBut(img, l, missing, |missing|)
    ensures AllCovered(img, l)
  {
    hide Covered;
  }

  lemma HeldIsCovered(img: Image, l: Link, missing: seq<nat>)
    requires img.Valid() && |l.node.chunks| == img.N()
    requires forall i :: 0 <= i < img.N() && l.node.chunks[i].None? ==> i in missing
    ensures CoveredBut(img, l, missing, 0)
  {
    assert missing[0..] == missing;
  }

  lemma HearCovers(img: Image, l: Link, number: nat, i: nat)
    requires img.Valid() && number < img.N() && i < img.N() && |l.node.chunks| == img.N()
    requires l.node.kind.Broadcast? && !l.raised && (i == number || Covered(img, l, i))
    ensures Covered(img, Step(img, l, Hear(number)), i)
  {
    var l' := Step(img, l, Hear(number));
    assert l'.toNode[|l.toNode|] == Frame(FragmentOf(img, number), true);
    assert Frame(FragmentOf(img, number), true) in l'.toNode;
    assert forall f :: f in l.toNode ==> f in l'.toNode;
  }

  /** A broadcast fragment into a calm air covers its chunk, and uncovers none. */
  lemma CalmBroadcast(img: Image, l: Link, missing: seq<nat>, k: nat)
    requires img.Valid() && SafeLink(img, l) && Hushed(l) && l.node.kind.Broadcast?
    requires k < |missing| && missing[k] < img.N() && CoveredBut(img, l, missing, k)
    ensures var l' := Step(img, Drain(img, l), Hear(missing[k]));
            Hushed(l') && CoveredBut(img, l', missing, k + 1)
  {
    hide SafeLink, Covered, Drain, Hushed;
    HushedDrains(img, l);
    var drained := Drain(img, l);
    QuietIsHushed(drained);
    HushedStep(img, drained, Hear(missing[k]));
    DrainKeepsLength(img, l);
    forall i: nat | i < img.N() && i !in missing[k + 1..]
      ensures Covered(img, Step(img, drained, Hear(missing[k])), i)
    {
      if i != missing[k] {
        assert i !in missing[k..] by { assert missing[k..] == [missing[k]] + missing[k + 1..]; }
        DrainKeepsCovered(img, l, i);
      }
      HearCovers(img, drained, missing[k], i);
    }
  }

  lemma CalmComplete(img: Image, l: Link, reply: Option<NodeMessage>, l': Link)
    requires img.Valid() && SafeLink(img, l) && Hushed(l) && l.node.kind.Broadcast? && AllCovered(img, l)
    requires CalmAnswer(img, l, SendMeTheBitmap, reply, l')
    ensures reply == Some(AllChunksReceived)
  {
    hide SafeLink, Covered, Hushed, NodeAfter;
    CoveredIsComplete(img, l);
  }

  /** A node that runs the new version says so. */
  lemma CalmStatus(img: Image, l: Link, reply: Option<NodeMessage>, l': Link)
    requires img.Valid() && SafeLink(img, l) && l.node.version == img.NewVersion()
    requires CalmAnswer(img, l, StatusRequest, reply, l')
    ensures reply.Some? && reply.value.StatusResponse? && reply.value.firmwareVersion == img.NewVersion()
  {
    hide SafeLink, Drain, Evolves;
    DrainEvolves(img, l);
    EvolvesKeepsSafe(img, false, l, Drain(img, l));
  }

  /** The flash command takes effect while the gateway waits for the reboot. */
  lemma CalmFlashing(img: Image, l: Link)
    requires img.Valid() && StageInv(img, Flashing, l) && Hushed(l)
    ensures var d := Drain(img, Sent(Drain(img, l), FlashNewVersion));
            Hushed(d) && d.node.version == img.NewVersion()
  {
    hide Drain, Evolves, SafeLink, Hushed;
    DrainEvolves(img, l);
    EvolvesKeepsStage(img, Flashing, false, l, Drain(img, l));
    CalmFlash(img, l);
  }

  // ---- The broadcast stage ----

  function UpTo(n: nat): (numbers: seq<nat>)
    ensures |numbers| == n && forall k :: 0 <= k < n ==> numbers[k] == k
  {
    seq(n, k => k)
  }

  lemma NothingSentYet(img: Image, l: Link)
    requires img.Valid() && |l.node.chunks| == img.N()
    ensures CoveredBut(img, l, UpTo(img.N()), 0)
  {
    hide Covered;
    assert UpTo(img.N())[0..] == UpTo(img.N());
    forall i: nat | i < img.N()
      ensures i in UpTo(img.N())
    {
      assert UpTo(img.N())[i] == i;
    }
  }

  /** Another fragment uncovers nothing. */
  lemma CalmHearing(img: Image, l: Link, number: nat)
    requires img.Valid() && SafeLink(img, l) && Hushed(l) && l.node.kind.Broadcast? && AllCovered(img, l) && number < img.N()
    ensures var l' := Step(img, Drain(img, l), Hear(number));
            Hushed(l') && AllCovered(img, l') && l'.node.kind == l.node.kind
  {
    hide SafeLink, Hushed, Drain, Covered;
    assert CoveredBut(img, l, [number], 0);
    CalmBroadcast(img, l, [number], 0);
    NoneLeftOut(img, Step(img, Drain(img, l), Hear(number)), [number]);
    HushedDrains(img, l);
  }

  /** A node that empties its queue holds every chunk that was on its way to it. */
  lemma DrainedHasAll(img: Image, l: Link)
    requires img.Valid() && SafeLink(img, l) && Hushed(l) && l.node.kind.Broadcast? && AllCovered(img, l)
    ensures Quiet(Drain(img, l)) && AllCovered(img, Drain(img, l))
  {
    hide SafeLink, Hushed, Drain, Covered;
    HushedDrains(img, l);
    DrainKeepsLength(img, l);
    forall i: nat | i < img.N()
      ensures Covered(img, Drain(img, l), i)
    {
      DrainKeepsCovered(img, l, i);
    }
  }

  lemma DrainKeepsKind(img: Image, l: Link)
    requires img.Valid() && SafeLink(img, l) && Hushed(l)
    ensures Drain(img, l).node.kind == l.node.kind
  {
    hide SafeLink, Hushed, Drain;
    HushedDrains(img, l);
  }

  /** The answer to the bitmap request, in such an air, is the truth about the node. */
  lemma CalmBitmap(img: Image, l: Link, reply: Option<NodeMessage>, l': Link)
    requires img.Valid() && CalmAnswer(img, l, SendMeTheBitmap, reply, l') && Drain(img, l).node.kind.Broadcast?
    requires |l'.node.chunks| == img.N()
    ensures reply.Some? && (reply.value.AllChunksReceived? || reply.value.Bitmap?)
    ensures reply.value.AllChunksReceived? ==> forall i :: 0 <= i < img.N() ==> l'.node.chunks[i].Some?
    ensures reply.value.Bitmap? ==>
              |reply.value.received| >= img.N() && forall i :: 0 <= i < img.N() ==> (reply.value.received[i] <==> l'.node.chunks[i].Some?)
  {
    hide Drain;
  }

  /** A node confirms the announcement with the version it runs. */
  lemma CalmConfirmation(img: Image, l: Link, version: byte, chunks: nat, size: nat, reply: Option<NodeMessage>, l': Link)
    requires img.Valid() && Quiet(l) && l.node.kind.Broadcast?
    requires CalmAnswer(img, l, BroadcastStartRequest(version, chunks, size), reply, l')
    ensures reply.Some? && reply.value == BroadcastStartConfirmation(l.node.version)
  {
    assert Drain(img, l) == l;
  }
}
