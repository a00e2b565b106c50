/** The other direction: when nothing is lost the update does complete. */
module OtaLossFree {
  import opened Bytes
  import opened OtaFrames
  import opened OtaNode
  import opened OtaLink
  import opened OtaStages

  /** The node handles a list of messages, one after the other. */
  function Feed(img: Image, n: NodeState, ms: seq<GatewayMessage>): NodeState
    decreases |ms|
  {
    if ms == [] then n
    else
      match Handle(img.sha, n, ms[0], false)
      case Raises => n
      case Handled(next, _) => Feed(img, next, ms[1..])
  }

  lemma {:induction false} FeedConcat(img: Image, n: NodeState, a: seq<GatewayMessage>, b: seq<GatewayMessage>)
    requires img.Valid() && Safe(img, n)
    requires forall m :: m in a ==> Honest(img, n.kind, m)
    ensures Feed(img, n, a + b) == Feed(img, Feed(img, n, a), b)
    decreases |a|
  {
    hide Handle, Safe;
    if a == [] {
      assert a + b == b;
    } else {
      HandleKeepsSafe(img, n, a[0], false);
      FeedConcat(img, Handle(img.sha, n, a[0], false).node, a[1..], b);
      assert (a + b)[1..] == a[1..] + b;
    }
  }

  function Fragments(img: Image, from: nat): seq<GatewayMessage>
    requires img.Valid() && from <= img.N()
    decreases img.N() - from
  {
    if from == img.N() then [] else [FragmentOf(img, from)] + Fragments(img, from + 1)
  }

  function ChecksumFragments(img: Image, from: nat): seq<GatewayMessage>
    requires img.Valid() && from <= img.K()
    decreases img.K() - from
  {
    if from == img.K() then [] else [ChecksumFragmentOf(img, from)] + ChecksumFragments(img, from + 1)
  }

  /** In order and without loss, the fragments complete a unicast node. */
  lemma {:induction false} FragmentsComplete(img: Image, n: NodeState)
    requires img.Valid() && Safe(img, n) && n.kind.Unicast?
    ensures var n' := Feed(img, n, Fragments(img, |n.chunks|));
            Safe(img, n') && BinaryComplete(n') && n'.kind.Unicast? && n'.version == n.version
            && n'.flashCount == n.flashCount && n'.checksumFragments == n.checksumFragments
    decreases img.N() - |n.chunks|
  {
    var i := |n.chunks|;
    NextFragmentStored(img, n);
    if i < img.N() {
      hide Safe, BinaryComplete, Handle;
      var m := FragmentOf(img, i);
      var next := Handle(img.sha, n, m, false).node;
      assert ([m] + Fragments(img, i + 1))[1..] == Fragments(img, i + 1);
      FragmentsComplete(img, next);
    }
  }

  lemma NextFragmentStored(img: Image, n: NodeState)
    requires img.Valid() && Safe(img, n) && n.kind.Unicast?
    ensures |n.chunks| <= img.N()
    ensures |n.chunks| == img.N() ==> BinaryComplete(n)
    ensures |n.chunks| < img.N() ==>
              var h := Handle(img.sha, n, FragmentOf(img, |n.chunks|), false);
              h.Handled? && Safe(img, h.node) && |h.node.chunks| == |n.chunks| + 1
              && h.node.kind == n.kind && h.node.version == n.version
              && h.node.flashCount == n.flashCount && h.node.checksumFragments == n.checksumFragments
  {
    if |n.chunks| < img.N() {
      FragmentKeepsSafe(img, n, FragmentOf(img, |n.chunks|), false);
    }
  }

  /** In order and without loss, the checksum fragments make a complete node valid. */
  lemma {:induction false} ChecksumValidates(img: Image, n: NodeState)
    requires img.Valid() && Safe(img, n) && BinaryComplete(n)
    requires n.checksumComplete ==> n.checksumValid
    ensures var n' := Feed(img, n, ChecksumFragments(img, n.checksumFragments));
            Safe(img, n') && n'.checksumValid && n'.kind == n.kind && n'.version == n.version
            && n'.flashCount == n.flashCount
    decreases img.K() - n.checksumFragments
  {
    var i := n.checksumFragments;
    if i < img.K() {
      var m := ChecksumFragmentOf(img, i);
      ChecksumKeepsSafe(img, n, m);
      if m.last {
        VerdictIsCompleteness(img, n, m);
      }
      var next := Handle(img.sha, n, m, false).node;
      assert BinaryComplete(next);
      assert ([m] + ChecksumFragments(img, i + 1))[1..] == ChecksumFragments(img, i + 1);
      ChecksumValidates(img, next);
    }
  }

  lemma FragmentsHonest(img: Image, kind: Kind, from: nat)
    requires img.Valid() && from <= img.N()
    ensures forall m :: m in Fragments(img, from) ==> Honest(img, kind, m)
    decreases img.N() - from
  {
  }

  lemma ChecksumHonest(img: Image, kind: Kind, from: nat)
    requires img.Valid() && from <= img.K()
    ensures forall m :: m in ChecksumFragments(img, from) ==> Honest(img, kind, m)
    decreases img.K() - from
  {
  }

  /** The unicast method end to end: from any safe node, a reset, the fragments, the checksum
      and the flash command leave it running the gateway's version, flashed exactly once. */
  lemma LossFreeUnicastUpdate(img: Image, n: NodeState)
    requires img.Valid() && Safe(img, n) && n.kind.Unicast?
    ensures var n' := Feed(img, n, [ResetRequest] + Fragments(img, 0) + ChecksumFragments(img, 0) + [FlashNewVersion]);
            n'.version == img.NewVersion() && n'.flashCount == n.flashCount + 1
  {
    hide Safe, Honest, Handle;
    var reset := WithoutUpdateState(n);
    ResetStep(img, n);
    FragmentsComplete(img, reset);
    FragmentsHonest(img, n.kind, 0);
    ChecksumHonest(img, n.kind, 0);
    var a, b, c := Fragments(img, 0), ChecksumFragments(img, 0), [FlashNewVersion];
    var whole := Feed(img, reset, a);
    NoChecksumYet(img, whole);
    ChecksumValidates(img, whole);
    var verified := Feed(img, whole, b);
    FlashStep(img, verified);
    assert [ResetRequest] + a + b + c == [ResetRequest] + (a + (b + c));
    FeedConcat(img, n, [ResetRequest], a + (b + c));
    FeedConcat(img, reset, a, b + c);
    FeedConcat(img, whole, b, c);
  }

  lemma NoChecksumYet(img: Image, n: NodeState)
    requires img.Valid() && Safe(img, n) && n.checksumFragments == 0
    ensures !n.checksumComplete
  {
  }

  lemma ResetStep(img: Image, n: NodeState)
    requires img.Valid() && Safe(img, n) && n.kind.Unicast?
    ensures Feed(img, n, [ResetRequest]) == WithoutUpdateState(n)
    ensures Safe(img, WithoutUpdateState(n)) && Honest(img, n.kind, ResetRequest)
    ensures forall m :: m in [ResetRequest] ==> Honest(img, n.kind, m)
  {
    HandleKeepsSafe(img, n, ResetRequest, false);
    assert [ResetRequest][1..] == [];
  }

  lemma FlashStep(img: Image, n: NodeState)
    requires img.Valid() && Safe(img, n) && n.checksumValid
    ensures var n' := Feed(img, n, [FlashNewVersion]);
            n'.version == img.NewVersion() && n'.flashCount == n.flashCount + 1
  {
    FlashInstallsTheImage(img, n, FlashNewVersion, false);
    HandleKeepsSafe(img, n, FlashNewVersion, false);
    assert [FlashNewVersion][1..] == [];
  }

  // ---- A loss-free repair round ----

  /** The node empties its queue. */
  function Drain(img: Image, l: Link): Link
    requires img.Valid()
    decreases |l.toNode|
  {
    if l.toNode == [] || l.raised then l
    else
      var l' := Step(img, l, NodeTakes);
      if |l'.toNode| < |l.toNode| then Drain(img, l') else l'
  }

  ghost predicate Covered(img: Image, l: Link, i: nat)
    requires img.Valid() && |l.node.chunks| == img.N() && i < img.N()
  {
    l.node.chunks[i].Some? || exists f :: f in l.toNode && f.message == FragmentOf(img, i)
  }

  /** If every chunk the node lacks is among the frames on their way to it, then once they
      have all arrived the node is complete, whatever else is queued between them. */
  lemma {:induction false} DrainCompletes(img: Image, l: Link)
    requires img.Valid() && SafeLink(img, l) && l.node.kind.Broadcast? && |l.node.chunks| == img.N()
    requires NoStarts(l.toNode) && forall f :: f in l.toNode ==> !f.message.FlashNewVersion?
    requires forall i: nat :: i < img.N() ==> Covered(img, l, i)
    ensures BinaryComplete(Drain(img, l).node)
    decreases |l.toNode|
  {
    hide Handle, Safe, SafeReply, Honest;
    if l.toNode == [] {
      forall i | 0 <= i < |l.node.chunks|
        ensures l.node.chunks[i].Some?
      {
        assert Covered(img, l, i);
      }
    } else {
      var f := l.toNode[0];
      var l' := Step(img, l, NodeTakes);
      assert f in l.toNode;
      TakeOnSafeLink(img, l);
      StepKeepsSafe(img, l, NodeTakes);
      FragmentKeepsChunks(img, l.node, f.message, f.broadcast);
      forall i: nat | i < img.N()
        ensures Covered(img, l', i)
      {
        CoveredAfterTake(img, l, i);
      }
      DrainCompletes(img, l');
    }
  }

  lemma CoveredAfterTake(img: Image, l: Link, i: nat)
    requires img.Valid() && SafeLink(img, l) && l.node.kind.Broadcast? && |l.node.chunks| == img.N()
    requires l.toNode != [] && !IsStart(l.toNode[0].message) && !l.toNode[0].message.FlashNewVersion?
    requires i < img.N() && Covered(img, l, i)
    ensures var l' := Step(img, l, NodeTakes);
            |l'.node.chunks| == img.N() && Covered(img, l', i)
  {
    var f := l.toNode[0];
    var l' := Step(img, l, NodeTakes);
    TakeOnSafeLink(img, l);
    FragmentKeepsChunks(img, l.node, f.message, f.broadcast);
    if l.node.chunks[i].None? {
      var g :| g in l.toNode && g.message == FragmentOf(img, i);
      if g == f {
        assert l'.node.chunks[i].Some?;
      } else {
        var j :| 0 <= j < |l.toNode| && l.toNode[j] == g;
        assert l.toNode[1..][j - 1] == g;
      }
    }
  }

  function RepairFrames(img: Image, missing: seq<nat>): (frames: seq<Frame>)
    requires img.Valid() && forall k :: 0 <= k < |missing| ==> missing[k] < img.N()
    ensures |frames| == |missing|
    ensures forall k :: 0 <= k < |missing| ==> frames[k] == Frame(FragmentOf(img, missing[k]), true)
  {
    seq(|missing|, k requires 0 <= k < |missing| => Frame(FragmentOf(img, missing[k]), true))
  }

  /** One loss-free repair round completes the node: the gateway broadcasts exactly the list
      it computed from a bitmap, and nothing is lost on the way. */
  lemma LossFreeRepairRound(img: Image, known: set<nat>, l: Link, missing: seq<nat>)
    requires img.Valid() && StageInv(img, Collecting(known, true), l)
    requires forall k :: 0 <= k < |missing| ==> missing[k] < img.N()
    requires forall i: nat :: i < img.N() && l.node.chunks[i].None? ==> i in missing
    ensures BinaryComplete(Drain(img, l.(toNode := l.toNode + RepairFrames(img, missing))).node)
  {
    hide Handle, Safe, SafeReply, Reports;
    var frames := RepairFrames(img, missing);
    forall f | f in frames
      ensures !IsStart(f.message) && !f.message.FlashNewVersion? && Honest(img, Broadcast, f.message)
    {
      var k :| 0 <= k < |missing| && frames[k] == f;
    }
    var l' := l.(toNode := l.toNode + frames);
    forall i: nat | i < img.N()
      ensures Covered(img, l', i)
    {
      if l.node.chunks[i].None? {
        var k :| 0 <= k < |missing| && missing[k] == i;
        assert frames[k] in l'.toNode;
      }
    }
    DrainCompletes(img, l');
  }
}
