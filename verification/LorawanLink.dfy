/** Data frames from end to end: sealed by the sender, carried by a channel that may lose,
    repeat, reorder or invent frames, and opened by a receiver that remembers one counter.
    The multicast downlink and the uplink differ only in direction and counter window. */
module LorawanLink {
  import opened Bytes
  import opened LorawanCrypto
  import opened LorawanFrames
  import opened Subsequences

  datatype Message = Message(mtype: MType, fctrl: FCtrl, fopts: seq<byte>, fport: Option<byte>, payload: seq<byte>)

  /** The frame every sender builds. Payloads are always under the application key, and the MIC
      covers the full counter. */
  function Frame(p: Primitives, keys: SessionKeys, addr: nat, fcnt: nat, m: Message): DataFrame {
    var uplink := IsUplink(m.mtype);
    var encrypted := Crypt(p, keys.app, addr, fcnt, uplink, m.payload);
    var mac := MacPayload(Fhdr(addr, m.fctrl, fcnt, m.fopts), m.fport, encrypted);
    var covered := [EncodeMhdr(m.mtype)] + EncodeMac(mac, uplink);
    DataFrame(m.mtype, mac, DataMic(p, keys.nwk, addr, fcnt, uplink, covered))
  }

  function Seal(p: Primitives, keys: SessionKeys, addr: nat, fcnt: nat, m: Message): seq<byte> {
    EncodeData(Frame(p, keys, addr, fcnt, m))
  }

  predicate Sendable(addr: nat, m: Message) {
    addr < Pow256(4) && |m.fopts| <= 15 && (m.fport.None? ==> m.payload == [])
  }

  /** A frame that decodes and whose MIC fits the 16-bit counter of its own header. */
  function Verified(p: Primitives, nwk: Key, uplink: bool, raw: seq<byte>): Option<DataFrame> {
    match DecodeData(raw)
    case None => None
    case Some(f) =>
      if DataMic(p, nwk, f.mac.fhdr.addr, f.mac.fhdr.fcnt, uplink, raw[..|raw| - 4]) == f.mic then Some(f) else None
  }

  function Covered(m: Message, mac: MacPayload): seq<byte> {
    [EncodeMhdr(m.mtype)] + EncodeMac(mac, IsUplink(m.mtype))
  }

  /** A sealed frame verifies exactly when the MIC under the counter's low 16 bits is the MIC
      under the whole counter. */
  lemma VerifiesUnderShortCounter(p: Primitives, keys: SessionKeys, addr: nat, fcnt: nat, m: Message)
    requires Sendable(addr, m)
    ensures var f := Frame(p, keys, addr, fcnt, m);
            var r := Verified(p, keys.nwk, IsUplink(m.mtype), Seal(p, keys, addr, fcnt, m));
            && (r.Some? <==> DataMic(p, keys.nwk, addr, fcnt % 65536, IsUplink(m.mtype), Covered(m, f.mac)) == f.mic)
            && (r.Some? ==> r == Some(OnAir(f)))
  {
    hide EncodeMac, DecodeData, DataMic, Crypt, EncodeMhdr;
    var f := Frame(p, keys, addr, fcnt, m);
    DataFrameOnAir(f);
    var raw := EncodeData(f);
    assert raw[..|raw| - 4] == Covered(m, f.mac);
  }

  /** Below 2^16 every sealed frame verifies. */
  lemma SealedVerifies(p: Primitives, keys: SessionKeys, addr: nat, fcnt: nat, m: Message)
    requires Sendable(addr, m) && fcnt < 65536
    ensures Verified(p, keys.nwk, IsUplink(m.mtype), Seal(p, keys, addr, fcnt, m))
            == Some(OnAir(Frame(p, keys, addr, fcnt, m)))
  {
    hide Verified, Seal, OnAir, DataMic, EncodeMac, EncodeMhdr, Crypt;
    VerifiesUnderShortCounter(p, keys, addr, fcnt, m);
  }

  /** The MIC of this message under the counter is not also its MIC under the counter's low 16 bits. */
  predicate MicTells(p: Primitives, key: Key, addr: nat, fcnt: nat, uplink: bool, message: seq<byte>) {
    fcnt % 65536 != fcnt ==> DataMic(p, key, addr, fcnt % 65536, uplink, message) != DataMic(p, key, addr, fcnt, uplink, message)
  }

  /** A sealed frame verifies exactly when its counter is below 2^16, unless its MIC happens to be
      that of the shortened counter too. */
  lemma VerifiesExactlyBelow(p: Primitives, keys: SessionKeys, addr: nat, fcnt: nat, m: Message)
    requires Sendable(addr, m)
    requires MicTells(p, keys.nwk, addr, fcnt, IsUplink(m.mtype), Covered(m, Frame(p, keys, addr, fcnt, m).mac))
    ensures Verified(p, keys.nwk, IsUplink(m.mtype), Seal(p, keys, addr, fcnt, m)).Some? <==> fcnt < 65536
  {
    hide Verified, Seal, OnAir, DataMic, EncodeMac, EncodeMhdr, Crypt, Covered;
    VerifiesUnderShortCounter(p, keys, addr, fcnt, m);
    FrameMic(p, keys, addr, fcnt, m);
  }

  lemma FrameMic(p: Primitives, keys: SessionKeys, addr: nat, fcnt: nat, m: Message)
    ensures var f := Frame(p, keys, addr, fcnt, m);
            f.mic == DataMic(p, keys.nwk, addr, fcnt, IsUplink(m.mtype), Covered(m, f.mac))
  {
    hide DataMic, EncodeMac, EncodeMhdr, Crypt;
  }

  /** From 2^16 on it need not: with a MIC that shows the counter's third byte, the receiver
      refuses the genuine frame number 65536. */
  lemma LongCountersAreRefused()
    ensures var zero: Block := seq(16, _ => 0);
            var p := Primitives((k, b) => b, (k, b) => b,
                                (k, s) => if |s| > 12 then seq(16, _ => s[12]) else zero);
            var m := Message(UnconfirmedDown, FCtrl(false, false, false, false, 0), [], Some(1), [7]);
            Verified(p, zero, false, Seal(p, SessionKeys(zero, zero), 5, 65536, m)).None?
  {
    hide EncodeMac, Crypt, Verified, Seal, DataMic, EncodeMhdr;
    var zero: Block := seq(16, _ => 0);
    var p := Primitives((k, b) => b, (k, b) => b,
                        (k, s) => if |s| > 12 then seq(16, _ => s[12]) else zero);
    var m := Message(UnconfirmedDown, FCtrl(false, false, false, false, 0), [], Some(1), [7]);
    var keys := SessionKeys(zero, zero);
    assert 5 < Pow256(4);
    VerifiesUnderShortCounter(p, keys, 5, 65536, m);
    var covered := Covered(m, Frame(p, keys, 5, 65536, m).mac);
    CounterShows(p, zero, 65536, covered);
    CounterShows(p, zero, 0, covered);
  }

  lemma CounterShows(p: Primitives, key: Key, fcnt: nat, message: seq<byte>)
    requires forall s: seq<byte> :: |s| > 12 ==> p.cmac(key, s)[0] == s[12]
    ensures DataMic(p, key, 5, fcnt, false, message)[0] == fcnt / 65536 % 256
  {
    hide CounterBlock;
    ThirdCounterByte(fcnt, message);
  }

  lemma ThirdCounterByte(fcnt: nat, message: seq<byte>)
    ensures (CounterBlock(0x49, false, 5, fcnt, |message| % 256) + message)[12] == fcnt / 65536 % 256
  {
    assert ToLE(fcnt, 4)[2] == fcnt / 256 / 256 % 256 by {
      assert ToLE(fcnt, 4)[1..] == ToLE(fcnt / 256, 3);
      assert ToLE(fcnt / 256, 3)[1..] == ToLE(fcnt / 256 / 256, 2);
    }
  }

  // ---- The receiver ----

  /** A multicast group context or a device record: whose frames it takes, in which direction,
      the counter window and the next counter it will take. */
  datatype Receiver = Receiver(addr: nat, keys: SessionKeys, uplink: bool, next: nat, min: nat, max: nat)

  datatype Accepted = Accepted(fcnt: nat, message: Message)

  function OpenedBy(p: Primitives, r: Receiver, f: DataFrame): Accepted {
    var h := f.mac.fhdr;
    var key := if f.mac.fport == Some(0) then r.keys.nwk else r.keys.app;
    Accepted(h.fcnt, Message(f.mtype, h.fctrl, h.fopts, f.mac.fport,
                             Crypt(p, key, r.addr, h.fcnt, r.uplink, f.mac.frmPayload)))
  }

  /** The frame in `raw` that the receiver takes, if it takes one. */
  function Taken(p: Primitives, r: Receiver, raw: seq<byte>): (f: Option<DataFrame>)
    ensures f.Some? ==> f.value.mac.fhdr.addr == r.addr
    ensures f.Some? ==> r.min <= f.value.mac.fhdr.fcnt <= r.max && r.next <= f.value.mac.fhdr.fcnt
  {
    match Verified(p, r.keys.nwk, r.uplink, raw)
    case None => None
    case Some(f) =>
      var h := f.mac.fhdr;
      if h.addr == r.addr && r.min <= h.fcnt <= r.max && r.next <= h.fcnt then Some(f) else None
  }

  function After(p: Primitives, r: Receiver, raw: seq<byte>): (r': Receiver)
    ensures r'.next >= r.next && r' == r.(next := r'.next)
  {
    match Taken(p, r, raw)
    case None => r
    case Some(f) => r.(next := f.mac.fhdr.fcnt + 1)
  }

  function ReceiveAll(p: Primitives, r: Receiver, received: seq<seq<byte>>): seq<Accepted>
    decreases |received|
  {
    if received == [] then []
    else
      var rest := ReceiveAll(p, After(p, r, received[0]), received[1..]);
      match Taken(p, r, received[0])
      case None => rest
      case Some(f) => [OpenedBy(p, r, f)] + rest
  }

  predicate CountersAscend(accepted: seq<Accepted>, next: nat) {
    && (forall k :: 0 <= k < |accepted| ==> next <= accepted[k].fcnt)
    && (forall i, j :: 0 <= i < j < |accepted| ==> accepted[i].fcnt < accepted[j].fcnt)
  }

  /** Whatever arrives, no counter is ever taken twice and none out of order. */
  lemma {:induction false} NothingTakenTwice(p: Primitives, r: Receiver, received: seq<seq<byte>>)
    ensures CountersAscend(ReceiveAll(p, r, received), r.next)
    ensures forall a :: a in ReceiveAll(p, r, received) ==> r.min <= a.fcnt <= r.max
    decreases |received|
  {
    hide Verified, Crypt;
    if received != [] {
      NothingTakenTwice(p, After(p, r, received[0]), received[1..]);
    }
  }

  // ---- Sender and receiver together ----

  function SealAll(p: Primitives, keys: SessionKeys, addr: nat, first: nat, messages: seq<Message>): (raws: seq<seq<byte>>)
    ensures |raws| == |messages|
    ensures forall i :: 0 <= i < |messages| ==> raws[i] == Seal(p, keys, addr, first + i, messages[i])
  {
    seq(|messages|, i requires 0 <= i < |messages| => Seal(p, keys, addr, first + i, messages[i]))
  }

  predicate Passes(p: Primitives, r: Receiver, raw: seq<byte>) {
    var f := Verified(p, r.keys.nwk, r.uplink, raw);
    f.Some? && f.value.mac.fhdr.addr == r.addr
  }

  /** Nobody without the network key makes a frame that verifies for this address. */
  ghost predicate Unforged(p: Primitives, r: Receiver, sent: seq<seq<byte>>, received: seq<seq<byte>>) {
    forall raw :: raw in received && Passes(p, r, raw) ==> raw in sent
  }

  /** What an application is given: a port above 0 and a payload that is not empty. */
  function Item(m: Message): Option<(byte, seq<byte>)> {
    if m.fport.Some? && m.fport.value > 0 && m.payload != [] then Some((m.fport.value, m.payload)) else None
  }

  function Items(messages: seq<Message>): (items: seq<Option<(byte, seq<byte>)>>)
    ensures |items| == |messages|
    ensures forall i :: 0 <= i < |messages| ==> items[i] == Item(messages[i])
  {
    seq(|messages|, i requires 0 <= i < |messages| => Item(messages[i]))
  }

  function ItemsOf(accepted: seq<Accepted>): (items: seq<Option<(byte, seq<byte>)>>)
    ensures |items| == |accepted|
    ensures forall i :: 0 <= i < |accepted| ==> items[i] == Item(accepted[i].message)
  {
    seq(|accepted|, i requires 0 <= i < |accepted| => Item(accepted[i].message))
  }

  /** A sealed frame, taken by the receiver, gives the application what was sealed. */
  lemma OpensToWhatWasSealed(p: Primitives, r: Receiver, fcnt: nat, m: Message)
    requires Sendable(r.addr, m) && fcnt < 65536 && IsUplink(m.mtype) == r.uplink
    ensures OnAir(Frame(p, r.keys, r.addr, fcnt, m)).mac.fhdr.fcnt == fcnt
    ensures var raw := Seal(p, r.keys, r.addr, fcnt, m);
            && Taken(p, r, raw) == (if r.min <= fcnt <= r.max && r.next <= fcnt
                                    then Some(OnAir(Frame(p, r.keys, r.addr, fcnt, m))) else None)
            && (var result := OpenedBy(p, r, OnAir(Frame(p, r.keys, r.addr, fcnt, m)));
                && result.fcnt == fcnt && Item(result.message) == Item(m)
                && result.message.fopts == m.fopts && result.message.mtype == m.mtype
                && result.message.fport == m.fport)
  {
    hide Verified, Seal, Crypt, DataMic, EncodeMac, EncodeMhdr;
    SealedVerifies(p, r.keys, r.addr, fcnt, m);
    CryptTwice(p, r.keys.app, r.addr, fcnt, r.uplink, m.payload);
  }

  /** The counters that are taken, less the first one used, say which messages were taken. */
  lemma {:induction false} TakenWasSent(p: Primitives, r: Receiver, first: nat, messages: seq<Message>, received: seq<seq<byte>>, at: nat)
    requires first + |messages| <= 65536 && at <= |messages| && r.next >= first + at
    requires forall m :: m in messages ==> Sendable(r.addr, m) && IsUplink(m.mtype) == r.uplink
    requires Unforged(p, r, SealAll(p, r.keys, r.addr, first, messages), received)
    ensures Subsequence(ItemsOf(ReceiveAll(p, r, received)), Items(messages[at..]))
    decreases |received|
  {
    hide Verified, Taken, OpenedBy, Seal, Crypt, Subsequence, Item, Sendable, Frame, OnAir, Items, ItemsOf;
    if received == [] {
      NoItems();
      EmptyIsSubsequence(Items(messages[at..]));
    } else {
      var raw, rest := received[0], received[1..];
      var r' := After(p, r, raw);
      assert forall x :: x in rest ==> x in received;
      if Taken(p, r, raw).None? {
        TakenWasSent(p, r', first, messages, rest, at);
      } else {
        var sent := SealAll(p, r.keys, r.addr, first, messages);
        TakenPasses(p, r, raw);
        var i :| 0 <= i < |sent| && sent[i] == raw;
        OpensToWhatWasSealed(p, r, first + i, messages[i]);
        assert r'.next == first + (i + 1);
        TakenWasSent(p, r', first, messages, rest, i + 1);
        TakenFirst(OpenedBy(p, r, Taken(p, r, raw).value), ReceiveAll(p, r', rest), messages, at, i);
      }
    }
  }

  lemma TakenFirst(a: Accepted, tail: seq<Accepted>, messages: seq<Message>, at: nat, i: nat)
    requires at <= i < |messages| && Item(a.message) == Item(messages[i])
    requires Subsequence(ItemsOf(tail), Items(messages[i + 1..]))
    ensures Subsequence(ItemsOf([a] + tail), Items(messages[at..]))
  {
    hide Item, Subsequence;
    SubsequenceCons(Item(messages[i]), ItemsOf(tail), Items(messages[i + 1..]));
    assert ItemsOf([a] + tail) == [Item(messages[i])] + ItemsOf(tail);
    assert Items(messages)[i..] == [Item(messages[i])] + Items(messages[i + 1..]);
    SubsequenceFrom(ItemsOf([a] + tail), Items(messages), at, i);
    assert Items(messages)[at..] == Items(messages[at..]);
  }

  lemma NoItems()
    ensures ItemsOf([]) == []
  {
  }

  lemma EmptyIsSubsequence<T>(b: seq<T>)
    ensures Subsequence<T>([], b)
  {
  }

  lemma TakenPasses(p: Primitives, r: Receiver, raw: seq<byte>)
    requires Taken(p, r, raw).Some?
    ensures Passes(p, r, raw)
  {
  }

  /** End to end: whatever the channel loses, repeats, reorders or invents without the key, what
      the applications are given is a subsequence of what was sent. Each payload arrives at most
      once per sending, and never out of order. */
  lemma DeliveredIsASubsequence(p: Primitives, r: Receiver, first: nat, messages: seq<Message>, received: seq<seq<byte>>)
    requires first + |messages| <= 65536
    requires forall m :: m in messages ==> Sendable(r.addr, m) && IsUplink(m.mtype) == r.uplink
    requires Unforged(p, r, SealAll(p, r.keys, r.addr, first, messages), received)
    ensures Subsequence(Somes(ItemsOf(ReceiveAll(p, r, received))), Somes(Items(messages)))
  {
    hide Verified, Taken, ReceiveAll, Subsequence, Seal, Somes;
    var items := ItemsOf(ReceiveAll(p, r, received));
    if r.next < first {
      LaterStart(p, r, first, messages, received);
      assert messages[0..] == messages;
      TakenWasSent(p, r.(next := first), first, messages, received, 0);
    } else if r.next <= first + |messages| {
      TakenWasSent(p, r, first, messages, received, r.next - first);
      assert Items(messages)[0..] == Items(messages) && Items(messages)[r.next - first..] == Items(messages[r.next - first..]);
      SubsequenceFrom(items, Items(messages), 0, r.next - first);
    } else {
      TakenWasSent(p, r, first, messages, received, |messages|);
      assert Items(messages)[0..] == Items(messages) && Items(messages)[|messages|..] == Items(messages[|messages|..]);
      SubsequenceFrom(items, Items(messages), 0, |messages|);
    }
    SomesKeepOrder(items, Items(messages));
  }

  /** A receiver that expects less than the first counter takes the same frames. */
  lemma {:induction false} LaterStart(p: Primitives, r: Receiver, first: nat, messages: seq<Message>, received: seq<seq<byte>>)
    requires first + |messages| <= 65536 && r.next < first
    requires forall m :: m in messages ==> Sendable(r.addr, m) && IsUplink(m.mtype) == r.uplink
    requires Unforged(p, r, SealAll(p, r.keys, r.addr, first, messages), received)
    ensures ReceiveAll(p, r, received) == ReceiveAll(p, r.(next := first), received)
    decreases |received|
  {
    hide Verified, Taken, OpenedBy, Seal, Crypt;
    if received != [] {
      var raw, rest := received[0], received[1..];
      var late := r.(next := first);
      assert forall x :: x in rest ==> x in received;
      SameTaken(p, r, first, messages, received, raw);
      SameOpened(p, r, late);
      if Taken(p, r, raw).None? {
        LaterStart(p, r, first, messages, rest);
      }
    }
  }

  lemma SameOpened(p: Primitives, r: Receiver, late: Receiver)
    requires late == r.(next := late.next)
    ensures forall f :: OpenedBy(p, r, f) == OpenedBy(p, late, f)
  {
  }

  lemma SameTaken(p: Primitives, r: Receiver, first: nat, messages: seq<Message>, received: seq<seq<byte>>, raw: seq<byte>)
    requires first + |messages| <= 65536 && r.next < first && raw in received
    requires forall m :: m in messages ==> Sendable(r.addr, m) && IsUplink(m.mtype) == r.uplink
    requires Unforged(p, r, SealAll(p, r.keys, r.addr, first, messages), received)
    ensures Taken(p, r, raw) == Taken(p, r.(next := first), raw)
  {
    hide Verified, Seal;
    if Taken(p, r, raw).Some? {
      var sent := SealAll(p, r.keys, r.addr, first, messages);
      var i :| 0 <= i < |sent| && sent[i] == raw;
      OpensToWhatWasSealed(p, r, first + i, messages[i]);
    }
  }

  /** The other half: over a channel that keeps every frame in order, everything arrives. */
  lemma {:induction false} NothingIsLostInOrder(p: Primitives, r: Receiver, first: nat, messages: seq<Message>)
    requires first + |messages| <= 65536 && r.next <= first
    requires r.min <= first && first + |messages| <= r.max + 1
    requires forall m :: m in messages ==> Sendable(r.addr, m) && IsUplink(m.mtype) == r.uplink
    ensures ItemsOf(ReceiveAll(p, r, SealAll(p, r.keys, r.addr, first, messages))) == Items(messages)
    decreases |messages|
  {
    hide Verified, Taken, OpenedBy, Seal, Crypt, Item, Sendable, Frame, OnAir, Items, ItemsOf;
    if messages == [] {
      NoItems();
      assert Items(messages) == [];
    } else {
      var raws := SealAll(p, r.keys, r.addr, first, messages);
      assert raws[1..] == SealAll(p, r.keys, r.addr, first + 1, messages[1..]);
      OpensToWhatWasSealed(p, r, first, messages[0]);
      assert After(p, r, raws[0]) == r.(next := first + 1);
      NothingIsLostInOrder(p, r.(next := first + 1), first + 1, messages[1..]);
      var a := OpenedBy(p, r, Taken(p, r, raws[0]).value);
      var tail := ReceiveAll(p, After(p, r, raws[0]), raws[1..]);
      assert ReceiveAll(p, r, raws) == [a] + tail;
      ItemsCons(a, tail, messages);
    }
  }

  lemma ItemsCons(a: Accepted, tail: seq<Accepted>, messages: seq<Message>)
    requires messages != [] && Item(a.message) == Item(messages[0]) && ItemsOf(tail) == Items(messages[1..])
    ensures ItemsOf([a] + tail) == Items(messages)
  {
    hide Item;
    assert ItemsOf([a] + tail) == [Item(messages[0])] + ItemsOf(tail);
    assert Items(messages) == [Item(messages[0])] + Items(messages[1..]);
  }

  // ---- What is on the air ----

  /** Byte j is the exclusive or of the payload's byte with AES over the block for j. */
  predicate EncryptedUnder(p: Primitives, key: Key, uplink: bool, addr: nat, fcnt: nat, payload: seq<byte>, r: seq<byte>) {
    |r| == |payload| <= 16 * 255 &&
    forall j :: 0 <= j < |payload| ==> r[j] == Xor(payload[j], p.aes(key, PayloadBlock(uplink, addr, fcnt, j / 16 + 1))[j % 16])
  }

  lemma CryptEncrypts(p: Primitives, key: Key, uplink: bool, addr: nat, fcnt: nat, payload: seq<byte>)
    requires |payload| <= 16 * 255
    ensures EncryptedUnder(p, key, uplink, addr, fcnt, payload, Crypt(p, key, addr, fcnt, uplink, payload))
  {
    hide Crypt, Xor, PayloadBlock;
    forall j | 0 <= j < |payload|
      ensures Crypt(p, key, addr, fcnt, uplink, payload)[j]
              == Xor(payload[j], p.aes(key, PayloadBlock(uplink, addr, fcnt, j / 16 + 1))[j % 16])
    {
      CryptedByte(p, key, addr, fcnt, uplink, payload, j);
    }
  }

  /** A sealed frame, as anybody can see it: the header and the port in clear, and behind them the
      payload under the application key. */
  lemma SealedBytes(p: Primitives, keys: SessionKeys, addr: nat, fcnt: nat, m: Message)
    requires Sendable(addr, m) && m.fport.Some? && |m.payload| <= 16 * 255
    ensures var (raw, head) := (Seal(p, keys, addr, fcnt, m), 8 + |m.fopts|);
            && |raw| == head + 1 + |m.payload| + 4
            && raw[0] == TypeCode(m.mtype) && raw[5] == FlagBits(m.fctrl, IsUplink(m.mtype)) + |m.fopts|
            && raw[1..5] == [addr % 256, addr / 256 % 256, addr / 65536 % 256, addr / 16777216 % 256]
            && raw[6..8] == [fcnt % 256, fcnt / 256 % 256]
            && raw[8..head] == m.fopts && raw[head] == m.fport.value
            && EncryptedUnder(p, keys.app, IsUplink(m.mtype), addr, fcnt, m.payload, raw[head + 1..|raw| - 4])
  {
    hide EncodeData, EncodeMac, DataMic, Crypt, EncodeMhdr, Seal, EncryptedUnder;
    var f := Frame(p, keys, addr, fcnt, m);
    var raw := Seal(p, keys, addr, fcnt, m);
    var encrypted := Crypt(p, keys.app, addr, fcnt, IsUplink(m.mtype), m.payload);
    assert raw == EncodeData(f) by { SealIs(p, keys, addr, fcnt, m); }
    DataFrameBytes(f);
    FramePieces(raw[..8], m.fopts, m.fport.value, encrypted, f.mic, raw);
    CryptEncrypts(p, keys.app, IsUplink(m.mtype), addr, fcnt, m.payload);
  }

  /** At its end: four bytes of the CMAC, under the network key, over the block B_0 with the whole
      counter and all that comes before. */
  lemma SealedMic(p: Primitives, keys: SessionKeys, addr: nat, fcnt: nat, m: Message)
    ensures var (raw, up) := (Seal(p, keys, addr, fcnt, m), IsUplink(m.mtype));
            |raw| >= 4 && raw[|raw| - 4..] ==
              p.cmac(keys.nwk, [0x49, 0, 0, 0, 0, if up then 0 else 1,
                                addr % 256, addr / 256 % 256, addr / 65536 % 256, addr / 16777216 % 256,
                                fcnt % 256, fcnt / 256 % 256, fcnt / 65536 % 256, fcnt / 16777216 % 256,
                                0, (|raw| - 4) % 256] + raw[..|raw| - 4])[..4]
  {
    hide EncodeData, EncodeMac, DataMic, Crypt, EncodeMhdr, Seal, Covered;
    var raw := Seal(p, keys, addr, fcnt, m);
    FrameMic(p, keys, addr, fcnt, m);
    SealedIsCovered(p, keys, addr, fcnt, m);
    DataMicIs(p, keys.nwk, addr, fcnt, IsUplink(m.mtype), raw[..|raw| - 4]);
  }

  lemma SealIs(p: Primitives, keys: SessionKeys, addr: nat, fcnt: nat, m: Message)
    ensures Seal(p, keys, addr, fcnt, m) == EncodeData(Frame(p, keys, addr, fcnt, m))
  {
    hide EncodeData;
  }

  lemma FramePieces(header: seq<byte>, fopts: seq<byte>, fport: byte, payload: seq<byte>, mic: Mic, raw: seq<byte>)
    requires |header| == 8 && raw == header + fopts + ([fport] + payload) + mic
    ensures var head := 8 + |fopts|;
            && |raw| == head + 1 + |payload| + 4
            && raw[8..head] == fopts && raw[head] == fport
            && raw[head + 1..|raw| - 4] == payload && raw[|raw| - 4..] == mic
  {
  }

  lemma SealedIsCovered(p: Primitives, keys: SessionKeys, addr: nat, fcnt: nat, m: Message)
    ensures var f := Frame(p, keys, addr, fcnt, m);
            var raw := Seal(p, keys, addr, fcnt, m);
            |raw| >= 4 && raw[..|raw| - 4] == Covered(m, f.mac) && raw[|raw| - 4..] == f.mic
  {
    hide EncodeMac, DataMic, Crypt, EncodeMhdr;
  }

  /** What is read from a frame: its header as it is, and what its payload is the encryption of under
      the network key on port 0 and the application key on every other. */
  lemma OpenedUnder(p: Primitives, r: Receiver, f: DataFrame)
    requires |f.mac.frmPayload| <= 16 * 255
    ensures var (read, port) := (OpenedBy(p, r, f), f.mac.fport);
            && read.fcnt == f.mac.fhdr.fcnt && read.message.fport == port && read.message.fopts == f.mac.fhdr.fopts
            && read.message.mtype == f.mtype && read.message.fctrl == f.mac.fhdr.fctrl
            && EncryptedUnder(p, if port == Some(0) then r.keys.nwk else r.keys.app, r.uplink, r.addr, read.fcnt,
                              read.message.payload, f.mac.frmPayload)
  {
    hide Crypt, EncryptedUnder;
    var h := f.mac.fhdr;
    var key := if f.mac.fport == Some(0) then r.keys.nwk else r.keys.app;
    var plaintext := Crypt(p, key, r.addr, h.fcnt, r.uplink, f.mac.frmPayload);
    CryptTwice(p, key, r.addr, h.fcnt, r.uplink, f.mac.frmPayload);
    CryptEncrypts(p, key, r.uplink, r.addr, h.fcnt, plaintext);
  }

  /** Nothing is taken whose last four bytes are not that CMAC, with the 16 bits of the header for
      the counter. */
  lemma TakenIsGenuine(p: Primitives, r: Receiver, raw: seq<byte>)
    requires Taken(p, r, raw).Some?
    ensures var f := Taken(p, r, raw).value;
            && |raw| >= 12 && raw[|raw| - 4..] == DataMic(p, r.keys.nwk, r.addr, f.mac.fhdr.fcnt, r.uplink, raw[..|raw| - 4])
  {
    hide DataMic, DecodeMac, DecodeMhdr;
  }
}
