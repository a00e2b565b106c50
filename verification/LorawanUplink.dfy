/** Data uplinks from `send_uplink` on a device to the server's applications, for a server with
    any number of registered devices. */
module LorawanUplink {
  import opened Bytes
  import opened LorawanCrypto
  import opened LorawanFrames
  import opened LorawanLink
  import opened MulticastQueue
  import opened Subsequences

  /** What a device asks to send, with the MAC answers drained for this frame. */
  datatype Request = Request(fport: int, payload: seq<byte>, confirmed: bool, classB: bool, fopts: seq<byte>, dataRate: int)

  datatype DeviceSession = DeviceSession(addr: nat, keys: SessionKeys, fcntUp: nat)

  datatype SendResult = Transmitted(raw: seq<byte>) | ValueError | AssertionError

  function UplinkMessage(q: Request): Message
    requires 1 <= q.fport <= 223
  {
    Message(if q.confirmed then ConfirmedUp else UnconfirmedUp, FCtrl(false, false, false, q.classB, 0), q.fopts,
            Some(q.fport), q.payload)
  }

  /** `send_uplink`, up to the frame on the air: the counter moves only when a frame was sent. */
  function SendUplink(p: Primitives, d: DeviceSession, q: Request): (DeviceSession, SendResult) {
    var limit := MaxFrmPayload(q.dataRate, |q.fopts|);
    if !(1 <= q.fport <= 223) || d.fcntUp > MAX_FCNT || limit.None? then (d, AssertionError)
    else if |q.payload| > limit.value then (d, ValueError)
    else (d.(fcntUp := d.fcntUp + 1), Transmitted(Seal(p, d.keys, d.addr, d.fcntUp, UplinkMessage(q))))
  }

  /** When `send_uplink` sends: for a port from 1 to 223, a counter of 32 bits, and a payload that the
      data rate carries beside the MAC answers; otherwise the session stays as it is. */
  lemma TransmittedExactly(p: Primitives, d: DeviceSession, q: Request)
    ensures var (d', r) := SendUplink(p, d, q);
            && (r.Transmitted? <==>
                  && 1 <= q.fport <= 223 && d.fcntUp <= 0xFFFF_FFFF && 0 <= q.dataRate <= 5 && |q.fopts| <= 15
                  && |q.payload| <= [51, 51, 51, 115, 222, 222][q.dataRate] - |q.fopts|)
            && d' == if r.Transmitted? then DeviceSession(d.addr, d.keys, d.fcntUp + 1) else d
  {
    hide Seal;
  }

  /** And what it sends: type, address, Class B flag, counter, MAC answers and port in clear, the
      payload as an uplink's under the application key. */
  lemma UplinkBytes(p: Primitives, d: DeviceSession, q: Request)
    requires d.addr < Pow256(4) && SendUplink(p, d, q).1.Transmitted?
    ensures var (raw, head) := (SendUplink(p, d, q).1.raw, 8 + |q.fopts|);
            && |raw| == head + 1 + |q.payload| + 4
            && raw[..8] == [if q.confirmed then 0x80 else 0x40,
                            d.addr % 256, d.addr / 256 % 256, d.addr / 65536 % 256, d.addr / 16777216 % 256,
                            (if q.classB then 0x10 else 0) + |q.fopts|, d.fcntUp % 256, d.fcntUp / 256 % 256]
            && raw[8..head] == q.fopts && raw[head] == q.fport
            && EncryptedUnder(p, d.keys.app, true, d.addr, d.fcntUp, q.payload, raw[head + 1..|raw| - 4])
  {
    hide Seal, EncryptedUnder, Pow256;
    TransmittedExactly(p, d, q);
    SealedBytes(p, d.keys, d.addr, d.fcntUp, UplinkMessage(q));
    var raw := SendUplink(p, d, q).1.raw;
    assert raw[..8] == [raw[0]] + raw[1..5] + [raw[5]] + raw[6..8];
  }

  function SendRun(p: Primitives, d: DeviceSession, requests: seq<Request>): seq<seq<byte>>
    decreases |requests|
  {
    if requests == [] then []
    else
      var (d', r) := SendUplink(p, d, requests[0]);
      var rest := SendRun(p, d', requests[1..]);
      if r.Transmitted? then [r.raw] + rest else rest
  }

  function SentMessages(p: Primitives, d: DeviceSession, requests: seq<Request>): (m: seq<Message>)
    ensures |m| <= |requests|
    decreases |requests|
  {
    if requests == [] then []
    else
      var (d', r) := SendUplink(p, d, requests[0]);
      var rest := SentMessages(p, d', requests[1..]);
      if r.Transmitted? then [UplinkMessage(requests[0])] + rest else rest
  }

  /** What a request puts in front of an application, if it is a proper one. */
  function RequestItem(q: Request): Option<(byte, seq<byte>)> {
    if 1 <= q.fport <= 223 && q.payload != [] then Some((q.fport, q.payload)) else None
  }

  function RequestItems(requests: seq<Request>): (items: seq<Option<(byte, seq<byte>)>>)
    ensures |items| == |requests|
    ensures forall i :: 0 <= i < |items| ==> items[i] == RequestItem(requests[i])
  {
    seq(|requests|, i requires 0 <= i < |requests| => RequestItem(requests[i]))
  }

  lemma {:induction false} SendRunSeals(p: Primitives, d: DeviceSession, requests: seq<Request>)
    ensures SendRun(p, d, requests) == SealAll(p, d.keys, d.addr, d.fcntUp, SentMessages(p, d, requests))
    decreases |requests|
  {
    hide Seal, MaxFrmPayload;
    if requests != [] {
      var d', r := SendUplink(p, d, requests[0]).0, SendUplink(p, d, requests[0]).1;
      SendRunSeals(p, d', requests[1..]);
      var rest := SentMessages(p, d', requests[1..]);
      if r.Transmitted? {
        var m := UplinkMessage(requests[0]);
        assert SealAll(p, d.keys, d.addr, d.fcntUp, [m] + rest)
               == [Seal(p, d.keys, d.addr, d.fcntUp, m)] + SealAll(p, d.keys, d.addr, d.fcntUp + 1, rest);
      }
    }
  }

  lemma {:induction false} SentAreSendable(p: Primitives, d: DeviceSession, requests: seq<Request>)
    requires d.addr < Pow256(4)
    ensures forall m :: m in SentMessages(p, d, requests) ==> Sendable(d.addr, m) && IsUplink(m.mtype)
    decreases |requests|
  {
    hide Seal, Pow256;
    if requests != [] {
      SentAreSendable(p, SendUplink(p, d, requests[0]).0, requests[1..]);
    }
  }

  lemma {:induction false} SentInOrder(p: Primitives, d: DeviceSession, requests: seq<Request>)
    ensures Subsequence(Items(SentMessages(p, d, requests)), RequestItems(requests))
    decreases |requests|
  {
    hide Seal, Subsequence, RequestItem, Item;
    if requests == [] {
      assert Items(SentMessages(p, d, requests)) == [];
      EmptyIsSubsequence(RequestItems(requests));
    } else {
      var q := requests[0];
      var d', r := SendUplink(p, d, q).0, SendUplink(p, d, q).1;
      SentInOrder(p, d', requests[1..]);
      var rest, later := SentMessages(p, d', requests[1..]), RequestItems(requests[1..]);
      assert RequestItems(requests) == [RequestItem(q)] + later;
      if r.Transmitted? {
        SameItem(q);
        assert Items([UplinkMessage(q)] + rest) == [RequestItem(q)] + Items(rest);
        SubsequenceCons(RequestItem(q), Items(rest), later);
      } else {
        SubsequenceOfMore(Items(rest), [RequestItem(q)], later);
      }
    }
  }

  lemma SameItem(q: Request)
    requires 1 <= q.fport <= 223
    ensures Item(UplinkMessage(q)) == RequestItem(q)
  {
  }

  // ---- The server ----

  datatype DeviceRecord = DeviceRecord(keys: SessionKeys, fcntUp: nat)

  type Devices = map<nat, DeviceRecord>

  /** A device record as a receiver of uplinks. Counters come from 16-bit headers. */
  function ReceiverOf(addr: nat, d: DeviceRecord): Receiver {
    Receiver(addr, d.keys, true, d.fcntUp, 0, 65535)
  }

  /** `_handle_data_uplink`, in the order of its tests. */
  function HandleData(p: Primitives, devices: Devices, raw: seq<byte>): (Devices, Option<(nat, Accepted)>) {
    match DecodeData(raw)
    case None => (devices, None)
    case Some(f) =>
      var h := f.mac.fhdr;
      if h.addr !in devices then (devices, None)
      else
        var d := devices[h.addr];
        if DataMic(p, d.keys.nwk, h.addr, h.fcnt, true, raw[..|raw| - 4]) != f.mic then (devices, None)
        else if h.fcnt < d.fcntUp then (devices, None)
        else (devices[h.addr := d.(fcntUp := h.fcnt + 1)], Some((h.addr, OpenedBy(p, ReceiverOf(h.addr, d), f))))
  }

  /** What the server takes from one device, among the frames of all of them. */
  function TakenFrom(p: Primitives, devices: Devices, addr: nat, received: seq<seq<byte>>): seq<Accepted>
    decreases |received|
  {
    if received == [] then []
    else
      var (devices', r) := HandleData(p, devices, received[0]);
      var rest := TakenFrom(p, devices', addr, received[1..]);
      if r.Some? && r.value.0 == addr then [r.value.1] + rest else rest
  }

  lemma HeaderFits(raw: seq<byte>)
    ensures DecodeData(raw).Some? ==> DecodeData(raw).value.mac.fhdr.fcnt < 65536
  {
    assert Pow256(2) == 65536;
  }

  /** One frame moves one device's record as its own receiver would, and nobody else's. */
  lemma HandleDataIsLocal(p: Primitives, devices: Devices, addr: nat, raw: seq<byte>)
    requires addr in devices
    ensures var (devices', r) := HandleData(p, devices, raw);
            var me := ReceiverOf(addr, devices[addr]);
            && addr in devices' && ReceiverOf(addr, devices'[addr]) == After(p, me, raw)
            && (if Taken(p, me, raw).Some? then r == Some((addr, OpenedBy(p, me, Taken(p, me, raw).value)))
                else r.None? || r.value.0 != addr)
  {
    hide DecodeData, DataMic, Crypt;
    HeaderFits(raw);
  }

  lemma {:induction false} EachDeviceIsOnItsOwn(p: Primitives, devices: Devices, addr: nat, received: seq<seq<byte>>)
    requires addr in devices
    ensures TakenFrom(p, devices, addr, received) == ReceiveAll(p, ReceiverOf(addr, devices[addr]), received)
    decreases |received|
  {
    hide HandleData, Taken, After, OpenedBy;
    if received != [] {
      HandleDataIsLocal(p, devices, addr, received[0]);
      EachDeviceIsOnItsOwn(p, HandleData(p, devices, received[0]).0, addr, received[1..]);
    }
  }

  /** Uplinks from end to end: what the server hands to its applications from one device is a
      subsequence of what that device was asked to send, whatever else arrives in between. */
  lemma UplinksEndToEnd(p: Primitives, d: DeviceSession, requests: seq<Request>, devices: Devices, received: seq<seq<byte>>)
    requires d.addr in devices && devices[d.addr].keys == d.keys && d.addr < Pow256(4)
    requires d.fcntUp + |requests| <= 65536
    requires Unforged(p, ReceiverOf(d.addr, devices[d.addr]), SendRun(p, d, requests), received)
    ensures Subsequence(Somes(ItemsOf(TakenFrom(p, devices, d.addr, received))), Somes(RequestItems(requests)))
  {
    hide ReceiveAll, TakenFrom, Subsequence, Somes, SendRun, SentMessages, Sendable, Unforged;
    var messages := SentMessages(p, d, requests);
    EachDeviceIsOnItsOwn(p, devices, d.addr, received);
    SendRunSeals(p, d, requests);
    SentAreSendable(p, d, requests);
    DeliveredIsASubsequence(p, ReceiverOf(d.addr, devices[d.addr]), d.fcntUp, messages, received);
    SentInOrder(p, d, requests);
    SomesKeepOrder(Items(messages), RequestItems(requests));
    SubsequenceTransitive(Somes(ItemsOf(TakenFrom(p, devices, d.addr, received))), Somes(Items(messages)), Somes(RequestItems(requests)));
  }
}
