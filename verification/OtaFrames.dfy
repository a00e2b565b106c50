/** What the update protocol puts on the air: MiWi frames and the messages in them
    (papers/fuota-unicast-broadcast-2024/frames.py). A conversion that raises in the
    original (a number that does not fit its field, an unknown TYPE byte, a payload that is
    too short to index) is None here. */
module OtaFrames {
  import opened Bytes

  datatype GatewayMessage =
    | BinaryFragment(number: nat, data: seq<byte>, last: bool)
    | ChecksumFragment(number: nat, data: seq<byte>, last: bool)
    | StatusRequest
    | FlashNewVersion
    | ResetRequest
    | HandshakeRequest
    | BroadcastStartRequest(firmwareVersion: nat, chunks: nat, chunkSize: nat)
    | SendMeTheBitmap

  datatype NodeMessage =
    | WaitingForBinaryFragment(expected: nat)
    | WaitingForChecksumFragment(expected: nat)
    | StatusResponse(firmwareVersion: nat, binaryFragments: nat,
                     checksumFragments: nat, checksumValid: bool)
    | ResetConfirmed(firmwareVersion: nat)
    | HandshakeResponse
    | BinaryFragmentAck(number: nat)
    | BroadcastStartConfirmation(firmwareVersion: nat)
    | Bitmap(received: seq<bool>)
    | AllChunksReceived

  // ---- Messages sent by the gateway ----

  function FragmentNumberLen(number: nat): nat {
    if number < 0x100 then 1 else if number < 0x10000 then 2 else 3
  }

  function EncodeGateway(m: GatewayMessage): Option<seq<byte>> {
    match m
    case BinaryFragment(number, data, last) =>
      var width := FragmentNumberLen(number);
      if number >= Pow256(width) then None
      else Some([(if last then 4 else 1) + width - 1] + ToBE(number, width) + data)
    case ChecksumFragment(number, data, last) =>
      if number >= 0x100 then None else Some([if last then 8 else 7, number] + data)
    case StatusRequest => Some([9])
    case FlashNewVersion => Some([10])
    case ResetRequest => Some([11])
    case HandshakeRequest => Some([12])
    case BroadcastStartRequest(version, chunks, chunkSize) =>
      if version >= 0x100 || chunks >= Pow256(2) || chunkSize >= Pow256(2) then None
      else Some([13, version] + ToBE(chunks, 2) + ToBE(chunkSize, 2))
    case SendMeTheBitmap => Some([14])
  }

  function DecodeGateway(payload: seq<byte>): Option<GatewayMessage> {
    if payload == [] then None
    else
      var kind := payload[0];
      if 1 <= kind <= 6 then
        var last := kind >= 4;
        var width := kind - (if last then 4 else 1) + 1;
        Some(BinaryFragment(FromBE(Slice(payload, 1, 1 + width)), From(payload, 1 + width), last))
      else if kind == 7 || kind == 8 then
        if |payload| < 2 then None
        else Some(ChecksumFragment(payload[1], From(payload, 2), kind == 8))
      else if kind == 9 then Some(StatusRequest)
      else if kind == 10 then Some(FlashNewVersion)
      else if kind == 11 then Some(ResetRequest)
      else if kind == 12 then Some(HandshakeRequest)
      else if kind == 13 then
        if |payload| < 2 then None
        else Some(BroadcastStartRequest(payload[1], FromBE(Slice(payload, 2, 4)),
                                        FromBE(Slice(payload, 4, 6))))
      else if kind == 14 then Some(SendMeTheBitmap)
      else None
  }

  /** The messages whose numbers fit the fields the format gives them. */
  predicate GatewayInRange(m: GatewayMessage) {
    match m
    case BinaryFragment(number, _, _) => number < 0x100_0000
    case ChecksumFragment(number, _, _) => number < 0x100
    case BroadcastStartRequest(version, chunks, chunkSize) =>
      version < 0x100 && chunks < 0x1_0000 && chunkSize < 0x1_0000
    case _ => true
  }

  lemma PowerTable()
    ensures Pow256(1) == 0x100 && Pow256(2) == 0x1_0000 && Pow256(3) == 0x100_0000
    ensures Pow256(8) == 0x1_0000_0000_0000_0000
  {
    assert Pow256(3) == 256 * Pow256(2);
    assert Pow256(4) == 256 * Pow256(3);
    assert Pow256(5) == 256 * Pow256(4);
    assert Pow256(6) == 256 * Pow256(5);
    assert Pow256(7) == 256 * Pow256(6);
    assert Pow256(8) == 256 * Pow256(7);
  }

  /** Encoding succeeds exactly for the in-range messages, and the node then decodes the
      very same message, including the fragment number whose width is in the TYPE byte. */
  lemma GatewayRoundTrip(m: GatewayMessage)
    ensures EncodeGateway(m).Some? <==> GatewayInRange(m)
    ensures GatewayInRange(m) ==> DecodeGateway(EncodeGateway(m).value) == Some(m)
  {
    PowerTable();
    match m
    case BinaryFragment(_, _, _) => BinaryFragmentRoundTrip(m);
    case ChecksumFragment(_, data, _) =>
      if GatewayInRange(m) { assert EncodeGateway(m).value[2..] == data; }
    case BroadcastStartRequest(_, _, _) => StartRequestRoundTrip(m);
    case _ =>
  }

  lemma Parts(kind: byte, a: seq<byte>, b: seq<byte>)
    ensures var p := [kind] + a + b;
            Slice(p, 1, 1 + |a|) == a && From(p, 1 + |a|) == b
            && Slice(p, 1 + |a|, 1 + |a| + |b|) == b
  {
  }

  lemma DecodesFragment(last: bool, number: seq<byte>, data: seq<byte>)
    requires 1 <= |number| <= 3
    ensures DecodeGateway([(if last then 4 else 1) + |number| - 1] + number + data)
            == Some(BinaryFragment(FromBE(number), data, last))
  {
    Parts((if last then 4 else 1) + |number| - 1, number, data);
  }

  lemma BinaryFragmentRoundTrip(m: GatewayMessage)
    requires m.BinaryFragment?
    ensures EncodeGateway(m).Some? <==> GatewayInRange(m)
    ensures GatewayInRange(m) ==> DecodeGateway(EncodeGateway(m).value) == Some(m)
  {
    PowerTable();
    if GatewayInRange(m) {
      var width := FragmentNumberLen(m.number);
      BigEndianRoundTrip(m.number, width);
      DecodesFragment(m.last, ToBE(m.number, width), m.data);
    }
  }

  lemma DecodesStartRequest(version: byte, chunks: seq<byte>, chunkSize: seq<byte>)
    requires |chunks| == |chunkSize| == 2
    ensures DecodeGateway([13, version] + chunks + chunkSize)
            == Some(BroadcastStartRequest(version, FromBE(chunks), FromBE(chunkSize)))
  {
    assert [13, version] + chunks + chunkSize == [13] + ([version] + chunks) + chunkSize;
    assert Slice([13, version] + chunks + chunkSize, 2, 4) == chunks;
    Parts(13, [version] + chunks, chunkSize);
  }

  lemma StartRequestRoundTrip(m: GatewayMessage)
    requires m.BroadcastStartRequest?
    ensures EncodeGateway(m).Some? <==> GatewayInRange(m)
    ensures GatewayInRange(m) ==> DecodeGateway(EncodeGateway(m).value) == Some(m)
  {
    PowerTable();
    if GatewayInRange(m) {
      BigEndianRoundTrip(m.chunks, 2);
      BigEndianRoundTrip(m.chunkSize, 2);
      DecodesStartRequest(m.firmwareVersion, ToBE(m.chunks, 2), ToBE(m.chunkSize, 2));
    }
  }

  // ---- Bitmaps ----

  function PackByte(bits: seq<bool>): (x: nat)
    ensures x < Pow2(|bits|)
  {
    if bits == [] then 0 else (if bits[0] then 1 else 0) + 2 * PackByte(bits[1..])
  }

  predicate Bit(x: nat, k: nat) {
    x / Pow2(k) % 2 == 1
  }

  function EightBits(received: seq<bool>, j: nat): (bits: seq<bool>)
    ensures |bits| <= 8
    ensures |bits| == Min(8, if 8 * j <= |received| then |received| - 8 * j else 0)
    ensures forall k :: 0 <= k < |bits| ==> bits[k] == received[8 * j + k]
  {
    Slice(received, 8 * j, 8 * j + 8)
  }

  lemma PackedByteFits(bits: seq<bool>)
    requires |bits| <= 8
    ensures PackByte(bits) < 256
  {
    Pow2Monotone(|bits|, 8);
    assert Pow2(8) == 256;
  }

  lemma {:induction false} Pow2Monotone(a: nat, b: nat)
    requires a <= b
    ensures Pow2(a) <= Pow2(b)
    decreases b
  {
    if a < b { Pow2Monotone(a, b - 1); }
  }

  function LengthFor(chunks: nat): nat {
    1 + (chunks + 7) / 8
  }

  /** The payload of a bitmap message: bit i of the map is bit i % 8 of byte 1 + i / 8. */
  function EncodeBitmap(received: seq<bool>): (out: seq<byte>)
    ensures |out| == LengthFor(|received|)
  {
    [14] + seq((|received| + 7) / 8, j requires j >= 0 =>
      PackedByteFits(EightBits(received, j)); PackByte(EightBits(received, j)))
  }

  function DecodeBitmap(data: seq<byte>): (received: seq<bool>)
    ensures |received| == 8 * |From(data, 1)|
  {
    var body := From(data, 1);
    seq(8 * |body|, i requires 0 <= i < 8 * |body| => Bit(body[i / 8], i % 8))
  }

  /** What a bitmap looks like to the gateway: whole bytes, the padding reads "not received". */
  function Padded(received: seq<bool>): (padded: seq<bool>)
    ensures |received| <= |padded| == (|received| + 7) / 8 * 8
    ensures forall i :: 0 <= i < |padded| ==> padded[i] == (i < |received| && received[i])
  {
    received + seq((|received| + 7) / 8 * 8 - |received|, i => false)
  }

  lemma {:induction false} PackedBit(bits: seq<bool>, k: nat)
    ensures Bit(PackByte(bits), k) == (k < |bits| && bits[k])
  {
    if bits == [] {
      ModuloUnique(0, Pow2(k), 0, 0);
    } else if k == 0 {
      assert Pow2(0) == 1;
    } else {
      PackedBit(bits[1..], k - 1);
      HalvingDivision(PackByte(bits), Pow2(k - 1));
      assert PackByte(bits) / 2 == PackByte(bits[1..]);
    }
  }

  lemma HalvingDivision(x: nat, p: nat)
    requires p >= 1
    ensures x / (2 * p) == x / 2 / p
  {
    var q := x / 2 / p;
    var r := x / 2 % p;
    var low := x % 2 + 2 * r;
    assert x / 2 == q * p + r;
    assert 2 * (q * p) == q * (2 * p);
    assert x == q * (2 * p) + low;
    ModuloUnique(x, 2 * p, q, low);
  }

  lemma BitOfMap(received: seq<bool>, i: nat)
    requires i < |Padded(received)|
    ensures i / 8 < (|received| + 7) / 8
    ensures Bit(PackByte(EightBits(received, i / 8)), i % 8) == Padded(received)[i]
  {
    hide PackByte, Bit;
    PackedBit(EightBits(received, i / 8), i % 8);
    assert i == 8 * (i / 8) + i % 8;
  }

  /** A bitmap arrives as itself plus padding to a whole number of bytes. */
  lemma BitmapRoundTrip(received: seq<bool>)
    ensures DecodeBitmap(EncodeBitmap(received)) == Padded(received)
  {
    hide PackByte, Bit, EightBits, Padded;
    var out := EncodeBitmap(received);
    assert From(out, 1) == out[1..];
    forall i | 0 <= i < |Padded(received)|
      ensures DecodeBitmap(out)[i] == Padded(received)[i]
    {
      BitOfMap(received, i);
      assert out[1..][i / 8] == PackByte(EightBits(received, i / 8));
    }
  }

  lemma {:induction false} PackByteAppend(bits: seq<bool>, b: bool)
    ensures PackByte(bits + [b]) == PackByte(bits) + (if b then Pow2(|bits|) else 0)
  {
    if bits == [] {
      assert [b][1..] == [];
    } else {
      PackByteAppend(bits[1..], b);
      assert (bits + [b])[1..] == bits[1..] + [b];
    }
  }

  /** `x | 1 << k` */
  function SetBit(x: nat, k: nat): nat {
    if Bit(x, k) then x else x + Pow2(k)
  }

  /** The body of the bitmap message once the first i entries of the map are in it. */
  function PackPrefix(received: seq<bool>, i: nat): (body: seq<nat>)
    requires i <= |received|
    ensures |body| == (|received| + 7) / 8
    ensures forall j :: 0 <= j < |body| ==> body[j] == PackByte(EightBits(received[..i], j))
  {
    seq((|received| + 7) / 8, j requires j >= 0 => PackByte(EightBits(received[..i], j)))
  }

  lemma ByteOfNextBit(received: seq<bool>, i: nat)
    requires i < |received|
    ensures PackByte(EightBits(received[..i + 1], i / 8)) ==
            var before := PackByte(EightBits(received[..i], i / 8));
            if received[i] then SetBit(before, i % 8) else before
  {
    var before := EightBits(received[..i], i / 8);
    assert |before| == i % 8;
    assert EightBits(received[..i + 1], i / 8) == before + [received[i]];
    PackByteAppend(before, received[i]);
    PackedBit(before, i % 8);
  }

  lemma OtherBytesStay(received: seq<bool>, i: nat, j: nat)
    requires i < |received| && j != i / 8
    ensures EightBits(received[..i + 1], j) == EightBits(received[..i], j)
  {
  }

  lemma SetNextBit(received: seq<bool>, i: nat)
    requires i < |received|
    ensures PackPrefix(received, i + 1) ==
            var body := PackPrefix(received, i);
            if received[i] then body[i / 8 := SetBit(body[i / 8], i % 8)] else body
  {
    ByteOfNextBit(received, i);
    var next := PackPrefix(received, i + 1);
    forall j | 0 <= j < |next| && j != i / 8
      ensures next[j] == PackPrefix(received, i)[j]
    {
      OtherBytesStay(received, i, j);
    }
  }

  lemma EmptyPrefix(received: seq<bool>)
    ensures forall j :: 0 <= j < |PackPrefix(received, 0)| ==> PackPrefix(received, 0)[j] == 0
  {
  }

  lemma WholePrefix(received: seq<bool>)
    ensures [14] + PackPrefix(received, |received|) == EncodeBitmap(received)
  {
    assert received[..|received|] == received;
  }

  /** `Bitmap.to_bytes`: fills a buffer of the right length bit by bit. */
  method BitmapToBytes(received: seq<bool>) returns (bytes: seq<nat>)
    ensures bytes == EncodeBitmap(received)
  {
    hide PackByte, EightBits, SetBit;
    var out := new nat[LengthFor(|received|)](_ => 0);
    out[0] := 14;
    EmptyPrefix(received);
    assert out[..] == [14] + PackPrefix(received, 0);
    for i := 0 to |received|
      invariant out[..] == [14] + PackPrefix(received, i)
    {
      SetNextBit(received, i);
      if received[i] {
        ghost var body := PackPrefix(received, i);
        assert out[1 + i / 8] == body[i / 8];
        out[1 + i / 8] := SetBit(out[1 + i / 8], i % 8);
        assert out[..] == [14] + body[i / 8 := SetBit(body[i / 8], i % 8)];
      }
    }
    bytes := out[..];
    WholePrefix(received);
  }

  // ---- Messages sent by the nodes ----

  function EncodeNode(m: NodeMessage): Option<seq<byte>> {
    match m
    case WaitingForBinaryFragment(expected) =>
      if expected >= Pow256(2) then None else Some([1] + ToBE(expected, 2))
    case BinaryFragmentAck(number) =>
      if number >= Pow256(2) then None else Some([2] + ToBE(number, 2))
    case WaitingForChecksumFragment(expected) =>
      if expected >= 0x100 then None else Some([7, expected])
    case StatusResponse(version, binary, checksum, valid) =>
      if version >= 0x100 || binary >= Pow256(2) || checksum >= 0x100 then None
      else Some([9, version] + ToBE(binary, 2) + [checksum, if valid then 1 else 0])
    case ResetConfirmed(version) => if version >= 0x100 then None else Some([11, version])
    case HandshakeResponse => Some([12])
    case BroadcastStartConfirmation(version) =>
      if version >= 0x100 then None else Some([13, version])
    case Bitmap(received) => Some(EncodeBitmap(received))
    case AllChunksReceived => Some([15])
  }

  function DecodeNode(payload: seq<byte>): Option<NodeMessage> {
    if payload == [] then None
    else
      var kind := payload[0];
      if kind == 1 then Some(WaitingForBinaryFragment(FromBE(Slice(payload, 1, 3))))
      else if kind == 2 then Some(BinaryFragmentAck(FromBE(Slice(payload, 1, 3))))
      else if kind == 7 then
        if |payload| < 2 then None else Some(WaitingForChecksumFragment(payload[1]))
      else if kind == 9 then
        if |payload| < 6 then None
        else Some(StatusResponse(payload[1], FromBE(Slice(payload, 2, 4)), payload[4], payload[5] != 0))
      else if kind == 11 then
        if |payload| < 2 then None else Some(ResetConfirmed(payload[1]))
      else if kind == 12 then Some(HandshakeResponse)
      else if kind == 13 then
        if |payload| < 2 then None else Some(BroadcastStartConfirmation(payload[1]))
      else if kind == 14 then Some(Bitmap(DecodeBitmap(payload)))
      else if kind == 15 then Some(AllChunksReceived)
      else None
  }

  predicate NodeInRange(m: NodeMessage) {
    match m
    case WaitingForBinaryFragment(expected) => expected < 0x1_0000
    case BinaryFragmentAck(number) => number < 0x1_0000
    case WaitingForChecksumFragment(expected) => expected < 0x100
    case StatusResponse(version, binary, checksum, _) =>
      version < 0x100 && binary < 0x1_0000 && checksum < 0x100
    case ResetConfirmed(version) => version < 0x100
    case BroadcastStartConfirmation(version) => version < 0x100
    case _ => true
  }

  /** A node message as the gateway reads it: only a bitmap is changed by the wire. */
  function AsReceived(m: NodeMessage): NodeMessage {
    if m.Bitmap? then Bitmap(Padded(m.received)) else m
  }

  lemma NodeRoundTrip(m: NodeMessage)
    ensures EncodeNode(m).Some? <==> NodeInRange(m)
    ensures NodeInRange(m) ==> DecodeNode(EncodeNode(m).value) == Some(AsReceived(m))
  {
    PowerTable();
    match m
    case WaitingForBinaryFragment(expected) => NumberAfterType(1, expected);
    case BinaryFragmentAck(number) => NumberAfterType(2, number);
    case StatusResponse(version, binary, checksum, valid) =>
      if NodeInRange(m) {
        BigEndianRoundTrip(binary, 2);
        assert Slice(EncodeNode(m).value, 2, 4) == ToBE(binary, 2);
      }
    case Bitmap(received) => BitmapRoundTrip(received);
    case _ =>
  }

  lemma NumberAfterType(kind: byte, n: nat)
    ensures n < 0x1_0000 ==> FromBE(Slice([kind] + ToBE(n, 2), 1, 3)) == n
  {
    PowerTable();
    if n < 0x1_0000 {
      BigEndianRoundTrip(n, 2);
      assert Slice([kind] + ToBE(n, 2), 1, 3) == ToBE(n, 2);
    }
  }

  // ---- MiWi frames ----

  const BROADCAST_ADDRESS: nat := 0xFFFF
  const COMPACT_BROADCAST_ADDRESS: nat := 0xFF
  const PAN_ID: nat := 0x1234

  datatype MiWiFrame = MiWiFrame(source: nat, destination: nat, payload: seq<byte>, sequence: nat)

  function Sum(s: seq<byte>): nat {
    if s == [] then 0 else s[0] + Sum(s[1..])
  }

  function EncodeFrame(f: MiWiFrame, compact: bool): Option<seq<byte>> {
    var broadcast := f.destination == BROADCAST_ADDRESS;
    if compact then
      var destination := if broadcast then COMPACT_BROADCAST_ADDRESS else f.destination;
      if f.source >= 0x100 || destination >= 0x100 then None
      else Some([f.source, destination] + f.payload)
    else
      var width := if broadcast then 2 else 8;
      if f.destination >= Pow256(width) || f.source >= Pow256(8) then None
      else Some([0, if broadcast then 1 else 0, f.sequence % 0x100]
                + (ToBE(PAN_ID, 2)
                   + (ToBE(f.destination, width)
                      + (ToBE(f.source, 8)
                         + (f.payload + ToBE(Sum(f.payload) % 0x1_0000, 2))))))
  }

  function DecodeFrame(data: seq<byte>, compact: bool): Option<MiWiFrame> {
    if compact then
      if |data| < 2 then None
      else
        var destination := if data[1] == COMPACT_BROADCAST_ADDRESS then BROADCAST_ADDRESS else data[1];
        Some(MiWiFrame(data[0], destination, data[2..], 0))
    else if |data| < 3 || FromBE(Slice(data, 3, 5)) != PAN_ID then None
    else
      var broadcast := FromBE(Slice(data, 0, 2)) % 2 == 1;
      var offset := if broadcast then 7 else 13;
      var end := if |data| < 2 then 0 else |data| - 2;
      Some(MiWiFrame(FromBE(Slice(data, offset, offset + 8)), FromBE(Slice(data, 5, offset)),
                     Slice(data, offset + 8, end), data[2]))
  }

  lemma SliceSkip(a: seq<byte>, b: seq<byte>, lo: nat, hi: nat)
    requires lo <= hi <= |b|
    ensures Slice(a + b, |a| + lo, |a| + hi) == Slice(b, lo, hi)
  {
  }

  lemma FullHeaderSlices(start: seq<byte>, pan: seq<byte>, destination: seq<byte>, source: seq<byte>,
                         payload: seq<byte>, check: seq<byte>)
    requires |start| == 3 && |pan| == 2 && |source| == 8
    ensures var data := start + (pan + (destination + (source + (payload + check))));
            var width := |destination|;
            && Slice(data, 0, 2) == start[..2]
            && Slice(data, 3, 5) == pan
            && Slice(data, 5, 5 + width) == destination
            && Slice(data, 5 + width, 13 + width) == source
            && Slice(data, 13 + width, 13 + width + |payload|) == payload
  {
    var tail3 := payload + check;
    var tail2 := source + tail3;
    var tail1 := destination + tail2;
    var tail0 := pan + tail1;
    var data := start + tail0;
    var width, end := |destination|, |payload|;
    assert Slice(data, 0, 2) == start[..2];
    assert Slice(tail0, 0, 2) == pan && Slice(tail1, 0, width) == destination;
    assert Slice(tail2, 0, 8) == source && Slice(tail3, 0, end) == payload;
    hide Slice;
    SliceSkip(start, tail0, 0, 2);
    SliceSkip(start, tail0, 2, 2 + width);
    SliceSkip(pan, tail1, 0, width);
    SliceSkip(start, tail0, 2 + width, 10 + width);
    SliceSkip(pan, tail1, width, width + 8);
    SliceSkip(destination, tail2, 0, 8);
    SliceSkip(start, tail0, 10 + width, 10 + width + end);
    SliceSkip(pan, tail1, width + 8, width + 8 + end);
    SliceSkip(destination, tail2, 8, 8 + end);
    SliceSkip(source, tail3, 0, end);
  }

  lemma FullHeaderDecodes(short: bool, sequence: byte, destination: seq<byte>, source: seq<byte>,
                          payload: seq<byte>, check: seq<byte>)
    requires |destination| == (if short then 2 else 8) && |source| == 8 && |check| == 2
    ensures var data := [0, if short then 1 else 0, sequence]
                        + (ToBE(PAN_ID, 2) + (destination + (source + (payload + check))));
            DecodeFrame(data, false) == Some(MiWiFrame(FromBE(source), FromBE(destination), payload, sequence))
  {
    hide ToBE, FromBE, Slice;
    var start := [0, if short then 1 else 0, sequence];
    var pan := ToBE(PAN_ID, 2);
    BigEndianRoundTrip(PAN_ID, 2);
    PowerTable();
    assert start[..2] == [0, if short then 1 else 0];
    ControlWord(start[..2]);
    FullHeaderSlices(start, pan, destination, source, payload, check);
  }

  lemma ControlWord(control: seq<byte>)
    requires control == [0, 0] || control == [0, 1]
    ensures FromBE(control) == control[1]
  {
    assert control[..1] == [0];
    assert FromBE([0]) == 0;
  }

  /** The full header gives back every frame it can hold; the sequence number keeps its low byte. */
  lemma FullFrameRoundTrip(f: MiWiFrame)
    ensures EncodeFrame(f, false).Some? <==>
      f.source < 0x1_0000_0000_0000_0000 && f.destination < 0x1_0000_0000_0000_0000
    ensures EncodeFrame(f, false).Some? ==>
      DecodeFrame(EncodeFrame(f, false).value, false) == Some(f.(sequence := f.sequence % 0x100))
  {
    hide DecodeFrame, ToBE, FromBE;
    PowerTable();
    if EncodeFrame(f, false).Some? {
      var broadcast := f.destination == BROADCAST_ADDRESS;
      var width := if broadcast then 2 else 8;
      BigEndianRoundTrip(f.destination, width);
      BigEndianRoundTrip(f.source, 8);
      FullHeaderDecodes(broadcast, f.sequence % 0x100, ToBE(f.destination, width),
                        ToBE(f.source, 8), f.payload, ToBE(Sum(f.payload) % 0x1_0000, 2));
    }
  }

  /** The compact header drops the sequence number, and it is faithful exactly for the frames
      whose destination is not the one address that doubles as its broadcast address. */
  lemma CompactFrameRoundTrip(f: MiWiFrame)
    ensures EncodeFrame(f, true).Some? <==>
      f.source < 0x100 && (f.destination < 0x100 || f.destination == BROADCAST_ADDRESS)
    ensures EncodeFrame(f, true).Some? ==>
      (DecodeFrame(EncodeFrame(f, true).value, true) == Some(f.(sequence := 0))
       <==> f.destination != COMPACT_BROADCAST_ADDRESS)
  {
    if EncodeFrame(f, true).Some? {
      assert EncodeFrame(f, true).value[2..] == f.payload;
    }
  }

  // ---- The bytes on the air ----

  /** Every message of the gateway, byte by byte, with the high byte of a number first. The type of
      a fragment also says how many bytes its number takes and whether it is the last one. */
  lemma GatewayBytes(m: GatewayMessage)
    requires GatewayInRange(m)
    ensures var out := EncodeGateway(m);
            match m
            case BinaryFragment(n, data, last) =>
              out == Some((if n < 0x100 then [if last then 4 else 1, n]
                           else if n < 0x1_0000 then [if last then 5 else 2, n / 256, n % 256]
                           else [if last then 6 else 3, n / 65536, n / 256 % 256, n % 256]) + data)
            case ChecksumFragment(n, data, last) => out == Some([if last then 8 else 7, n] + data)
            case StatusRequest => out == Some([9])
            case FlashNewVersion => out == Some([10])
            case ResetRequest => out == Some([11])
            case HandshakeRequest => out == Some([12])
            case BroadcastStartRequest(version, chunks, size) =>
              out == Some([13, version, chunks / 256, chunks % 256, size / 256, size % 256])
            case SendMeTheBitmap => out == Some([14])
  {
    hide ToBE;
    PowerTable();
    match m
    case BinaryFragment(n, data, last) =>
      FragmentBytes(n);
      var width := FragmentNumberLen(n);
      Headed((if last then 4 else 1) + width - 1, ToBE(n, width), data);
    case BroadcastStartRequest(version, chunks, size) =>
      TwoBytes(chunks);
      TwoBytes(size);
      assert [13, version] + [chunks / 256, chunks % 256] + [size / 256, size % 256]
             == [13, version, chunks / 256, chunks % 256, size / 256, size % 256];
    case _ =>
  }

  lemma TwoBytes(n: nat)
    requires n < 0x1_0000
    ensures ToBE(n, 2) == [n / 256, n % 256]
  {
    hide ToBE;
    BigEndianBytes(n);
    assert n / 256 < 256;
  }

  lemma Headed(kind: byte, number: seq<byte>, data: seq<byte>)
    ensures |number| == 1 ==> [kind] + number + data == [kind, number[0]] + data
    ensures |number| == 2 ==> [kind] + number + data == [kind, number[0], number[1]] + data
    ensures |number| == 3 ==> [kind] + number + data == [kind, number[0], number[1], number[2]] + data
  {
  }

  lemma FragmentBytes(n: nat)
    requires n < 0x100_0000
    ensures n < 0x100 ==> ToBE(n, 1) == [n]
    ensures n < 0x1_0000 ==> ToBE(n, 2) == [n / 256, n % 256]
    ensures ToBE(n, 3) == [n / 65536, n / 256 % 256, n % 256]
  {
    hide ToBE;
    if n < 0x100 {
      LowByte(n);
    }
    if n < 0x1_0000 {
      TwoBytes(n);
    }
    HighByte(n);
  }

  lemma LowByte(n: nat)
    requires n < 0x100
    ensures ToBE(n, 1) == [n]
  {
    assert ToBE(n / 256, 0) == [] && n % 256 == n;
  }

  lemma HighByte(n: nat)
    requires n < 0x100_0000
    ensures ToBE(n, 3) == [n / 65536, n / 256 % 256, n % 256]
  {
    hide ToBE;
    BigEndianBytes(n);
    assert n / 65536 < 256;
  }

  /** Every message of a node. */
  lemma NodeBytes(m: NodeMessage)
    requires NodeInRange(m)
    ensures var out := EncodeNode(m);
            match m
            case WaitingForBinaryFragment(n) => out == Some([1, n / 256, n % 256])
            case BinaryFragmentAck(n) => out == Some([2, n / 256, n % 256])
            case WaitingForChecksumFragment(n) => out == Some([7, n])
            case StatusResponse(version, binary, checksum, valid) =>
              out == Some([9, version, binary / 256, binary % 256, checksum, if valid then 1 else 0])
            case ResetConfirmed(version) => out == Some([11, version])
            case HandshakeResponse => out == Some([12])
            case BroadcastStartConfirmation(version) => out == Some([13, version])
            case Bitmap(_) => out.Some? && out.value[0] == 14
            case AllChunksReceived => out == Some([15])
  {
    hide ToBE, PackByte;
    PowerTable();
    match m
    case WaitingForBinaryFragment(n) =>
      TwoBytes(n);
      assert [1] + [n / 256, n % 256] == [1, n / 256, n % 256];
    case BinaryFragmentAck(n) =>
      TwoBytes(n);
      assert [2] + [n / 256, n % 256] == [2, n / 256, n % 256];
    case StatusResponse(version, binary, checksum, valid) =>
      TwoBytes(binary);
      assert [9, version] + [binary / 256, binary % 256] + [checksum, if valid then 1 else 0]
             == [9, version, binary / 256, binary % 256, checksum, if valid then 1 else 0];
    case _ =>
  }

  /** Entry i of a bitmap is bit i % 8, counted from the lowest, of byte 1 + i / 8; what is left of
      the last byte is zero. */
  lemma BitmapBits(received: seq<bool>, i: nat)
    requires i < |Padded(received)|
    ensures 1 + i / 8 < |EncodeBitmap(received)|
    ensures EncodeBitmap(received)[1 + i / 8] / Pow2(i % 8) % 2 == if i < |received| && received[i] then 1 else 0
  {
    BitOfMap(received, i);
  }

  /** A full MiWi frame: the control word, 1 for a broadcast; the low byte of the sequence number; the
      network; the destination in two bytes or eight; the source; the payload; and the sum of the
      payload's bytes modulo 2^16, all with the high byte first. */
  lemma FullFrameBytes(f: MiWiFrame)
    requires EncodeFrame(f, false).Some?
    ensures var out := EncodeFrame(f, false).value;
            var short := f.destination == 0xFFFF;
            && out[..5] == [0, if short then 1 else 0, f.sequence % 256, PAN_ID / 256, PAN_ID % 256]
            && (short ==> out[5..] == [0xFF, 0xFF] + ToBE(f.source, 8) + f.payload + Check(f.payload))
            && (!short ==> out[5..] == ToBE(f.destination, 8) + ToBE(f.source, 8) + f.payload + Check(f.payload))
  {
    hide ToBE, Sum;
    PowerTable();
    TwoBytes(PAN_ID);
    CheckBytes(f.payload);
    if f.destination == 0xFFFF {
      TwoBytes(0xFFFF);
    }
    var short := f.destination == 0xFFFF;
    var destination := ToBE(f.destination, if short then 2 else 8);
    FramePieces([0, if short then 1 else 0, f.sequence % 256], ToBE(PAN_ID, 2), destination, ToBE(f.source, 8), f.payload,
                ToBE(Sum(f.payload) % 0x1_0000, 2));
  }

  lemma FramePieces(start: seq<byte>, pan: seq<byte>, destination: seq<byte>, source: seq<byte>, payload: seq<byte>, check: seq<byte>)
    requires |start| == 3 && |pan| == 2
    ensures var out := start + (pan + (destination + (source + (payload + check))));
            out[..5] == start + pan && out[5..] == destination + source + payload + check
  {
  }

  lemma CheckBytes(payload: seq<byte>)
    ensures ToBE(Sum(payload) % 0x1_0000, 2) == Check(payload)
  {
    hide ToBE, Sum;
    TwoBytes(Sum(payload) % 0x1_0000);
  }

  lemma {:induction false} SumOfParts(a: seq<byte>, b: seq<byte>)
    ensures Sum(a + b) == Sum(a) + Sum(b)
    decreases |a|
  {
    if a == [] {
      assert a + b == b;
    } else {
      assert (a + b)[1..] == a[1..] + b;
      SumOfParts(a[1..], b);
    }
  }

  /** The two check bytes. */
  function Check(payload: seq<byte>): (c: seq<byte>)
    ensures |c| == 2
  {
    [Sum(payload) / 256 % 256, Sum(payload) % 256]
  }
}
