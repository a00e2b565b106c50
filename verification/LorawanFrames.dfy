/** LoRaWAN frame layout (simulator/lorawan/frame.py): data frames and the join messages. */
module LorawanFrames {
  import opened Bytes
  import opened LorawanCrypto

  datatype MType = JoinRequest | JoinAccept | UnconfirmedUp | UnconfirmedDown | ConfirmedUp | ConfirmedDown

  function Code(t: MType): (c: byte)
    ensures c < 6
  {
    match t
    case JoinRequest => 0
    case JoinAccept => 1
    case UnconfirmedUp => 2
    case UnconfirmedDown => 3
    case ConfirmedUp => 4
    case ConfirmedDown => 5
  }

  predicate IsUplink(t: MType) {
    t.JoinRequest? || t.UnconfirmedUp? || t.ConfirmedUp?
  }

  /** The only major version is 0, so its bits never show. */
  function EncodeMhdr(t: MType): (b: byte)
    ensures b == 32 * Code(t)
  {
    32 * Code(t)
  }

  /** Message types 6 and 7 and other major versions are refused; the RFU bits are ignored. */
  function DecodeMhdr(b: byte): (t: Option<MType>)
    ensures t.Some? <==> b / 32 < 6 && b % 4 == 0
    ensures t.Some? ==> Code(t.value) == b / 32
  {
    if b % 4 != 0 then None
    else if b / 32 == 0 then Some(JoinRequest)
    else if b / 32 == 1 then Some(JoinAccept)
    else if b / 32 == 2 then Some(UnconfirmedUp)
    else if b / 32 == 3 then Some(UnconfirmedDown)
    else if b / 32 == 4 then Some(ConfirmedUp)
    else if b / 32 == 5 then Some(ConfirmedDown)
    else None
  }

  datatype FCtrl = FCtrl(adr: bool, adrAckReq: bool, ack: bool, classB: bool, fOptsLen: nat)

  function Bit(b: bool, weight: nat): nat {
    if b then weight else 0
  }

  /** Bit 6 is reserved in a downlink. */
  function EncodeFCtrl(c: FCtrl, uplink: bool): byte {
    Bit(c.adr, 128) + Bit(uplink && c.adrAckReq, 64) + Bit(c.ack, 32) + Bit(c.classB, 16) + c.fOptsLen % 16
  }

  function DecodeFCtrl(b: byte, uplink: bool): FCtrl {
    FCtrl(b / 128 % 2 == 1, uplink && b / 64 % 2 == 1, b / 32 % 2 == 1, b / 16 % 2 == 1, b % 16)
  }

  datatype Fhdr = Fhdr(addr: nat, fctrl: FCtrl, fcnt: nat, fopts: seq<byte>)

  /** Encoding sets the header's own `f_opts_len`. */
  function EncodeFhdr(h: Fhdr, uplink: bool): seq<byte> {
    ToLE(h.addr, 4) + [EncodeFCtrl(h.fctrl.(fOptsLen := |h.fopts|), uplink)] + ToLE(h.fcnt, 2) + h.fopts
  }

  function DecodeFhdr(data: seq<byte>, uplink: bool): (r: Option<(Fhdr, nat)>)
    ensures r.Some? ==> 7 <= r.value.1 <= |data|
  {
    if |data| < 7 then None
    else
      var c := DecodeFCtrl(data[4], uplink);
      var fopts := Slice(data, 7, 7 + c.fOptsLen);
      if |fopts| != c.fOptsLen then None
      else Some((Fhdr(FromLE(data[0..4]), c, FromLE(data[5..7]), fopts), 7 + c.fOptsLen))
  }

  datatype MacPayload = MacPayload(fhdr: Fhdr, fport: Option<byte>, frmPayload: seq<byte>)

  function EncodeMac(m: MacPayload, uplink: bool): seq<byte> {
    EncodeFhdr(m.fhdr, uplink) + (if m.fport.Some? then [m.fport.value] + m.frmPayload else [])
  }

  function DecodeMac(data: seq<byte>, uplink: bool): Option<MacPayload> {
    match DecodeFhdr(data, uplink)
    case None => None
    case Some((fhdr, consumed)) =>
      var remaining := data[consumed..];
      if |remaining| == 0 then Some(MacPayload(fhdr, None, []))
      else Some(MacPayload(fhdr, Some(remaining[0]), remaining[1..]))
  }

  datatype DataFrame = DataFrame(mtype: MType, mac: MacPayload, mic: Mic)

  function EncodeData(f: DataFrame): seq<byte> {
    [EncodeMhdr(f.mtype)] + EncodeMac(f.mac, IsUplink(f.mtype)) + f.mic
  }

  function DecodeData(data: seq<byte>): (r: Option<DataFrame>)
    ensures r.Some? ==> |data| >= 12
  {
    if |data| < 12 then None
    else
      match DecodeMhdr(data[0])
      case None => None
      case Some(t) =>
        match DecodeMac(data[1..|data| - 4], IsUplink(t))
        case None => None
        case Some(m) => Some(DataFrame(t, m, data[|data| - 4..]))
  }

  /** Fields that fit the frame: a payload needs a port, and FOpts holds 15 bytes. */
  predicate Fits(f: DataFrame) {
    && f.mac.fhdr.addr < Pow256(4) && |f.mac.fhdr.fopts| <= 15
    && (f.mac.fport.None? ==> f.mac.frmPayload == [])
  }

  /** What survives the air: 16 bits of the counter, no ADRACKReq in a downlink, and the FOpts
      length that was really sent. */
  function OnAir(f: DataFrame): DataFrame {
    var h := f.mac.fhdr;
    var c := h.fctrl.(fOptsLen := |h.fopts|, adrAckReq := IsUplink(f.mtype) && h.fctrl.adrAckReq);
    f.(mac := f.mac.(fhdr := h.(fctrl := c, fcnt := h.fcnt % 65536)))
  }

  lemma FCtrlRoundTrip(c: FCtrl, uplink: bool)
    requires c.fOptsLen < 16
    ensures DecodeFCtrl(EncodeFCtrl(c, uplink), uplink) == c.(adrAckReq := uplink && c.adrAckReq)
  {
    var b := EncodeFCtrl(c, uplink);
    assert b / 16 == Bit(c.adr, 8) + Bit(uplink && c.adrAckReq, 4) + Bit(c.ack, 2) + Bit(c.classB, 1) && b % 16 == c.fOptsLen;
    assert b / 32 == Bit(c.adr, 4) + Bit(uplink && c.adrAckReq, 2) + Bit(c.ack, 1);
    assert b / 64 == Bit(c.adr, 2) + Bit(uplink && c.adrAckReq, 1);
    assert b / 128 == Bit(c.adr, 1);
  }

  lemma FhdrRoundTrip(h: Fhdr, uplink: bool, rest: seq<byte>)
    requires h.addr < Pow256(4) && |h.fopts| <= 15
    ensures var c := h.fctrl.(fOptsLen := |h.fopts|, adrAckReq := uplink && h.fctrl.adrAckReq);
            DecodeFhdr(EncodeFhdr(h, uplink) + rest, uplink)
            == Some((h.(fctrl := c, fcnt := h.fcnt % 65536), 7 + |h.fopts|))
  {
    hide ToLE, FromLE, Pow256, EncodeFCtrl, DecodeFCtrl;
    var c := h.fctrl.(fOptsLen := |h.fopts|);
    var data := EncodeFhdr(h, uplink) + rest;
    FCtrlRoundTrip(c, uplink);
    LittleEndianRoundTrip(h.addr, 4);
    CounterRoundTrip(h.fcnt);
    assert data[0..4] == ToLE(h.addr, 4);
    assert data[4] == EncodeFCtrl(c, uplink);
    assert data[5..7] == ToLE(h.fcnt, 2);
    assert Slice(data, 7, 7 + |h.fopts|) == h.fopts;
  }

  lemma CounterRoundTrip(fcnt: nat)
    ensures FromLE(ToLE(fcnt, 2)) == fcnt % 65536
  {
    LittleEndianTruncates(fcnt, 2);
    assert Pow256(2) == 65536;
  }

  lemma MacRoundTrip(m: MacPayload, uplink: bool)
    requires m.fhdr.addr < Pow256(4) && |m.fhdr.fopts| <= 15 && (m.fport.None? ==> m.frmPayload == [])
    ensures var h := m.fhdr;
            var c := h.fctrl.(fOptsLen := |h.fopts|, adrAckReq := uplink && h.fctrl.adrAckReq);
            DecodeMac(EncodeMac(m, uplink), uplink) == Some(m.(fhdr := h.(fctrl := c, fcnt := h.fcnt % 65536)))
  {
    hide DecodeFhdr, EncodeFCtrl, DecodeFCtrl, ToLE, FromLE, Pow256;
    var rest := if m.fport.Some? then [m.fport.value] + m.frmPayload else [];
    FhdrRoundTrip(m.fhdr, uplink, rest);
    var data := EncodeMac(m, uplink);
    assert data[7 + |m.fhdr.fopts|..] == rest;
  }

  /** Decoding an encoded data frame gives what survives the air. */
  lemma DataFrameOnAir(f: DataFrame)
    requires Fits(f)
    ensures DecodeData(EncodeData(f)) == Some(OnAir(f))
  {
    hide EncodeMac, DecodeMac, EncodeFCtrl, DecodeFCtrl;
    var uplink := IsUplink(f.mtype);
    var body := EncodeMac(f.mac, uplink);
    var data := EncodeData(f);
    MacRoundTrip(f.mac, uplink);
    MacLength(f.mac, uplink);
    CodeRoundTrip(f.mtype);
    assert data[1..|data| - 4] == body && data[|data| - 4..] == f.mic && data[0] == EncodeMhdr(f.mtype);
  }

  lemma MacLength(m: MacPayload, uplink: bool)
    ensures |EncodeMac(m, uplink)| >= 7
  {
  }

  lemma CodeRoundTrip(t: MType)
    ensures DecodeMhdr(EncodeMhdr(t)) == Some(t)
  {
    var r := DecodeMhdr(EncodeMhdr(t));
    assert r.Some? && Code(r.value) == Code(t);
  }

  /** A data frame comes back unchanged exactly when its counter fits the 16 bits of the header,
      its FOpts length field is right, and a downlink does not ask for an ADR answer. */
  lemma DataFrameRoundTrip(f: DataFrame)
    requires Fits(f)
    ensures DecodeData(EncodeData(f)) == Some(f) <==>
              && f.mac.fhdr.fcnt < 65536
              && f.mac.fhdr.fctrl.fOptsLen == |f.mac.fhdr.fopts|
              && (f.mac.fhdr.fctrl.adrAckReq ==> IsUplink(f.mtype))
  {
    hide DecodeData, EncodeData;
    DataFrameOnAir(f);
  }

  // ---- Join messages ----

  datatype JoinRequestPayload = JoinRequestPayload(appEui: seq<byte>, devEui: seq<byte>, devNonce: nat)

  function Reverse(s: seq<byte>): (r: seq<byte>)
    ensures |r| == |s|
    ensures forall i :: 0 <= i < |s| ==> r[i] == s[|s| - 1 - i]
  {
    seq(|s|, i requires 0 <= i < |s| => s[|s| - 1 - i])
  }

  lemma ReverseTwice(s: seq<byte>)
    ensures Reverse(Reverse(s)) == s
  {
  }

  function EncodeJoinRequest(j: JoinRequestPayload): (data: seq<byte>)
    requires |j.appEui| == 8 && |j.devEui| == 8
    ensures |data| == 18
  {
    Reverse(j.appEui) + Reverse(j.devEui) + ToLE(j.devNonce, 2)
  }

  function DecodeJoinRequest(data: seq<byte>): JoinRequestPayload
    requires |data| == 18
  {
    JoinRequestPayload(Reverse(data[0..8]), Reverse(data[8..16]), FromLE(data[16..18]))
  }

  lemma JoinRequestRoundTrip(j: JoinRequestPayload)
    requires |j.appEui| == 8 && |j.devEui| == 8 && j.devNonce < 65536
    ensures DecodeJoinRequest(EncodeJoinRequest(j)) == j
  {
    hide ToLE, FromLE, Reverse;
    var data := EncodeJoinRequest(j);
    assert data[0..8] == Reverse(j.appEui) && data[8..16] == Reverse(j.devEui) && data[16..18] == ToLE(j.devNonce, 2);
    CounterRoundTrip(j.devNonce);
    ReverseTwice(j.appEui);
    ReverseTwice(j.devEui);
  }

  /** Section 6.2.5, decrypted. */
  datatype JoinAcceptPayload = JoinAcceptPayload(
    appNonce: nat, netId: nat, devAddr: nat, dlSettings: byte, rxDelay: byte, cfList: seq<byte>)

  predicate AcceptFits(j: JoinAcceptPayload) {
    && j.appNonce < Pow256(3) && j.netId < Pow256(3) && j.devAddr < Pow256(4)
    && (j.cfList == [] || |j.cfList| == 16)
  }

  function EncodeJoinAccept(j: JoinAcceptPayload): seq<byte> {
    ToLE(j.appNonce, 3) + ToLE(j.netId, 3) + ToLE(j.devAddr, 4) + [j.dlSettings, j.rxDelay] + j.cfList
  }

  function DecodeJoinAccept(data: seq<byte>): JoinAcceptPayload
    requires |data| == 12 || |data| == 28
  {
    JoinAcceptPayload(FromLE(data[0..3]), FromLE(data[3..6]), FromLE(data[6..10]), data[10], data[11],
                      data[12..])
  }

  lemma JoinAcceptRoundTrip(j: JoinAcceptPayload)
    requires AcceptFits(j)
    ensures |EncodeJoinAccept(j)| == 12 || |EncodeJoinAccept(j)| == 28
    ensures DecodeJoinAccept(EncodeJoinAccept(j)) == j
  {
    hide ToLE, FromLE, Pow256;
    var data := EncodeJoinAccept(j);
    assert data[0..3] == ToLE(j.appNonce, 3) && data[3..6] == ToLE(j.netId, 3) && data[6..10] == ToLE(j.devAddr, 4);
    assert data[12..] == j.cfList;
    LittleEndianRoundTrip(j.appNonce, 3);
    LittleEndianRoundTrip(j.netId, 3);
    LittleEndianRoundTrip(j.devAddr, 4);
  }

  // ---- The bytes on the air ----

  /** The first byte of a frame, as section 4.2 of LoRaWAN L2 1.0.4 numbers the types. */
  ghost function TypeCode(t: MType): byte {
    match t
    case JoinRequest => 0x00
    case JoinAccept => 0x20
    case UnconfirmedUp => 0x40
    case UnconfirmedDown => 0x60
    case ConfirmedUp => 0x80
    case ConfirmedDown => 0xA0
  }

  /** The flags of FCtrl, above the four bits for the length of FOpts. */
  ghost function FlagBits(c: FCtrl, uplink: bool): nat {
    (if c.adr then 0x80 else 0) + (if uplink && c.adrAckReq then 0x40 else 0)
    + (if c.ack then 0x20 else 0) + (if c.classB then 0x10 else 0)
  }

  /** A data frame, byte by byte: the type in the three high bits; the address; the flags, bit 7
      for ADR, 6 for ADRACKReq in an uplink, 5 for ACK, 4 for Class B or a pending frame, and the
      length of FOpts; the low half of the counter; FOpts; the port and the payload; the MIC. Numbers
      have the low byte first. */
  lemma DataFrameBytes(f: DataFrame)
    requires Fits(f)
    ensures var (h, c) := (f.mac.fhdr, f.mac.fhdr.fctrl);
            EncodeData(f) == [TypeCode(f.mtype),
                              h.addr % 256, h.addr / 256 % 256, h.addr / 65536 % 256, h.addr / 16777216 % 256,
                              FlagBits(c, IsUplink(f.mtype)) + |h.fopts|, h.fcnt % 256, h.fcnt / 256 % 256]
                             + h.fopts + (if f.mac.fport.Some? then [f.mac.fport.value] + f.mac.frmPayload else []) + f.mic
  {
    hide ToLE, EncodeFCtrl, EncodeMhdr;
    var h := f.mac.fhdr;
    LittleEndianBytes(h.addr);
    LittleEndianBytes(h.fcnt);
    FlagsByte(h.fctrl, |h.fopts|, IsUplink(f.mtype));
    TypeByte(f.mtype);
  }

  lemma FlagsByte(c: FCtrl, foptsLen: nat, uplink: bool)
    requires foptsLen <= 15
    ensures EncodeFCtrl(c.(fOptsLen := foptsLen), uplink) == FlagBits(c, uplink) + foptsLen
  {
  }

  lemma TypeByte(t: MType)
    ensures EncodeMhdr(t) == TypeCode(t)
  {
  }

  /** A join request's payload: both EUIs and the nonce with the low byte first. */
  lemma JoinRequestBytes(j: JoinRequestPayload)
    requires |j.appEui| == 8 && |j.devEui| == 8
    ensures var (a, d) := (j.appEui, j.devEui);
            EncodeJoinRequest(j) == [a[7], a[6], a[5], a[4], a[3], a[2], a[1], a[0],
                                     d[7], d[6], d[5], d[4], d[3], d[2], d[1], d[0],
                                     j.devNonce % 256, j.devNonce / 256 % 256]
  {
    LittleEndianBytes(j.devNonce);
  }

  /** A join accept before encryption. */
  lemma JoinAcceptBytes(j: JoinAcceptPayload)
    ensures EncodeJoinAccept(j) ==
              [j.appNonce % 256, j.appNonce / 256 % 256, j.appNonce / 65536 % 256,
               j.netId % 256, j.netId / 256 % 256, j.netId / 65536 % 256,
               j.devAddr % 256, j.devAddr / 256 % 256, j.devAddr / 65536 % 256, j.devAddr / 16777216 % 256,
               j.dlSettings, j.rxDelay] + j.cfList
  {
    LittleEndianBytes(j.appNonce);
    LittleEndianBytes(j.netId);
    LittleEndianBytes(j.devAddr);
  }
}
