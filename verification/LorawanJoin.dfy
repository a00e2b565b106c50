/** Over-the-air activation (simulator/lorawan/join.py and the server's join handling), section
    6.2 of LoRaWAN L2 1.0.4. */
module LorawanJoin {
  import opened Bytes
  import opened LorawanCrypto
  import opened LorawanFrames

  datatype Credentials = Credentials(appEui: seq<byte>, devEui: seq<byte>, appKey: Key)

  datatype OtaaRecord = OtaaRecord(appKey: Key, usedNonces: set<nat>)

  type Otaa = map<seq<byte>, OtaaRecord>

  function JoinMic(p: Primitives, appKey: Key, covered: seq<byte>): Mic {
    p.cmac(appKey, covered)[..4]
  }

  function BuildJoinRequest(p: Primitives, c: Credentials, devNonce: nat): (raw: seq<byte>)
    requires |c.appEui| == 8 && |c.devEui| == 8
    ensures |raw| == 23
  {
    var covered := [EncodeMhdr(JoinRequest)] + EncodeJoinRequest(JoinRequestPayload(c.appEui, c.devEui, devNonce));
    covered + JoinMic(p, c.appKey, covered)
  }

  /** `decode_join_request`; None where it raises. */
  function JoinRequestIn(raw: seq<byte>): Option<JoinRequestPayload> {
    if |raw| != 23 || DecodeMhdr(raw[0]) != Some(JoinRequest) then None
    else Some(DecodeJoinRequest(raw[1..19]))
  }

  function Acceptance(netId: nat, addr: nat, appNonce: nat): JoinAcceptPayload {
    JoinAcceptPayload(appNonce, netId, addr, 0, 1, [])
  }

  /** MHDR and the body under AES decrypt. */
  function BuildJoinAccept(p: Primitives, appKey: Key, j: JoinAcceptPayload): (raw: seq<byte>)
    requires j.cfList == [] || |j.cfList| == 16
    ensures |raw| == 17 + |j.cfList|
  {
    var body := EncodeJoinAccept(j);
    var mic := JoinMic(p, appKey, [EncodeMhdr(JoinAccept)] + body);
    [EncodeMhdr(JoinAccept)] + EcbInverse(p, appKey, body + mic)
  }

  /** The request in `raw` that the server grants: a known device, a right MIC, a fresh nonce. */
  function Granted(p: Primitives, otaa: Otaa, raw: seq<byte>): (r: Option<JoinRequestPayload>)
    ensures r.Some? ==> r.value.devEui in otaa && r.value.devNonce !in otaa[r.value.devEui].usedNonces
  {
    match JoinRequestIn(raw)
    case None => None
    case Some(j) =>
      if j.devEui !in otaa then None
      else if JoinMic(p, otaa[j.devEui].appKey, raw[..19]) != raw[19..] then None
      else if j.devNonce in otaa[j.devEui].usedNonces then None
      else Some(j)
  }

  function WithNonce(otaa: Otaa, j: JoinRequestPayload): Otaa
    requires j.devEui in otaa
  {
    var r := otaa[j.devEui];
    otaa[j.devEui := r.(usedNonces := r.usedNonces + {j.devNonce})]
  }

  datatype JoinResult = JoinResult(addr: nat, keys: SessionKeys, rx1DrOffset: nat, rx2DataRate: nat, rxDelay: nat)

  datatype JoinOutcome = Joined(result: JoinResult) | Refused | Raised

  /** What the device makes of a received frame. */
  function ProcessJoinAccept(p: Primitives, c: Credentials, devNonce: nat, raw: seq<byte>): JoinOutcome {
    if |raw| < 17 then Refused
    else
      match DecodeMhdr(raw[0])
      case None => Raised
      case Some(t) =>
        if t != JoinAccept then Refused
        else if |raw| != 17 && |raw| != 33 then Raised
        else
          var body := Ecb(p, c.appKey, raw[1..]);
          var accept := body[..|body| - 4];
          if JoinMic(p, c.appKey, [raw[0]] + accept) != body[|body| - 4..] then Refused
          else
            var j := DecodeJoinAccept(accept);
            Joined(JoinResult(j.devAddr, DeriveSessionKeys(p, c.appKey, j.appNonce, j.netId, devNonce),
                              j.dlSettings / 16 % 8, j.dlSettings % 16, if j.rxDelay < 1 then 1 else j.rxDelay))
  }

  /** A request with a fresh nonce, from a device whose key the server knows, is granted as it
      was built. */
  lemma FreshRequestIsGranted(p: Primitives, c: Credentials, devNonce: nat, otaa: Otaa)
    requires |c.appEui| == 8 && |c.devEui| == 8 && devNonce < 65536
    requires c.devEui in otaa && otaa[c.devEui].appKey == c.appKey
    ensures Granted(p, otaa, BuildJoinRequest(p, c, devNonce)) ==
              if devNonce in otaa[c.devEui].usedNonces then None
              else Some(JoinRequestPayload(c.appEui, c.devEui, devNonce))
  {
    hide EncodeJoinRequest, DecodeJoinRequest, JoinMic;
    var j := JoinRequestPayload(c.appEui, c.devEui, devNonce);
    var raw := BuildJoinRequest(p, c, devNonce);
    JoinRequestRoundTrip(j);
    CodeRoundTrip(JoinRequest);
    assert raw[1..19] == EncodeJoinRequest(j);
    assert raw[..19] == [EncodeMhdr(JoinRequest)] + EncodeJoinRequest(j);
    assert raw[19..] == JoinMic(p, c.appKey, raw[..19]);
  }

  /** The device reads any genuine accept as it was written: address and nonce, the data rate offset
      of RX1 in bits 4 to 6 of the settings and RX2's data rate in the low four, and a delay of at
      least a second. */
  lemma AnyAcceptIsRead(p: Primitives, c: Credentials, devNonce: nat, j: JoinAcceptPayload)
    requires DecryptInvertsEncrypt(p) && AcceptFits(j)
    ensures ProcessJoinAccept(p, c, devNonce, BuildJoinAccept(p, c.appKey, j))
            == Joined(JoinResult(j.devAddr, DeriveSessionKeys(p, c.appKey, j.appNonce, j.netId, devNonce),
                                 j.dlSettings / 16 % 8, j.dlSettings % 16, if j.rxDelay == 0 then 1 else j.rxDelay))
  {
    hide Ecb, EcbInverse, DecryptInvertsEncrypt, EncodeJoinAccept, DecodeJoinAccept, JoinMic, DeriveSessionKeys, Pow256;
    var body := EncodeJoinAccept(j);
    JoinAcceptRoundTrip(j);
    AcceptLength(j);
    CodeRoundTrip(JoinAccept);
    var head := [EncodeMhdr(JoinAccept)];
    var mic := JoinMic(p, c.appKey, head + body);
    EcbRoundTrip(p, c.appKey, body + mic);
    var raw := BuildJoinAccept(p, c.appKey, j);
    assert raw[1..] == EcbInverse(p, c.appKey, body + mic);
    assert (body + mic)[..|body|] == body && (body + mic)[|body|..] == mic;
  }

  /** The device reads from the server's accept exactly the address and nonce put there. */
  lemma AcceptIsRead(p: Primitives, c: Credentials, devNonce: nat, netId: nat, addr: nat, appNonce: nat)
    requires DecryptInvertsEncrypt(p) && appNonce < Pow256(3) && netId < Pow256(3) && addr < Pow256(4)
    ensures ProcessJoinAccept(p, c, devNonce, BuildJoinAccept(p, c.appKey, Acceptance(netId, addr, appNonce)))
            == Joined(JoinResult(addr, DeriveSessionKeys(p, c.appKey, appNonce, netId, devNonce), 0, 0, 1))
  {
    hide ProcessJoinAccept, BuildJoinAccept, DecryptInvertsEncrypt, DeriveSessionKeys, Pow256;
    AnyAcceptIsRead(p, c, devNonce, Acceptance(netId, addr, appNonce));
  }

  lemma AcceptLength(j: JoinAcceptPayload)
    ensures |EncodeJoinAccept(j)| == 12 + |j.cfList|
  {
  }

  // ---- The server over a run ----

  datatype JoinState = JoinState(otaa: Otaa, netId: nat, nextNonce: nat, nextAddr: nat)

  /** What the server keeps of a join it granted. */
  datatype Grant = Grant(devEui: seq<byte>, devNonce: nat, addr: nat, appNonce: nat, keys: SessionKeys)

  predicate InRangeState(s: JoinState) {
    s.netId < Pow256(3) && s.nextNonce < Pow256(3) && s.nextAddr < Pow256(4)
  }

  /** What comes of a request: nothing, an accept for a device that is then registered, or the
      exception of writing a number that has outgrown its field. */
  datatype JoinReply = NoReply | Accept(grant: Grant, raw: seq<byte>) | Overflow

  /** `_handle_join_request`: a nonce and an address are used up whether or not it is granted. The
      device's nonce is spent before the accept is written. */
  function HandleJoin(p: Primitives, s: JoinState, raw: seq<byte>): (JoinState, JoinReply) {
    var s' := s.(nextNonce := s.nextNonce + 1, nextAddr := s.nextAddr + 1);
    match Granted(p, s.otaa, raw)
    case None => (s', NoReply)
    case Some(j) =>
      var spent := s'.(otaa := WithNonce(s.otaa, j));
      if !InRangeState(s) then (spent, Overflow)
      else
        var key := s.otaa[j.devEui].appKey;
        var keys := DeriveSessionKeys(p, key, s.nextNonce, s.netId, j.devNonce);
        (spent, Accept(Grant(j.devEui, j.devNonce, s.nextAddr, s.nextNonce, keys),
                       BuildJoinAccept(p, key, Acceptance(s.netId, s.nextAddr, s.nextNonce))))
  }

  /** Join agreement: the request of a device with a fresh nonce is granted, and the device that
      receives the answer has the server's address and both session keys. */
  lemma JoinAgrees(p: Primitives, c: Credentials, devNonce: nat, s: JoinState)
    requires DecryptInvertsEncrypt(p) && InRangeState(s)
    requires |c.appEui| == 8 && |c.devEui| == 8 && devNonce < 65536
    requires c.devEui in s.otaa && s.otaa[c.devEui].appKey == c.appKey
    requires devNonce !in s.otaa[c.devEui].usedNonces
    ensures var (s', r) := HandleJoin(p, s, BuildJoinRequest(p, c, devNonce));
            && r.Accept?
            && r.grant.devEui == c.devEui && r.grant.devNonce == devNonce
            && ProcessJoinAccept(p, c, devNonce, r.raw) == Joined(JoinResult(r.grant.addr, r.grant.keys, 0, 0, 1))
  {
    hide ProcessJoinAccept, BuildJoinAccept, BuildJoinRequest, Granted, DeriveSessionKeys, DecryptInvertsEncrypt;
    FreshRequestIsGranted(p, c, devNonce, s.otaa);
    AcceptIsRead(p, c, devNonce, s.netId, s.nextAddr, s.nextNonce);
  }

  function Grants(p: Primitives, s: JoinState, raws: seq<seq<byte>>): seq<Grant>
    decreases |raws|
  {
    if raws == [] then []
    else
      var (s', r) := HandleJoin(p, s, raws[0]);
      var rest := Grants(p, s', raws[1..]);
      if r.Accept? then [r.grant] + rest else rest
  }

  /** A grant that a server in this state can still make. */
  predicate Possible(s: JoinState, g: Grant) {
    && s.nextAddr <= g.addr && s.nextNonce <= g.appNonce && g.devEui in s.otaa && g.devNonce !in s.otaa[g.devEui].usedNonces
  }

  predicate AllPossible(s: JoinState, grants: seq<Grant>) {
    forall g :: g in grants ==> Possible(s, g)
  }

  predicate AllDistinct(grants: seq<Grant>) {
    forall i, j :: 0 <= i < j < |grants| ==>
      && grants[i].addr < grants[j].addr && grants[i].appNonce < grants[j].appNonce
      && (grants[i].devEui, grants[i].devNonce) != (grants[j].devEui, grants[j].devNonce)
  }

  lemma OnePossible(p: Primitives, s: JoinState, raw: seq<byte>, later: Grant)
    requires Possible(HandleJoin(p, s, raw).0, later)
    ensures Possible(s, later)
    ensures var r := HandleJoin(p, s, raw).1;
            r.Accept? ==>
              var g := r.grant;
              && Possible(s, g) && g.addr < later.addr && g.appNonce < later.appNonce
              && (g.devEui, g.devNonce) != (later.devEui, later.devNonce)
  {
    hide BuildJoinAccept, DeriveSessionKeys, JoinMic;
  }

  lemma GrantIsPossible(p: Primitives, s: JoinState, raw: seq<byte>)
    ensures var r := HandleJoin(p, s, raw).1;
            r.Accept? ==> Possible(s, r.grant)
  {
    hide BuildJoinAccept, DeriveSessionKeys, JoinMic;
  }

  /** Over any run of join requests, genuine or not, no (device, nonce) pair is granted twice, and
      neither an address nor a nonce of the server's is given twice. */
  lemma {:induction false} GrantsAreDistinct(p: Primitives, s: JoinState, raws: seq<seq<byte>>)
    ensures AllPossible(s, Grants(p, s, raws)) && AllDistinct(Grants(p, s, raws))
    decreases |raws|
  {
    hide HandleJoin, Possible;
    if raws != [] {
      var next, r := HandleJoin(p, s, raws[0]).0, HandleJoin(p, s, raws[0]).1;
      var rest := Grants(p, next, raws[1..]);
      GrantsAreDistinct(p, next, raws[1..]);
      GrantIsPossible(p, s, raws[0]);
      forall g | g in rest
        ensures Possible(s, g)
        ensures r.Accept? ==> r.grant.addr < g.addr && r.grant.appNonce < g.appNonce
        ensures r.Accept? ==> (r.grant.devEui, r.grant.devNonce) != (g.devEui, g.devNonce)
      {
        OnePossible(p, s, raws[0], g);
      }
    }
  }

  // ---- What is on the air, and what is believed ----

  /** A join request as anybody can see it, with four bytes of the CMAC under the device's key. */
  lemma RequestBytes(p: Primitives, c: Credentials, devNonce: nat)
    requires |c.appEui| == 8 && |c.devEui| == 8
    ensures var (raw, a, d) := (BuildJoinRequest(p, c, devNonce), c.appEui, c.devEui);
            && raw[..19] == [0x00, a[7], a[6], a[5], a[4], a[3], a[2], a[1], a[0],
                             d[7], d[6], d[5], d[4], d[3], d[2], d[1], d[0], devNonce % 256, devNonce / 256 % 256]
            && raw[19..] == p.cmac(c.appKey, raw[..19])[..4]
  {
    hide EncodeJoinRequest, EncodeMhdr;
    var j := JoinRequestPayload(c.appEui, c.devEui, devNonce);
    JoinRequestBytes(j);
    TypeByte(JoinRequest);
    var raw := BuildJoinRequest(p, c, devNonce);
    var covered := [EncodeMhdr(JoinRequest)] + EncodeJoinRequest(j);
    assert raw == covered + JoinMic(p, c.appKey, covered);
    assert raw[..19] == covered && raw[19..] == JoinMic(p, c.appKey, covered);
  }

  /** A join accept: one byte in clear, and one block that AES encryption turns into the nonce, the
      network id, the address, no offset, a delay of one second and four bytes of the CMAC. */
  lemma AcceptBytes(p: Primitives, appKey: Key, netId: nat, addr: nat, appNonce: nat)
    requires DecryptInvertsEncrypt(p)
    ensures var raw := BuildJoinAccept(p, appKey, Acceptance(netId, addr, appNonce));
            var body := [appNonce % 256, appNonce / 256 % 256, appNonce / 65536 % 256,
                         netId % 256, netId / 256 % 256, netId / 65536 % 256,
                         addr % 256, addr / 256 % 256, addr / 65536 % 256, addr / 16777216 % 256, 0, 1];
            && raw[0] == 0x20
            && p.aes(appKey, raw[1..]) == body + p.cmac(appKey, [0x20] + body)[..4]
  {
    hide EncodeJoinAccept, DecryptInvertsEncrypt, Ecb, EcbInverse, EncodeMhdr;
    var j := Acceptance(netId, addr, appNonce);
    JoinAcceptBytes(j);
    TypeByte(JoinAccept);
    var body := EncodeJoinAccept(j);
    var written := [appNonce % 256, appNonce / 256 % 256, appNonce / 65536 % 256,
                    netId % 256, netId / 256 % 256, netId / 65536 % 256,
                    addr % 256, addr / 256 % 256, addr / 65536 % 256, addr / 16777216 % 256, 0, 1];
    assert body == written;
    MicIs(p, appKey, [0x20] + body);
    var mic := JoinMic(p, appKey, [0x20] + body);
    var raw := BuildJoinAccept(p, appKey, j);
    EcbRoundTrip(p, appKey, body + mic);
    assert raw[1..] == EcbInverse(p, appKey, body + mic);
    EcbBlock(p, appKey, raw[1..], 0);
    assert raw[1..][16 * 0..16 * 0 + 16] == raw[1..] && (body + mic)[16 * 0..16 * 0 + 16] == body + mic;
  }

  /** Nobody without the key is believed: a request is granted only with the right MIC, under the key
      of the device it names. */
  lemma GrantedIsGenuine(p: Primitives, otaa: Otaa, raw: seq<byte>)
    requires Granted(p, otaa, raw).Some?
    ensures var j := Granted(p, otaa, raw).value;
            |raw| == 23 && raw[0] / 32 == 0 && raw[0] % 4 == 0 && j.devEui in otaa && raw[19..] == p.cmac(otaa[j.devEui].appKey, raw[..19])[..4]
  {
    hide DecodeJoinRequest, JoinMic;
    var j := JoinRequestIn(raw).value;
    assert Code(JoinRequest) == 0;
    MicIs(p, otaa[j.devEui].appKey, raw[..19]);
  }

  /** And an accept is taken only when what it decrypts to ends with its own MIC. */
  lemma JoinedIsGenuine(p: Primitives, c: Credentials, devNonce: nat, raw: seq<byte>)
    requires ProcessJoinAccept(p, c, devNonce, raw).Joined?
    ensures |raw| == 17 || |raw| == 33
    ensures var body := Ecb(p, c.appKey, raw[1..]);
            body[|body| - 4..] == p.cmac(c.appKey, [raw[0]] + body[..|body| - 4])[..4]
  {
    hide Ecb, DecodeJoinAccept, DeriveSessionKeys, DecodeMhdr, JoinMic;
    var body := Ecb(p, c.appKey, raw[1..]);
    assert JoinMic(p, c.appKey, [raw[0]] + body[..|body| - 4]) == body[|body| - 4..];
    MicIs(p, c.appKey, [raw[0]] + body[..|body| - 4]);
  }

  lemma MicIs(p: Primitives, appKey: Key, covered: seq<byte>)
    ensures JoinMic(p, appKey, covered) == p.cmac(appKey, covered)[..4]
  {
  }
}
