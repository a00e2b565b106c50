/** LoRaWAN cryptography (simulator/lorawan/crypto.py) over abstract AES-128 and CMAC. */
module LorawanCrypto {
  import opened Bytes

  type Block = s: seq<byte> | |s| == 16 witness seq(16, _ => 0)
  type Key = Block
  type Mic = s: seq<byte> | |s| == 4 witness seq(4, _ => 0)

  const MAX_FCNT: nat := 0xFFFF_FFFF

  /** AES-128 on one block, in both directions, and AES-CMAC. */
  datatype Primitives = Primitives(
    aes: (Key, Block) -> Block,
    aesInverse: (Key, Block) -> Block,
    cmac: (Key, seq<byte>) -> Block)

  /** The one law AES is used for. */
  ghost predicate DecryptInvertsEncrypt(p: Primitives) {
    forall k, b :: p.aes(k, p.aesInverse(k, b)) == b
  }

  function Direction(uplink: bool): byte {
    if uplink then 0 else 1
  }

  /** The common layout of the blocks A_i and B_0. */
  function CounterBlock(tag: byte, uplink: bool, addr: nat, fcnt: nat, last: byte): Block {
    [tag, 0, 0, 0, 0, Direction(uplink)] + ToLE(addr, 4) + ToLE(fcnt, 4) + [0, last]
  }

  /** Section 4.4 of LoRaWAN L2 1.0.4. The length byte is the caller's to keep in range. */
  function DataMic(p: Primitives, key: Key, addr: nat, fcnt: nat, uplink: bool, message: seq<byte>): Mic {
    p.cmac(key, CounterBlock(0x49, uplink, addr, fcnt, |message| % 256) + message)[..4]
  }

  /** The first k blocks of the keystream, section 4.3.3. */
  function Keystream(p: Primitives, key: Key, addr: nat, fcnt: nat, uplink: bool, k: nat): (s: seq<byte>)
    ensures |s| == 16 * k
  {
    if k == 0 then []
    else Keystream(p, key, addr, fcnt, uplink, k - 1) + p.aes(key, CounterBlock(0x01, uplink, addr, fcnt, k % 256))
  }

  function Blocks(n: nat): (k: nat)
    ensures n <= 16 * k < n + 16
  {
    (n + 15) / 16
  }

  function XorWith(data: seq<byte>, stream: seq<byte>): (r: seq<byte>)
    requires |data| <= |stream|
    ensures |r| == |data|
    ensures forall j :: 0 <= j < |data| ==> r[j] == Xor(data[j], stream[j])
  {
    seq(|data|, j requires 0 <= j < |data| => Xor(data[j], stream[j]))
  }

  /** What `encrypt_frm_payload` computes; the same function decrypts. */
  function Crypt(p: Primitives, key: Key, addr: nat, fcnt: nat, uplink: bool, payload: seq<byte>): (r: seq<byte>)
    ensures |r| == |payload|
  {
    XorWith(payload, Keystream(p, key, addr, fcnt, uplink, Blocks(|payload|)))
  }

  /** The block A_i of section 4.3.3, byte by byte: 0x01, four zeros, the direction, the address and
      the counter with the low byte first, a zero and the number of the block. */
  function PayloadBlock(uplink: bool, addr: nat, fcnt: nat, i: byte): Block {
    [0x01, 0, 0, 0, 0, if uplink then 0 else 1,
     addr % 256, addr / 256 % 256, addr / 65536 % 256, addr / 16777216 % 256,
     fcnt % 256, fcnt / 256 % 256, fcnt / 65536 % 256, fcnt / 16777216 % 256, 0, i]
  }

  lemma {:induction false} KeystreamAt(p: Primitives, key: Key, addr: nat, fcnt: nat, uplink: bool, k: nat, j: nat)
    requires j < 16 * k && k <= 255
    ensures Keystream(p, key, addr, fcnt, uplink, k)[j] == p.aes(key, PayloadBlock(uplink, addr, fcnt, j / 16 + 1))[j % 16]
  {
    if j < 16 * (k - 1) {
      KeystreamAt(p, key, addr, fcnt, uplink, k - 1, j);
    } else {
      assert j / 16 + 1 == k && j - 16 * (k - 1) == j % 16;
      LittleEndianBytes(addr);
      LittleEndianBytes(fcnt);
      assert CounterBlock(0x01, uplink, addr, fcnt, k) == PayloadBlock(uplink, addr, fcnt, k);
    }
  }

  /** What is on the air: each byte is the exclusive or of the payload's byte and one byte of AES
      over the block that the standard gives it. */
  lemma CryptedByte(p: Primitives, key: Key, addr: nat, fcnt: nat, uplink: bool, payload: seq<byte>, j: nat)
    requires j < |payload| <= 16 * 255
    ensures Crypt(p, key, addr, fcnt, uplink, payload)[j]
            == Xor(payload[j], p.aes(key, PayloadBlock(uplink, addr, fcnt, j / 16 + 1))[j % 16])
  {
    hide Keystream, Xor;
    KeystreamAt(p, key, addr, fcnt, uplink, Blocks(|payload|), j);
  }

  /** Grows the keystream block by block and xors it onto the payload. Block numbers are one
      byte, so the caller keeps payloads within 255 blocks. */
  method EncryptFrmPayload(p: Primitives, key: Key, addr: nat, fcnt: nat, uplink: bool, payload: seq<byte>)
    returns (r: seq<byte>)
    requires |payload| <= 16 * 255
    ensures r == Crypt(p, key, addr, fcnt, uplink, payload)
    ensures Crypt(p, key, addr, fcnt, uplink, r) == payload
    ensures |r| == |payload| && forall j :: 0 <= j < |payload| ==>
              var a: Block := [0x01, 0, 0, 0, 0, if uplink then 0 else 1,
                               addr % 256, addr / 256 % 256, addr / 65536 % 256, addr / 16777216 % 256,
                               fcnt % 256, fcnt / 256 % 256, fcnt / 65536 % 256, fcnt / 16777216 % 256, 0, j / 16 + 1];
              r[j] == Xor(payload[j], p.aes(key, a)[j % 16])
  {
    CryptTwice(p, key, addr, fcnt, uplink, payload);
    forall j | 0 <= j < |payload|
      ensures var a := PayloadBlock(uplink, addr, fcnt, j / 16 + 1);
              Crypt(p, key, addr, fcnt, uplink, payload)[j] == Xor(payload[j], p.aes(key, a)[j % 16])
    {
      CryptedByte(p, key, addr, fcnt, uplink, payload, j);
    }
    if |payload| == 0 {
      return [];
    }
    var k := (|payload| + 15) / 16;
    var s: seq<byte> := [];
    for i := 1 to k + 1
      invariant s == Keystream(p, key, addr, fcnt, uplink, i - 1)
    {
      s := s + p.aes(key, CounterBlock(0x01, uplink, addr, fcnt, i));
    }
    r := seq(|payload|, j requires 0 <= j < |payload| => Xor(payload[j], s[j]));
  }

  /** Section 4.3.3: encryption is its own inverse. */
  lemma CryptTwice(p: Primitives, key: Key, addr: nat, fcnt: nat, uplink: bool, payload: seq<byte>)
    ensures Crypt(p, key, addr, fcnt, uplink, Crypt(p, key, addr, fcnt, uplink, payload)) == payload
  {
    hide Xor, Keystream;
    var stream := Keystream(p, key, addr, fcnt, uplink, Blocks(|payload|));
    var once := XorWith(payload, stream);
    forall j | 0 <= j < |payload|
      ensures XorWith(once, stream)[j] == payload[j]
    {
      XorInvolution(payload[j], stream[j]);
    }
    assert XorWith(once, stream) == payload;
  }

  /** Section 6.2.5: the network encrypts a join accept with AES decrypt, block by block. */
  function EcbInverse(p: Primitives, key: Key, body: seq<byte>): (r: seq<byte>)
    requires |body| % 16 == 0
    ensures |r| == |body|
    decreases |body|
  {
    if body == [] then [] else p.aesInverse(key, body[..16]) + EcbInverse(p, key, body[16..])
  }

  function Ecb(p: Primitives, key: Key, body: seq<byte>): (r: seq<byte>)
    requires |body| % 16 == 0
    ensures |r| == |body|
    decreases |body|
  {
    if body == [] then [] else p.aes(key, body[..16]) + Ecb(p, key, body[16..])
  }

  lemma {:induction false} EcbAppend(p: Primitives, key: Key, body: seq<byte>, last: Block)
    requires |body| % 16 == 0
    ensures Ecb(p, key, body + last) == Ecb(p, key, body) + p.aes(key, last)
    decreases |body|
  {
    if body == [] {
      assert body + last == last;
      assert last[..16] == last && last[16..] == [];
    } else {
      EcbAppend(p, key, body[16..], last);
      assert (body + last)[..16] == body[..16] && (body + last)[16..] == body[16..] + last;
    }
  }

  lemma {:induction false} EcbRoundTrip(p: Primitives, key: Key, body: seq<byte>)
    requires |body| % 16 == 0 && DecryptInvertsEncrypt(p)
    ensures Ecb(p, key, EcbInverse(p, key, body)) == body
    decreases |body|
  {
    if body != [] {
      EcbRoundTrip(p, key, body[16..]);
      var r := EcbInverse(p, key, body);
      assert r[..16] == p.aesInverse(key, body[..16]) && r[16..] == EcbInverse(p, key, body[16..]);
      assert body == body[..16] + body[16..];
    }
  }

  /** Block by block: what the network sends is AES decrypt of each block, what the device reads is
      AES encrypt of each. */
  lemma {:induction false} EcbBlock(p: Primitives, key: Key, body: seq<byte>, i: nat)
    requires |body| % 16 == 0 && i < |body| / 16
    ensures Ecb(p, key, body)[16 * i..16 * i + 16] == p.aes(key, body[16 * i..16 * i + 16])
    ensures EcbInverse(p, key, body)[16 * i..16 * i + 16] == p.aesInverse(key, body[16 * i..16 * i + 16])
    decreases |body|
  {
    var rest := body[16..];
    if i > 0 {
      EcbBlock(p, key, rest, i - 1);
      assert rest[16 * (i - 1)..16 * (i - 1) + 16] == body[16 * i..16 * i + 16];
      assert Ecb(p, key, body)[16 * i..16 * i + 16] == Ecb(p, key, rest)[16 * (i - 1)..16 * (i - 1) + 16];
      assert EcbInverse(p, key, body)[16 * i..16 * i + 16] == EcbInverse(p, key, rest)[16 * (i - 1)..16 * (i - 1) + 16];
    }
  }

  /** `decrypt_join_accept`: grows the plaintext block by block. */
  method DecryptJoinAccept(p: Primitives, key: Key, encrypted: seq<byte>) returns (r: Option<seq<byte>>)
    ensures r.Some? <==> |encrypted| == 16 || |encrypted| == 32
    ensures r.Some? ==> r.value == Ecb(p, key, encrypted) && |r.value| == |encrypted|
    ensures r.Some? ==> forall i :: 0 <= i < |encrypted| / 16 ==>
              r.value[16 * i..16 * i + 16] == p.aes(key, encrypted[16 * i..16 * i + 16])
    ensures r.Some? && DecryptInvertsEncrypt(p) ==>
              forall body: seq<byte> :: |body| % 16 == 0 && encrypted == EcbInverse(p, key, body) ==> r.value == body
  {
    if |encrypted| != 16 && |encrypted| != 32 {
      return None;
    }
    var result: seq<byte> := [];
    var i := 0;
    while i < |encrypted|
      invariant 0 <= i <= |encrypted| && i % 16 == 0
      invariant result == Ecb(p, key, encrypted[..i])
    {
      EcbAppend(p, key, encrypted[..i], encrypted[i..i + 16]);
      assert encrypted[..i + 16] == encrypted[..i] + encrypted[i..i + 16];
      result := result + p.aes(key, encrypted[i..i + 16]);
      i := i + 16;
    }
    assert encrypted[..i] == encrypted;
    forall body: seq<byte> | DecryptInvertsEncrypt(p) && |body| % 16 == 0 && encrypted == EcbInverse(p, key, body)
      ensures result == body
    {
      EcbRoundTrip(p, key, body);
    }
    forall k | 0 <= k < |encrypted| / 16
      ensures result[16 * k..16 * k + 16] == p.aes(key, encrypted[16 * k..16 * k + 16])
    {
      EcbBlock(p, key, encrypted, k);
    }
    return Some(result);
  }

  datatype SessionKeys = SessionKeys(nwk: Key, app: Key)

  function KeyBlock(tag: byte, appNonce: nat, netId: nat, devNonce: nat): Block {
    [tag] + ToLE(appNonce, 3) + ToLE(netId, 3) + ToLE(devNonce, 2) + [0, 0, 0, 0, 0, 0, 0]
  }

  function DeriveSessionKeys(p: Primitives, appKey: Key, appNonce: nat, netId: nat, devNonce: nat): SessionKeys {
    SessionKeys(p.aes(appKey, KeyBlock(0x01, appNonce, netId, devNonce)),
                p.aes(appKey, KeyBlock(0x02, appNonce, netId, devNonce)))
  }

  /** The blocks the two session keys are made from, byte by byte: 0x01 for the network and 0x02 for
      the application, then both nonces and the network id with the low byte first, then zeros. */
  lemma SessionKeysAre(p: Primitives, appKey: Key, appNonce: nat, netId: nat, devNonce: nat)
    ensures var keys := DeriveSessionKeys(p, appKey, appNonce, netId, devNonce);
            var rest := [appNonce % 256, appNonce / 256 % 256, appNonce / 65536 % 256,
                         netId % 256, netId / 256 % 256, netId / 65536 % 256,
                         devNonce % 256, devNonce / 256 % 256, 0, 0, 0, 0, 0, 0, 0];
            keys.nwk == p.aes(appKey, [0x01] + rest) && keys.app == p.aes(appKey, [0x02] + rest)
  {
    LittleEndianBytes(appNonce);
    LittleEndianBytes(netId);
    LittleEndianBytes(devNonce);
    var rest := [appNonce % 256, appNonce / 256 % 256, appNonce / 65536 % 256,
                 netId % 256, netId / 256 % 256, netId / 65536 % 256,
                 devNonce % 256, devNonce / 256 % 256, 0, 0, 0, 0, 0, 0, 0];
    assert KeyBlock(0x01, appNonce, netId, devNonce) == [0x01] + rest;
    assert KeyBlock(0x02, appNonce, netId, devNonce) == [0x02] + rest;
  }

  /** What the MIC of a data frame is taken over: the block B_0, byte by byte, and the message. */
  lemma DataMicIs(p: Primitives, key: Key, addr: nat, fcnt: nat, uplink: bool, message: seq<byte>)
    ensures DataMic(p, key, addr, fcnt, uplink, message) ==
              p.cmac(key, [0x49, 0, 0, 0, 0, if uplink then 0 else 1,
                           addr % 256, addr / 256 % 256, addr / 65536 % 256, addr / 16777216 % 256,
                           fcnt % 256, fcnt / 256 % 256, fcnt / 65536 % 256, fcnt / 16777216 % 256,
                           0, |message| % 256] + message)[..4]
  {
    LittleEndianBytes(addr);
    LittleEndianBytes(fcnt);
    assert CounterBlock(0x49, uplink, addr, fcnt, |message| % 256) ==
             [0x49, 0, 0, 0, 0, if uplink then 0 else 1,
              addr % 256, addr / 256 % 256, addr / 65536 % 256, addr / 16777216 % 256,
              fcnt % 256, fcnt / 256 % 256, fcnt / 65536 % 256, fcnt / 16777216 % 256, 0, |message| % 256];
  }
}
