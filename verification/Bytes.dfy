/** Byte strings: fixed-width big- and little-endian integers, Python's lenient
    slices, and the concatenation of a list of chunks. */
module Bytes {

  type byte = x: int | 0 <= x < 256

  datatype Option<+T> = None | Some(value: T)

  function Pow256(width: nat): (p: nat)
    ensures p >= 1
  {
    if width == 0 then 1 else 256 * Pow256(width - 1)
  }

  /** The `width` low-order bytes of n, most significant first. */
  function ToBE(n: nat, width: nat): (s: seq<byte>)
    ensures |s| == width
  {
    if width == 0 then [] else ToBE(n / 256, width - 1) + [n % 256]
  }

  function FromBE(s: seq<byte>): (n: nat)
    ensures n < Pow256(|s|)
  {
    if s == [] then 0 else FromBE(s[..|s| - 1]) * 256 + s[|s| - 1]
  }

  function ToLE(n: nat, width: nat): (s: seq<byte>)
    ensures |s| == width
  {
    if width == 0 then [] else [n % 256] + ToLE(n / 256, width - 1)
  }

  function FromLE(s: seq<byte>): (n: nat)
    ensures n < Pow256(|s|)
  {
    if s == [] then 0 else s[0] + 256 * FromLE(s[1..])
  }

  lemma {:induction false} BigEndianRoundTrip(n: nat, width: nat)
    requires n < Pow256(width)
    ensures FromBE(ToBE(n, width)) == n
  {
    if width > 0 {
      BigEndianRoundTrip(n / 256, width - 1);
      assert ToBE(n, width)[..width - 1] == ToBE(n / 256, width - 1);
    }
  }

  lemma {:induction false} LittleEndianRoundTrip(n: nat, width: nat)
    requires n < Pow256(width)
    ensures FromLE(ToLE(n, width)) == n
  {
    if width > 0 {
      LittleEndianRoundTrip(n / 256, width - 1);
      assert ToLE(n, width)[1..] == ToLE(n / 256, width - 1);
    }
  }

  /** Truncating to `width` bytes keeps the value modulo 256^width. */
  lemma {:induction false} LittleEndianTruncates(n: nat, width: nat)
    ensures FromLE(ToLE(n, width)) == n % Pow256(width)
  {
    if width > 0 {
      LittleEndianTruncates(n / 256, width - 1);
      assert ToLE(n, width)[1..] == ToLE(n / 256, width - 1);
      ModuloSplit(n, Pow256(width - 1));
    }
  }

  lemma ModuloSplit(n: nat, p: nat)
    requires p >= 1
    ensures n % 256 + 256 * (n / 256 % p) == n % (256 * p)
  {
    var q, r := n / 256 / p, n / 256 % p;
    assert n / 256 == q * p + r;
    var low := n % 256 + 256 * r;
    assert n == q * (256 * p) + low by {
      assert n == 256 * (n / 256) + n % 256;
      assert 256 * (q * p) == q * (256 * p);
    }
    assert 0 <= low < 256 * p;
    ModuloUnique(n, 256 * p, q, low);
  }

  lemma MulAtLeast(k: int, d: int)
    requires k >= 1 && d > 0
    ensures k * d >= d
  {
  }

  lemma ModuloUnique(n: int, d: int, q: int, r: int)
    requires d > 0 && 0 <= r < d && n == q * d + r
    ensures n % d == r && n / d == q
  {
    var k := n / d - q;
    assert k * d == r - n % d;
    if k >= 1 {
      MulAtLeast(k, d);
    } else if k <= -1 {
      MulAtLeast(-k, d);
    }
  }

  function Min(a: int, b: int): int {
    if a < b then a else b
  }

  /** Python's `data[lo:hi]` for non-negative bounds: out-of-range bounds are clamped. */
  function Slice<T>(data: seq<T>, lo: nat, hi: nat): (s: seq<T>)
    ensures lo <= hi <= |data| ==> s == data[lo..hi]
  {
    var l := Min(lo, |data|);
    var h := Min(hi, |data|);
    if l < h then data[l..h] else []
  }

  /** Python's `data[lo:]`. */
  function From<T>(data: seq<T>, lo: nat): (s: seq<T>)
    ensures lo <= |data| ==> s == data[lo..]
  {
    if lo <= |data| then data[lo..] else []
  }

  /** No element occurs twice. */
  predicate Distinct<T(==)>(s: seq<T>) {
    forall i, j :: 0 <= i < j < |s| ==> s[i] != s[j]
  }

  function Join<T>(chunks: seq<seq<T>>): seq<T> {
    if chunks == [] then [] else chunks[0] + Join(chunks[1..])
  }

  lemma {:induction false} JoinAppend<T>(chunks: seq<seq<T>>, last: seq<T>)
    ensures Join(chunks + [last]) == Join(chunks) + last
  {
    if chunks == [] {
      assert (chunks + [last])[1..] == [];
    } else {
      JoinAppend(chunks[1..], last);
      assert (chunks + [last])[1..] == chunks[1..] + [last];
    }
  }

  /** Chunks of `size`, the last one possibly shorter. */
  function Split<T>(data: seq<T>, size: nat): (chunks: seq<seq<T>>)
    requires size > 0
    ensures chunks == [] <==> data == []
    ensures forall c :: c in chunks ==> 0 < |c| <= size
    decreases |data|
  {
    if data == [] then []
    else if |data| <= size then [data]
    else [data[..size]] + Split(data[size..], size)
  }

  lemma JoinCons<T>(first: seq<T>, rest: seq<seq<T>>)
    ensures Join([first] + rest) == first + Join(rest)
  {
    assert ([first] + rest)[1..] == rest;
  }

  lemma {:induction false} JoinSplit<T>(data: seq<T>, size: nat)
    requires size > 0
    ensures Join(Split(data, size)) == data
    decreases |data|
  {
    if data == [] {
    } else if |data| <= size {
      assert [data] == [data] + [];
      JoinCons(data, []);
      assert data + [] == data;
    } else {
      hide Join;
      JoinSplit(data[size..], size);
      JoinCons(data[..size], Split(data[size..], size));
      assert data == data[..size] + data[size..];
    }
  }

  lemma {:induction false} SplitLength<T>(data: seq<T>, size: nat)
    requires size > 0
    ensures |Split(data, size)| <= |data|
    decreases |data|
  {
    if |data| > size {
      SplitLength(data[size..], size);
    }
  }

  function Pow2(bits: nat): (p: nat)
    ensures p >= 1
  {
    if bits == 0 then 1 else 2 * Pow2(bits - 1)
  }

  /** Bitwise exclusive or of two numbers below 2^bits. */
  function XorBits(a: nat, b: nat, bits: nat): (x: nat)
    ensures x < Pow2(bits)
  {
    if bits == 0 then 0 else (a + b) % 2 + 2 * XorBits(a / 2, b / 2, bits - 1)
  }

  lemma LowBit(a: nat, b: nat, rest: nat)
    ensures var x := (a + b) % 2 + 2 * rest;
            x / 2 == rest && (x + b) % 2 == a % 2
  {
  }

  lemma {:induction false} XorBitsInvolution(a: nat, b: nat, bits: nat)
    requires a < Pow2(bits)
    ensures XorBits(XorBits(a, b, bits), b, bits) == a
  {
    if bits > 0 {
      XorBitsInvolution(a / 2, b / 2, bits - 1);
      var rest := XorBits(a / 2, b / 2, bits - 1);
      LowBit(a, b, rest);
    }
  }

  /** `a ^ b` on bytes. */
  function Xor(a: byte, b: byte): byte {
    assert Pow2(8) == 256;
    XorBits(a, b, 8)
  }

  lemma XorInvolution(a: byte, b: byte)
    ensures Xor(Xor(a, b), b) == a
  {
    assert Pow2(8) == 256;
    XorBitsInvolution(a, b, 8);
  }

  /** It is the exclusive or of each bit. */
  lemma XorOfEachBit(a: byte, b: byte, i: nat)
    requires i < 8
    ensures Xor(a, b) / Pow2(i) % 2 == (a / Pow2(i) % 2 + b / Pow2(i) % 2) % 2
  {
    hide XorBits;
    XorBitsAt(a, b, 8, i);
    BitAtIs(a, i);
    BitAtIs(b, i);
    BitAtIs(Xor(a, b), i);
  }

  function BitAt(n: nat, i: nat): nat {
    if i == 0 then n % 2 else BitAt(n / 2, i - 1)
  }

  lemma {:induction false} BitAtIs(n: nat, i: nat)
    ensures BitAt(n, i) == n / Pow2(i) % 2
  {
    if i > 0 {
      BitAtIs(n / 2, i - 1);
      HalvedFirst(n, Pow2(i - 1));
    }
  }

  lemma {:induction false} XorBitsAt(a: nat, b: nat, bits: nat, i: nat)
    requires i < bits
    ensures BitAt(XorBits(a, b, bits), i) == (BitAt(a, i) + BitAt(b, i)) % 2
  {
    hide XorBits;
    XorBitsStep(a, b, bits);
    if i > 0 {
      XorBitsAt(a / 2, b / 2, bits - 1, i - 1);
    }
  }

  lemma XorBitsStep(a: nat, b: nat, bits: nat)
    requires bits > 0
    ensures var x := XorBits(a, b, bits);
            x / 2 == XorBits(a / 2, b / 2, bits - 1) && x % 2 == (a + b) % 2
  {
  }

  lemma HalvedFirst(n: nat, p: nat)
    requires p > 0
    ensures n / (2 * p) == n / 2 / p
  {
    var q, r := n / 2 / p, n / 2 % p;
    assert n / 2 == q * p + r;
    assert n == q * (2 * p) + (2 * r + n % 2) by {
      assert 2 * (q * p) == q * (2 * p);
    }
    ModuloUnique(n, 2 * p, q, 2 * r + n % 2);
  }

  // ---- Which byte stands where ----

  lemma {:induction false} LittleEndianAt(n: nat, width: nat, i: nat)
    requires i < width
    ensures ToLE(n, width)[i] == n / Pow256(i) % 256
  {
    if i > 0 {
      LittleEndianAt(n / 256, width - 1, i - 1);
      DividedFirst(n, Pow256(i - 1));
    }
  }

  lemma {:induction false} BigEndianAt(n: nat, width: nat, i: nat)
    requires i < width
    ensures ToBE(n, width)[width - 1 - i] == n / Pow256(i) % 256
  {
    if i > 0 {
      BigEndianAt(n / 256, width - 1, i - 1);
      DividedFirst(n, Pow256(i - 1));
    }
  }

  lemma DividedFirst(n: nat, p: nat)
    requires p > 0
    ensures n / (256 * p) == n / 256 / p
  {
    var q, r := n / 256 / p, n / 256 % p;
    assert n / 256 == q * p + r;
    assert n == q * (256 * p) + (256 * r + n % 256) by {
      assert 256 * (q * p) == q * (256 * p);
    }
    ModuloUnique(n, 256 * p, q, 256 * r + n % 256);
  }

  /** Two, three and four bytes, written out. */
  lemma LittleEndianBytes(n: nat)
    ensures ToLE(n, 2) == [n % 256, n / 256 % 256]
    ensures ToLE(n, 3) == [n % 256, n / 256 % 256, n / 65536 % 256]
    ensures ToLE(n, 4) == [n % 256, n / 256 % 256, n / 65536 % 256, n / 16777216 % 256]
  {
    assert Pow256(0) == 1 && Pow256(1) == 256 && Pow256(2) == 65536 && Pow256(3) == 16777216;
    forall i: nat, width: nat | i < width <= 4
      ensures ToLE(n, width)[i] == n / Pow256(i) % 256
    {
      LittleEndianAt(n, width, i);
    }
  }

  lemma BigEndianBytes(n: nat)
    ensures ToBE(n, 2) == [n / 256 % 256, n % 256]
    ensures ToBE(n, 3) == [n / 65536 % 256, n / 256 % 256, n % 256]
    ensures ToBE(n, 4) == [n / 16777216 % 256, n / 65536 % 256, n / 256 % 256, n % 256]
  {
    assert Pow256(0) == 1 && Pow256(1) == 256 && Pow256(2) == 65536 && Pow256(3) == 16777216;
    forall i: nat, width: nat | i < width <= 4
      ensures ToBE(n, width)[width - 1 - i] == n / Pow256(i) % 256
    {
      BigEndianAt(n, width, i);
    }
    assert ToBE(n, 2)[0] == ToBE(n, 2)[2 - 1 - 1] && ToBE(n, 2)[1] == ToBE(n, 2)[2 - 1 - 0];
  }
}
