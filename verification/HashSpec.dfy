/** Iterated hashes of 64-byte blocks: padding and digest as RFC 1321 sections 3.1 to 3.5 and
    FIPS 180-4 sections 5.1.1 and 6.1 define them, and HMAC as RFC 2104 section 2 does. */
module HashSpec {

  type Word = bv32
  type Octet = bv8
  type Block = b: seq<Octet> | |b| == 64 witness seq(64, _ => 0)

  // What distinguishes MD5 from SHA-1.
  datatype Algorithm<!S> = Algorithm(
    iv: S,                          // the initial state
    compress: (S, Block) -> S,      // the block function
    encode: S -> seq<Octet>,        // the state as a digest
    size: nat,                      // the length of a digest
    bigEndian: bool)                // the byte order of the length

  // ---------- blocks ----------

  function Fold<S>(compress: (S, Block) -> S, s: S, m: seq<Octet>): S
    requires |m| % 64 == 0
  {
    if m == [] then s else Fold(compress, compress(s, m[..64]), m[64..])
  }

  // Folding block by block from the left.
  lemma {:induction false} FoldSnoc<S>(compress: (S, Block) -> S, s: S, m: seq<Octet>, done: nat)
    requires done % 64 == 0 && done + 64 <= |m|
    ensures Fold(compress, s, m[..done + 64]) == compress(Fold(compress, s, m[..done]), m[done..done + 64])
    decreases done
  {
    if done == 0 {
      assert m[..64][..64] == m[..64] == m[0..64] && m[..64][64..] == [];
    } else {
      var s', m' := compress(s, m[..64]), m[64..];
      assert m[..done + 64][..64] == m[..64] && m[..done][..64] == m[..64];
      assert m[..done + 64][64..] == m'[..done] && m[..done][64..] == m'[..done - 64];
      assert m[done..done + 64] == m'[done - 64..done];
      FoldSnoc(compress, s', m', done - 64);
    }
  }

  // ---------- numbers as bytes ----------

  function LowByte(v: nat): Octet { (v % 0x100) as Octet }

  // A number below 256 comes back from the octet that it becomes: counting up reaches it.
  lemma OctetIs(n: nat)
    requires n < 0x100
    ensures (n as Octet) as nat == n
  {
    var b := Counted(n);
    ThereAndBack(b);
  }

  lemma {:induction false} Counted(n: nat) returns (b: Octet)
    requires n < 0x100
    ensures b as nat == n
  {
    if n == 0 {
      b := 0;
    } else {
      var c := Counted(n - 1);
      OneMore(c);
      b := c + 1;
    }
  }

  lemma OneMore(b: Octet)
    ensures b == 255 || (b + 1) as nat == b as nat + 1
  {}

  lemma ThereAndBack(b: Octet)
    ensures (b as nat) as Octet == b
  {}

  function BigEndianBytes(v: nat, k: nat): (r: seq<Octet>)
    ensures |r| == k
  {
    if k == 0 then [] else BigEndianBytes(v / 0x100, k - 1) + [LowByte(v)]
  }

  function LittleEndianBytes(v: nat, k: nat): (r: seq<Octet>)
    ensures |r| == k
  {
    if k == 0 then [] else [LowByte(v)] + LittleEndianBytes(v / 0x100, k - 1)
  }

  function Pow256(k: nat): (p: nat)
    ensures p > 0
  {
    if k == 0 then 1 else 0x100 * Pow256(k - 1)
  }

  // A number written in two parts, the high one first or last.
  lemma {:induction false} BytesInTwo(v: nat, high: nat, low: nat, h: nat, l: nat)
    requires v == high * Pow256(l) + low && low < Pow256(l)
    ensures BigEndianBytes(v, h + l) == BigEndianBytes(high, h) + BigEndianBytes(low, l)
    ensures LittleEndianBytes(v, h + l) == LittleEndianBytes(low, l) + LittleEndianBytes(high, h)
    decreases l
  {
    hide Pow256, LowByte, BigEndianBytes, LittleEndianBytes;
    PowUnfold(l);
    BytesUnfold(low, l);
    if l > 0 {
      BytesUnfold(v, h + l);
      PartsOfQuotient(v, high, low, Pow256(l - 1));
      SameLowByte(v, low);
      BytesInTwo(v / 0x100, high, low / 0x100, h, l - 1);
    }
  }

  lemma BytesUnfold(v: nat, k: nat)
    ensures BigEndianBytes(v, k) == if k == 0 then [] else BigEndianBytes(v / 0x100, k - 1) + [LowByte(v)]
    ensures LittleEndianBytes(v, k) == if k == 0 then [] else [LowByte(v)] + LittleEndianBytes(v / 0x100, k - 1)
  {
    hide LowByte;
  }

  lemma PowUnfold(k: nat)
    ensures Pow256(k) == if k == 0 then 1 else 0x100 * Pow256(k - 1)
  {}

  lemma SameLowByte(v: nat, w: nat)
    requires v % 0x100 == w % 0x100
    ensures LowByte(v) == LowByte(w)
  {}

  lemma PartsOfQuotient(v: nat, high: nat, low: nat, p: nat)
    requires v == high * (0x100 * p) + low && low < 0x100 * p
    ensures v / 0x100 == high * p + low / 0x100 && v % 0x100 == low % 0x100 && low / 0x100 < p
  {
    assert high * (0x100 * p) == 0x100 * (high * p);
  }

  // ---------- padding ----------

  function Zeros(k: nat): (r: seq<Octet>)
    ensures |r| == k && forall i :: 0 <= i < k ==> r[i] == 0
  {
    if k == 0 then [] else [0] + Zeros(k - 1)
  }

  // The number of zero bytes that follow the 0x80 byte.
  function ZeroCount(n: nat): nat { (55 - n) % 64 }

  // It is the least number that leaves room for exactly the length in the last block.
  lemma ZeroCountIsLeast(n: nat, k: nat)
    ensures (n + 1 + ZeroCount(n)) % 64 == 56
    ensures (n + 1 + k) % 64 == 56 ==> ZeroCount(n) <= k
  {}

  // The bit length, modulo 2^64, in eight bytes.
  function LengthBytes(n: nat, bigEndian: bool): (r: seq<Octet>)
    ensures |r| == 8
  {
    var bits := 8 * n % 0x1_0000_0000_0000_0000;
    if bigEndian then BigEndianBytes(bits, 8) else LittleEndianBytes(bits, 8)
  }

  lemma PadLength(n: nat)
    ensures (n + (1 + ZeroCount(n)) + 8) % 64 == 0
  {}

  function Pad(m: seq<Octet>, bigEndian: bool): (r: seq<Octet>)
    ensures |r| % 64 == 0
  {
    PadLength(|m|);
    m + ([0x80] + Zeros(ZeroCount(|m|))) + LengthBytes(|m|, bigEndian)
  }

  function Digest<S>(alg: Algorithm<S>, m: seq<Octet>): seq<Octet> {
    alg.encode(Fold(alg.compress, alg.iv, Pad(m, alg.bigEndian)))
  }

  // ---------- HMAC ----------

  function XorWith(key: seq<Octet>, pad: Octet): (r: seq<Octet>)
    ensures |r| == |key| && forall i :: 0 <= i < |key| ==> r[i] == key[i] ^ pad
  {
    seq(|key|, i requires 0 <= i < |key| => key[i] ^ pad)
  }

  function PaddedKey(key: seq<Octet>): (r: seq<Octet>)
    requires |key| <= 64
    ensures |r| == 64
  {
    key + Zeros(64 - |key|)
  }

  function Hmac<S>(alg: Algorithm<S>, key: seq<Octet>, text: seq<Octet>): seq<Octet>
    requires |key| <= 64
  {
    Digest(alg, XorWith(PaddedKey(key), 0x5c) + Digest(alg, XorWith(PaddedKey(key), 0x36) + text))
  }
}
