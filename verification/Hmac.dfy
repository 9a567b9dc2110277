/** The two algorithms, and utils_hmac_md5 and utils_hmac_sha1 on top of their contexts. */
module Hmac {
  import opened HashSpec
  import opened HashContext
  import opened Sha1Block

  // ---------- algorithms ----------

  function WordBigEndian(w: Word): seq<Octet> {
    [((w >> 24) & 0xFF) as Octet, ((w >> 16) & 0xFF) as Octet, ((w >> 8) & 0xFF) as Octet, (w & 0xFF) as Octet]
  }

  function WordLittleEndian(w: Word): seq<Octet> {
    [(w & 0xFF) as Octet, ((w >> 8) & 0xFF) as Octet, ((w >> 16) & 0xFF) as Octet, ((w >> 24) & 0xFF) as Octet]
  }

  const SHA1: Algorithm<Sha1State> := Algorithm(
    Sha1State(0x67452301, 0xEFCDAB89, 0x98BADCFE, 0x10325476, 0xC3D2E1F0),
    Compress,
    (s: Sha1State) => WordBigEndian(s.a) + WordBigEndian(s.b) + WordBigEndian(s.c) + WordBigEndian(s.d)
                      + WordBigEndian(s.e),
    20,
    true)

  datatype Md5State = Md5State(a: Word, b: Word, c: Word, d: Word)

  // MD5 around any block function.
  function Md5(compress: (Md5State, Block) -> Md5State): Algorithm<Md5State> {
    Algorithm(
      Md5State(0x67452301, 0xEFCDAB89, 0x98BADCFE, 0x10325476),
      compress,
      (s: Md5State) => WordLittleEndian(s.a) + WordLittleEndian(s.b) + WordLittleEndian(s.c) + WordLittleEndian(s.d),
      16,
      false)
  }

  // Both encode every state as a digest of their size.
  lemma EncodedSizes(s: Sha1State, compress: (Md5State, Block) -> Md5State, m: Md5State)
    ensures |SHA1.encode(s)| == SHA1.size && |Md5(compress).encode(m)| == Md5(compress).size
  {}

  // ---------- HMAC ----------

  const KEY_IOPAD_SIZE := 64

  // utils_hb2hex: the low four bits as a hexadecimal digit.
  function HexOf(hb: Octet): char {
    var n := (hb & 0xF) as nat;
    if n < 10 then '0' + n as char else 'a' + (n - 10) as char
  }

  function HexText(out: seq<Octet>): (r: string)
    ensures |r| == 2 * |out|
  {
    if out == [] then "" else HexText(out[..|out| - 1]) + [HexOf(out[|out| - 1] >> 4), HexOf(out[|out| - 1])]
  }

  // memset, memcpy and the XOR loop on one of the two pads.
  method MakePad(key: seq<Octet>, value: Octet) returns (pad: array<Octet>)
    requires |key| <= KEY_IOPAD_SIZE
    ensures fresh(pad) && pad[..] == XorWith(PaddedKey(key), value)
  {
    ghost var k := PaddedKey(key);
    pad := new Octet[KEY_IOPAD_SIZE](_ => 0);
    for i := 0 to |key|
      invariant forall j :: 0 <= j < 64 ==> pad[j] == if j < i then key[j] else 0
    {
      pad[i] := key[i];
    }
    for i := 0 to KEY_IOPAD_SIZE
      invariant forall j :: 0 <= j < 64 ==> pad[j] == if j < i then k[j] ^ value else k[j]
    {
      pad[i] := pad[i] ^ value;
    }
  }

  // Two updates and a finish on a fresh context.
  method HashTwo<S(0)>(alg: Algorithm<S>, first: seq<Octet>, second: seq<Octet>) returns (out: seq<Octet>)
    requires |first| < TWO32 && |second| < TWO32
    ensures out == Digest(alg, first + second)
  {
    hide *;
    var context := new Context(alg);
    context.Update(first);
    context.Update(second);
    assert context.msg == first + second;
    out := context.Finish();
  }

  // Section 2 of RFC 2104, in hexadecimal; a longer key is refused and leaves the digest alone.
  method ComputeHmac<S(0,!new)>(alg: Algorithm<S>, msg: seq<Octet>, digest: array<char>, key: seq<Octet>)
    requires |msg| < TWO32
    requires (forall s :: |alg.encode(s)| == alg.size) && digest.Length == 2 * alg.size && alg.size < TWO32
    modifies digest
    ensures |key| > KEY_IOPAD_SIZE ==> digest[..] == old(digest[..])
    ensures |key| <= KEY_IOPAD_SIZE ==> digest[..] == HexText(HashSpec.Hmac(alg, key, msg))
  {
    if |key| > KEY_IOPAD_SIZE { return; }
    hide *;
    var k_ipad := MakePad(key, 0x36);
    var k_opad := MakePad(key, 0x5c);
    var out := HashTwo(alg, k_ipad[..], msg);
    DigestSize(alg, k_ipad[..] + msg);
    out := HashTwo(alg, k_opad[..], out);
    DigestSize(alg, k_opad[..] + Digest(alg, k_ipad[..] + msg));
    HmacParts(alg, key, msg);
    PutHex(out, digest);
  }

  lemma HmacParts<S>(alg: Algorithm<S>, key: seq<Octet>, msg: seq<Octet>)
    requires |key| <= KEY_IOPAD_SIZE
    ensures HashSpec.Hmac(alg, key, msg)
      == Digest(alg, XorWith(PaddedKey(key), 0x5c) + Digest(alg, XorWith(PaddedKey(key), 0x36) + msg))
  {
    hide Digest, XorWith, PaddedKey;
  }

  lemma DigestSize<S(!new)>(alg: Algorithm<S>, m: seq<Octet>)
    requires forall s :: |alg.encode(s)| == alg.size
    ensures |Digest(alg, m)| == alg.size
  {
    hide Fold, Pad;
  }

  // The loop that writes the digest in hexadecimal.
  method PutHex(out: seq<Octet>, digest: array<char>)
    requires digest.Length == 2 * |out|
    modifies digest
    ensures digest[..] == HexText(out)
  {
    hide HexOf;
    for i := 0 to |out|
      invariant digest[..2 * i] == HexText(out[..i])
    {
      digest[i * 2] := HexOf(out[i] >> 4);
      digest[i * 2 + 1] := HexOf(out[i]);
      assert out[..i + 1][..i] == out[..i];
      assert digest[..2 * (i + 1)] == digest[..2 * i] + [HexOf(out[i] >> 4), HexOf(out[i])];
    }
    assert out[..|out|] == out && digest[..2 * |out|] == digest[..];
  }

  // utils_hmac_sha1
  method HmacSha1(msg: seq<Octet>, digest: array<char>, key: seq<Octet>)
    requires |msg| < TWO32 && digest.Length == 40
    modifies digest
    ensures |key| > KEY_IOPAD_SIZE ==> digest[..] == old(digest[..])
    ensures |key| <= KEY_IOPAD_SIZE ==> digest[..] == HexText(HashSpec.Hmac(SHA1, key, msg))
  {
    forall s ensures |SHA1.encode(s)| == SHA1.size {
      EncodedSizes(s, (m, b) => m, Md5State(0, 0, 0, 0));
    }
    ComputeHmac(SHA1, msg, digest, key);
  }

  // utils_hmac_md5
  method HmacMd5(compress: (Md5State, Block) -> Md5State, msg: seq<Octet>, digest: array<char>, key: seq<Octet>)
    requires |msg| < TWO32 && digest.Length == 32
    modifies digest
    ensures |key| > KEY_IOPAD_SIZE ==> digest[..] == old(digest[..])
    ensures |key| <= KEY_IOPAD_SIZE ==> digest[..] == HexText(HashSpec.Hmac(Md5(compress), key, msg))
  {
    var md5 := Md5(compress);
    forall s ensures |md5.encode(s)| == md5.size {
      EncodedSizes(Sha1State(0, 0, 0, 0, 0), compress, s);
    }
    ComputeHmac(md5, msg, digest, key);
  }
}
