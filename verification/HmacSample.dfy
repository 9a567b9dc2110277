/** The parts of the keyed hashes byte by byte: pads, hexadecimal text, MD5's words and length. */
module HmacSample {
  import opened HashSpec
  import opened Hmac

  // Section 2 of RFC 2104: the inner hash is over the key under 0x36 and the text, the outer one over the key
  // under 0x5c and the inner hash; the key is filled up with zeros.
  lemma PadsOfHmac<S>(alg: Algorithm<S>, key: seq<Octet>, text: seq<Octet>, inner: seq<Octet>, outer: seq<Octet>)
    requires |key| <= 64 && |inner| == |outer| == 64
    requires forall i :: 0 <= i < 64 ==> inner[i] == (if i < |key| then key[i] else 0) ^ 0x36
    requires forall i :: 0 <= i < 64 ==> outer[i] == (if i < |key| then key[i] else 0) ^ 0x5c
    ensures HashSpec.Hmac(alg, key, text) == Digest(alg, outer + Digest(alg, inner + text))
  {
    hide Digest;
    var k := PaddedKey(key);
    assert forall i :: 0 <= i < 64 ==> k[i] == if i < |key| then key[i] else 0;
    hide PaddedKey;
    assert XorWith(k, 0x36) == inner && XorWith(k, 0x5c) == outer;
  }

  // The high digit comes first, and letters are small.
  lemma HexSample()
    ensures HexText([0x0f, 0xa9, 0xbc, 0xde]) == "0fa9bcde" && HexText([0x12, 0x34, 0x56, 0x78]) == "12345678"
  {
    Digits();
    hide HexText, HexOf;
    TwoHex(0x0f, 0xa9);
    TwoHex(0x12, 0x34);
    HexSnoc([0x0f, 0xa9], 0xbc);
    HexSnoc([0x0f, 0xa9, 0xbc], 0xde);
    HexSnoc([0x12, 0x34], 0x56);
    HexSnoc([0x12, 0x34, 0x56], 0x78);
    var a: seq<Octet>, b: seq<Octet>, c: seq<Octet>, d: seq<Octet> := [0x0f, 0xa9], [0xbc], [0x12, 0x34], [0x56];
    assert a + b == [0x0f, 0xa9, 0xbc] && a + b + [0xde] == [0x0f, 0xa9, 0xbc, 0xde];
    assert c + d == [0x12, 0x34, 0x56] && c + d + [0x78] == [0x12, 0x34, 0x56, 0x78];
  }

  lemma TwoHex(a: Octet, b: Octet)
    ensures HexText([a, b]) == [HexOf(a >> 4), HexOf(a), HexOf(b >> 4), HexOf(b)]
  {
    hide HexText, HexOf;
    HexSnoc([], a);
    HexSnoc([a], b);
    assert [] + [a] == [a] && [a] + [b] == [a, b];
  }

  lemma HexSnoc(out: seq<Octet>, b: Octet)
    ensures HexText(out + [b]) == HexText(out) + [HexOf(b >> 4), HexOf(b)] && HexText([]) == ""
  {
    hide HexOf;
    assert (out + [b])[..|out|] == out;
  }

  lemma Digits()
    ensures HexOf(0x0f >> 4) == '0' && HexOf(0x0f) == 'f' && HexOf(0xa9 >> 4) == 'a' && HexOf(0xa9) == '9'
    ensures HexOf(0xbc >> 4) == 'b' && HexOf(0xbc) == 'c' && HexOf(0xde >> 4) == 'd' && HexOf(0xde) == 'e'
    ensures HexOf(0x12 >> 4) == '1' && HexOf(0x12) == '2' && HexOf(0x34 >> 4) == '3' && HexOf(0x34) == '4'
    ensures HexOf(0x56 >> 4) == '5' && HexOf(0x56) == '6' && HexOf(0x78 >> 4) == '7' && HexOf(0x78) == '8'
  {}

  // Section 3.3 of RFC 1321: the initial words, the low byte of each first.
  lemma Md5Start(compress: (Md5State, Block) -> Md5State)
    ensures var md5 := Md5(compress);
      && md5.encode(md5.iv) ==
           [0x01, 0x23, 0x45, 0x67, 0x89, 0xab, 0xcd, 0xef, 0xfe, 0xdc, 0xba, 0x98, 0x76, 0x54, 0x32, 0x10]
      && md5.size == 16 && !md5.bigEndian && md5.compress == compress
  {}

  // Sections 3.1 and 3.2 of RFC 1321: the length of three bytes, the low byte first.
  lemma LengthLittle()
    ensures LengthBytes(3, false) == [24, 0, 0, 0, 0, 0, 0, 0]
    ensures LengthBytes(0x1234, false)[..3] == [0xa0, 0x91, 0]
  {
    LowBytes();
    assert 8 * 3 % 0x1_0000_0000_0000_0000 == 24 && 8 * 0x1234 % 0x1_0000_0000_0000_0000 == 0x91a0;
    hide LowByte;
  }

  lemma LowBytes()
    ensures LowByte(24) == 24 && LowByte(0) == 0 && LowByte(0x91a0) == 0xa0 && LowByte(0x91) == 0x91
  {
    OctetIs(24);
    OctetIs(0);
    OctetIs(0xa0);
    OctetIs(0x91);
    ThereAndBack(24);
    ThereAndBack(0);
    ThereAndBack(0xa0);
    ThereAndBack(0x91);
  }
}
