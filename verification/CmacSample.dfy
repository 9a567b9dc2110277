/** The examples of section 4 of RFC 4493: subkeys and codes, for the values that AES-128 has there. */
module CmacSample {
  import opened HashSpec
  import opened Cmac

  const L: Chunk := [0x7d, 0xf7, 0x6b, 0x0c, 0x1a, 0xb8, 0x99, 0xb3, 0x3e, 0x42, 0xf0, 0x47, 0xb9, 0x1b, 0x54, 0x6f]
  const K1: Chunk := [0xfb, 0xee, 0xd6, 0x18, 0x35, 0x71, 0x33, 0x66, 0x7c, 0x85, 0xe0, 0x8f, 0x72, 0x36, 0xa8, 0xde]
  const K2: Chunk := [0xf7, 0xdd, 0xac, 0x30, 0x6a, 0xe2, 0x66, 0xcc, 0xf9, 0x0b, 0xc1, 0x1e, 0xe4, 0x6d, 0x51, 0x3b]

  lemma ShiftsOfL()
    ensures ShiftByte(0x7d, 0xf7) == 0xfb && ShiftByte(0xf7, 0x6b) == 0xee && ShiftByte(0x6b, 0x0c) == 0xd6 && ShiftByte(0x0c, 0x1a) == 0x18
    ensures ShiftByte(0x1a, 0xb8) == 0x35 && ShiftByte(0xb8, 0x99) == 0x71 && ShiftByte(0x99, 0xb3) == 0x33 && ShiftByte(0xb3, 0x3e) == 0x66
    ensures ShiftByte(0x3e, 0x42) == 0x7c && ShiftByte(0x42, 0xf0) == 0x85 && ShiftByte(0xf0, 0x47) == 0xe0 && ShiftByte(0x47, 0xb9) == 0x8f
    ensures ShiftByte(0xb9, 0x1b) == 0x72 && ShiftByte(0x1b, 0x54) == 0x36 && ShiftByte(0x54, 0x6f) == 0xa8 && ShiftByte(0x6f, 0x00) == 0xde
  {}

  lemma ShiftsOfK1()
    ensures ShiftByte(0xfb, 0xee) == 0xf7 && ShiftByte(0xee, 0xd6) == 0xdd && ShiftByte(0xd6, 0x18) == 0xac && ShiftByte(0x18, 0x35) == 0x30
    ensures ShiftByte(0x35, 0x71) == 0x6a && ShiftByte(0x71, 0x33) == 0xe2 && ShiftByte(0x33, 0x66) == 0x66 && ShiftByte(0x66, 0x7c) == 0xcc
    ensures ShiftByte(0x7c, 0x85) == 0xf9 && ShiftByte(0x85, 0xe0) == 0x0b && ShiftByte(0xe0, 0x8f) == 0xc1 && ShiftByte(0x8f, 0x72) == 0x1e
    ensures ShiftByte(0x72, 0x36) == 0xe4 && ShiftByte(0x36, 0xa8) == 0x6d && ShiftByte(0xa8, 0xde) == 0x51 && ShiftByte(0xde, 0x00) == 0xbc
  {}

  const SHIFTED: Chunk := [0xf7, 0xdd, 0xac, 0x30, 0x6a, 0xe2, 0x66, 0xcc, 0xf9, 0x0b, 0xc1, 0x1e, 0xe4, 0x6d, 0x51, 0xbc]

  lemma SixteenIs(a: Chunk, b: Chunk)
    requires a[0] == b[0] && a[1] == b[1] && a[2] == b[2] && a[3] == b[3] && a[4] == b[4] && a[5] == b[5]
    requires a[6] == b[6] && a[7] == b[7] && a[8] == b[8] && a[9] == b[9] && a[10] == b[10] && a[11] == b[11]
    requires a[12] == b[12] && a[13] == b[13] && a[14] == b[14] && a[15] == b[15]
    ensures a == b
  {}

  lemma FirstSubkey()
    ensures Subkey(L) == K1
  {
    ShiftsOfL();
    assert Msb(L) == 0;
    hide ShiftByte, Msb;
    SixteenIs(ShiftLeft(L), K1);
    hide ShiftLeft;
  }

  lemma SecondSubkey()
    ensures Subkey(K1) == K2
  {
    ShiftsOfK1();
    assert Msb(K1) == 1;
    hide ShiftByte, Msb;
    SixteenIs(ShiftLeft(K1), SHIFTED);
    hide ShiftLeft;
    SixteenIs(SHIFTED[15 := 0x3b], K2);
  }

  lemma XorZero(b: Chunk)
    ensures Xor(Zero(), b) == b && Xor(b, Zero()) == b
  {}

  // Masking twice gives back the block.
  lemma XorTwice(a: Chunk, b: Chunk)
    ensures Xor(Xor(a, b), b) == a
  {
    forall i | 0 <= i < 16 ensures Xor(Xor(a, b), b)[i] == a[i] { OctetTwice(a[i], b[i]); }
  }

  lemma OctetTwice(a: Octet, b: Octet)
    ensures (a ^ b) ^ b == a
  {}

  // Examples 1 and 2: nothing is padded and masked with the second subkey, a whole block masked with the first.
  lemma OneChunk(cipher: Cipher, m: Chunk)
    requires cipher(Zero()) == L
    ensures Mac(cipher, []) == cipher(Xor([0x80] + seq(15, _ => 0), K2))
    ensures Mac(cipher, m) == cipher(Xor(m, K1))
  {
    hide Subkey, Xor, Zero;
    FirstSubkey();
    SecondSubkey();
    XorZero(Xor([0x80] + seq(15, _ => 0), K2));
    XorZero(Xor(m, K1));
    var none: seq<Octet> := [];
    assert Padded(none) == [0x80] + seq(15, _ => 0) && none[0..] == none && none[..0] == none;
    assert m[0..] == m && m[..0] == [];
  }

  // Example 3: whole blocks are chained, and the last one padded.
  lemma ManyChunks(cipher: Cipher, a: Chunk, b: Chunk, c: seq<Octet>)
    requires cipher(Zero()) == L && |c| == 8
    ensures Mac(cipher, a + b + c) ==
      cipher(Xor(cipher(Xor(cipher(a), b)), Xor(c + [0x80] + seq(7, _ => 0), K2)))
  {
    hide Subkey, Xor, Zero, Chain;
    FirstSubkey();
    SecondSubkey();
    XorZero(a);
    var m := a + b + c;
    assert Before(40) == 32 && m[32..] == c && m[..32] == a + b;
    ChainOfTwo(cipher, a, b);
  }

  lemma ChainOne(cipher: Cipher, x: Chunk, b: Chunk)
    ensures Chain(cipher, x, b) == cipher(Xor(x, b))
  {
    hide Xor;
    assert b[..16] == b && b[16..] == [];
  }

  lemma ChainOfTwo(cipher: Cipher, a: Chunk, b: Chunk)
    ensures Chain(cipher, Zero(), a + b) == cipher(Xor(cipher(Xor(Zero(), a)), b))
  {
    hide Xor, Zero;
    assert (a + b)[..16] == a && (a + b)[16..] == b;
    ChainOne(cipher, cipher(Xor(Zero(), a)), b);
  }
}
