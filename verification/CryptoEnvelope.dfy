/** The payload envelope of iotx_crypto_api.c in its default mode: a packet id, the payload in
    counter mode, and four bytes of CMAC. Both ciphers are parameters. */
module CryptoEnvelope {
  import opened Arithmetic
  import opened Bytes
  import opened HashSpec
  import opened Cmac

  type Id = bv16   // a packet id

  // Uint16ToHex
  function IdBytes(n: Id): (b: seq<Octet>)
    ensures |b| == 2
  {
    [(n >> 8) as Octet, (n & 0xFF) as Octet]
  }

  // HexToUint16
  function IdOf(b: seq<Octet>): Id
    requires |b| >= 2
  {
    ((b[0] as Id) << 8) + (b[1] as Id)
  }

  // ---------- counter mode ----------

  function LastTen(id: seq<Octet>): (r: seq<Octet>)
    requires |id| >= 10
    ensures |r| == 10
  {
    id[|id| - 10..]
  }

  // The block that is encrypted for counter value ctr: direction, packet id, the last ten
  // characters of the device id, a zero byte, the counter.
  function CounterBlock(dir: Octet, seqId: Id, id: seq<Octet>, ctr: nat): Chunk
    requires |id| >= 10
  {
    [dir] + IdBytes(seqId) + LastTen(id) + [0, LowByte(ctr / 0x100), LowByte(ctr)]
  }

  datatype Key = Key(cipher: Cipher, dir: Octet, seqId: Id, id: seq<Octet>)

  predicate Usable(k: Key) { |k.id| >= 10 }

  function Pad(k: Key, block: nat): Chunk
    requires Usable(k)
  {
    k.cipher(CounterBlock(k.dir, k.seqId, k.id, block + 1))
  }

  // Counter mode proper: block by block, the counter from 1.
  function Ctr(k: Key, src: seq<Octet>): (r: seq<Octet>)
    requires Usable(k)
    ensures |r| == |src|
  {
    seq(|src|, j requires 0 <= j < |src| => src[j] ^ Pad(k, j / 16)[j % 16])
  }

  function Low16(ctr: nat): nat { ctr % 0x1_0000 }

  // How a counter block is laid out: direction, packet id, the end of the device id, zero, the counter, numbers
  // with the high byte first.
  predicate IsCounterBlock(b: Chunk, dir: Octet, seqId: Id, id: seq<Octet>, ctr: nat)
    requires |id| >= 10
  {
    && b[0] == dir && ((b[1] as Id) << 8) | (b[2] as Id) == seqId && b[3..13] == LastTen(id)
    && b[13] == 0 && (b[14] as nat) * 0x100 + b[15] as nat == Low16(ctr)
  }

  lemma CounterBlockIs(dir: Octet, seqId: Id, id: seq<Octet>, ctr: nat)
    requires |id| >= 10
    ensures IsCounterBlock(CounterBlock(dir, seqId, id, ctr), dir, seqId, id, ctr)
  {
    IdHalves(seqId);
    LowByteIs(ctr);
    LowByteIs(ctr / 0x100);
    CounterHalves(ctr);
    assert |IdBytes(seqId)| == 2;
    hide LowByte, IdBytes, LastTen;
    BlockParts(dir, IdBytes(seqId), LastTen(id), LowByte(ctr / 0x100), LowByte(ctr));
  }

  lemma BlockParts(dir: Octet, ids: seq<Octet>, ten: seq<Octet>, high: Octet, low: Octet)
    requires |ids| == 2 && |ten| == 10
    ensures var b := [dir] + ids + ten + [0, high, low];
      && |b| == 16 && b[0] == dir && b[1] == ids[0] && b[2] == ids[1] && b[3..13] == ten
      && b[13] == 0 && b[14] == high && b[15] == low
  {}

  lemma IdHalves(n: Id)
    ensures ((IdBytes(n)[0] as Id) << 8) | (IdBytes(n)[1] as Id) == n
  {}

  lemma LowByteIs(v: nat)
    ensures LowByte(v) as nat == v % 0x100
  {
    OctetIs(v % 0x100);
  }

  lemma CounterHalves(ctr: nat)
    ensures ctr / 0x100 % 0x100 * 0x100 + ctr % 0x100 == ctr % 0x1_0000
  {
    DivMod(ctr, 0x100);
    DivMod(ctr / 0x100, 0x100);
    ModIs(ctr, 0x1_0000, ctr / 0x100 / 0x100, ctr / 0x100 % 0x100 * 0x100 + ctr % 0x100);
  }

  // There is one block with that layout.
  lemma CounterBlockAlone(b: Chunk, c: Chunk, dir: Octet, seqId: Id, id: seq<Octet>, ctr: nat)
    requires |id| >= 10 && IsCounterBlock(b, dir, seqId, id, ctr) && IsCounterBlock(c, dir, seqId, id, ctr)
    ensures b == c
  {
    SameHalves(b[1], b[2], c[1], c[2]);
    SameNumbers(b[14], b[15], c[14], c[15]);
    FiveParts(b);
    FiveParts(c);
  }

  lemma FiveParts(b: Chunk)
    ensures b == [b[0], b[1], b[2]] + b[3..13] + [b[13], b[14], b[15]]
  {}

  lemma SameHalves(a: Octet, b: Octet, c: Octet, d: Octet)
    ensures ((a as Id) << 8) | (b as Id) == ((c as Id) << 8) | (d as Id) ==> a == c && b == d
  {}

  lemma SameNumbers(a: Octet, b: Octet, c: Octet, d: Octet)
    requires (a as nat) * 0x100 + b as nat == (c as nat) * 0x100 + d as nat
    ensures a == c && b == d
  {
    SameOctet(a, c);
    SameOctet(b, d);
  }

  lemma SameOctet(a: Octet, b: Octet)
    ensures a as nat == b as nat ==> a == b
  {
    assert a == (a as nat) as Octet && b == (b as nat) as Octet;
  }

  // Byte j of the payload is enciphered under the counter j / 16 + 1, in the block laid out as above.
  lemma CtrAt(k: Key, src: seq<Octet>, j: nat, b: Chunk)
    requires Usable(k) && j < |src| && IsCounterBlock(b, k.dir, k.seqId, k.id, j / 16 + 1)
    ensures Ctr(k, src)[j] == src[j] ^ k.cipher(b)[j % 16]
  {
    hide CounterBlock, IsCounterBlock;
    CounterBlockIs(k.dir, k.seqId, k.id, j / 16 + 1);
    CounterBlockAlone(b, CounterBlock(k.dir, k.seqId, k.id, j / 16 + 1), k.dir, k.seqId, k.id, j / 16 + 1);
  }

  predicate SameInputs(dir: Octet, seqId: Id, id: seq<Octet>, ctr: nat, dir': Octet, seqId': Id, id': seq<Octet>, ctr': nat)
    requires |id| >= 10 && |id'| >= 10
  {
    dir == dir' && seqId == seqId' && LastTen(id) == LastTen(id') && Low16(ctr) == Low16(ctr')
  }

  // Blocks agree exactly if direction, packet id, the end of the device id and 16 bits of the counter do.
  lemma CounterBlocksDiffer(dir: Octet, seqId: Id, id: seq<Octet>, ctr: nat, dir': Octet, seqId': Id, id': seq<Octet>, ctr': nat)
    requires |id| >= 10 && |id'| >= 10
    ensures CounterBlock(dir, seqId, id, ctr) == CounterBlock(dir', seqId', id', ctr') <==>
      SameInputs(dir, seqId, id, ctr, dir', seqId', id', ctr')
  {
    CounterBlockIs(dir, seqId, id, ctr);
    CounterBlockIs(dir', seqId', id', ctr');
    BlocksDiffer(CounterBlock(dir, seqId, id, ctr), CounterBlock(dir', seqId', id', ctr'), dir, seqId, id, ctr, dir', seqId', id', ctr');
    hide CounterBlock, IsCounterBlock, SameInputs;
  }

  lemma BlocksDiffer(
      b: Chunk, c: Chunk, dir: Octet, seqId: Id, id: seq<Octet>, ctr: nat, dir': Octet, seqId': Id, id': seq<Octet>, ctr': nat)
    requires |id| >= 10 && |id'| >= 10 && IsCounterBlock(b, dir, seqId, id, ctr) && IsCounterBlock(c, dir', seqId', id', ctr')
    ensures b == c <==> SameInputs(dir, seqId, id, ctr, dir', seqId', id', ctr')
  {
    hide IsCounterBlock, LastTen, Low16;
    if b == c { LayoutTells(b, dir, seqId, id, ctr, dir', seqId', id', ctr'); }
    if SameInputs(dir, seqId, id, ctr, dir', seqId', id', ctr') {
      LayoutSame(c, dir, seqId, id, ctr, id', ctr');
      CounterBlockAlone(b, c, dir, seqId, id, ctr);
    }
  }

  lemma LayoutTells(b: Chunk, dir: Octet, seqId: Id, id: seq<Octet>, ctr: nat, dir': Octet, seqId': Id, id': seq<Octet>, ctr': nat)
    requires |id| >= 10 && |id'| >= 10 && IsCounterBlock(b, dir, seqId, id, ctr) && IsCounterBlock(b, dir', seqId', id', ctr')
    ensures dir == dir' && seqId == seqId' && LastTen(id) == LastTen(id') && Low16(ctr) == Low16(ctr')
  {}

  lemma LayoutSame(b: Chunk, dir: Octet, seqId: Id, id: seq<Octet>, ctr: nat, id': seq<Octet>, ctr': nat)
    requires |id| >= 10 && |id'| >= 10 && IsCounterBlock(b, dir, seqId, id', ctr')
    requires LastTen(id) == LastTen(id') && Low16(ctr) == Low16(ctr')
    ensures IsCounterBlock(b, dir, seqId, id, ctr)
  {}

  // The code indexes both buffers with 8 bits: it gets no further than 256 bytes.
  function Reach(n: nat): nat { if n < 256 then n else 256 }

  // The last of the first m blocks that lands on byte j.
  function LastBlock(m: nat, j: nat): nat {
    if m <= j / 16 then 0 else j / 16 + 16 * ((m - 1 - j / 16) / 16)
  }

  // The block whose pad byte j ends up with when n bytes are processed.
  function BlockOf(n: nat, j: nat): nat {
    LastBlock(if j % 16 < n % 16 then n / 16 + 1 else n / 16, j)
  }

  function Crypted(k: Key, src: seq<Octet>): (r: seq<Octet>)
    requires Usable(k)
    ensures |r| == Reach(|src|)
  {
    seq(Reach(|src|), j requires 0 <= j < Reach(|src|) => src[j] ^ Pad(k, BlockOf(|src|, j))[j % 16])
  }

  // A buffer over which some bytes were written.
  function Over(bytes: seq<Octet>, was: seq<Octet>): seq<Octet>
    requires |bytes| <= |was|
  {
    bytes + was[|bytes|..]
  }

  lemma Overwritten(bytes: seq<Octet>, was: seq<Octet>, now: seq<Octet>, n: nat)
    requires |bytes| <= n <= |was| && now == was[..0] + bytes + was[|bytes|..]
    ensures now[..n] == Over(bytes, was[..n]) && now[n..] == was[n..]
  {
    assert was[..n][|bytes|..] == was[|bytes|..n];
  }

  // Whatever a buffer of that length held before, it holds whole afterwards.
  ghost predicate Covers(bytes: seq<Octet>, whole: seq<Octet>)
    requires |bytes| <= |whole|
  {
    forall was: seq<Octet> :: |was| == |whole| ==> Over(bytes, was) == whole
  }

  lemma CoversAll(whole: seq<Octet>)
    ensures Covers(whole, whole)
  {
    forall was: seq<Octet> | |was| == |whole| ensures Over(whole, was) == whole {
      assert was[|whole|..] == [];
    }
  }

  // A byte that is not written shows through.
  lemma ShowsThrough(bytes: seq<Octet>, whole: seq<Octet>)
    requires |bytes| < |whole|
    ensures !Covers(bytes, whole)
  {
    var was := seq(|whole|, j requires 0 <= j < |whole| => whole[j] ^ 1);
    assert Over(bytes, was)[|bytes|] == whole[|bytes|] ^ 1;
    OneBit(whole[|bytes|]);
    assert Over(bytes, was) != whole;
  }

  lemma OneBit(x: Octet)
    ensures x ^ 1 != x
  {}

  // The code leaves the counter-mode text in the buffer, whatever was there, exactly up to 256 bytes.
  lemma CryptedIsCtr(k: Key, src: seq<Octet>)
    requires Usable(k)
    ensures |src| <= 256 ==> Crypted(k, src) == Ctr(k, src)
    ensures Covers(Crypted(k, src), Ctr(k, src)) <==> |src| <= 256
  {
    if |src| <= 256 {
      forall j | 0 <= j < |src| ensures BlockOf(|src|, j) == j / 16 {
        InOrder(|src|, j);
      }
      assert Crypted(k, src) == Ctr(k, src);
      hide Covers;
      CoversAll(Ctr(k, src));
    } else {
      hide Covers;
      ShowsThrough(Crypted(k, src), Ctr(k, src));
    }
  }

  lemma InOrder(n: nat, j: nat)
    requires j < n <= 256
    ensures BlockOf(n, j) == j / 16
  {
    var m := if j % 16 < n % 16 then n / 16 + 1 else n / 16;
    assert j / 16 < m && m - 1 - j / 16 < 16;
  }

  lemma XorTwice(a: Octet, b: Octet)
    ensures (a ^ b) ^ b == a
  {}

  // Applied to its own output, the code restores what it reaches, whatever the length.
  lemma SelfInverse(k: Key, src: seq<Octet>, back: seq<Octet>)
    requires Usable(k) && |back| == |src| && back[..Reach(|src|)] == Crypted(k, src)
    ensures Crypted(k, back) == src[..Reach(|src|)]
  {
    hide BlockOf, Pad;
    var n := Reach(|src|);
    forall j | 0 <= j < n ensures Crypted(k, back)[j] == src[j] {
      assert back[j] == back[..n][j];
      XorTwice(src[j], Pad(k, BlockOf(|src|, j))[j % 16]);
    }
  }

  // ---------- the loop ----------

  // dest[off..] after the first m blocks of src.
  predicate Written(k: Key, src: seq<Octet>, m: nat, dest: seq<Octet>, was: seq<Octet>, off: nat)
    requires Usable(k) && |dest| == |was|
  {
    && 16 * m <= |src| && off + Reach(|src|) <= |dest|
    && (forall p :: off <= p < off + Reach(16 * m) ==>
         dest[p] == src[p - off] ^ Pad(k, LastBlock(m, p - off))[(p - off) % 16])
    && forall p :: 0 <= p < |dest| && !(off <= p < off + Reach(16 * m)) ==> dest[p] == was[p]
  }

  lemma LastBlockStep(m: nat, j: nat)
    requires j < 256
    ensures j / 16 == m % 16 ==> LastBlock(m + 1, j) == m
    ensures j / 16 != m % 16 ==> LastBlock(m + 1, j) == LastBlock(m, j)
  {
    var q := j / 16;
    assert q < 16;
    DivMod(m, 16);
    if m % 16 == q {
      ModIs(m - q, 16, m / 16, 0);
    } else if q < m {
      DivMod(m - q, 16);
      if (m - q) % 16 == 0 {
        ModIs(m, 16, (m - q) / 16, q);
        assert false;
      }
      ModIs(m - q - 1, 16, (m - q) / 16, (m - q) % 16 - 1);
    }
  }

  // The rows of 16 within the reach of the index.
  lemma Row(m: nat, j: nat)
    requires j < 256
    ensures var at := 16 * m % 256;
      at == 16 * (m % 16) && at + 16 <= 256 && (at <= j < at + 16 <==> j / 16 == m % 16)
      && (at <= j < at + 16 ==> j - at == j % 16)
  {}

  // What XorBlock does to dest.
  predicate Overlaid(src: seq<Octet>, block: Chunk, at: nat, count: nat, before: seq<Octet>, after: seq<Octet>, off: nat) {
    && count <= 16 && at + count <= |src| && off + at + count <= |before| == |after|
    && (forall p :: off + at <= p < off + at + count ==> after[p] == src[p - off] ^ block[p - off - at])
    && forall p :: 0 <= p < |after| && !(off + at <= p < off + at + count) ==> after[p] == before[p]
  }

  lemma BlockWritten(k: Key, src: seq<Octet>, m: nat, before: seq<Octet>, after: seq<Octet>, was: seq<Octet>, off: nat)
    requires Usable(k) && |before| == |was| && Written(k, src, m, before, was, off) && 16 * (m + 1) <= |src|
    requires Overlaid(src, Pad(k, m), 16 * m % 256, 16, before, after, off)
    ensures Written(k, src, m + 1, after, was, off)
  {
    hide Pad, LastBlock;
    forall p | off <= p < off + Reach(16 * (m + 1))
      ensures after[p] == src[p - off] ^ Pad(k, LastBlock(m + 1, p - off))[(p - off) % 16]
    {
      Row(m, p - off);
      LastBlockStep(m, p - off);
    }
    forall p | 0 <= p < |after| && !(off <= p < off + Reach(16 * (m + 1))) ensures after[p] == was[p] {
      Row(m, 0);
    }
  }

  lemma LastWritten(k: Key, src: seq<Octet>, m: nat, before: seq<Octet>, after: seq<Octet>, was: seq<Octet>, off: nat)
    requires Usable(k) && |before| == |was| && Written(k, src, m, before, was, off) && m == |src| / 16
    requires if |src| % 16 == 0 then after == before
      else Overlaid(src, Pad(k, m), 16 * m % 256, |src| % 16, before, after, off)
    ensures after == was[..off] + Crypted(k, src) + was[off + Reach(|src|)..]
  {
    hide Pad, LastBlock, BlockOf;
    var r := |src| % 16;
    if r == 0 { Row(m, 0); }
    forall p | off <= p < off + Reach(|src|)
      ensures after[p] == src[p - off] ^ Pad(k, BlockOf(|src|, p - off))[(p - off) % 16]
    {
      BlockOfIs(|src|, m, p - off);
    }
    forall p | 0 <= p < |after| && !(off <= p < off + Reach(|src|)) ensures after[p] == was[p] {
      Row(m, 0);
    }
    forall j | 0 <= j < Reach(|src|) ensures after[off + j] == Crypted(k, src)[j] {
      assert off <= off + j < off + Reach(|src|);
    }
    hide Crypted, Reach;
    Spliced(Crypted(k, src), was, after, off);
  }

  lemma Spliced(bytes: seq<Octet>, was: seq<Octet>, after: seq<Octet>, off: nat)
    requires off + |bytes| <= |was| == |after|
    requires forall j :: 0 <= j < |bytes| ==> after[off + j] == bytes[j]
    requires forall p :: 0 <= p < |after| && !(off <= p < off + |bytes|) ==> after[p] == was[p]
    ensures after == was[..off] + bytes + was[off + |bytes|..]
  {
    var w := was[..off] + bytes + was[off + |bytes|..];
    forall p | 0 <= p < |after| ensures after[p] == w[p] {
      if off <= p < off + |bytes| { assert after[off + (p - off)] == bytes[p - off]; }
    }
  }

  // Byte j was written last by the partial block if that covers it, else by a whole one.
  lemma BlockOfIs(n: nat, m: nat, j: nat)
    requires m == n / 16 && j < Reach(n)
    ensures var at := 16 * m % 256;
      if at <= j < at + n % 16 then BlockOf(n, j) == m && j - at == j % 16
      else j < Reach(16 * m) && BlockOf(n, j) == LastBlock(m, j)
  {
    Row(m, j);
    LastBlockStep(m, j);
    hide LastBlock;
  }

  // The bytes of block m, as many as are left.
  method XorBlock(src: seq<Octet>, block: Chunk, at: nat, count: nat, dest: array<Octet>, off: nat)
    requires count <= 16 && at + count <= |src| && off + at + count <= dest.Length
    modifies dest
    ensures Overlaid(src, block, at, count, old(dest[..]), dest[..], off)
  {
    for i := 0 to count
      invariant forall p :: off + at <= p < off + at + i ==> dest[p] == src[p - off] ^ block[p - off - at]
      invariant forall p :: 0 <= p < dest.Length && !(off + at <= p < off + at + i) ==> dest[p] == old(dest[p])
    {
      dest[off + at + i] := src[at + i] ^ block[i];
    }
  }

  // _payload_encrypt, which is also _payload_decrypt
  method Crypt(k: Key, src: seq<Octet>, dest: array<Octet>, off: nat)
    requires |src| < 0x1_0000 && off + Reach(|src|) <= dest.Length
    modifies dest
    ensures !Usable(k) ==> dest[..] == old(dest[..])
    ensures Usable(k) ==>
      dest[..] == old(dest[..off]) + Crypted(k, src) + old(dest[off + Reach(|src|)..])
  {
    if |k.id| < 10 { return; }
    hide LastBlock, BlockOf, Overlaid, CounterBlock, Written, Crypted;
    ghost var was := dest[..];
    var bufferIndex: nat, ctr, srclen := 0, 1, |src|;
    ghost var m: nat := 0;
    NothingWritten(k, src, was, off);
    while srclen >= 16
      invariant srclen == |src| - 16 * m && ctr == m + 1 && bufferIndex == 16 * m % 256
      invariant Written(k, src, m, dest[..], was, off)
    {
      bufferIndex := WholeBlock(k, src, dest, off, bufferIndex, ctr, was);
      ctr := ctr + 1;
      srclen := srclen - 16;
      m := m + 1;
    }
    LastBytes(k, src, dest, off, bufferIndex, ctr, srclen, was);
  }

  // What is left after the whole blocks.
  method LastBytes(
    k: Key, src: seq<Octet>, dest: array<Octet>, off: nat, index: nat, ctr: nat, left: nat, ghost was: seq<Octet>)
    requires Usable(k) && dest.Length == |was| && off + Reach(|src|) <= |was|
    requires ctr == |src| / 16 + 1 && index == 16 * (ctr - 1) % 256 && left == |src| % 16
    requires Written(k, src, ctr - 1, dest[..], was, off)
    modifies dest
    ensures dest[..] == was[..off] + Crypted(k, src) + was[off + Reach(|src|)..]
  {
    hide LastBlock, BlockOf, Overlaid, CounterBlock, Written, Crypted;
    ghost var before := dest[..];
    if left > 0 {
      var block := k.cipher(CounterBlock(k.dir, k.seqId, k.id, ctr));
      Row(ctr - 1, 0);
      XorBlock(src, block, index, left, dest, off);
    }
    LastWritten(k, src, ctr - 1, before, dest[..], was, off);
  }

  method WholeBlock(k: Key, src: seq<Octet>, dest: array<Octet>, off: nat, index: nat, ctr: nat, ghost was: seq<Octet>)
    returns (next: nat)
    requires Usable(k) && dest.Length == |was| && off + Reach(|src|) <= |was|
    requires ctr > 0 && index == 16 * (ctr - 1) % 256 && 16 * ctr <= |src| < 0x1_0000
    requires Written(k, src, ctr - 1, dest[..], was, off)
    modifies dest
    ensures next == 16 * ctr % 256 && Written(k, src, ctr, dest[..], was, off)
  {
    hide LastBlock, BlockOf, Overlaid, CounterBlock, Written;
    var block := k.cipher(CounterBlock(k.dir, k.seqId, k.id, ctr));
    ghost var before := dest[..];
    Row(ctr - 1, 0);
    XorBlock(src, block, index, 16, dest, off);
    BlockWritten(k, src, ctr - 1, before, dest[..], was, off);
    next := NextIndex(index, ctr - 1);
  }

  lemma NothingWritten(k: Key, src: seq<Octet>, was: seq<Octet>, off: nat)
    requires Usable(k) && off + Reach(|src|) <= |was|
    ensures Written(k, src, 0, was, was, off)
  {
    hide Pad, LastBlock;
  }

  method NextIndex(index: nat, ghost m: nat) returns (next: nat)
    requires index == 16 * m % 256
    ensures next == 16 * (m + 1) % 256
  {
    next := (index + 16) % 256;
    DivMod(16 * m, 256);
    DivMod(index + 16, 256);
    ModIs(16 * (m + 1), 256, 16 * m / 256 + (index + 16) / 256, next);
  }

  // ---------- the frame ----------

  lemma IdInverts(n: Id, rest: seq<Octet>)
    ensures IdOf(IdBytes(n) + rest) == n
  {
    Halves(n);
    assert (IdBytes(n) + rest)[0] == IdBytes(n)[0] && (IdBytes(n) + rest)[1] == IdBytes(n)[1];
  }

  lemma Halves(n: Id)
    ensures (((n >> 8) as Octet as Id) << 8) + ((n & 0xFF) as Octet as Id) == n
  {}

  function Mic(nwk: Cipher, body: seq<Octet>): (r: seq<Octet>)
    ensures |r| == 4
  {
    Mac(nwk, body)[..4]
  }

  // The code travels as the first four bytes of the CMAC.
  lemma MicIsFirstFour(nwk: Cipher, body: seq<Octet>, k: nat)
    requires k < 4
    ensures Mic(nwk, body)[k] == Mac(nwk, body)[k]
  {}

  function Sealed(nwk: Cipher, body: seq<Octet>): seq<Octet> { body + Mic(nwk, body) }

  // The frame as its sender defines it: counter mode under the packet id.
  function Frame(app: Cipher, nwk: Cipher, dir: Octet, seqId: Id, id: seq<Octet>, payload: seq<Octet>): seq<Octet>
    requires |id| >= 10
  {
    Sealed(nwk, IdBytes(seqId) + Ctr(Key(app, dir, seqId, id), payload))
  }

  datatype Opened = Rejected | Accepted(seqId: Id, bytes: seq<Octet>)

  // What the receiver makes of a frame.
  function Open(app: Cipher, nwk: Cipher, id: seq<Octet>, frame: seq<Octet>): Opened
    requires |frame| >= 6 && |id| >= 10
  {
    var n := |frame| - 4;
    if frame[n..] != Mic(nwk, frame[..n]) then Rejected
    else Accepted(IdOf(frame), Crypted(Key(app, 1, IdOf(frame), id), frame[2..n]))
  }

  lemma CtrTwice(k: Key, src: seq<Octet>)
    requires Usable(k)
    ensures Ctr(k, Ctr(k, src)) == src
  {
    hide Pad;
    forall j | 0 <= j < |src| ensures Ctr(k, Ctr(k, src))[j] == src[j] {
      XorTwice(src[j], Pad(k, j / 16)[j % 16]);
    }
  }

  // A frame for the device is always accepted under its own id; the receiver's buffer then holds the
  // payload, whatever it held before, exactly when the payload is no longer than 256 bytes.
  lemma FrameOpens(app: Cipher, nwk: Cipher, seqId: Id, id: seq<Octet>, payload: seq<Octet>)
    requires |id| >= 10
    ensures |Frame(app, nwk, 1, seqId, id, payload)| == |payload| + 6
    ensures var o := Open(app, nwk, id, Frame(app, nwk, 1, seqId, id, payload));
      && o.Accepted? && o.seqId == seqId && |o.bytes| <= |payload|
      && (Covers(o.bytes, payload) <==> |payload| <= 256)
  {
    hide Ctr, Crypted, Mic, IdOf, Covers;
    var k := Key(app, 1, seqId, id);
    var body := IdBytes(seqId) + Ctr(k, payload);
    var f := Frame(app, nwk, 1, seqId, id, payload);
    var n := |f| - 4;
    assert f[..n] == body && f[n..] == Mic(nwk, body) && f[2..n] == Ctr(k, payload);
    IdInverts(seqId, Ctr(k, payload) + Mic(nwk, body));
    assert f == IdBytes(seqId) + (Ctr(k, payload) + Mic(nwk, body));
    CryptedIsCtr(k, Ctr(k, payload));
    CtrTwice(k, payload);
  }

  // A frame whose code does not match leaves no trace.
  lemma ForgedIsRejected(app: Cipher, nwk: Cipher, id: seq<Octet>, body: seq<Octet>, mic: seq<Octet>)
    requires |id| >= 10 && |body| >= 2 && |mic| == 4
    ensures Open(app, nwk, id, body + mic).Rejected? <==> mic != Mic(nwk, body)
  {
    hide Crypted, Mic, IdOf;
    assert (body + mic)[..|body|] == body && (body + mic)[|body|..] == mic;
  }

  // _cal_mic
  method CalMic(src: seq<Octet>, nwk: Cipher) returns (mic: seq<Octet>)
    ensures mic == Mic(nwk, src)
  {
    var ctx := new Context(nwk);
    ctx.Update(src);
    assert [] + src == src;
    var full := ctx.Final();
    mic := full[..4];
  }

  method PutId(n: Id, dest: array<Octet>)
    requires dest.Length >= 2
    modifies dest
    ensures dest[..] == IdBytes(n) + old(dest[2..])
  {
    dest[0] := (n >> 8) as Octet;
    dest[1] := (n & 0xFF) as Octet;
  }

  lemma BodySlices(
    head: seq<Octet>, c: seq<Octet>, was: seq<Octet>, mid: seq<Octet>, after: seq<Octet>, n: nat)
    requires |head| == 2 && 2 + n <= |was| && |c| <= n && mid == head + was[2..]
    requires after == mid[..2] + c + mid[2 + |c|..]
    ensures after[..2 + n] == head + (c + was[2 + |c|..2 + n])
    ensures c == [] ==> after[..2 + n] == head + was[2..2 + n]
  {
    assert mid[2 + |c|..] == was[2 + |c|..] && mid[..2] == head;
  }

  // ---------- the connection's keys and packet ids ----------

  class Connection {
    const appskey: Cipher
    const nwkskey: Cipher
    const deviceId: seq<Octet>
    var up: Id
    var down: Id

    // The payload area of a frame: what it held before shows through where the code does not reach.
    ghost function Body(seqId: Id, src: seq<Octet>, was: seq<Octet>): seq<Octet>
      requires 2 + |src| <= |was|
    {
      IdBytes(seqId) +
      if |deviceId| < 10 then was[2..2 + |src|]
      else Crypted(Key(appskey, 0, seqId, deviceId), src) + was[2 + Reach(|src|)..2 + |src|]
    }

    // The id and the encrypted payload.
    method PutBody(dest: array<Octet>, src: seq<Octet>)
      requires |src| < 0x1_0000 && 2 + |src| <= dest.Length
      modifies dest
      ensures dest[..2 + |src|] == Body(up, src, old(dest[..]))
    {
      hide Crypted, IdBytes;
      ghost var was := dest[..];
      PutId(up, dest);
      ghost var mid := dest[..];
      Crypt(Key(appskey, 0, up, deviceId), src, dest, 2);
      assert mid == mid[..2] + [] + mid[2..];
      BodySlices(IdBytes(up), [], was, mid, mid, |src|);
      if |deviceId| >= 10 {
        BodySlices(IdBytes(up), Crypted(Key(appskey, 0, up, deviceId), src), was, mid, dest[..], |src|);
      }
    }

    // iotx_comm_payload_encrypt
    method Encrypt(dest: array<Octet>, src: seq<Octet>) returns (len: int)
      requires |src| < 0x1_0000
      modifies this`up, dest
      ensures 2 + |src| + 4 > dest.Length ==> len == -1 && up == old(up) && dest[..] == old(dest[..])
      ensures 2 + |src| + 4 <= dest.Length ==>
        len == 2 + |src| + 4 && up == old(up) + 1
        && dest[..len] == Sealed(nwkskey, Body(up, src, old(dest[..])))
    {
      hide Mic, Body;
      if 2 + |src| + 4 > dest.Length { return -1; }
      up := up + 1;
      PutBody(dest, src);
      var n := 2 + |src|;
      ghost var body := Body(up, src, old(dest[..]));
      assert dest[..n] == body;
      var mic := CalMic(dest[..n], nwkskey);
      var _ := Copy(dest, n, mic);
      len := n + |mic|;
      assert dest[..len] == body + mic == Sealed(nwkskey, body);
    }

    // iotx_comm_payload_decrypt
    method Decrypt(dest: array<Octet>, src: seq<Octet>) returns (len: int)
      requires 6 <= |src| < 0x1_0000
      modifies this`down, dest
      ensures |src| - 6 > dest.Length ==> len == -1 && down == old(down) && dest[..] == old(dest[..])
      ensures |src| - 6 <= dest.Length && |deviceId| >= 10 ==>
        match Open(appskey, nwkskey, deviceId, src)
        case Rejected => len == 0 && down == old(down) && dest[..] == old(dest[..])
        case Accepted(seqId, bytes) =>
          len == |src| - 6 && down == seqId && |bytes| <= len && dest[..len] == Over(bytes, old(dest[..len]))
          && dest[len..] == old(dest[len..])
    {
      hide Crypted, Mic, IdOf;
      if |src| - 2 - 4 > dest.Length { return -1; }
      var mic := CalMic(src[..|src| - 4], nwkskey);
      if src[|src| - 4..] == mic {
        down := IdOf(src);
        ghost var was := dest[..];
        Crypt(Key(appskey, 1, down, deviceId), src[2..|src| - 4], dest, 0);
        len := |src| - 6;
        if |deviceId| >= 10 { Overwritten(Crypted(Key(appskey, 1, down, deviceId), src[2..|src| - 4]), was, dest[..], len); }
      } else {
        len := 0;
      }
    }
  }

  // Up to 256 bytes, what the device sends is the frame its peer expects.
  lemma BodyIsFrame(c: Connection, seqId: Id, src: seq<Octet>, was: seq<Octet>)
    requires 2 + |src| <= |was| && |c.deviceId| >= 10
    ensures |src| <= 256 ==>
      Sealed(c.nwkskey, c.Body(seqId, src, was)) == Frame(c.appskey, c.nwkskey, 0, seqId, c.deviceId, src)
  {
    hide Crypted, Ctr, Mic;
    CryptedIsCtr(Key(c.appskey, 0, seqId, c.deviceId), src);
    if |src| <= 256 {
      var crypted := Crypted(Key(c.appskey, 0, seqId, c.deviceId), src);
      assert crypted + was[2 + Reach(|src|)..2 + |src|] == crypted;
    }
  }
}
