/** The streaming AES-CMAC of utils_cmac.c against RFC 4493, for any block cipher. */
module Cmac {
  import opened Bytes
  import opened HashSpec
  import HashContext

  type Chunk = b: seq<Octet> | |b| == 16 witness seq(16, _ => 0)
  type Cipher = Chunk -> Chunk

  function Zero(): Chunk { seq(16, _ => 0) }

  // ---------- RFC 4493 ----------

  function Xor(a: Chunk, b: Chunk): Chunk {
    seq(16, i requires 0 <= i < 16 => a[i] ^ b[i])
  }

  // x shifted left by one bit, with the top bit of the byte that follows.
  function ShiftByte(x: Octet, y: Octet): Octet { (x << 1) | (y >> 7) }

  // A byte string shifted left by one bit.
  function ShiftLeft(b: seq<Octet>): (r: seq<Octet>)
    ensures |r| == |b|
  {
    seq(|b|, i requires 0 <= i < |b| => ShiftByte(b[i], if i + 1 < |b| then b[i + 1] else 0))
  }

  function Msb(b: seq<Octet>): nat { if b != [] && b[0] & 0x80 != 0 then 1 else 0 }

  // The string as a number, most significant byte first.
  function Number(b: seq<Octet>): nat {
    if b == [] then 0 else b[0] as int * Pow256(|b| - 1) + Number(b[1..])
  }

  // The shift doubles the number and drops the bit that leaves the string.
  lemma {:induction false} ShiftDoubles(b: seq<Octet>)
    ensures Number(ShiftLeft(b)) + Msb(b) * Pow256(|b|) == 2 * Number(b)
  {
    if b != [] {
      var rest := b[1..];
      assert ShiftLeft(b)[1..] == ShiftLeft(rest);
      ShiftDoubles(rest);
      FirstShift(b);
      hide ShiftLeft, ShiftByte, Msb;
      Scale(ShiftLeft(b)[0] as int, Msb(b), b[0] as int, Msb(rest), Pow256(|rest|));
    }
  }

  lemma ByteShift(x: Octet, y: Octet)
    ensures ShiftByte(x, y) as int + (if x & 0x80 != 0 then 0x100 else 0)
      == 2 * (x as int) + (if y & 0x80 != 0 then 1 else 0)
  {}

  lemma FirstShift(b: seq<Octet>)
    requires b != []
    ensures ShiftLeft(b)[0] as int + 0x100 * Msb(b) == 2 * (b[0] as int) + Msb(b[1..])
  {
    ByteShift(b[0], if |b| > 1 then b[1] else 0);
    hide ShiftByte;
  }

  lemma Scale(r: nat, m: nat, x: nat, c: nat, p: nat)
    requires r + 0x100 * m == 2 * x + c
    ensures r * p + m * (0x100 * p) == 2 * (x * p) + c * p
  {
    assert (r + 0x100 * m) * p == (2 * x + c) * p;
  }

  // Section 2.3: one subkey from the string before it.
  function Subkey(b: Chunk): Chunk {
    var s := ShiftLeft(b);
    if Msb(b) == 0 then s else s[15 := s[15] ^ 0x87]
  }

  // Section 2.4, step 6: the chain over whole blocks.
  function Chain(cipher: Cipher, x: Chunk, m: seq<Octet>): Chunk
    requires |m| % 16 == 0
    decreases |m|
  {
    if m == [] then x else Chain(cipher, cipher(Xor(x, m[..16])), m[16..])
  }

  // The bytes before the last block, which is never empty unless the message is.
  function Before(n: nat): (k: nat)
    ensures k % 16 == 0 && k <= n <= k + 16 && (k == n <==> n == 0)
  {
    if n == 0 then 0 else (n - 1) / 16 * 16
  }

  function Padded(last: seq<Octet>): Chunk
    requires |last| < 16
  {
    last + [0x80] + seq(15 - |last|, _ => 0)
  }

  function Mac(cipher: Cipher, m: seq<Octet>): Chunk {
    var k := Before(|m|);
    var last := m[k..];
    var k1 := Subkey(cipher(Zero()));
    var masked := if |last| == 16 then Xor(last, k1) else Xor(Padded(last), Subkey(k1));
    cipher(Xor(Chain(cipher, Zero(), m[..k]), masked))
  }

  // ---------- the context ----------

  lemma {:induction false} ChainSnoc(cipher: Cipher, x: Chunk, m: seq<Octet>, done: nat)
    requires done % 16 == 0 && done + 16 <= |m|
    ensures Chain(cipher, x, m[..done + 16]) == cipher(Xor(Chain(cipher, x, m[..done]), m[done..done + 16]))
    decreases done
  {
    if done == 0 {
      assert m[..16][..16] == m[..16] == m[0..16] && m[..16][16..] == [];
    } else {
      var x', m' := cipher(Xor(x, m[..16])), m[16..];
      assert m[..done + 16][..16] == m[..16] && m[..done][..16] == m[..16];
      assert m[..done + 16][16..] == m'[..done] && m[..done][16..] == m'[..done - 16];
      assert m[done..done + 16] == m'[done - 16..done];
      ChainSnoc(cipher, x', m', done - 16);
    }
  }

  lemma BeforeIs(n: nat, k: nat)
    requires k % 16 == 0 && k < n <= k + 16
    ensures Before(n) == k
  {}

  lemma NextBlock(a: seq<Octet>, i: nat, b: seq<Octet>, j: nat)
    requires i + 16 <= |a| && j <= |b| && a[i..] == b[j..]
    ensures j + 16 <= |b| && a[i..i + 16] == b[j..j + 16] && a[i + 16..] == b[j + 16..]
  {
    assert a[i..i + 16] == a[i..][..16] && b[j..j + 16] == b[j..][..16];
    assert a[i + 16..] == a[i..][16..] && b[j + 16..] == b[j..][16..];
  }

  class Context {
    const cipher: Cipher
    const x: array<Octet>
    const last: array<Octet>
    var n: nat
    ghost var msg: seq<Octet>

    ghost predicate Valid()
      reads this, x, last
    {
      Holding(msg, Before(|msg|)) && n == |msg| - Before(|msg|)
    }

    // The first done bytes of all are in the chain, the next n are held back.
    ghost predicate Holding(all: seq<Octet>, done: nat)
      reads this, x, last
    {
      && x != last && x.Length == last.Length == 16 && n <= 16 && done % 16 == 0 && done + n <= |all|
      && x[..] == Chain(cipher, Zero(), all[..done]) && last[..n] == all[done..done + n]
    }

    // AES_CMAC_Init and AES_CMAC_SetKey
    constructor (cipher: Cipher)
      ensures Valid() && this.cipher == cipher && msg == [] && fresh(x) && fresh(last)
    {
      this.cipher := cipher;
      x := new Octet[16](_ => 0);
      last := new Octet[16];
      n := 0;
      msg := [];
      new;
      assert x[..] == Zero();
    }

    // XOR and aes_encrypt1, applied to the next 16 bytes of all.
    method Absorb(block: Chunk, ghost all: seq<Octet>, ghost done: nat)
      requires x.Length == 16 && done % 16 == 0 && done + 16 <= |all| && block == all[done..done + 16]
      requires x[..] == Chain(cipher, Zero(), all[..done])
      modifies x
      ensures x[..] == Chain(cipher, Zero(), all[..done + 16])
    {
      hide Chain;
      ChainSnoc(cipher, Zero(), all, done);
      XorInto(block, x);
      Store(x, cipher(x[..]));
    }

    // The block held back is filled up from the new data.
    method Fill(data: seq<Octet>) returns (mlen: nat)
      requires last.Length == 16 && n <= 16
      modifies this`n, last
      ensures mlen == (if 16 - old(n) < |data| then 16 - old(n) else |data|) && n == old(n) + mlen
      ensures last[..n] == old(last[..n]) + data[..mlen]
    {
      mlen := if 16 - n < |data| then 16 - n else |data|;
      var _ := Copy(last, n, data[..mlen]);
      n := n + mlen;
    }

    // AES_CMAC_Update
    method Update(data: seq<Octet>)
      requires Valid()
      modifies this`n, this`msg, x, last
      ensures Valid() && msg == old(msg) + data
    {
      hide Chain, Before, Zero, Xor;
      ghost var all, done := msg + data, Before(|msg|);
      Extended(msg, data, done);
      msg := all;
      var at := 0;
      if n > 0 {
        at := Fill(data);
        assert all[done..][..n] == all[done..done + n];
        assert Holding(all, done);
        if n < 16 || |data| == at {
          BeforeIs(|all|, done);
          return;
        }
        assert last[..] == last[..16];
        Absorb(last[..], all, done);
        assert all[done + 16..] == all[done..][16..];
        done := done + 16;
      }
      Blocks(data, at, done);
    }

    lemma Extended(msg: seq<Octet>, data: seq<Octet>, done: nat)
      requires done <= |msg|
      ensures (msg + data)[..done] == msg[..done] && (msg + data)[done..] == msg[done..] + data
    {}

    // The loop over the blocks that cannot be the last.
    method Blocks(data: seq<Octet>, start: nat, ghost first: nat)
      requires x != last && x.Length == last.Length == 16 && start <= |data|
      requires first % 16 == 0 && first <= |msg| && msg[first..] == data[start..]
      requires x[..] == Chain(cipher, Zero(), msg[..first]) && (start == |data| ==> msg == [])
      modifies this`n, x, last
      ensures Valid()
    {
      hide Chain, Before, Zero, Valid;
      var at := start;
      ghost var done: nat := first;
      while |data| - at > 16
        invariant start <= at <= |data| && done % 16 == 0 && done <= |msg| && msg[done..] == data[at..]
        invariant x[..] == Chain(cipher, Zero(), msg[..done]) && (at == |data| ==> msg == [])
      {
        NextBlock(data, at, msg, done);
        Absorb(data[at..at + 16], msg, done);
        at, done := at + 16, done + 16;
      }
      HoldBack(data[at..], done);
    }

    // The block that may be the last is saved.
    method HoldBack(rest: seq<Octet>, ghost done: nat)
      requires x != last && x.Length == last.Length == 16 && |rest| <= 16
      requires done % 16 == 0 && done <= |msg| && msg[done..] == rest
      requires x[..] == Chain(cipher, Zero(), msg[..done]) && (rest == [] ==> msg == [])
      modifies this`n, last
      ensures Valid()
    {
      hide Chain, Before, Zero;
      var _ := Copy(last, 0, rest);
      n := |rest|;
      if msg != [] { BeforeIs(|msg|, done); }
    }

    // AES_CMAC_Final; the context is used up.
    method Final() returns (digest: Chunk)
      requires Valid()
      modifies this`n, x, last
      ensures digest == Mac(cipher, msg)
    {
      hide Chain, Before, Subkey, Xor, Padded;
      var k := new Octet[16](_ => 0);
      assert k[..] == Zero();
      Store(k, cipher(k[..]));
      MakeSubkey(k);
      assert msg[Before(|msg|)..] == last[..n];
      if n == 16 {
        assert last[..] == last[..16];
        XorInto(k[..], last);
      } else {
        MakeSubkey(k);
        Pad();
        XorInto(k[..], last);
      }
      XorInto(last[..], x);
      digest := cipher(x[..]);
    }

    // padding(M_last)
    method Pad()
      requires last.Length == 16 && n < 16
      modifies this`n, last
      ensures last[..] == Padded(old(last[..n]))
    {
      ghost var held := last[..n];
      last[n] := 0x80;
      n := n + 1;
      while n < 16
        invariant |held| < n <= 16
        invariant last[..n] == held + [0x80] + seq(n - |held| - 1, _ => 0)
      {
        last[n] := 0;
        n := n + 1;
      }
      assert last[..] == last[..16];
    }
  }

  // A whole block.
  method Store(a: array<Octet>, w: seq<Octet>)
    requires |w| == a.Length
    modifies a
    ensures a[..] == w
  {
    var end := Copy(a, 0, w);
    assert a[..] == a[..end];
  }

  // XOR
  method XorInto(v: Chunk, r: array<Octet>)
    requires r.Length == 16
    modifies r
    ensures r[..] == Xor(old(r[..]), v)
  {
    for i := 0 to 16
      invariant forall k :: 0 <= k < i ==> r[k] == old(r[k]) ^ v[k]
      invariant forall k :: i <= k < 16 ==> r[k] == old(r[k])
    {
      r[i] := r[i] ^ v[i];
    }
  }

  // LSHIFT with source and destination the same array.
  method ShiftInPlace(k: array<Octet>)
    requires k.Length == 16
    modifies k
    ensures k[..] == ShiftLeft(old(k[..]))
  {
    for i := 0 to 15
      invariant forall j :: 0 <= j < i ==> k[j] == ShiftByte(old(k[j]), old(k[j + 1]))
      invariant forall j :: i <= j < 16 ==> k[j] == old(k[j])
    {
      k[i] := (k[i] << 1) | (k[i + 1] >> 7);
    }
    k[15] := k[15] << 1;
  }

  method MakeSubkey(k: array<Octet>)
    requires k.Length == 16
    modifies k
    ensures k[..] == Subkey(old(k[..]))
  {
    hide ShiftLeft;
    if k[0] & 0x80 != 0 {
      ShiftInPlace(k);
      k[15] := k[15] ^ 0x87;
    } else {
      ShiftInPlace(k);
    }
  }

  // However the message is cut into chunks, empty ones among them, the code is that of the whole.
  method MacChunks(cipher: Cipher, chunks: seq<seq<Octet>>) returns (digest: Chunk)
    ensures digest == Mac(cipher, HashContext.Concat(chunks))
  {
    var ctx := new Context(cipher);
    for i := 0 to |chunks|
      invariant fresh(ctx) && fresh(ctx.x) && fresh(ctx.last) && ctx.Valid() && ctx.cipher == cipher
      invariant ctx.msg == HashContext.Concat(chunks[..i])
    {
      assert chunks[..i + 1][..i] == chunks[..i];
      ctx.Update(chunks[i]);
    }
    assert chunks[..|chunks|] == chunks;
    digest := ctx.Final();
  }
}
