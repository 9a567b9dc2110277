/** The streaming contexts of utils_md5.c and utils_sha1.c, whose update and finish are the same
    text up to the block function and the byte order. */
module HashContext {
  import opened Bytes
  import opened HashSpec

  const TWO32: nat := 0x1_0000_0000
  const TWO64: nat := 0x1_0000_0000_0000_0000

  // ---------- the two-word byte counter ----------

  // total[0] += n, with the carry taken from the comparison.
  lemma CounterAdds(t0: uint32, t1: uint32, total: nat, n: uint32)
    requires t0 + t1 * TWO32 == total % TWO64
    ensures var s0 := (t0 + n) % TWO32;
      var s1 := if s0 < n then (t1 + 1) % TWO32 else t1;
      s0 + s1 * TWO32 == (total + n) % TWO64
  {
    var s0 := (t0 + n) % TWO32;
    var pair := t0 + t1 * TWO32;
    assert (total + n) % TWO64 == (pair + n) % TWO64 by { ModAdds(total, n); }
    if t0 + n < TWO32 {
      assert s0 == t0 + n;
    } else {
      assert s0 == t0 + n - TWO32;
    }
  }

  lemma ModAdds(total: nat, n: nat)
    ensures (total + n) % TWO64 == (total % TWO64 + n) % TWO64
  {}

  // total[0] & 0x3F
  lemma CounterModulo64(t0: uint32, t1: uint32, total: nat)
    requires t0 + t1 * TWO32 == total % TWO64
    ensures t0 % 64 == total % 64
  {
    assert total == total / TWO64 * TWO64 + (t0 + t1 * TWO32);
  }

  // The bit count in two words: the shifts of finish.
  lemma CounterShifts(t0: uint32, t1: uint32, total: nat)
    requires t0 + t1 * TWO32 == total % TWO64
    ensures var high, low := t0 / 0x2000_0000 + t1 * 8 % TWO32, t0 * 8 % TWO32;
      high * TWO32 + low == 8 * total % TWO64
  {
    var high, low := t0 / 0x2000_0000 + t1 * 8 % TWO32, t0 * 8 % TWO32;
    var q0, q1 := total / TWO64, t1 * 8 / TWO32;
    assert t0 * 8 == t0 / 0x2000_0000 * TWO32 + low;
    assert t1 * 8 == q1 * TWO32 + t1 * 8 % TWO32 && t1 * 8 % TWO32 <= TWO32 - 8;
    assert total == q0 * TWO64 + (t0 + t1 * TWO32);
    ModUnique(8 * total, 8 * q0 + q1, high * TWO32 + low);
  }

  lemma ModUnique(x: nat, q: nat, r: nat)
    requires x == q * TWO64 + r && r < TWO64
    ensures x % TWO64 == r
  {}

  // The bytes of n that make up whole blocks, and the rest.
  function Whole(n: nat): (w: nat)
    ensures w <= n && w % 64 == 0
  {
    n - n % 64
  }

  function Part(n: nat): (k: nat)
    ensures k < 64 && Whole(n) + k == n
  {
    n % 64
  }

  lemma WholeAndPart(n: nat, done: nat, left: nat)
    requires n == done + left && done % 64 == 0 && left < 64
    ensures Whole(n) == done && Part(n) == left
  {}

  // ---------- the context ----------

  class Context<!S(0)> {
    const alg: Algorithm<S>
    var total: (uint32, uint32)
    var state: S
    const buffer: array<Octet>
    ghost var msg: seq<Octet>   // everything absorbed since the start

    ghost predicate Valid()
      reads this, buffer
    {
      && total.0 + total.1 * TWO32 == |msg| % TWO64
      && Holding(msg, Whole(|msg|), Part(|msg|))
    }

    // The first done bytes of all are in the state, the next left ones in the buffer.
    ghost predicate Holding(all: seq<Octet>, done: nat, left: nat)
      reads this, buffer
    {
      && buffer.Length == 64 && left < 64 && done % 64 == 0 && done + left <= |all|
      && state == Fold(alg.compress, alg.iv, all[..done])
      && buffer[..left] == all[done..done + left]
    }

    // init and starts
    constructor (alg: Algorithm<S>)
      ensures Valid() && this.alg == alg && msg == [] && fresh(buffer)
    {
      this.alg := alg;
      total := (0, 0);
      state := alg.iv;
      buffer := new Octet[64];
      msg := [];
      new;
      hide Whole, Part;
    }

    // process, applied to the next 64 bytes of all.
    method Absorb(block: Block, ghost all: seq<Octet>, ghost done: nat)
      requires done % 64 == 0 && done + 64 <= |all| && block == all[done..done + 64]
      requires state == Fold(alg.compress, alg.iv, all[..done])
      modifies this`state
      ensures state == Fold(alg.compress, alg.iv, all[..done + 64])
    {
      FoldSnoc(alg.compress, alg.iv, all, done);
      state := alg.compress(state, block);
    }

    // The counter of the bytes absorbed.
    method Count(n: uint32)
      requires total.0 + total.1 * TWO32 == |msg| % TWO64
      modifies this`total
      ensures total.0 + total.1 * TWO32 == (|msg| + n) % TWO64
    {
      CounterAdds(total.0, total.1, |msg|, n);
      total := ((total.0 + n) % TWO32, total.1);
      if total.0 < n {
        total := (total.0, (total.1 + 1) % TWO32);
      }
    }

    // A partly filled buffer is completed first, when the input suffices.
    method TopUp(input: seq<Octet>, left: nat, ghost all: seq<Octet>, ghost done: nat)
      returns (i: nat, rest: nat, ghost end: nat)
      requires Holding(all, done, left) && all[done + left..] == input
      modifies this`state, buffer
      ensures i <= |input| && Holding(all, end, rest) && all[end + rest..] == input[i..]
      ensures rest == 0 || rest + |input| < 64
      ensures rest != 0 ==> i == 0
    {
      hide Fold;
      i, rest, end := 0, left, done;
      var fill := 64 - left;
      if left != 0 && |input| >= fill {
        var _ := Copy(buffer, left, input[..fill]);
        assert buffer[..] == buffer[..64];
        assert all[done..done + 64] == all[done..done + left] + all[done + left..][..fill];
        Absorb(buffer[..], all, done);
        assert all[done + 64..] == all[done + left..][fill..];
        i, rest, end := fill, 0, done + 64;
      }
    }

    // Whole blocks are taken from the input directly.
    method Blocks(input: seq<Octet>, from: nat, ghost all: seq<Octet>, ghost done: nat)
      returns (i: nat, ghost end: nat)
      requires from <= |input| && Holding(all, done, 0) && all[done..] == input[from..]
      modifies this`state
      ensures from <= i <= |input| < i + 64 && Holding(all, end, 0) && all[end..] == input[i..]
    {
      hide Fold;
      i, end := from, done;
      while |input| - i >= 64
        invariant from <= i <= |input| && Holding(all, end, 0) && all[end..] == input[i..]
      {
        assert input[i..i + 64] == input[i..][..64] && all[end..end + 64] == all[end..][..64];
        Absorb(input[i..i + 64], all, end);
        assert input[i + 64..] == input[i..][64..] && all[end + 64..] == all[end..][64..];
        i, end := i + 64, end + 64;
      }
    }

    // What is left of the input goes into the buffer.
    method Tail(rest: seq<Octet>, left: nat, ghost all: seq<Octet>, ghost done: nat)
      requires Holding(all, done, left) && all[done + left..] == rest && left + |rest| < 64
      modifies buffer
      ensures Holding(all, Whole(|all|), Part(|all|))
    {
      hide Fold;
      WholeAndPart(|all|, done, left + |rest|);
      if |rest| > 0 {
        var _ := Copy(buffer, left, rest);
      }
      assert all[done..done + left] + rest == all[done..];
    }

    // Everything update does besides counting.
    method Feed(input: seq<Octet>, start: nat, ghost all: seq<Octet>, ghost done: nat)
      requires Holding(all, done, start) && all[done + start..] == input
      modifies this`state, buffer
      ensures Holding(all, Whole(|all|), Part(|all|))
    {
      hide Holding;
      var i, left;
      ghost var end;
      i, left, end := TopUp(input, start, all, done);
      if left == 0 {
        i, end := Blocks(input, i, all, end);
      }
      Tail(input[i..], left, all, end);
    }

    // utils_md5_update and utils_sha1_update
    method Update(input: seq<Octet>)
      requires Valid() && |input| < TWO32
      modifies this, buffer
      ensures Valid() && msg == old(msg) + input
    {
      if |input| == 0 {
        assert msg == old(msg) + input;
        return;
      }
      hide Fold;
      CounterModulo64(total.0, total.1, |msg|);
      var left: nat := total.0 % 64;
      Count(|input|);
      ghost var all := msg + input;
      assert all[..Whole(|msg|)] == msg[..Whole(|msg|)] && all[Whole(|msg|)..|msg|] == msg[Whole(|msg|)..];
      Feed(input, left, all, Whole(|msg|));
      msg := all;
    }

    // PUT_UINT32 of the bit count, in the byte order of the algorithm.
    method PutLength() returns (msglen: seq<Octet>)
      requires total.0 + total.1 * TWO32 == |msg| % TWO64
      ensures msglen == LengthBytes(|msg|, alg.bigEndian)
    {
      var high := total.0 / 0x2000_0000 + total.1 * 8 % TWO32;
      var low := total.0 * 8 % TWO32;
      msglen := if alg.bigEndian then BigEndianBytes(high, 4) + BigEndianBytes(low, 4)
                else LittleEndianBytes(low, 4) + LittleEndianBytes(high, 4);
      CounterShifts(total.0, total.1, |msg|);
      FourBytes();
      BytesInTwo(high * TWO32 + low, high, low, 4, 4);
    }

    // The first padn bytes of the constant padding array.
    method Padding() returns (w: seq<Octet>)
      requires total.0 + total.1 * TWO32 == |msg| % TWO64
      ensures w == [0x80] + Zeros(ZeroCount(|msg|))
    {
      CounterModulo64(total.0, total.1, |msg|);
      var last := total.0 % 64;
      var padn := if last < 56 then 56 - last else 120 - last;
      var padding := [0x80] + Zeros(63);
      ZerosTake(63, padn - 1);
      assert padding[..padn] == [0x80] + Zeros(63)[..padn - 1];
      assert padn - 1 == ZeroCount(|msg|) by { PaddingChoice(|msg|); }
      w := padding[..padn];
    }

    // All the message is in the state once its length is a multiple of 64.
    lemma AllAbsorbed()
      requires Valid() && |msg| % 64 == 0
      ensures state == Fold(alg.compress, alg.iv, msg)
    {
      hide Fold;
      WholeAndPart(|msg|, |msg|, 0);
      assert msg[..|msg|] == msg;
    }

    // utils_md5_finish and utils_sha1_finish
    method Finish() returns (output: seq<Octet>)
      requires Valid()
      modifies this, buffer
      ensures Valid() && output == Digest(alg, old(msg))
    {
      hide Fold, LengthBytes, Holding, Zeros, ZeroCount, Whole, Part, Pad;
      ghost var m := msg;
      var msglen := PutLength();
      var padding := Padding();
      PadParts(m, padding, msglen, alg.bigEndian);
      Update(padding);
      Update(msglen);
      assert msg == m + padding + msglen;
      AllAbsorbed();
      output := alg.encode(state);
    }
  }

  lemma PadParts(m: seq<Octet>, padding: seq<Octet>, msglen: seq<Octet>, bigEndian: bool)
    requires padding == [0x80] + Zeros(ZeroCount(|m|)) && msglen == LengthBytes(|m|, bigEndian)
    ensures m + padding + msglen == Pad(m, bigEndian) && |Pad(m, bigEndian)| % 64 == 0
    ensures |padding| <= 64 && |msglen| == 8
  {
    hide Zeros;
  }

  lemma FourBytes()
    ensures Pow256(4) == TWO32
  {
    assert Pow256(2) == 0x1_0000;
  }

  // 56 - last below 56, else 120 - last
  lemma PaddingChoice(n: nat)
    ensures ZeroCount(n) == (if n % 64 < 56 then 56 - n % 64 else 120 - n % 64) - 1
  {}

  lemma {:induction false} ZerosTake(n: nat, k: nat)
    requires k <= n
    ensures Zeros(n)[..k] == Zeros(k)
  {}

  // ---------- any split into update calls ----------

  function Concat(chunks: seq<seq<Octet>>): seq<Octet> {
    if chunks == [] then [] else Concat(chunks[..|chunks| - 1]) + chunks[|chunks| - 1]
  }

  // However a message is cut into chunks, the digest is that of the whole message, padded once.
  method HashChunks<S(0)>(alg: Algorithm<S>, chunks: seq<seq<Octet>>) returns (output: seq<Octet>)
    requires forall k :: 0 <= k < |chunks| ==> |chunks[k]| < TWO32
    ensures output == Digest(alg, Concat(chunks))
  {
    var ctx := new Context(alg);
    for i := 0 to |chunks|
      invariant fresh(ctx) && fresh(ctx.buffer) && ctx.Valid() && ctx.alg == alg
      invariant ctx.msg == Concat(chunks[..i])
    {
      assert chunks[..i + 1][..i] == chunks[..i];
      ctx.Update(chunks[i]);
    }
    assert chunks[..|chunks|] == chunks;
    output := ctx.Finish();
  }
}
