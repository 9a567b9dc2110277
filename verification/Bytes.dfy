/** C's small unsigned integers, where one sequence stands inside another, and how
    it gets into an array. */
module Bytes {
  type byte = x: int | 0 <= x < 0x100
  type uint16 = x: int | 0 <= x < 0x1_0000
  type uint32 = x: int | 0 <= x < 0x1_0000_0000

  // An unsigned integer in network byte order.
  function NetworkOrder(w: seq<byte>): nat {
    if w == [] then 0 else NetworkOrder(w[..|w| - 1]) * 0x100 + w[|w| - 1]
  }

  lemma OfNothing()
    ensures NetworkOrder([]) == 0
  {}

  lemma OfSnoc(w: seq<byte>, b: byte)
    ensures NetworkOrder(w + [b]) == NetworkOrder(w) * 0x100 + b
  {
    assert (w + [b])[..|w|] == w;
  }

  lemma OfBytes(a: byte, b: byte, c: byte, d: byte)
    ensures NetworkOrder([a]) == a && NetworkOrder([a, b]) == a * 0x100 + b
    ensures NetworkOrder([a, b, c, d]) == ((a * 0x100 + b) * 0x100 + c) * 0x100 + d
  {
    OfSnoc([], a);
    OfSnoc([a], b);
    OfSnoc([a, b], c);
    OfSnoc([a, b, c], d);
    assert [] + [a] == [a] && [a] + [b] == [a, b];
    assert [a, b] + [c] == [a, b, c] && [a, b, c] + [d] == [a, b, c, d];
  }

  predicate StartsWith<T(==)>(t: seq<T>, i: nat, w: seq<T>) {
    i + |w| <= |t| && t[i..i + |w|] == w
  }

  lemma Split<T>(t: seq<T>, i: nat, a: seq<T>, b: seq<T>)
    ensures StartsWith(t, i, a + b) <==> StartsWith(t, i, a) && StartsWith(t, i + |a|, b)
  {
    if StartsWith(t, i, a) && StartsWith(t, i + |a|, b) {
      assert t[i..i + |a + b|] == t[i..i + |a|] + t[i + |a|..i + |a| + |b|];
    }
    if StartsWith(t, i, a + b) {
      assert t[i..i + |a|] == (a + b)[..|a|];
      assert t[i + |a|..i + |a| + |b|] == (a + b)[|a|..];
    }
  }

  lemma Regroup<T>(a: seq<T>, b: seq<T>, c: seq<T>)
    ensures a + (b + c) == a + b + c
  {}

  lemma ItemAt<T>(t: seq<T>, i: nat, w: seq<T>, k: nat)
    requires StartsWith(t, i, w) && k < |w|
    ensures i + k < |t| && t[i + k] == w[k]
  {
    assert t[i..i + |w|][k] == w[k];
  }

  // memcpy of w to out + at, or a run of *ptr++ = c; end is where the next one goes.
  method Copy<T>(out: array<T>, at: nat, w: seq<T>) returns (end: nat)
    requires at + |w| <= out.Length
    modifies out
    ensures end == at + |w| && out[..end] == old(out[..at]) + w
  {
    for i := 0 to |w|
      invariant out[..at + i] == old(out[..at]) + w[..i]
    {
      out[at + i] := w[i];
      assert out[..at + i + 1] == out[..at + i] + [w[i]];
      assert w[..i + 1] == w[..i] + [w[i]];
    }
    end := at + |w|;
    assert w[..|w|] == w;
  }
}
