/** The SHA-1 block function: sections 6.1.2 of FIPS 180-4, and the in-place form that computes it. */
module Sha1Block {

  import opened HashSpec

  datatype Sha1State = Sha1State(a: Word, b: Word, c: Word, d: Word, e: Word)

  function Rotl1(x: Word): Word { (x << 1) | (x >> 31) }
  function Rotl5(x: Word): Word { (x << 5) | (x >> 27) }
  function Rotl30(x: Word): Word { (x << 30) | (x >> 2) }

  // ---------- FIPS 180-4 ----------

  // Section 4.1.1
  function Ft(t: nat, x: Word, y: Word, z: Word): Word {
    if t < 20 then (x & y) ^ (!x & z)
    else if t < 40 then x ^ y ^ z
    else if t < 60 then (x & y) ^ (x & z) ^ (y & z)
    else x ^ y ^ z
  }

  // Section 4.2.1
  function Kt(t: nat): Word {
    if t < 20 then 0x5a827999 else if t < 40 then 0x6ed9eba1 else if t < 60 then 0x8f1bbcdc else 0xca62c1d6
  }

  function BigEndian(block: seq<Octet>, i: nat): Word
    requires i + 3 < |block|
  {
    (block[i] as Word << 24) | (block[i + 1] as Word << 16) | (block[i + 2] as Word << 8) | block[i + 3] as Word
  }

  // The message schedule W_t.
  function Wt(block: seq<Octet>, t: nat): Word
    requires |block| == 64
  {
    if t < 16 then BigEndian(block, 4 * t)
    else Rotl1(Wt(block, t - 3) ^ Wt(block, t - 8) ^ Wt(block, t - 14) ^ Wt(block, t - 16))
  }

  function Temp(s: Sha1State, t: nat, w: Word): Word {
    RoundSum(Rotl5(s.a), Ft(t, s.b, s.c, s.d), s.e, Kt(t), w)
  }

  function RoundSum(r: Word, f: Word, e: Word, k: Word, w: Word): Word { r + f + e + k + w }

  // One step of the working variables.
  function Round(s: Sha1State, t: nat, w: Word): Sha1State {
    Sha1State(Temp(s, t, w), s.a, Rotl30(s.b), s.c, s.d)
  }

  // The working variables after the first t steps.
  function Rounds(s: Sha1State, block: seq<Octet>, t: nat): Sha1State
    requires |block| == 64
  {
    if t == 0 then s else Round(Rounds(s, block, t - 1), t - 1, Wt(block, t - 1))
  }

  function Add(s: Sha1State, r: Sha1State): Sha1State {
    Sha1State(Plus(s.a, r.a), Plus(s.b, r.b), Plus(s.c, r.c), Plus(s.d, r.d), Plus(s.e, r.e))
  }

  function Plus(x: Word, y: Word): Word { x + y }

  // The next hash value.
  function Compress(s: Sha1State, block: Block): Sha1State {
    Add(s, Rounds(s, block, 80))
  }

  // ---------- utils_sha1_process ----------

  // The F macros: choose and majority in fewer operations.
  function F(t: nat, x: Word, y: Word, z: Word): Word {
    if t < 20 then z ^ (x & (y ^ z))
    else if t < 40 then x ^ y ^ z
    else if t < 60 then (x & y) | (z & (x | y))
    else x ^ y ^ z
  }

  lemma ChooseRewritten(x: Word, y: Word, z: Word)
    ensures z ^ (x & (y ^ z)) == (x & y) ^ (!x & z)
  {}

  lemma MajorityRewritten(x: Word, y: Word, z: Word)
    ensures (x & y) | (z & (x | y)) == (x & y) ^ (x & z) ^ (y & z)
  {}

  lemma FIsFt(t: nat, x: Word, y: Word, z: Word)
    ensures F(t, x, y, z) == Ft(t, x, y, z)
  {
    ChooseRewritten(x, y, z);
    MajorityRewritten(x, y, z);
  }

  // The P macro's sum, with its grouping.
  function PSum(t: nat, a: Word, b: Word, c: Word, d: Word, e: Word, x: Word): Word {
    MacroSum(e, Rotl5(a), F(t, b, c, d), Kt(t), x)
  }

  function MacroSum(e: Word, r: Word, f: Word, k: Word, x: Word): Word { e + (r + f + k + x) }

  lemma PSumIsTemp(t: nat, a: Word, b: Word, c: Word, d: Word, e: Word, x: Word)
    ensures PSum(t, a, b, c, d, e, x) == Temp(Sha1State(a, b, c, d, e), t, x)
  {
    hide Rotl5, F, Ft, Kt, MacroSum, RoundSum;
    FIsFt(t, b, c, d);
    SumReordered(e, Rotl5(a), F(t, b, c, d), Kt(t), x);
  }

  lemma SumReordered(e: Word, r: Word, f: Word, k: Word, w: Word)
    ensures MacroSum(e, r, f, k, w) == RoundSum(r, f, e, k, w)
  {}

  // The P macro on registers a, b, c, d, e: the two that it assigns.
  method P(t: nat, a: Word, b: Word, c: Word, d: Word, e: Word, x: Word) returns (e': Word, b': Word)
    ensures Sha1State(e', a, b', c, d) == Round(Sha1State(a, b, c, d, e), t, x)
  {
    hide PSum, Temp, Rotl30;
    e' := PSum(t, a, b, c, d, e, x);
    b' := Rotl30(b);
    PSumIsTemp(t, a, b, c, d, e, x);
  }

  // W holds the last sixteen schedule words before step t, each at its index modulo 16.
  ghost predicate Window(W: array<Word>, block: seq<Octet>, t: nat)
    requires |block| == 64
    reads W
  {
    W.Length == 16 &&
    if t < 16 then forall k {:trigger Wt(block, k)} :: 0 <= k < 16 ==> W[k] == Wt(block, k)
    else forall k {:trigger Wt(block, k)} :: t - 16 <= k < t ==> W[k % 16] == Wt(block, k)
  }

  // W[t] below 16, the R macro from there on: it overwrites the word of sixteen steps before.
  method NextWord(W: array<Word>, ghost block: seq<Octet>, t: nat) returns (w: Word)
    requires |block| == 64 && Window(W, block, t)
    modifies W
    ensures w == Wt(block, t) && Window(W, block, t + 1)
  {
    if t < 16 { return W[t]; }
    w := W[(t - 3) % 16] ^ W[(t - 8) % 16] ^ W[(t - 14) % 16] ^ W[t % 16];
    assert t % 16 == (t - 16) % 16;
    assert w == Wt(block, t - 3) ^ Wt(block, t - 8) ^ Wt(block, t - 14) ^ Wt(block, t - 16);
    w := Rotl1(w);
    W[t % 16] := w;
    assert w == Wt(block, t);
    forall k {:trigger Wt(block, k)} | t - 15 <= k < t ensures k % 16 != t % 16 && W[k % 16] == Wt(block, k) {
      ApartModulo16(k, t);
    }
  }

  lemma ApartModulo16(k: nat, t: nat)
    requires k < t <= k + 15
    ensures k % 16 != t % 16
  {}

  // Five P lines with the registers renamed in turn; the sixteen groups of the source are this
  // text, each with its own five schedule words.
  method FiveSteps(W: array<Word>, ghost block: seq<Octet>, ghost start: Sha1State, t: nat, s: Sha1State)
    returns (r: Sha1State)
    requires |block| == 64 && Window(W, block, t) && s == Rounds(start, block, t)
    modifies W
    ensures Window(W, block, t + 5) && r == Rounds(start, block, t + 5)
  {
    var A, B, C, D, E := s.a, s.b, s.c, s.d, s.e;
    var w := NextWord(W, block, t);
    E, B := P(t, A, B, C, D, E, w);
    assert Sha1State(E, A, B, C, D) == Rounds(start, block, t + 1);
    w := NextWord(W, block, t + 1);
    D, A := P(t + 1, E, A, B, C, D, w);
    assert Sha1State(D, E, A, B, C) == Rounds(start, block, t + 2);
    w := NextWord(W, block, t + 2);
    C, E := P(t + 2, D, E, A, B, C, w);
    assert Sha1State(C, D, E, A, B) == Rounds(start, block, t + 3);
    w := NextWord(W, block, t + 3);
    B, D := P(t + 3, C, D, E, A, B, w);
    assert Sha1State(B, C, D, E, A) == Rounds(start, block, t + 4);
    w := NextWord(W, block, t + 4);
    A, C := P(t + 4, B, C, D, E, A, w);
    r := Sha1State(A, B, C, D, E);
  }

  // All eighty steps, on the working variables.
  method EightySteps(W: array<Word>, ghost block: seq<Octet>, start: Sha1State) returns (s: Sha1State)
    requires |block| == 64 && Window(W, block, 0)
    modifies W
    ensures s == Rounds(start, block, 80)
  {
    s := start;
    var t := 0;
    assert Rounds(start, block, 0) == start;
    hide Rounds, Window, Wt;
    while t < 80
      invariant t <= 80 && t % 5 == 0
      invariant Window(W, block, t) && s == Rounds(start, block, t)
    {
      s := FiveSteps(W, block, start, t, s);
      t := t + 5;
    }
  }

  method LoadWords(data: seq<Octet>) returns (W: array<Word>)
    requires |data| == 64
    ensures fresh(W) && Window(W, data, 0)
  {
    hide BigEndian;
    W := new Word[16](i requires 0 <= i < 16 => BigEndian(data, 4 * i));
  }

  // utils_sha1_process
  method Process(state: array<Word>, data: seq<Octet>)
    requires state.Length == 5 && |data| == 64
    modifies state
    ensures Packed(state[..]) == Compress(Packed(old(state[..])), data)
  {
    hide Rounds, Window, Plus;
    var W := LoadWords(data);
    var s := EightySteps(W, data, Sha1State(state[0], state[1], state[2], state[3], state[4]));
    state[0] := Plus(state[0], s.a);
    state[1] := Plus(state[1], s.b);
    state[2] := Plus(state[2], s.c);
    state[3] := Plus(state[3], s.d);
    state[4] := Plus(state[4], s.e);
  }

  // The five words of a context as a state.
  function Packed(w: seq<Word>): Sha1State
    requires |w| == 5
  {
    Sha1State(w[0], w[1], w[2], w[3], w[4])
  }
}
