/** Base64 (section 4 of RFC 4648): the block encoder and the decoder of utils_base64.c, and the
    bit accumulator of utils_httpc.c. Text is a sequence of character codes. */
module Base64 {
  import opened Bytes
  import opened Arithmetic

  const PAD: byte := 61   // '='

  // ---------- RFC 4648 ----------

  // Table 1 of RFC 4648: A-Z, a-z, 0-9, +, /.
  function Letter(v: nat): (c: byte)
    requires v < 64
    ensures c != PAD
  {
    if v < 26 then 65 + v else if v < 52 then 71 + v else if v < 62 then v - 4 else if v == 62 then 43 else 47
  }

  // The value of a letter; everything else, the padding too, counts as 0.
  function Value(c: byte): (v: nat)
    ensures v < 64
  {
    if 65 <= c <= 90 then c - 65 else if 97 <= c <= 122 then c - 71 else if 48 <= c <= 57 then c + 4
    else if c == 43 then 62 else if c == 47 then 63 else 0
  }

  lemma ValueInverts(v: nat)
    requires v < 64
    ensures Value(Letter(v)) == v
  {}

  // The four 6-bit groups of a 24-bit number.
  function Quad(t: nat): (r: seq<byte>)
    requires t < 0x100_0000
    ensures |r| == 4
  {
    [Letter(t / 0x4_0000), Letter(t / 0x1000 % 64), Letter(t / 64 % 64), Letter(t % 64)]
  }

  // Three bytes as one number.
  function Group(a: byte, b: byte, c: byte): (t: nat)
    ensures t < 0x100_0000
  {
    (a as int) * 0x1_0000 + (b as int) * 0x100 + c as int
  }

  function Encode(d: seq<byte>): (text: seq<byte>)
    ensures d != [] ==> |text| >= 4
  {
    if d == [] then []
    else if |d| == 1 then Quad(Group(d[0], 0, 0))[..2] + [PAD, PAD]
    else if |d| == 2 then Quad(Group(d[0], d[1], 0))[..3] + [PAD]
    else Quad(Group(d[0], d[1], d[2])) + Encode(d[3..])
  }

  // ---------- decoding ----------

  function Triple(a: byte, b: byte, c: byte, d: byte): nat {
    Value(a) * 0x4_0000 + Value(b) * 0x1000 + Value(c) * 64 + Value(d)
  }

  function ThreeBytes(t: nat): (r: seq<byte>)
    ensures |r| == 3
  {
    [t / 0x1_0000 % 0x100, t / 0x100 % 0x100, t % 0x100]
  }

  // The bytes of all groups of four characters.
  function AllBytes(text: seq<byte>): seq<byte> {
    if |text| < 4 then []
    else ThreeBytes(Triple(text[0], text[1], text[2], text[3])) + AllBytes(text[4..])
  }

  // The last two characters tell how many bytes the padding stands for.
  function OutputLength(text: seq<byte>): nat
    requires |text| >= 4
  {
    |text| / 4 * 3 - (if text[|text| - 1] == PAD then 1 else 0) - (if text[|text| - 2] == PAD then 1 else 0)
  }

  lemma {:induction false} AllBytesLength(text: seq<byte>)
    ensures |AllBytes(text)| == |text| / 4 * 3
  {
    hide Triple, ThreeBytes;
    if |text| >= 4 { AllBytesLength(text[4..]); }
  }

  function Decode(text: seq<byte>): seq<byte>
    requires |text| >= 4
  {
    AllBytesLength(text);
    AllBytes(text)[..OutputLength(text)]
  }

  function EncodedLength(n: nat): nat { 4 * ((n + 2) / 3) }

  lemma LengthStep(n: nat)
    ensures EncodedLength(n) % 4 == 0 && EncodedLength(n) / 4 * 3 == n + (if n % 3 == 0 then 0 else 3 - n % 3)
    ensures EncodedLength(n + 3) == EncodedLength(n) + 4
  {
    assert (n + 3 + 2) / 3 == (n + 2) / 3 + 1;
  }

  lemma {:induction false} EncodeLength(d: seq<byte>)
    ensures |Encode(d)| == EncodedLength(|d|)
  {
    hide Quad, Group;
    if |d| >= 3 {
      LengthStep(|d| - 3);
      EncodeLength(d[3..]);
    }
  }

  lemma QuadParts(t: nat)
    requires t < 0x100_0000
    ensures t / 0x4_0000 * 0x4_0000 + t / 0x1000 % 64 * 0x1000 + t / 64 % 64 * 64 + t % 64 == t
  {
    var u := t / 64;
    var v := u / 64;
    assert v == t / 0x1000 && v / 64 == t / 0x4_0000;
    assert u == 64 * v + u % 64 && v == 64 * (v / 64) + v % 64;
  }

  lemma ThreeBytesParts(a: byte, b: byte, c: byte)
    ensures ThreeBytes(Group(a, b, c)) == [a, b, c]
    ensures c == 0 ==> Group(a, b, c) % 64 == 0
    ensures b == 0 && c == 0 ==> Group(a, b, c) % 0x1000 == 0
  {
    var t, u := Group(a, b, c), (a as int) * 0x100 + b as int;
    ModIs(t, 0x100, u, c);
    ModIs(u, 0x100, a, b);
    ModIs(t, 0x1_0000, a, (b as int) * 0x100 + c as int);
    ModIs(a, 0x100, 0, a);
    if c == 0 { ModIs(t, 64, (a as int) * 0x400 + (b as int) * 4, 0); }
    if b == 0 && c == 0 { ModIs(t, 0x1000, (a as int) * 16, 0); }
    hide Group;
  }

  lemma QuadTriple(t: nat)
    requires t < 0x100_0000
    ensures var q := Quad(t); Triple(q[0], q[1], q[2], q[3]) == t
    ensures t % 64 == 0 ==> Triple(Quad(t)[0], Quad(t)[1], Quad(t)[2], PAD) == t
    ensures t % 0x1000 == 0 ==> Triple(Quad(t)[0], Quad(t)[1], PAD, PAD) == t
  {
    hide Letter, Value;
    ValueInverts(t / 0x4_0000);
    ValueInverts(t / 0x1000 % 64);
    ValueInverts(t / 64 % 64);
    ValueInverts(t % 64);
    assert Value(PAD) == 0 by { PadIsZero(); }
    QuadParts(t);
    if t % 0x1000 == 0 { LowZero(t); }
  }

  lemma PadIsZero()
    ensures Value(PAD) == 0
  {}

  lemma LowZero(t: nat)
    requires t % 0x1000 == 0
    ensures t / 64 % 64 == 0 && t % 64 == 0
  {
    assert t == t / 0x1000 * 64 * 64;
  }

  // A missing byte counts as 0.
  function At(d: seq<byte>, i: nat): byte { if i < |d| then d[i] else 0 }

  lemma {:induction false} NoPadInside(d: seq<byte>)
    requires d != []
    ensures var text := Encode(d);
      && (text[|text| - 1] == PAD <==> |d| % 3 != 0) && (text[|text| - 2] == PAD <==> |d| % 3 == 1)
  {
    hide Letter, Group, Encode;
    EncodeUnfold(d);
    if |d| > 3 {
      hide Quad;
      NoPadInside(d[3..]);
      LastTwo(Encode(d), Encode(d[3..]));
    } else if |d| == 3 {
      assert d[3..] == [];
      var q := Quad(Group(d[0], d[1], d[2]));
      assert Encode(d) == q + [] == q;
    }
  }

  lemma LastTwo(text: seq<byte>, end: seq<byte>)
    requires 4 <= |end| == |text| - 4 && text[4..] == end
    ensures text[|text| - 1] == end[|end| - 1] && text[|text| - 2] == end[|end| - 2]
  {}

  lemma EncodeUnfold(d: seq<byte>)
    requires d != []
    ensures |d| == 1 ==> Encode(d) == Quad(Group(d[0], 0, 0))[..2] + [PAD, PAD]
    ensures |d| == 2 ==> Encode(d) == Quad(Group(d[0], d[1], 0))[..3] + [PAD]
    ensures |d| >= 3 ==> Encode(d) == Quad(Group(d[0], d[1], d[2])) + Encode(d[3..])
    ensures Encode([]) == []
  {
    hide Quad, Group;
  }

  // The first group of an encoding stands for the first three bytes.
  lemma FirstGroup(d: seq<byte>)
    requires d != []
    ensures var text := Encode(d);
      && Triple(text[0], text[1], text[2], text[3]) == Group(d[0], At(d, 1), At(d, 2))
      && text[4..] == if |d| < 3 then [] else Encode(d[3..])
  {
    hide Triple, Group, Encode, Quad;
    EncodeUnfold(d);
    ThreeBytesParts(d[0], At(d, 1), At(d, 2));
    QuadTriple(Group(d[0], At(d, 1), At(d, 2)));
  }

  // Up to the padding, decoding gives back the bytes.
  lemma {:induction false} AllBytesInvert(d: seq<byte>)
    ensures |d| <= |AllBytes(Encode(d))| && AllBytes(Encode(d))[..|d|] == d
    decreases |d|
  {
    hide Triple, ThreeBytes, Group, Encode;
    EncodeNothing();
    if d != [] {
      var text, rest := Encode(d), if |d| < 3 then [] else d[3..];
      FirstGroup(d);
      ThreeBytesParts(d[0], At(d, 1), At(d, 2));
      AllBytesInvert(rest);
      var first := [d[0], At(d, 1), At(d, 2)];
      assert AllBytes(text) == first + AllBytes(Encode(rest));
      if |d| >= 3 { assert d == first + rest; }
    }
  }

  // Decoding an encoding gives back the original bytes, all of them and no more.
  lemma RoundTrip(d: seq<byte>)
    requires d != []
    ensures |Encode(d)| % 4 == 0 && |Encode(d)| >= 4 && Decode(Encode(d)) == d
  {
    hide AllBytes, Encode, EncodedLength;
    AllBytesInvert(d);
    NoPadInside(d);
    EncodeLength(d);
    LengthStep(|d|);
  }

  // ---------- utils_base64encode ----------

  // Whole groups of three come out one after the other.
  lemma {:induction false} EncodeAppend(a: seq<byte>, b: seq<byte>)
    requires |a| % 3 == 0
    ensures Encode(a + b) == Encode(a) + Encode(b)
    decreases |a|
  {
    hide Quad, Group, Encode;
    EncodeNothing();
    if a == [] {
      assert a + b == b && [] + Encode(b) == Encode(b);
    } else {
      EncodeUnfold(a);
      EncodeUnfold(a + b);
      assert (a + b)[3..] == a[3..] + b;
      EncodeAppend(a[3..], b);
      var q := Quad(Group(a[0], a[1], a[2]));
      assert q + (Encode(a[3..]) + Encode(b)) == q + Encode(a[3..]) + Encode(b);
    }
  }

  lemma EncodeNothing()
    ensures Encode([]) == []
  {}

  datatype Result = Ok(length: nat) | NoRoom | BadLength

  // The next 4 characters, from up to 3 bytes with zeros for missing ones.
  method PutQuad(data: seq<byte>, i: nat, out: array<byte>, j: nat)
    requires i < |data| && j + 4 <= out.Length
    modifies out
    ensures out[..j + 4] == old(out[..j]) + Quad(Group(data[i], At(data, i + 1), At(data, i + 2)))
  {
    hide Letter;
    var a: int := data[i];
    var b: int := if i + 1 < |data| then data[i + 1] else 0;
    var c: int := if i + 2 < |data| then data[i + 2] else 0;
    var triple: int := a * 0x1_0000 + b * 0x100 + c;
    assert triple == Group(data[i], At(data, i + 1), At(data, i + 2));
    TopGroup(triple);
    hide Group;
    PutFour(out, j, Letter(triple / 0x4_0000 % 64), Letter(triple / 0x1000 % 64),
            Letter(triple / 64 % 64), Letter(triple % 64));
  }

  lemma TopGroup(t: nat)
    requires t < 0x100_0000
    ensures t / 0x4_0000 % 64 == t / 0x4_0000 < 64
  {}

  method PutFour(out: array<byte>, j: nat, a: byte, b: byte, c: byte, d: byte)
    requires j + 4 <= out.Length
    modifies out
    ensures out[..j + 4] == old(out[..j]) + [a, b, c, d]
  {
    out[j], out[j + 1], out[j + 2], out[j + 3] := a, b, c, d;
  }

  // The data filled up with zeros to whole groups.
  function Filled(d: seq<byte>): (r: seq<byte>)
    ensures |r| % 3 == 0
  {
    if |d| % 3 == 1 then d + [0, 0] else if |d| % 3 == 2 then d + [0] else d
  }

  function Padding(n: nat): nat { if n % 3 == 0 then 0 else 3 - n % 3 }

  // A message is its whole groups and what is left of it.
  function Whole(d: seq<byte>): (r: seq<byte>)
    ensures |r| % 3 == 0
  {
    d[..|d| - |d| % 3]
  }

  function Rest(d: seq<byte>): (r: seq<byte>)
    ensures |r| == |d| % 3
  {
    d[|d| - |d| % 3..]
  }

  lemma WholeAndRest(d: seq<byte>)
    ensures Encode(d) == Encode(Whole(d)) + Encode(Rest(d))
  {
    hide Encode;
    assert d == Whole(d) + Rest(d);
    EncodeAppend(Whole(d), Rest(d));
  }

  lemma FilledParts(d: seq<byte>)
    ensures Encode(Filled(d)) == Encode(Whole(d)) +
      (if Rest(d) == [] then [] else Quad(Group(Rest(d)[0], At(Rest(d), 1), 0)))
  {
    hide Encode, Quad, Group;
    var w := Rest(d);
    assert d == Whole(d) + w;
    EncodeNothing();
    if w != [] {
      var g := [w[0], At(w, 1), 0];
      assert Filled(d) == Whole(d) + g;
      EncodeAppend(Whole(d), g);
      EncodeThree(w[0], At(w, 1), 0);
    } else {
      assert Filled(d) == Whole(d) && Encode(Whole(d)) + [] == Encode(Whole(d));
    }
  }

  lemma EncodeThree(a: byte, b: byte, c: byte)
    ensures Encode([a, b, c]) == Quad(Group(a, b, c))
  {
    hide Encode, Quad, Group;
    EncodeUnfold([a, b, c]);
    assert [a, b, c][3..] == [];
    assert Quad(Group(a, b, c)) + [] == Quad(Group(a, b, c));
  }

  // The encoding is that of the filled data with its last characters overwritten.
  lemma PaddingOverwrites(d: seq<byte>)
    ensures var raw, p := Encode(Filled(d)), Padding(|d|);
      |raw| == EncodedLength(|d|) && p <= |raw| && Encode(d) == raw[..|raw| - p] + seq(p, _ => PAD)
  {
    hide Encode, Quad, Group;
    WholeAndRest(d);
    FilledParts(d);
    EncodeLength(Filled(d));
    FilledLength(d);
    EncodeNothing();
    var head, p := Encode(Whole(d)), Padding(|d|);
    if Rest(d) == [] {
      assert head + [] == head && seq(0, _ => PAD) == [] && head[..|head|] == head;
    } else {
      LastPadded(Rest(d));
      Overwritten(head, Quad(Group(Rest(d)[0], At(Rest(d), 1), 0)), p);
    }
  }

  lemma FilledLength(d: seq<byte>)
    ensures EncodedLength(|Filled(d)|) == EncodedLength(|d|)
    ensures Padding(|d|) == if |Rest(d)| == 0 then 0 else 3 - |Rest(d)|
  {
    var k, r := |d| / 3, |d| % 3;
    DivMod(|d|, 3);
    assert |Filled(d)| == 3 * k + if r == 0 then 0 else 3;
    hide Filled;
    if r > 0 { assert (3 * k + 3 + 2) / 3 == k + 1 == (3 * k + r + 2) / 3; }
  }

  // A last group of one or two bytes.
  lemma LastPadded(w: seq<byte>)
    requires 1 <= |w| <= 2
    ensures Encode(w) == Quad(Group(w[0], At(w, 1), 0))[..1 + |w|] + seq(3 - |w|, _ => PAD)
  {
    hide Encode, Quad, Group;
    EncodeUnfold(w);
    assert seq(2, _ => PAD) == [PAD, PAD] && seq(1, _ => PAD) == [PAD];
  }

  lemma Overwritten(head: seq<byte>, q: seq<byte>, p: nat)
    requires p <= |q|
    ensures head + (q[..|q| - p] + seq(p, _ => PAD)) == (head + q)[..|head + q| - p] + seq(p, _ => PAD)
  {
    assert (head + q)[..|head + q| - p] == head + q[..|q| - p];
  }

  lemma GroupAppends(data: seq<byte>, i: nat)
    requires i < |data| && i % 3 == 0
    ensures var next := Next(i, |data|);
      && Encode(Filled(data[..next])) == Encode(data[..i]) + Quad(Group(data[i], At(data, i + 1), At(data, i + 2)))
      && EncodedLength(next) == EncodedLength(i) + 4 && Filled(data[..i]) == data[..i]
      && i < next <= |data| && (next % 3 == 0 || next == |data|)
  {
    hide Encode, Quad, Group;
    var next := Next(i, |data|);
    var w := Filled(data[..next]);
    var g := [data[i], At(data, i + 1), At(data, i + 2)];
    assert w == data[..i] + g;
    EncodeAppend(data[..i], g);
    EncodeUnfold(g);
    EncodeNothing();
    assert g[3..] == [];
    var q := Quad(Group(data[i], At(data, i + 1), At(data, i + 2)));
    assert q + [] == q;
  }

  function Next(i: nat, n: nat): nat { if i + 3 <= n then i + 3 else n }

  // The loop over the groups.
  method PutGroups(data: seq<byte>, out: array<byte>)
    requires EncodedLength(|data|) <= out.Length
    modifies out
    ensures out[..EncodedLength(|data|)] == Encode(Filled(data))
  {
    hide Encode, Quad, Group, EncodedLength, Filled, Next;
    EmptyEncoding();
    var i, j: nat := 0, 0;
    assert data[..0] == [];
    while i < |data|
      invariant i <= |data| && j == EncodedLength(i) <= out.Length && (i % 3 == 0 || i == |data|)
      invariant out[..j] == Encode(Filled(data[..i]))
    {
      GroupAppends(data, i);
      LengthGrows(Next(i, |data|), |data|);
      PutQuad(data, i, out, j);
      i, j := Next(i, |data|), j + 4;
    }
    assert data[..|data|] == data;
  }

  lemma EmptyEncoding()
    ensures EncodedLength(0) == 0 && Encode(Filled([])) == []
  {}

  // utils_base64encode
  method EncodeBlocks(data: seq<byte>, max: nat, out: array<byte>) returns (r: Result)
    requires EncodedLength(|data|) < 0x1_0000_0000 && max <= out.Length
    modifies out
    ensures r == if max < EncodedLength(|data|) then NoRoom else Ok(EncodedLength(|data|))
    ensures r.Ok? ==> out[..r.length] == Encode(data)
    ensures r.NoRoom? ==> out[..] == old(out[..])
  {
    hide Encode, Filled;
    var outputLength := 4 * ((|data| + 2) / 3);
    if max < outputLength { return NoRoom; }
    PutGroups(data, out);
    PaddingOverwrites(data);
    PutPads(out, outputLength, Padding(|data|));
    r := Ok(outputLength);
  }

  lemma LengthGrows(a: nat, b: nat)
    requires a <= b
    ensures EncodedLength(a) <= EncodedLength(b)
  {}

  // '=' over the last p characters.
  method PutPads(out: array<byte>, length: nat, p: nat)
    requires p <= length <= out.Length
    modifies out
    ensures out[..length] == old(out[..length - p]) + seq(p, _ => PAD)
  {
    for i := 0 to p
      invariant out[..length - p] == old(out[..length - p])
      invariant forall k :: length - i <= k < length ==> out[k] == PAD
    {
      out[length - 1 - i] := PAD;
    }
  }

  // ---------- utils_base64decode ----------

  // Four characters at i.
  method ReadTriple(data: seq<byte>, i: nat) returns (t: nat)
    requires i + 4 <= |data|
    ensures t == Triple(data[i], data[i + 1], data[i + 2], data[i + 3])
  {
    var a := if data[i] == PAD then 0 else Value(data[i]);
    var b := if data[i + 1] == PAD then 0 else Value(data[i + 1]);
    var c := if data[i + 2] == PAD then 0 else Value(data[i + 2]);
    var d := if data[i + 3] == PAD then 0 else Value(data[i + 3]);
    t := a * 0x4_0000 + b * 0x1000 + c * 64 + d;
  }

  // As many of three bytes as the output has room for.
  method PutBytes(t: nat, out: array<byte>, j: nat, limit: nat) returns (end: nat)
    requires j <= limit <= out.Length
    modifies out
    ensures end == (if j + 3 <= limit then j + 3 else limit)
    ensures out[..end] == old(out[..j]) + ThreeBytes(t)[..end - j]
  {
    end := j;
    if end < limit { out[end] := t / 0x1_0000 % 0x100; end := end + 1; }
    if end < limit { out[end] := t / 0x100 % 0x100; end := end + 1; }
    if end < limit { out[end] := t % 0x100; end := end + 1; }
  }

  lemma {:induction false} AllBytesSnoc(text: seq<byte>, i: nat)
    requires i % 4 == 0 && i + 4 <= |text|
    ensures AllBytes(text[..i + 4])
      == AllBytes(text[..i]) + ThreeBytes(Triple(text[i], text[i + 1], text[i + 2], text[i + 3]))
    decreases i
  {
    hide Triple, ThreeBytes;
    if i == 0 {
      assert text[..4][4..] == [] && AllBytes([]) == [] && text[..0] == [];
      var b := ThreeBytes(Triple(text[0], text[1], text[2], text[3]));
      assert b + [] == b && [] + b == b;
    } else {
      assert text[..i + 4][4..] == text[4..][..i] && text[..i][4..] == text[4..][..i - 4];
      AllBytesSnoc(text[4..], i - 4);
      var b, first := ThreeBytes(Triple(text[i], text[i + 1], text[i + 2], text[i + 3])),
        ThreeBytes(Triple(text[0], text[1], text[2], text[3]));
      assert first + (AllBytes(text[4..][..i - 4]) + b) == first + AllBytes(text[4..][..i - 4]) + b;
    }
  }

  function Least(a: nat, b: nat): nat { if a <= b then a else b }

  // The loop over the groups, as far as there is room.
  method PutAllBytes(data: seq<byte>, out: array<byte>, limit: nat)
    requires |data| % 4 == 0 && limit <= out.Length && limit <= |AllBytes(data)|
    modifies out
    ensures out[..limit] == AllBytes(data)[..limit]
  {
    hide AllBytes, Triple, ThreeBytes;
    AllBytesLength(data);
    AllBytesLength(data[..0]);
    var j: nat := 0;
    for k := 0 to |data| / 4
      invariant j == Least(3 * k, limit) && |AllBytes(data[..4 * k])| == 3 * k
      invariant out[..j] == AllBytes(data[..4 * k])[..j]
    {
      AllBytesSnoc(data, 4 * k);
      var t := ReadTriple(data, 4 * k);
      Cut(AllBytes(data[..4 * k]), ThreeBytes(t), j, limit);
      j := PutBytes(t, out, j, limit);
    }
    assert data[..4 * (|data| / 4)] == data;
  }

  lemma Cut(a: seq<byte>, b: seq<byte>, j: nat, limit: nat)
    requires j == Least(|a|, limit) && |b| == 3
    ensures var end := if j + 3 <= limit then j + 3 else limit;
      end == Least(|a| + 3, limit) && a[..j] + b[..end - j] == (a + b)[..end]
  {
    if limit <= |a| { assert b[..0] == []; }
  }

  // utils_base64decode; it looks at the last two characters, so the text is not empty.
  method DecodeText(data: seq<byte>, max: nat, out: array<byte>) returns (r: Result)
    requires data != [] && max <= out.Length
    modifies out
    ensures r == if |data| % 4 != 0 then BadLength else if max < OutputLength(data) then NoRoom else Ok(OutputLength(data))
    ensures r.Ok? ==> out[..r.length] == Decode(data)
    ensures !r.Ok? ==> out[..] == old(out[..])
  {
    hide AllBytes;
    if |data| % 4 != 0 { return BadLength; }
    var outputLength := |data| / 4 * 3;
    if data[|data| - 1] == PAD { outputLength := outputLength - 1; }
    if data[|data| - 2] == PAD { outputLength := outputLength - 1; }
    if max < outputLength { return NoRoom; }
    AllBytesLength(data);
    PutAllBytes(data, out, outputLength);
    r := Ok(outputLength);
  }

  // ---------- the bit accumulator of the HTTP client ----------

  // The letters of everything but the pending bits of d.
  function Sofar(d: seq<byte>): seq<byte> { Encode(Whole(d)) + LettersOf(Rest(d)) }

  function LettersOf(w: seq<byte>): seq<byte>
    requires |w| < 3
  {
    if w == [] then [] else Quad(Group(w[0], At(w, 1), 0))[..|w|]
  }

  function Power(l: nat): (p: nat)
    ensures p > 0
  {
    if l == 0 then 1 else 2 * Power(l - 1)
  }

  // The pending bits: 0, 2 or 4 of them.
  function Bits(n: nat): nat { n % 3 * 2 }

  // The letters that come out of an accumulator with l bits.
  function Drained(x: nat, l: nat): seq<byte> {
    if l < 6 then [] else [Letter(x / Power(l - 6) % 64)] + Drained(x, l - 6)
  }

  lemma DivModIs(n: nat, q: nat, r: nat)
    requires n == 64 * q + r && r < 64
    ensures n / 64 == q && n % 64 == r
  {
    ModIs(n, 64, q, r);
  }

  lemma QuadLetters(a: byte, b: byte, c: byte)
    ensures Quad(Group(a, b, c))
      == [Letter(a / 4), Letter(a % 4 * 16 + b / 16), Letter(b % 16 * 4 + c / 64), Letter(c % 64)]
  {
    hide Letter;
    var t := Group(a, b, c);
    var u: int := (a as int) * 0x400 + (b as int) * 4 + c / 64;
    var v: int := (a as int) * 16 + b / 16;
    DivModIs(t, u, c % 64);
    DivModIs(u, v, b % 16 * 4 + c / 64);
    DivModIs(v, a / 4, a % 4 * 16 + b / 16);
    DivTwice(t);
    hide Group;
  }

  lemma DivTwice(t: nat)
    ensures t / 64 / 64 == t / 0x1000 && t / 64 / 64 / 64 == t / 0x4_0000
  {}

  // What the next character adds to the letters.
  function Letters(d: seq<byte>, c: byte): seq<byte> {
    if |Rest(d)| == 0 then [Letter(c / 4)]
    else if |Rest(d)| == 1 then [Letter(Rest(d)[0] % 4 * 16 + c / 16)]
    else [Letter(Rest(d)[1] % 16 * 4 + c / 64), Letter(c % 64)]
  }

  lemma SofarSnoc(d: seq<byte>, c: byte)
    ensures Sofar(d + [c]) == Sofar(d) + Letters(d, c)
  {
    hide Encode, LettersOf, Letters, Whole, Rest, Quad, Group;
    var w, head := Rest(d), Encode(Whole(d));
    RestSnoc(d, c);
    WholeSnoc(d, c);
    LettersSnoc(d, c);
    Regroup(head, LettersOf(w), Letters(d, c));
    if |w| == 2 {
      EncodeAppend(Whole(d), w + [c]);
      Nothing(head + Encode(w + [c]));
    }
  }

  lemma Nothing(a: seq<byte>)
    ensures LettersOf([]) == [] && a + [] == a
  {}

  lemma RestSnoc(d: seq<byte>, c: byte)
    ensures Rest(d + [c]) == if |Rest(d)| == 2 then [] else Rest(d) + [c]
  {}

  lemma WholeSnoc(d: seq<byte>, c: byte)
    ensures Whole(d + [c]) == if |Rest(d)| == 2 then Whole(d) + (Rest(d) + [c]) else Whole(d)
  {
    assert Whole(d) + Rest(d) == d;
    if |Rest(d)| == 2 { assert Whole(d + [c]) == d + [c]; }
  }

  lemma LettersSnoc(d: seq<byte>, c: byte)
    ensures var w := Rest(d);
      LettersOf(w) + Letters(d, c) == if |w| == 2 then Encode(w + [c]) else LettersOf(w + [c])
  {
    hide Encode, Quad, Group, Letter;
    var w := Rest(d);
    if |w| == 0 {
      assert w + [c] == [c];
      QuadLetters(c, 0, 0);
    } else if |w| == 1 {
      assert w + [c] == [w[0], c];
      QuadLetters(w[0], 0, 0);
      QuadLetters(w[0], c, 0);
    } else {
      assert w + [c] == [w[0], w[1], c];
      EncodeThree(w[0], w[1], c);
      QuadLetters(w[0], w[1], 0);
      QuadLetters(w[0], w[1], c);
    }
  }

  // The low bits of the accumulator are the pending bits of d.
  predicate Pending(x: nat, d: seq<byte>) {
    && (|Rest(d)| == 1 ==> x % 4 == Rest(d)[0] % 4)
    && (|Rest(d)| == 2 ==> x % 16 == Rest(d)[1] % 16)
  }

  function Shifted(x: uint32, c: byte): uint32 { ((x as int) * 0x100 + c as int) % 0x1_0000_0000 }

  lemma ShiftedLow(x: uint32, c: byte)
    ensures Shifted(x, c) % 0x100 == c
    ensures Shifted(x, c) % 0x400 == (x % 4) * 0x100 + c as int
    ensures Shifted(x, c) % 0x1000 == (x % 16) * 0x100 + c as int
  {
    var y: int := (x as int) * 0x100 + c as int;
    DivMod(y, 0x1_0000_0000);
    DivMod(x, 4);
    DivMod(x, 16);
    var z, q := Shifted(x, c) as int, y / 0x1_0000_0000;
    assert z == y - 0x1_0000_0000 * q;
    hide Shifted;
    ModIs(z, 0x100, x as int - q * 0x100_0000, c);
    ModIs(z, 0x400, x / 4 - q * 0x40_0000, (x % 4) * 0x100 + c as int);
    ModIs(z, 0x1000, x / 16 - q * 0x10_0000, (x % 16) * 0x100 + c as int);
  }

  lemma Window(y: nat, m: nat)
    requires m > 0
    ensures y / m % 64 == y % (64 * m) / m
  {
    var k, r := y / (64 * m), y % (64 * m);
    assert y == (64 * m) * k + r == m * (64 * k) + r;
    var s, t := r / m, r % m;
    assert r == m * s + t;
    assert m * (64 * k + s) == m * (64 * k) + m * s;
    ModIs(y, m, 64 * k + s, t);
    assert s < 64;
    ModIs(64 * k + s, 64, k, s);
  }

  lemma Windows(y: nat)
    ensures y / 4 % 64 == y % 0x100 / 4 && y / 16 % 64 == y % 0x400 / 16 && y / 64 % 64 == y % 0x1000 / 64
    ensures y % 64 == y % 0x100 % 64
  {
    Window(y, 4);
    Window(y, 16);
    Window(y, 64);
    DivMod(y, 0x100);
    DivMod(y % 0x100, 64);
    ModIs(y, 64, 4 * (y / 0x100) + y % 0x100 / 64, y % 0x100 % 64);
  }

  lemma Powers()
    ensures Power(0) == 1 && Power(2) == 4 && Power(4) == 16 && Power(6) == 64
  {
    assert Power(1) == 2 && Power(3) == 8 && Power(5) == 32;
  }

  // One character more: its letters come out and the pending bits are again the low ones.
  lemma StepDrains(x: uint32, d: seq<byte>, c: byte)
    requires Pending(x, d)
    ensures Drained(Shifted(x, c), Bits(|d|) + 8) == Letters(d, c)
    ensures Pending(Shifted(x, c), d + [c])
  {
    var y, w := Shifted(x, c) as int, Rest(d);
    ShiftedLow(x, c);
    DrainedUnfold(y);
    RestSnoc(d, c);
    hide Shifted, Letter, Drained, Rest;
    if |w| == 0 { FirstStep(y, c); } else if |w| == 1 { SecondStep(y, x % 4, c); } else { ThirdStep(y, x % 16, c); }
  }

  lemma FirstStep(y: nat, c: byte)
    requires y % 0x100 == c
    ensures y / 4 % 64 == c / 4 && y % 4 == c % 4
  {
    Windows(y);
    DivMod(y, 0x100);
    DivMod(c, 4);
    ModIs(y, 4, 64 * (y / 0x100) + c / 4, c % 4);
  }

  lemma SecondStep(y: nat, a: nat, c: byte)
    requires y % 0x400 == a * 0x100 + c as int && a < 4
    ensures y / 16 % 64 == a * 16 + c / 16 && y % 16 == c % 16
  {
    Windows(y);
    DivMod(y, 0x400);
    DivMod(c, 16);
    ModIs(y, 16, 64 * (y / 0x400) + a * 16 + c / 16, c % 16);
    ModIs(a * 0x100 + c as int, 16, a * 16 + c / 16, c % 16);
  }

  lemma ThirdStep(y: nat, b: nat, c: byte)
    requires y % 0x1000 == b * 0x100 + c as int && b < 16 && y % 0x100 == c
    ensures y / 64 % 64 == b * 4 + c / 64 && y % 64 == c % 64
  {
    Windows(y);
    DivMod(c, 64);
    ModIs(b * 0x100 + c as int, 64, b * 4 + c / 64, c % 64);
  }

  lemma DrainedUnfold(y: nat)
    ensures Drained(y, 8) == [Letter(y / 4 % 64)] && Drained(y, 10) == [Letter(y / 16 % 64)]
    ensures Drained(y, 12) == [Letter(y / 64 % 64), Letter(y % 64)]
  {
    hide Letter;
    Powers();
    assert Drained(y, 2) == [] && Drained(y, 4) == [] && Drained(y, 0) == [];
    assert Drained(y, 6) == [Letter(y / 1 % 64)] + Drained(y, 0);
  }

  // The inner loop: letters as long as there are six bits.
  method Drain(x: nat, bits: nat, out: array<byte>, at: nat) returns (i: nat, l: nat)
    requires at + |Drained(x, bits)| <= out.Length
    modifies out
    ensures i == at + |Drained(x, bits)| && out[..i] == old(out[..at]) + Drained(x, bits)
    ensures l == bits % 6
  {
    hide Letter, Power;
    i, l := at, bits;
    while l >= 6
      invariant l % 6 == bits % 6 && i + |Drained(x, l)| == at + |Drained(x, bits)|
      invariant out[..i] + Drained(x, l) == old(out[..at]) + Drained(x, bits)
    {
      ghost var before := out[..i];
      out[i] := Letter(x / Power(l - 6) % 64);
      assert out[..i + 1] == before + [out[i]];
      Regroup(before, [out[i]], Drained(x, l - 6));
      i, l := i + 1, l - 6;
    }
  }

  // The bits that are left, and the padding.
  function Ending(d: seq<byte>): seq<byte> {
    if |Rest(d)| == 0 then []
    else if |Rest(d)| == 1 then [Letter(Rest(d)[0] % 4 * 16), PAD, PAD]
    else [Letter(Rest(d)[1] % 16 * 4), PAD]
  }

  lemma SofarEnds(d: seq<byte>)
    ensures Encode(d) == Sofar(d) + Ending(d)
    ensures |Sofar(d)| % 4 == |Rest(d)|
  {
    SofarLength(d);
    hide Encode, LettersOf, Whole, Rest, Ending;
    WholeAndRest(d);
    LastGroup(d);
    Regroup(Encode(Whole(d)), LettersOf(Rest(d)), Ending(d));
  }

  lemma SofarLength(d: seq<byte>)
    ensures |Sofar(d)| % 4 == |Rest(d)|
  {
    hide Encode, EncodedLength, Quad, Group;
    EncodeLength(Whole(d));
    LengthStep(|Whole(d)|);
  }

  lemma EndingIs(d: seq<byte>)
    ensures |Rest(d)| == 0 ==> Ending(d) == []
    ensures |Rest(d)| == 1 ==> Ending(d) == [Letter(Rest(d)[0] % 4 * 16), PAD, PAD]
    ensures |Rest(d)| == 2 ==> Ending(d) == [Letter(Rest(d)[1] % 16 * 4), PAD]
  {}

  lemma LastGroup(d: seq<byte>)
    ensures var w := Rest(d); Encode(w) == LettersOf(w) + Ending(d) && |LettersOf(w)| == |w|
  {
    hide Encode, Quad, Group, Letter;
    var w := Rest(d);
    EncodeNothing();
    EndingIs(d);
    if w != [] {
      EncodeUnfold(w);
      QuadLetters(w[0], At(w, 1), 0);
    }
  }

  lemma {:induction false} SofarGrows(d: seq<byte>, k: nat)
    requires k <= |d|
    ensures |Sofar(d[..k])| <= |Sofar(d)|
    decreases |d| - k
  {
    hide Sofar, Letters;
    if k < |d| {
      SofarSnoc(d[..k], d[k]);
      assert d[..k] + [d[k]] == d[..k + 1];
      SofarGrows(d, k + 1);
    } else {
      assert d[..k] == d;
    }
  }

  // Where char is signed, a character from 128 on fills everything above it with ones, the pending
  // bits of the character before it included: the bytes that are encoded then.
  function Overlaid(b: byte, pending: nat): (r: byte)
    ensures pending == 2 ==> r % 4 == 3 && r / 4 == b / 4
    ensures pending == 4 ==> r % 16 == 15 && r / 16 == b / 16
  {
    if pending == 2 then b / 4 * 4 + 3 else if pending == 4 then b / 16 * 16 + 15 else b
  }

  function Effective(text: seq<byte>, signed: bool): (e: seq<byte>)
    ensures |e| == |text|
  {
    seq(|text|, k requires 0 <= k < |text| =>
      if signed && k + 1 < |text| && text[k + 1] >= 128 then Overlaid(text[k], Bits(k + 1)) else text[k])
  }

  // What x << 8 | c is done with: a negative character has ones in all bits above its eight.
  function Above(x: uint32, c: byte, signed: bool): uint32 { if signed && c >= 128 then 0xFFFF_FFFF else x }

  // After k characters: the letters written, the accumulator and its bits.
  predicate Reached(text: seq<byte>, e: seq<byte>, k: nat, written: seq<byte>, x: uint32, l: nat)
    requires k <= |text| == |e|
  {
    l == Bits(k) && written == Sofar(e[..k]) && Pending(x, text[..k])
  }

  // The pending bits are left out of the letters.
  lemma LettersOfHigh(d: seq<byte>, c: byte, c': byte)
    requires |d| % 3 == 0 ==> c / 4 == c' / 4
    requires |d| % 3 == 1 ==> c / 16 == c' / 16
    requires |d| % 3 == 2 ==> c == c'
    ensures Letters(d, c) == Letters(d, c')
  {}

  lemma PendingEffective(text: seq<byte>, signed: bool, k: nat, x: uint32)
    requires k < |text| && Pending(x, text[..k])
    ensures Pending(Above(x, text[k], signed), Effective(text, signed)[..k])
  {
    var e := Effective(text, signed);
    if k % 3 != 0 {
      assert e[k - 1] == if signed && text[k] >= 128 then Overlaid(text[k - 1], Bits(k)) else text[k - 1];
      hide Overlaid, Effective;
      PendingIs(x, text[..k]);
      PendingIs(Above(x, text[k], signed), e[..k]);
    }
  }

  lemma PendingIs(x: uint32, d: seq<byte>)
    requires |d| % 3 != 0
    ensures Pending(x, d) <==>
      var last := d[|d| - 1]; if |d| % 3 == 1 then x % 4 == last % 4 else x % 16 == last % 16
  {}

  lemma PendingLast(x: uint32, d: seq<byte>, d': seq<byte>)
    requires |d| == |d'| && Pending(x, d) && (d != [] ==> d[|d| - 1] == d'[|d| - 1])
    ensures Pending(x, d')
  {}

  lemma EffectiveHigh(text: seq<byte>, signed: bool, k: nat)
    requires k < |text|
    ensures Letters(Effective(text, signed)[..k], text[k]) == Letters(Effective(text, signed)[..k], Effective(text, signed)[k])
    ensures k + 1 == |text| ==> Effective(text, signed)[k] == text[k]
  {
    hide Letters;
    LettersOfHigh(Effective(text, signed)[..k], text[k], Effective(text, signed)[k]);
  }

  lemma LettersNext(text: seq<byte>, signed: bool, k: nat, x: uint32)
    requires k < |text| && Pending(x, text[..k])
    ensures var e, y := Effective(text, signed), Shifted(Above(x, text[k], signed), text[k]);
      Sofar(e[..k + 1]) == Sofar(e[..k]) + Drained(y, Bits(k) + 8) && Pending(y, text[..k + 1])
  {
    hide Sofar, Letters, Pending, Drained, Shifted, Effective, Above, Bits;
    var e, x' := Effective(text, signed), Above(x, text[k], signed);
    PendingEffective(text, signed, k, x);
    EffectiveHigh(text, signed, k);
    LettersDrain(e[..k], e[k], text[k], x');
    TakeSnoc(e, k);
    PendingLast(Shifted(x', text[k]), e[..k] + [text[k]], text[..k + 1]);
  }

  lemma TakeSnoc(d: seq<byte>, k: nat)
    requires k < |d|
    ensures d[..k + 1] == d[..k] + [d[k]]
  {}

  lemma LettersDrain(d: seq<byte>, b: byte, c: byte, x: uint32)
    requires Pending(x, d) && Letters(d, c) == Letters(d, b)
    ensures Sofar(d + [b]) == Sofar(d) + Drained(Shifted(x, c), Bits(|d|) + 8)
    ensures Pending(Shifted(x, c), d + [c])
  {
    hide Sofar, Letters, Pending, Drained, Shifted, Bits;
    SofarSnoc(d, b);
    StepDrains(x, d, c);
  }

  lemma ReachedNext(text: seq<byte>, signed: bool, k: nat, written: seq<byte>, x: uint32, l: nat)
    requires k < |text| && Reached(text, Effective(text, signed), k, written, x, l)
    ensures var y := Shifted(Above(x, text[k], signed), text[k]);
      Reached(text, Effective(text, signed), k + 1, written + Drained(y, l + 8), y, (l + 8) % 6)
  {
    hide Sofar, Pending, Drained, Shifted, Effective, Above, Bits;
    LettersNext(text, signed, k, x);
    NextBits(k);
  }

  lemma ReachedFits(text: seq<byte>, e: seq<byte>, k: nat, written: seq<byte>, x: uint32, l: nat)
    requires k <= |text| == |e| && Reached(text, e, k, written, x, l)
    ensures |written| <= EncodedLength(|text|)
  {
    hide Sofar, Pending, Encode, Ending, EncodedLength, Bits;
    SofarGrows(e, k);
    SofarEnds(e);
    EncodeLength(e);
  }

  lemma NextBits(k: nat)
    ensures Bits(k + 1) == (Bits(k) + 8) % 6
  {
    assert (k + 1) % 3 == if k % 3 == 2 then 0 else k % 3 + 1;
  }

  // httpclient_base64enc, on a terminated string, where char may be signed.
  method EncodeString(text: seq<byte>, signed: bool, out: array<byte>)
    requires forall k :: 0 <= k < |text| ==> text[k] != 0
    requires EncodedLength(|text|) < out.Length
    modifies out
    ensures out[..EncodedLength(|text|) + 1] == Encode(Effective(text, signed)) + [0]
  {
    hide Reached, Drained, Shifted, Encode, EncodedLength, Effective, Above;
    ghost var e := Effective(text, signed);
    var i: nat, x: uint32, l: nat := 0, 0, 0;
    NothingSofar(text, e);
    assert out[..0] == [];
    for k := 0 to |text|
      invariant i < out.Length && Reached(text, e, k, out[..i], x, l)
    {
      ReachedNext(text, signed, k, out[..i], x, l);
      x := ShiftIn(x, text[k], signed);
      ReachedFits(text, e, k + 1, out[..i] + Drained(x, l + 8), x, (l + 8) % 6);
      i, l := Drain(x, l + 8, out, i);
    }
    ReachedAll(text, signed, out[..i], x, l);
    EndString(e, x, l, out, i);
  }

  method ShiftIn(acc: uint32, c: byte, signed: bool) returns (x: uint32)
    ensures x == Shifted(Above(acc, c, signed), c)
  {
    if signed && c >= 128 {
      x := 0xFFFF_FF00 + c as int;
    } else {
      x := ((acc as int) * 0x100 + c as int) % 0x1_0000_0000;
    }
  }

  lemma ReachedAll(text: seq<byte>, signed: bool, written: seq<byte>, x: uint32, l: nat)
    requires var e := Effective(text, signed); Reached(text, e, |e|, written, x, l)
    ensures var e := Effective(text, signed); Reached(e, e, |e|, written, x, l)
  {
    hide Pending, Sofar;
    assert text[..|text|] == text;
    if text != [] { EffectiveHigh(text, signed, |text| - 1); }
    PendingLast(x, text, Effective(text, signed)[..|text|]);
  }

  // Are the pending bits before each character from 128 on ones anyway?
  predicate OnesBefore(text: seq<byte>) {
    forall k :: 0 < k < |text| && text[k] >= 128 ==>
      (k % 3 == 1 ==> text[k - 1] % 4 == 3) && (k % 3 == 2 ==> text[k - 1] % 16 == 15)
  }

  lemma EffectiveSame(text: seq<byte>)
    ensures Effective(text, true) == text <==> OnesBefore(text)
    ensures Effective(text, false) == text
  {
    hide Effective;
    if Effective(text, true) == text {
      forall k | 0 < k < |text| && text[k] >= 128
        ensures (k % 3 == 1 ==> text[k - 1] % 4 == 3) && (k % 3 == 2 ==> text[k - 1] % 16 == 15)
      {
        EffectiveAt(text, k - 1);
      }
    }
    if OnesBefore(text) {
      forall k | 0 <= k < |text| ensures Effective(text, true)[k] == text[k] { EffectiveAt(text, k); }
    }
    forall k | 0 <= k < |text| ensures Effective(text, false)[k] == text[k] { EffectiveAt(text, k); }
  }

  // One byte comes out unchanged exactly if the next is below 128 or its pending bits are ones.
  lemma EffectiveAt(text: seq<byte>, k: nat)
    requires k < |text|
    ensures Effective(text, true)[k] == text[k] <==>
      (k + 1 < |text| && text[k + 1] >= 128 ==>
        ((k + 1) % 3 == 1 ==> text[k] % 4 == 3) && ((k + 1) % 3 == 2 ==> text[k] % 16 == 15))
    ensures Effective(text, false)[k] == text[k]
  {
    hide Overlaid;
    OverlaidSame(text[k], Bits(k + 1));
  }

  // With a signed char the output encodes the string exactly then.
  lemma SignedExactly(text: seq<byte>)
    requires text != []
    ensures Encode(Effective(text, true)) == Encode(text) <==> OnesBefore(text)
    ensures Effective(text, false) == text
  {
    hide Encode, Decode, OnesBefore, Effective;
    EffectiveSame(text);
    RoundTrip(text);
    RoundTrip(Effective(text, true));
  }

  lemma OverlaidSame(b: byte, pending: nat)
    ensures Overlaid(b, pending) == b <==> (pending == 2 ==> b % 4 == 3) && (pending == 4 ==> b % 16 == 15)
  {}

  lemma NothingSofar(text: seq<byte>, e: seq<byte>)
    requires |text| == |e|
    ensures Reached(text, e, 0, [], 0, 0)
  {
    assert text[..0] == [] && e[..0] == [];
  }

  // What the end of the text needs.
  lemma ReachedEnd(text: seq<byte>, written: seq<byte>, x: uint32, l: nat)
    requires Reached(text, text, |text|, written, x, l)
    ensures l == 2 * |Rest(text)| && |written| % 4 == |Rest(text)| && Encode(text) == written + Ending(text)
    ensures |Encode(text)| == EncodedLength(|text|)
    ensures (|written| + |Ending(text)|) % 4 == 0 && |Ending(text)| < 4
    ensures l == 0 ==> Ending(text) == []
    ensures l > 0 ==>
      var y := if l == 2 then (x as int) * 16 else (x as int) * 4;
      |Ending(text)| > 1 && Ending(text) == [Letter(y % 64)] + seq(|Ending(text)| - 1, _ => PAD)
  {
    hide Sofar, Encode, EncodedLength, Letter, Ending;
    assert text[..|text|] == text;
    SofarEnds(text);
    EncodeLength(text);
    FlushBits(x);
    EndingIs(text);
    assert seq(2, _ => PAD) == [PAD, PAD] && seq(1, _ => PAD) == [PAD];
  }

  // The flush, the padding to a multiple of four, and the terminator.
  method EndString(ghost text: seq<byte>, x: uint32, l: nat, out: array<byte>, at: nat)
    requires EncodedLength(|text|) < out.Length && at < out.Length && Reached(text, text, |text|, out[..at], x, l)
    modifies out
    ensures out[..EncodedLength(|text|) + 1] == Encode(text) + [0]
  {
    hide Encode, EncodedLength, Letter, Ending, Reached, Rest;
    ReachedEnd(text, out[..at], x, l);
    ghost var written, end := out[..at], Ending(text);
    var i := at;
    if l > 0 {
      var y := if l == 2 then (x as int) * 16 else (x as int) * 4;
      out[i] := Letter(y % 64);
      i := i + 1;
      assert out[..i] == written + [Letter(y % 64)];
    }
    i := PutPadding(out, i, at + |end|);
    assert out[..i] == written + end;
    out[i] := 0;
  }

  // '=' up to a multiple of four.
  method PutPadding(out: array<byte>, at: nat, ghost stop: nat) returns (i: nat)
    requires stop % 4 == 0 && at <= stop < at + 4 && stop <= out.Length
    modifies out
    ensures i == stop && out[..i] == old(out[..at]) + seq(stop - at, _ => PAD)
  {
    i := at;
    while i % 4 != 0
      invariant at <= i <= stop < i + 4 && out[..i] == old(out[..at]) + seq(i - at, _ => PAD)
      decreases stop - i
    {
      NextStop(i, stop);
      ghost var before := out[..i];
      out[i] := PAD;
      assert out[..i + 1] == before + [PAD];
      assert seq(i + 1 - at, _ => PAD) == seq(i - at, _ => PAD) + [PAD];
      i := i + 1;
    }
    NextStop(i, stop);
  }

  lemma NextStop(i: nat, stop: nat)
    requires stop % 4 == 0 && i <= stop < i + 4
    ensures i % 4 == 0 <==> i == stop
  {}

  lemma FlushBits(x: uint32)
    ensures (x as int) * 16 % 64 == x % 4 * 16 && (x as int) * 4 % 64 == x % 16 * 4
  {
    DivMod(x, 4);
    DivMod(x, 16);
    ModIs((x as int) * 16, 64, x / 4, x % 4 * 16);
    ModIs((x as int) * 4, 64, x / 16, x % 16 * 4);
  }

  // ---------- section 10 of RFC 4648 ----------

  // Table 1: the upper-case letters, the lower-case ones and the digits in order, + and /.
  lemma LetterTable(v: nat)
    requires v < 64
    ensures Letter(0) == 65 && Letter(25) == 90 && Letter(26) == 97 && Letter(51) == 122
    ensures Letter(52) == 48 && Letter(61) == 57 && Letter(62) == 43 && Letter(63) == 47
    ensures v < 61 && v != 25 && v != 51 ==> Letter(v + 1) == Letter(v) + 1
  {}

  lemma FooQuads()
    ensures Quad(Group(102, 0, 0)) == [90, 103, 65, 65] && Quad(Group(102, 111, 0)) == [90, 109, 56, 65]
    ensures Quad(Group(102, 111, 111)) == [90, 109, 57, 118] && Quad(Group(98, 0, 0)) == [89, 103, 65, 65]
    ensures Quad(Group(98, 97, 0)) == [89, 109, 69, 65] && Quad(Group(98, 97, 114)) == [89, 109, 70, 121]
  {
    hide Quad, Group;
    QuadLetters(102, 0, 0);
    QuadLetters(102, 111, 0);
    QuadLetters(102, 111, 111);
    QuadLetters(98, 0, 0);
    QuadLetters(98, 97, 0);
    QuadLetters(98, 97, 114);
  }

  // f, fo, foo, foob, fooba, foobar
  lemma TestVectors()
    ensures Encode([102]) == [90, 103, 61, 61] && Encode([102, 111]) == [90, 109, 56, 61]
    ensures Encode([102, 111, 111]) == [90, 109, 57, 118]
    ensures Encode([102, 111, 111, 98]) == [90, 109, 57, 118, 89, 103, 61, 61]
    ensures Encode([102, 111, 111, 98, 97]) == [90, 109, 57, 118, 89, 109, 69, 61]
    ensures Encode([102, 111, 111, 98, 97, 114]) == [90, 109, 57, 118, 89, 109, 70, 121]
  {
    hide Encode, Quad, Group;
    FooQuads();
    var f: seq<byte>, b: seq<byte>, ba: seq<byte> := [102], [98], [98, 97];
    EncodeUnfold(f);
    EncodeUnfold([102, 111]);
    EncodeThree(102, 111, 111);
    EncodeUnfold(b);
    EncodeUnfold(ba);
    EncodeThree(98, 97, 114);
    assert [102, 111, 111] + b == [102, 111, 111, 98] && [102, 111, 111] + ba == [102, 111, 111, 98, 97];
    assert [102, 111, 111] + [98, 97, 114] == [102, 111, 111, 98, 97, 114];
    AfterFoo(b);
    AfterFoo(ba);
    AfterFoo([98, 97, 114]);
  }

  lemma AfterFoo(d: seq<byte>)
    ensures Encode([102, 111, 111] + d) == [90, 109, 57, 118] + Encode(d)
  {
    hide Encode, Quad, Group;
    FooQuads();
    EncodeThree(102, 111, 111);
    EncodeAppend([102, 111, 111], d);
  }
}
