/** The data points of iotx_datapoint_api.c: a table of typed properties, its upload as a string of
    records, and what a receiver with the same definitions makes of it. Numbers are integers. */
module DataPoints {
  import opened Arithmetic
  import opened Bytes

  const MAGIC: byte := 0x31
  const LAST_UPLOADED: uint16 := 0x3F00
  const RESET_ID: uint16 := 0x7F80
  const GETALL_ID: uint16 := 0x7F81

  type int32 = x: int | -0x8000_0000 <= x < 0x8000_0000

  datatype Permission = UpOnly | DownOnly | UpDown

  datatype Flag = Old | New

  datatype Value = Truth(b: bool) | Number(n: int32) | Choice(e: int32) | Text(s: seq<byte>) | Blob(s: seq<byte>)

  // min and max belong to numbers.
  datatype Property = Property(
    dpID: uint16, permission: Permission, value: Value, min: int32, max: int32, change: bool, flag: Flag)

  predicate SameType(a: Value, b: Value) {
    a.Truth? == b.Truth? && a.Number? == b.Number? && a.Choice? == b.Choice? && a.Text? == b.Text? && a.Blob? == b.Blob?
  }

  // ---------- writing a property ----------

  function Clamp(n: int32, min: int32, max: int32): int32 {
    if n < min then min else if n > max then max else n
  }

  // The value kept for v: numbers are forced into their range, unless they equal the old one.
  function Stored(p: Property, v: Value): Value
    requires SameType(p.value, v)
  {
    if v.Number? && p.value != v then Number(Clamp(v.n, p.min, p.max)) else v
  }

  // A write by the user, or by the platform. The user's repetition of a value withdraws the change.
  function Written(p: Property, v: Value, user: bool): Property {
    if !SameType(p.value, v) then p
    else p.(value := Stored(p, v), change := p.value != v || !user, flag := if user then Old else New)
  }

  // getPropertyIndex, with the table's length for -1
  function Find(ps: seq<Property>, id: uint16): (k: nat)
    ensures k <= |ps| && forall j :: 0 <= j < k ==> ps[j].dpID != id
    ensures k < |ps| ==> ps[k].dpID == id
  {
    if ps == [] || ps[0].dpID == id then 0 else 1 + Find(ps[1..], id)
  }

  function WriteTo(ps: seq<Property>, id: uint16, v: Value, user: bool): (r: seq<Property>)
    ensures |r| == |ps|
  {
    var k := Find(ps, id);
    if k < |ps| then ps[k := Written(ps[k], v, user)] else ps
  }

  // ---------- records ----------

  // Ids and lengths: one byte below 0x80, else two with the top bit set.
  function Put15(n: uint16): seq<byte> {
    if n < 0x80 then [n] else [if n < 0x8000 then n / 0x100 + 0x80 else n / 0x100, n % 0x100]
  }

  function Unsigned(n: int32): uint32 { if n < 0 then n + 0x1_0000_0000 else n }

  function Signed(v: uint32): int32 { if v < 0x8000_0000 then v else v - 0x1_0000_0000 }

  // A number in four, two or one byte, with its length.
  function PutNumber(n: int32): seq<byte> {
    var v := Unsigned(n);
    if v >= 0x1_0000 then [4, v / 0x100_0000, v / 0x1_0000 % 0x100, v / 0x100 % 0x100, v % 0x100]
    else if v >= 0x100 then [2, v / 0x100, v % 0x100]
    else [1, v]
  }

  function PutValue(v: Value): seq<byte>
    requires v.Text? || v.Blob? ==> |v.s| < 0x1_0000
  {
    match v
    case Truth(b) => [0, 1, if b then 1 else 0]
    case Number(n) => [1] + PutNumber(n)
    case Choice(e) => [2, 1, Unsigned(e) % 0x100]
    case Text(s) => [3] + Put15(|s|) + s
    case Blob(s) => [4] + Put15(|s|) + s
  }

  function Record(p: Property): seq<byte>
    requires Storable(p.value)
  {
    Put15(p.dpID) + PutValue(p.value)
  }

  // Strings and binaries as the table can hold them.
  predicate Storable(v: Value) {
    match v
    case Text(s) => |s| < 0x1_0000 && 0 !in s
    case Blob(s) => |s| < 0x1_0000
    case _ => true
  }

  predicate Uploaded(p: Property, all: bool) {
    p.permission != DownOnly && p.dpID <= LAST_UPLOADED && (all || p.change)
  }

  predicate AllStorable(ps: seq<Property>, all: bool) {
    forall k :: 0 <= k < |ps| && Uploaded(ps[k], all) ==> Storable(ps[k].value)
  }

  function Records(ps: seq<Property>, all: bool, k: nat): seq<byte>
    requires k <= |ps| && AllStorable(ps, all)
    decreases |ps| - k
  {
    if k == |ps| then []
    else (if Uploaded(ps[k], all) then Record(ps[k]) else []) + Records(ps, all, k + 1)
  }

  // ---------- parsing ----------

  datatype Got<T> = Got(v: T, next: nat) | Beyond

  function Get15(b: seq<byte>, i: nat): (g: Got<uint16>)
    ensures g.Got? ==> i < g.next <= |b|
  {
    if i >= |b| then Beyond
    else if b[i] < 0x80 then Got(b[i], i + 1)
    else if i + 1 >= |b| then Beyond
    else Got((b[i] as int - 0x80) * 0x100 + b[i + 1] as int, i + 2)
  }

  // Any length byte but 2, 3 and 4 stands for one byte.
  function GetNumber(b: seq<byte>, i: nat): (g: Got<uint32>)
    ensures g.Got? ==> i < g.next <= |b|
  {
    if i >= |b| then Beyond
    else
      var n := if 2 <= b[i] <= 4 then b[i] else 1;
      if i + 1 + n > |b| then Beyond
      else BigBound(b[i + 1..i + 1 + n]); Got(NetworkOrder(b[i + 1..i + 1 + n]), i + 1 + n)
  }

  lemma {:induction false} BigBound(w: seq<byte>)
    requires |w| <= 4
    ensures NetworkOrder(w) < 0x1_0000_0000
    ensures |w| < 4 ==> NetworkOrder(w) < 0x100_0000
    ensures |w| < 3 ==> NetworkOrder(w) < 0x1_0000
    ensures |w| < 2 ==> NetworkOrder(w) < 0x100
  {
    if w != [] { BigBound(w[..|w| - 1]); }
  }

  // strlen
  function CString(s: seq<byte>): seq<byte> {
    if s == [] || s[0] == 0 then [] else [s[0]] + CString(s[1..])
  }

  function GetBytes(b: seq<byte>, i: nat): (g: Got<seq<byte>>)
    ensures g.Got? ==> i < g.next <= |b|
  {
    var n := Get15(b, i);
    if n.Beyond? || n.next + n.v > |b| then Beyond else Got(b[n.next..n.next + n.v], n.next + n.v)
  }

  function Wrap32(n: int): int32 { Signed(n % 0x1_0000_0000) }

  datatype Outcome = Parsed(ps: seq<Property>, next: nat) | Undefined

  // The data part of a record. A number for an unknown id looks outside the table.
  function ParseValue(ps: seq<Property>, id: uint16, kind: byte, b: seq<byte>, i: nat): (o: Outcome)
    requires i <= |b|
    ensures o.Parsed? ==> i <= o.next <= |b| && |o.ps| == |ps|
  {
    if kind == 0 then
      if i + 2 > |b| then Undefined else Parsed(WriteTo(ps, id, Truth(b[i + 1] != 0), false), i + 2)
    else if kind == 1 then
      var g := GetNumber(b, i);
      var k := Find(ps, id);
      if g.Beyond? || k == |ps| then Undefined
      else Parsed(WriteTo(ps, id, Number(Wrap32(Signed(g.v) + ps[k].min)), false), g.next)
    else if kind == 2 then
      var g := GetNumber(b, i);
      if g.Beyond? then Undefined else Parsed(WriteTo(ps, id, Choice(Signed(g.v)), false), g.next)
    else if kind == 3 then
      var g := GetBytes(b, i);
      if g.Beyond? then Undefined else Parsed(WriteTo(ps, id, Text(CString(g.v)), false), g.next)
    else if kind == 4 then
      var g := GetBytes(b, i);
      if g.Beyond? then Undefined else Parsed(WriteTo(ps, id, Blob(g.v), false), g.next)
    else Parsed(ps, i)
  }

  function ParseRecord(ps: seq<Property>, b: seq<byte>, i: nat): (o: Outcome)
    ensures o.Parsed? ==> i < o.next <= |b| && |o.ps| == |ps|
  {
    var id := Get15(b, i);
    if id.Beyond? || id.next >= |b| then Undefined
    else ParseValue(ps, id.v, b[id.next], b, id.next + 1)
  }

  // Record after record to the end of the payload.
  function ParseFrom(ps: seq<Property>, b: seq<byte>, i: nat): Outcome
    decreases |b| - i
  {
    if i >= |b| then Parsed(ps, i)
    else
      match ParseRecord(ps, b, i)
      case Undefined => Undefined
      case Parsed(next, j) => ParseFrom(next, b, j)
  }

  function Parse(ps: seq<Property>, b: seq<byte>): Outcome {
    if b == [] || b[0] != MAGIC then Parsed(ps, 0) else ParseFrom(ps, b, 1)
  }

  // ---------- what arrives ----------

  // A value on arrival at a property with that minimum, which is added though it was not subtracted.
  function Incoming(v: Value, min: int32): Value {
    match v
    case Number(n) => Number(Wrap32(n + min))
    case Choice(e) => Choice(Unsigned(e) % 0x100)
    case _ => v
  }

  function Delivered(s: Property, r: Property): Property { Written(r, Incoming(s.value, r.min), false) }

  predicate SameDefinition(s: Property, r: Property) {
    s.dpID == r.dpID && s.min == r.min && s.max == r.max && SameType(s.value, r.value)
  }

  // When the received value is the one that was sent: what is added wraps at 32 bits, and what then
  // lies outside the range is clamped unless the receiver already holds it.
  predicate Exact(s: Property, r: Property)
    requires SameDefinition(s, r)
  {
    match s.value
    case Number(n) =>
      var arriving := Wrap32(n + s.min);
      if s.min == 0 then r.value.n == n || 0 <= n <= s.max
      else r.value.n != arriving && if arriving < s.min then n == s.min else arriving > s.max && n == s.max
    case Choice(e) => 0 <= e < 0x100
    case _ => true
  }

  lemma Wrap32Is(n: int)
    requires -0x8000_0000 <= n < 0x8000_0000
    ensures Wrap32(n) == n
  {
    if n >= 0 { ModIs(n, 0x1_0000_0000, 0, n); } else { ModIs(n, 0x1_0000_0000, -1, n + 0x1_0000_0000); }
  }

  // A delivered record is new and changed, and carries the sender's value exactly then; no value,
  // range or minimum is excluded.
  lemma DeliveredExactly(s: Property, r: Property)
    requires SameDefinition(s, r)
    ensures var d := Delivered(s, r);
      d.change && d.flag == New && d.dpID == r.dpID && (d.value == s.value <==> Exact(s, r))
  {
    hide Wrap32;
    if s.value.Number? {
      if s.min == 0 { Wrap32Is(s.value.n); } else { Wrap32Moves(s.value.n, s.min); }
    }
    if s.value.Choice? { ByteOf(s.value.e); }
  }

  // A minimum other than zero never adds up to nothing, not even by wrapping.
  lemma Wrap32Moves(n: int32, min: int32)
    requires min != 0
    ensures Wrap32(n + min) != n
  {
    var m := n + min;
    DivMod(m, 0x1_0000_0000);
    assert Wrap32(m) == m - 0x1_0000_0000 * (m / 0x1_0000_0000) || Wrap32(m) == m - 0x1_0000_0000 * (m / 0x1_0000_0000 + 1);
  }

  predicate InRange(p: Property) { p.value.Number? ==> p.min <= p.value.n <= p.max }

  // For numbers within their range on both sides, and sums within 32 bits: the minimum is zero, or
  // clamping happens to undo it.
  lemma ExactInRange(s: Property, r: Property)
    requires SameDefinition(s, r) && s.value.Number? && InRange(s) && InRange(r)
    requires -0x8000_0000 <= s.value.n + s.min < 0x8000_0000
    ensures Exact(s, r) <==>
      s.min == 0 || (s.min > 0 && s.value.n == s.max) || (s.min < 0 && s.value.n == s.min)
  {
    hide Wrap32;
    Wrap32Is(s.value.n + s.min);
  }

  lemma ByteOf(e: int32)
    ensures Unsigned(e) % 0x100 == e <==> 0 <= e < 0x100
  {}

  // ---------- the round trip ----------

  // The receiver's table when the sender's first k properties have arrived.
  function Merged(s: seq<Property>, r: seq<Property>, all: bool, k: nat): (m: seq<Property>)
    requires |s| == |r|
    ensures |m| == |r|
    ensures forall i :: 0 <= i < |r| ==> m[i] == if i < k && Uploaded(s[i], all) then Delivered(s[i], r[i]) else r[i]
  {
    seq(|r|, i requires 0 <= i < |r| => if i < k && Uploaded(s[i], all) then Delivered(s[i], r[i]) else r[i])
  }

  predicate DistinctIds(ps: seq<Property>) { forall i, j :: 0 <= i < j < |ps| ==> ps[i].dpID != ps[j].dpID }

  predicate SameTables(s: seq<Property>, r: seq<Property>) {
    |s| == |r| && DistinctIds(s) && forall k :: 0 <= k < |s| ==> SameDefinition(s[k], r[k])
  }

  // Two-byte lengths have fifteen bits.
  predicate Short(v: Value) { v.Text? || v.Blob? ==> |v.s| < 0x8000 }

  predicate AllShort(ps: seq<Property>, all: bool) {
    forall k :: 0 <= k < |ps| && Uploaded(ps[k], all) ==> Short(ps[k].value)
  }

  lemma Get15Inverts(b: seq<byte>, i: nat, n: uint16)
    requires n < 0x8000 && StartsWith(b, i, Put15(n))
    ensures Get15(b, i) == Got(n, i + |Put15(n)|)
  {
    var w := Put15(n);
    ItemAt<byte>(b, i, w, 0);
    if n >= 0x80 { ItemAt<byte>(b, i, w, 1); }
  }

  lemma GetNumberInverts(b: seq<byte>, i: nat, n: int32)
    requires StartsWith(b, i, PutNumber(n))
    ensures GetNumber(b, i) == Got(Unsigned(n), i + |PutNumber(n)|)
  {
    hide NetworkOrder;
    var w, v := PutNumber(n), Unsigned(n);
    ItemAt<byte>(b, i, w, 0);
    assert b[i + 1..i + |w|] == w[1..] by { Split<byte>(b, i, w[..1], w[1..]); assert w == w[..1] + w[1..]; }
    if v >= 0x1_0000 {
      assert w[1..] == [v / 0x100_0000, v / 0x1_0000 % 0x100, v / 0x100 % 0x100, v % 0x100];
      OfBytes(v / 0x100_0000, v / 0x1_0000 % 0x100, v / 0x100 % 0x100, v % 0x100);
      FourBytes(v);
    } else if v >= 0x100 {
      assert w[1..] == [v / 0x100, v % 0x100];
      OfBytes(v / 0x100, v % 0x100, 0, 0);
    } else {
      assert w[1..] == [v];
      OfBytes(v, 0, 0, 0);
    }
  }

  lemma GetBytesInverts(b: seq<byte>, i: nat, w: seq<byte>)
    requires |w| < 0x8000 && StartsWith(b, i, Put15(|w|) + w)
    ensures GetBytes(b, i) == Got(w, i + |Put15(|w|)| + |w|)
  {
    hide Put15, Get15;
    Split<byte>(b, i, Put15(|w|), w);
    Get15Inverts(b, i, |w|);
  }

  lemma {:induction false} CStringWhole(s: seq<byte>)
    requires 0 !in s
    ensures CString(s) == s
  {
    if s != [] { CStringWhole(s[1..]); }
  }

  lemma SignedInverts(n: int32)
    ensures Signed(Unsigned(n)) == n
  {}

  // What the receiver's table becomes by a record of p.
  function Arrived(ps: seq<Property>, p: Property): seq<Property> {
    var k := Find(ps, p.dpID);
    WriteTo(ps, p.dpID, Incoming(p.value, if k < |ps| then ps[k].min else 0), false)
  }

  lemma ValueInverts(ps: seq<Property>, p: Property, b: seq<byte>, i: nat)
    requires Storable(p.value) && Short(p.value) && (p.value.Number? ==> Find(ps, p.dpID) < |ps|)
    requires i < |b| && b[i] == PutValue(p.value)[0] && StartsWith(b, i + 1, PutValue(p.value)[1..])
    ensures ParseValue(ps, p.dpID, b[i], b, i + 1) == Parsed(Arrived(ps, p), i + |PutValue(p.value)|)
  {
    hide PutValue, ParseValue, Arrived, Find, Put15, PutNumber, Unsigned;
    PutValueParts(p.value);
    PutValueStarts(p.value);
    var w := PutValue(p.value);
    assert |w| == 1 + |w[1..]|;
    match p.value
    case Number(n) => NumberInverts(ps, p, b, i + 1);
    case Text(t) => TextInverts(ps, p, b, i + 1);
    case Blob(t) => BlobInverts(ps, p, b, i + 1);
    case Truth(t) => TruthInverts(ps, p, b, i + 1);
    case Choice(e) => ChoiceInverts(ps, p, b, i + 1);
  }

  lemma PutValueParts(v: Value)
    requires Storable(v)
    ensures v.Truth? ==> PutValue(v)[0] == 0 && PutValue(v)[1..] == [1, if v.b then 1 else 0]
    ensures v.Truth? || v.Choice? ==> |PutValue(v)| == 3
    ensures v.Number? ==> PutValue(v)[0] == 1 && PutValue(v)[1..] == PutNumber(v.n)
    ensures v.Choice? ==> PutValue(v)[0] == 2 && PutValue(v)[1..] == [1, Unsigned(v.e) % 0x100]
    ensures v.Text? ==> |v.s| < 0x1_0000 && PutValue(v)[0] == 3 && PutValue(v)[1..] == Put15(|v.s|) + v.s
    ensures v.Blob? ==> |v.s| < 0x1_0000 && PutValue(v)[0] == 4 && PutValue(v)[1..] == Put15(|v.s|) + v.s
  {
    hide PutNumber, Put15, Unsigned;
    match v {
      case Truth(b) => assert PutValue(v)[1..] == [1, if b then 1 else 0];
      case Number(n) => assert PutValue(v)[1..] == PutNumber(n);
      case Choice(e) => assert PutValue(v)[1..] == [1, Unsigned(e) % 0x100];
      case Text(s) => assert PutValue(v)[1..] == Put15(|s|) + s;
      case Blob(s) => assert PutValue(v)[1..] == Put15(|s|) + s;
    }
  }

  lemma NumberInverts(ps: seq<Property>, p: Property, b: seq<byte>, i: nat)
    requires p.value.Number? && Find(ps, p.dpID) < |ps| && StartsWith(b, i, PutNumber(p.value.n))
    ensures ParseValue(ps, p.dpID, 1, b, i) == Parsed(Arrived(ps, p), i + |PutNumber(p.value.n)|)
  {
    hide Find, WriteTo, GetNumber, PutNumber, Wrap32, Unsigned, Signed;
    GetNumberInverts(b, i, p.value.n);
    SignedInverts(p.value.n);
  }

  lemma TextInverts(ps: seq<Property>, p: Property, b: seq<byte>, i: nat)
    requires p.value.Text? && Storable(p.value) && Short(p.value)
    requires StartsWith(b, i, Put15(|p.value.s|) + p.value.s)
    ensures ParseValue(ps, p.dpID, 3, b, i) == Parsed(Arrived(ps, p), i + |Put15(|p.value.s|) + p.value.s|)
  {
    hide Find, WriteTo, GetBytes, Put15, CString;
    GetBytesInverts(b, i, p.value.s);
    CStringWhole(p.value.s);
  }

  lemma BlobInverts(ps: seq<Property>, p: Property, b: seq<byte>, i: nat)
    requires p.value.Blob? && Storable(p.value) && Short(p.value)
    requires StartsWith(b, i, Put15(|p.value.s|) + p.value.s)
    ensures ParseValue(ps, p.dpID, 4, b, i) == Parsed(Arrived(ps, p), i + |Put15(|p.value.s|) + p.value.s|)
  {
    hide Find, WriteTo, GetBytes, Put15;
    GetBytesInverts(b, i, p.value.s);
  }

  lemma TruthInverts(ps: seq<Property>, p: Property, b: seq<byte>, i: nat)
    requires p.value.Truth? && StartsWith(b, i, [1, if p.value.b then 1 else 0])
    ensures ParseValue(ps, p.dpID, 0, b, i) == Parsed(Arrived(ps, p), i + 2)
  {
    hide Find, WriteTo;
    ItemAt<byte>(b, i, [1, if p.value.b then 1 else 0], 1);
  }

  lemma ChoiceInverts(ps: seq<Property>, p: Property, b: seq<byte>, i: nat)
    requires p.value.Choice? && StartsWith(b, i, [1, Unsigned(p.value.e) % 0x100])
    ensures ParseValue(ps, p.dpID, 2, b, i) == Parsed(Arrived(ps, p), i + 2)
  {
    hide Find, WriteTo, GetNumber, Unsigned, Signed;
    ByteNumber(b, i, Unsigned(p.value.e) % 0x100);
  }

  lemma ByteNumber(b: seq<byte>, i: nat, v: byte)
    requires StartsWith(b, i, [1, v])
    ensures GetNumber(b, i) == Got(v, i + 2) && Signed(v) == v
  {
    hide NetworkOrder;
    ItemAt<byte>(b, i, [1, v], 0);
    ItemAt<byte>(b, i, [1, v], 1);
    OfBytes(v, 0, 0, 0);
    assert b[i + 1..i + 2] == [v];
  }

  // Parsing a record of p writes what p arrives as, and ends behind it.
  lemma RecordInverts(ps: seq<Property>, p: Property, b: seq<byte>, i: nat)
    requires p.dpID < 0x8000 && Storable(p.value) && Short(p.value)
    requires p.value.Number? ==> Find(ps, p.dpID) < |ps|
    requires StartsWith(b, i, Record(p))
    ensures ParseRecord(ps, b, i) == Parsed(Arrived(ps, p), i + |Record(p)|)
  {
    hide ParseValue, PutValue, Put15, Get15, Arrived, Find, StartsWith, Storable;
    var head, w := Put15(p.dpID), PutValue(p.value);
    PutValueStarts(p.value);
    Split<byte>(b, i, head, w);
    Get15Inverts(b, i, p.dpID);
    FirstAndRest(b, i + |head|, w);
    ValueInverts(ps, p, b, i + |head|);
  }

  lemma FirstAndRest(b: seq<byte>, i: nat, w: seq<byte>)
    requires StartsWith(b, i, w) && w != []
    ensures i < |b| && b[i] == w[0] && StartsWith(b, i + 1, w[1..])
  {
    ItemAt<byte>(b, i, w, 0);
    assert w == [w[0]] + w[1..];
    Split<byte>(b, i, [w[0]], w[1..]);
  }

  lemma PutValueStarts(v: Value)
    requires Storable(v)
    ensures PutValue(v) != []
  {}

  lemma FindIs(ps: seq<Property>, k: nat)
    requires k < |ps| && DistinctIds(ps)
    ensures Find(ps, ps[k].dpID) == k
  {
    hide Find;
    var j := Find(ps, ps[k].dpID);
    assert j <= k;
  }

  // One more property of the sender arrives at its place.
  lemma MergedStep(s: seq<Property>, r: seq<Property>, all: bool, k: nat)
    requires SameTables(s, r) && k < |s|
    ensures Find(Merged(s, r, all, k), s[k].dpID) == k
    ensures Merged(s, r, all, k + 1) ==
      if Uploaded(s[k], all) then Arrived(Merged(s, r, all, k), s[k]) else Merged(s, r, all, k)
  {
    hide Find, Incoming, Uploaded;
    var m := Merged(s, r, all, k);
    forall i | 0 <= i < |m| ensures m[i].dpID == s[i].dpID {}
    FindIs(m, k);
    assert m[k] == r[k];
  }

  // A payload of all the sender's uploads, parsed with the same definitions: every uploaded record
  // arrives at its property, the others are untouched, and nothing of the payload is left.
  lemma RoundTrip(s: seq<Property>, r: seq<Property>, all: bool)
    requires SameTables(s, r) && AllStorable(s, all) && AllShort(s, all)
    ensures var b := [MAGIC] + Records(s, all, 0);
      Parse(r, b) == Parsed(Merged(s, r, all, |s|), |b|)
  {
    hide Records, ParseFrom;
    var b := [MAGIC] + Records(s, all, 0);
    assert b[1..|b|] == Records(s, all, 0);
    assert Merged(s, r, all, 0) == r;
    RestParses(s, r, all, 0, b, 1);
  }

  lemma {:induction false} RestParses(s: seq<Property>, r: seq<Property>, all: bool, k: nat, b: seq<byte>, i: nat)
    requires SameTables(s, r) && AllStorable(s, all) && AllShort(s, all) && k <= |s|
    requires StartsWith(b, i, Records(s, all, k)) && i + |Records(s, all, k)| == |b|
    ensures ParseFrom(Merged(s, r, all, k), b, i) == Parsed(Merged(s, r, all, |s|), |b|)
    decreases |s| - k
  {
    hide Record, Records, ParseRecord, Merged, Arrived, SameDefinition, DistinctIds, Find;
    RecordsUnfold(s, all, k);
    if k < |s| {
      MergedStep(s, r, all, k);
      if Uploaded(s[k], all) {
        RecordNotEmpty(s[k]);
        Split<byte>(b, i, Record(s[k]), Records(s, all, k + 1));
        RecordInverts(Merged(s, r, all, k), s[k], b, i);
        RestParses(s, r, all, k + 1, b, i + |Record(s[k])|);
      } else {
        assert [] + Records(s, all, k + 1) == Records(s, all, k + 1);
        RestParses(s, r, all, k + 1, b, i);
      }
    }
  }

  lemma RecordNotEmpty(p: Property)
    requires Storable(p.value)
    ensures Record(p) != []
  {}

  // What a transfer comes to: the sender's values, new and changed, where the sender uploads and the
  // value survives; the rest of the table as it was.
  lemma Transfer(s: seq<Property>, r: seq<Property>, all: bool, k: nat)
    requires SameTables(s, r) && AllStorable(s, all) && AllShort(s, all) && k < |s|
    ensures var b := [MAGIC] + Records(s, all, 0);
      var o := Parse(r, b);
      && o.Parsed? && o.next == |b| && |o.ps| == |r|
      && if Uploaded(s[k], all) then
           o.ps[k].change && o.ps[k].flag == New && (o.ps[k].value == s[k].value <==> Exact(s[k], r[k]))
         else o.ps[k] == r[k]
  {
    hide Parse, Records, Exact, Delivered;
    RoundTrip(s, r, all);
    DeliveredExactly(s[k], r[k]);
  }

  // A value of 20 in a range from 10 to 100 arrives as 30.
  lemma MinimumAdded(p: Property)
    requires p.value == Number(20) && p.min == 10 && p.max == 100
    ensures Delivered(p, p).value == Number(30) && !Exact(p, p)
  {
    hide Wrap32;
    Wrap32Is(30);
  }

  // ---------- runs of user writes ----------

  datatype UserWrite = UserWrite(id: uint16, v: Value)

  function UserRun(ps: seq<Property>, ws: seq<UserWrite>): (r: seq<Property>)
    ensures |r| == |ps|
    decreases |ws|
  {
    if ws == [] then ps else UserRun(WriteTo(ps, ws[0].id, ws[0].v, true), ws[1..])
  }

  function WritesTo(ws: seq<UserWrite>, id: uint16): nat {
    if ws == [] then 0 else (if ws[0].id == id then 1 else 0) + WritesTo(ws[1..], id)
  }

  // A property after n user writes of the same value.
  function Repeated(p: Property, v: Value, n: nat): Property
    decreases n
  {
    if n == 0 then p else Repeated(Written(p, v, true), v, n - 1)
  }

  lemma WriteToOther(ps: seq<Property>, id: uint16, v: Value, k: nat)
    requires k < |ps| && Find(ps, ps[k].dpID) == k
    ensures var r := WriteTo(ps, id, v, true);
      && r[k].dpID == ps[k].dpID && Find(r, r[k].dpID) == k
      && r[k] == if id == ps[k].dpID then Written(ps[k], v, true) else ps[k]
  {
    hide Find;
    var r := WriteTo(ps, id, v, true);
    assert forall i :: 0 <= i < |ps| ==> r[i].dpID == ps[i].dpID;
    var j := Find(r, r[k].dpID);
    assert j <= k;
  }

  lemma {:induction false} UserRunAt(ps: seq<Property>, ws: seq<UserWrite>, k: nat, v: Value)
    requires k < |ps| && Find(ps, ps[k].dpID) == k
    requires forall i :: 0 <= i < |ws| && ws[i].id == ps[k].dpID ==> ws[i].v == v
    ensures UserRun(ps, ws)[k] == Repeated(ps[k], v, WritesTo(ws, ps[k].dpID))
    decreases |ws|
  {
    hide Find, WriteTo, Written;
    if ws != [] {
      WriteToOther(ps, ws[0].id, ws[0].v, k);
      assert forall i :: 0 <= i < |ws[1..]| ==> ws[1..][i] == ws[i + 1];
      UserRunAt(WriteTo(ps, ws[0].id, ws[0].v, true), ws[1..], k, v);
    }
  }

  // From the second write on nothing moves any more.
  lemma {:induction false} RepeatedSettles(p: Property, v: Value, n: nat)
    requires SameType(p.value, v) && n >= 2
    ensures var q := Repeated(p, v, n);
      q.change <==> p.value != v && v.Number? && !(p.min <= v.n <= p.max)
    decreases n
  {
    var q := Written(p, v, true);
    if n == 2 {
      assert Repeated(p, v, 2) == Repeated(q, v, 1) == Repeated(Written(q, v, true), v, 0);
    } else {
      RepeatedSettles(q, v, n - 1);
    }
  }

  // The value that a property holds after a run of user writes to the table.
  function Held(p: Property, ws: seq<UserWrite>): (v: Value)
    ensures SameType(p.value, v)
    decreases |ws|
  {
    if ws == [] then p.value
    else
      var n := |ws| - 1;
      var q := p.(value := Held(p, ws[..n]));
      if Meant(p, ws[n]) then Stored(q, ws[n].v) else q.value
  }

  predicate Meant(p: Property, w: UserWrite) { w.id == p.dpID && SameType(p.value, w.v) }

  // The last write meant for the property, or none.
  function LastMeant(p: Property, ws: seq<UserWrite>): (i: int)
    ensures -1 <= i < |ws| && (i >= 0 ==> Meant(p, ws[i]))
    ensures forall j :: i < j < |ws| ==> !Meant(p, ws[j])
    decreases |ws|
  {
    if ws == [] then -1 else if Meant(p, ws[|ws| - 1]) then |ws| - 1 else LastMeant(p, ws[..|ws| - 1])
  }

  lemma {:induction false} RunSnoc(ps: seq<Property>, ws: seq<UserWrite>, w: UserWrite)
    ensures UserRun(ps, ws + [w]) == WriteTo(UserRun(ps, ws), w.id, w.v, true)
    decreases |ws|
  {
    hide WriteTo;
    if ws == [] {
      assert [w][1..] == [] && ws + [w] == [w];
    } else {
      assert (ws + [w])[1..] == ws[1..] + [w];
      RunSnoc(WriteTo(ps, ws[0].id, ws[0].v, true), ws[1..], w);
    }
  }

  // In any run of user writes, to any properties, of any values: the change flag is set exactly if the last
  // write meant for the property brought a value other than the one held before it. Without one it stays.
  lemma {:induction false} LastWriteDecides(ps: seq<Property>, ws: seq<UserWrite>, k: nat)
    requires k < |ps| && Find(ps, ps[k].dpID) == k
    ensures var p, q, i := ps[k], UserRun(ps, ws)[k], LastMeant(ps[k], ws);
      && q == p.(value := Held(p, ws), change := q.change, flag := if i < 0 then p.flag else Old)
      && (q.change <==> if i < 0 then p.change else Held(p, ws[..i]) != ws[i].v)
      && SameType(p.value, q.value) && Find(UserRun(ps, ws), p.dpID) == k
    decreases |ws|
  {
    hide Find, Stored, UserRun;
    if ws == [] {
      assert UserRun(ps, []) == ps by { RunNothing(ps); }
    } else {
      var n := |ws| - 1;
      LastWriteDecides(ps, ws[..n], k);
      assert ws == ws[..n] + [ws[n]];
      RunSnoc(ps, ws[..n], ws[n]);
      WriteToOther(UserRun(ps, ws[..n]), ws[n].id, ws[n].v, k);
      StoredKeepsType(UserRun(ps, ws[..n])[k], ws[n].v);
      var i := LastMeant(ps[k], ws);
      if i >= 0 { assert ws[..n][..i] == ws[..i] || i == n; }
    }
  }

  lemma RunNothing(ps: seq<Property>)
    ensures UserRun(ps, []) == ps
  {}

  lemma StoredKeepsType(p: Property, v: Value)
    ensures SameType(p.value, v) ==>
      SameType(p.value, Stored(p, v)) && forall q: Property :: q.value == p.value && q.min == p.min && q.max == p.max ==> Stored(q, v) == Stored(p, v)
  {}

  // Among writes to other properties, writes of one value to this one: the first write of a value that
  // differs sets the change flag; every repetition withdraws it, except for a number that was out of
  // range when it first came.
  lemma {:induction false} RepetitionClears(ps: seq<Property>, ws: seq<UserWrite>, k: nat, v: Value)
    requires k < |ps| && Find(ps, ps[k].dpID) == k && SameType(ps[k].value, v)
    requires forall i :: 0 <= i < |ws| && ws[i].id == ps[k].dpID ==> ws[i].v == v
    ensures var q, n := UserRun(ps, ws)[k], WritesTo(ws, ps[k].dpID);
      && (n == 0 ==> q == ps[k])
      && (n == 1 ==> (q.change <==> ps[k].value != v))
      && (n >= 2 ==> (q.change <==> ps[k].value != v && v.Number? && !(ps[k].min <= v.n <= ps[k].max)))
  {
    hide UserRun, WritesTo, Find;
    var n := WritesTo(ws, ps[k].dpID);
    UserRunAt(ps, ws, k, v);
    if n >= 2 { RepeatedSettles(ps[k], v, n); }
    if n == 1 { assert Repeated(ps[k], v, 1) == Repeated(Written(ps[k], v, true), v, 0); }
  }

  // ---------- the table ----------

  datatype Action = Nothing | Reboot | SendAllPoints

  // IOT_DataPoint_ReadBool: the flag, which is then old.
  function Seen(ps: seq<Property>, id: uint16): seq<Property> {
    var k := Find(ps, id);
    if k < |ps| then ps[k := ps[k].(flag := Old)] else ps
  }

  predicate IsNew(ps: seq<Property>, id: uint16) {
    var k := Find(ps, id);
    k < |ps| && ps[k].flag == New
  }

  // What follows a payload: the two system points are looked at.
  function Acted(ps: seq<Property>): (seq<Property>, Action) {
    var reset := Seen(ps, RESET_ID);
    if IsNew(ps, RESET_ID) then (reset, Reboot)
    else (Seen(reset, GETALL_ID), if IsNew(reset, GETALL_ID) then SendAllPoints else Nothing)
  }

  // An id or a length.
  method PutShort(buffer: array<byte>, at: nat, n: uint16) returns (index: nat)
    requires at + |Put15(n)| <= buffer.Length
    modifies buffer
    ensures index == at + |Put15(n)| && buffer[..index] == old(buffer[..at]) + Put15(n)
  {
    index := at;
    if n < 0x80 {
      buffer[index] := n;
      index := index + 1;
    } else {
      var high := n / 0x100;
      buffer[index] := if high < 0x80 then high + 0x80 else high;
      index := index + 1;
      buffer[index] := n % 0x100;
      index := index + 1;
    }
  }

  // The number's length byte and bytes.
  method PutInteger(buffer: array<byte>, at: nat, n: int32) returns (index: nat)
    requires at + |PutNumber(n)| <= buffer.Length
    modifies buffer
    ensures index == at + |PutNumber(n)| && buffer[..index] == old(buffer[..at]) + PutNumber(n)
  {
    var value := Unsigned(n);
    if value / 0x1_0000 != 0 {
      index := Copy(buffer, at, [4, value / 0x100_0000 % 0x100, value / 0x1_0000 % 0x100, value / 0x100 % 0x100, value % 0x100]);
    } else if value / 0x100 != 0 {
      index := Copy(buffer, at, [2, value / 0x100 % 0x100, value % 0x100]);
    } else {
      index := Copy(buffer, at, [1, value % 0x100]);
    }
  }

  // A length and the bytes.
  method PutBytes(buffer: array<byte>, at: nat, kind: byte, s: seq<byte>) returns (index: nat)
    requires |s| < 0x1_0000 && at + 1 + |Put15(|s|)| + |s| <= buffer.Length
    modifies buffer
    ensures index == at + 1 + |Put15(|s|)| + |s|
    ensures buffer[..index] == old(buffer[..at]) + ([kind] + Put15(|s|) + s)
  {
    hide Put15;
    ghost var was := buffer[..at];
    index := Copy(buffer, at, [kind]);
    index := PutShort(buffer, index, |s|);
    Regroup(was, [kind], Put15(|s|));
    index := Copy(buffer, index, s);
    Regroup(was, [kind] + Put15(|s|), s);
  }

  // intoyunFormDataPointBinary
  method FormDataPoint(p: Property, buffer: array<byte>, at: nat) returns (index: nat)
    requires Storable(p.value) && at + |Record(p)| <= buffer.Length
    modifies buffer
    ensures index == at + |Record(p)| && buffer[..index] == old(buffer[..at]) + Record(p)
  {
    hide Put15, PutValue;
    ghost var was := buffer[..at];
    index := PutShort(buffer, at, p.dpID);
    index := FormValue(p.value, buffer, index);
    Regroup(was, Put15(p.dpID), PutValue(p.value));
  }

  // The switch on the type: type, length and data.
  method FormValue(v: Value, buffer: array<byte>, at: nat) returns (index: nat)
    requires Storable(v) && at + |PutValue(v)| <= buffer.Length
    modifies buffer
    ensures index == at + |PutValue(v)| && buffer[..index] == old(buffer[..at]) + PutValue(v)
  {
    hide Put15, PutNumber;
    match v {
      case Truth(b) => index := Copy(buffer, at, [0, 1, if b then 1 else 0]);
      case Number(n) =>
        ghost var was := buffer[..at];
        index := Copy(buffer, at, [1]);
        index := PutInteger(buffer, index, n);
        Regroup(was, [1], PutNumber(n));
      case Choice(e) => index := Copy(buffer, at, [2, 1, Unsigned(e) % 0x100]);
      case Text(s) => index := PutBytes(buffer, at, 3, s);
      case Blob(s) => index := PutBytes(buffer, at, 4, s);
    }
  }

  lemma RecordsUnfold(ps: seq<Property>, all: bool, k: nat)
    requires k <= |ps| && AllStorable(ps, all)
    ensures k == |ps| ==> Records(ps, all, k) == []
    ensures k < |ps| && Uploaded(ps[k], all) ==> Records(ps, all, k) == Record(ps[k]) + Records(ps, all, k + 1)
    ensures k < |ps| && !Uploaded(ps[k], all) ==> Records(ps, all, k) == Records(ps, all, k + 1)
  {
    hide Record, Uploaded;
  }

  class Table {
    var properties: seq<Property>

    // getPropertyIndex
    method Index(id: uint16) returns (index: int)
      ensures index == if Find(properties, id) < |properties| then Find(properties, id) else -1
    {
      for i := 0 to |properties|
        invariant forall j :: 0 <= j < i ==> properties[j].dpID != id
      {
        if properties[i].dpID == id { return i; }
      }
      index := -1;
    }

    // writeDatapointBool, NumberInt32, Enum, String and Binary, which differ in the value only.
    method Write(id: uint16, v: Value, user: bool)
      modifies this
      ensures properties == WriteTo(old(properties), id, v, user)
    {
      hide Find;
      var index := Index(id);
      if index == -1 { return; }
      var p := properties[index];
      if !SameType(p.value, v) { return; }
      if p.value != v {
        p := p.(change := true, flag := if user then Old else New);
        if v.Number? {
          var tmp := v.n;
          if tmp < p.min { tmp := p.min; } else if tmp > p.max { tmp := p.max; }
          p := p.(value := Number(tmp));
        } else {
          p := p.(value := v);
        }
      } else if user {
        p := p.(change := false, flag := Old);
      } else {
        p := p.(change := true, flag := New);
      }
      properties := properties[index := p];
    }

    // intoyunFormAllDatapoint
    method FormAll(buffer: array<byte>, all: bool) returns (index: nat)
      requires AllStorable(properties, all) && 1 + |Records(properties, all, 0)| <= buffer.Length
      modifies buffer
      ensures index == 1 + |Records(properties, all, 0)|
      ensures buffer[..index] == [MAGIC] + Records(properties, all, 0)
    {
      hide Records, Record;
      buffer[0] := MAGIC;
      index := 1;
      ghost var whole := Records(properties, all, 0);
      assert buffer[..1] == [MAGIC];
      for i := 0 to |properties|
        invariant index + |Records(properties, all, i)| == 1 + |whole|
        invariant buffer[..index] + Records(properties, all, i) == [MAGIC] + whole
      {
        RecordsUnfold(properties, all, i);
        var p := properties[i];
        if p.permission != DownOnly && !(p.dpID > LAST_UPLOADED) && (all || p.change) {
          ghost var before, rest := buffer[..index], Records(properties, all, i + 1);
          index := FormDataPoint(p, buffer, index);
          assert before + (Record(p) + rest) == before + Record(p) + rest;
        }
      }
      RecordsUnfold(properties, all, |properties|);
      assert buffer[..index] + [] == buffer[..index];
    }

    // IOT_DataPoint_SendAll, for a payload that fits its 512-byte buffer.
    method SendAll() returns (payload: seq<byte>)
      requires AllStorable(properties, true) && 1 + |Records(properties, true, 0)| <= 512
      modifies this
      ensures payload == if old(properties) == [] then [] else [MAGIC] + Records(old(properties), true, 0)
      ensures |properties| == |old(properties)|
      ensures forall k :: 0 <= k < |properties| ==> properties[k] == old(properties)[k].(change := false)
    {
      payload := [];
      if |properties| == 0 { return; }
      var buffer := new byte[512];
      var len := FormAll(buffer, true);
      payload := buffer[..len];
      properties := seq(|properties|, k requires 0 <= k < |properties| reads this => properties[k].(change := false));
    }

    // The fields of a record: id and type.
    method ParseOne(b: seq<byte>, i: nat) returns (ok: bool, next: nat)
      requires i < |b|
      modifies this
      ensures ok == ParseRecord(old(properties), b, i).Parsed?
      ensures ok ==> Parsed(properties, next) == ParseRecord(old(properties), b, i)
    {
      hide ParseValue, Find;
      var dpID: int := b[i];
      next := i + 1;
      if dpID >= 0x80 {
        if next >= |b| { return false, next; }
        dpID := (dpID - 0x80) * 0x100 + b[next];
        next := next + 1;
      }
      if next >= |b| { return false, next; }
      ok, next := ParseData(dpID, b[next], b, next + 1);
    }

    method ParseData(id: uint16, kind: byte, b: seq<byte>, i: nat) returns (ok: bool, next: nat)
      requires i <= |b|
      modifies this
      ensures ok == ParseValue(old(properties), id, kind, b, i).Parsed?
      ensures ok ==> Parsed(properties, next) == ParseValue(old(properties), id, kind, b, i)
    {
      hide Find, WriteTo, GetNumber, GetBytes, CString, Wrap32;
      ok, next := true, i;
      if kind == 0 {
        if i + 2 > |b| { return false, i; }
        Write(id, Truth(b[i + 1] != 0), false);
        next := i + 2;
      } else if kind == 1 {
        var value;
        ok, value, next := ReadNumber(b, i);
        if !ok { return; }
        var index := Index(id);
        if index == -1 { return false, next; }
        Write(id, Number(Wrap32(Signed(value) + properties[index].min)), false);
      } else if kind == 2 {
        var value;
        ok, value, next := ReadNumber(b, i);
        if !ok { return; }
        Write(id, Choice(Signed(value)), false);
      } else if kind == 3 || kind == 4 {
        var value;
        ok, value, next := ReadBytes(b, i);
        if !ok { return; }
        Write(id, if kind == 3 then Text(CString(value)) else Blob(value), false);
      }
    }

    // IOT_DataPoint_ParseReceiveDatapoints; ok is false where the source reads outside the payload
    // or the table.
    method ParseReceived(b: seq<byte>) returns (ok: bool, action: Action)
      modifies this
      ensures ok == Parse(old(properties), b).Parsed?
      ensures ok && b != [] && b[0] == MAGIC ==>
        (properties, action) == Acted(Parse(old(properties), b).ps)
      ensures b == [] || b[0] != MAGIC ==> properties == old(properties) && action == Nothing
    {
      hide ParseRecord, Find;
      ok, action := true, Nothing;
      if b == [] || b[0] != MAGIC { return; }
      var i: nat := 1;
      while i < |b|
        invariant 1 <= i && ParseFrom(properties, b, i) == ParseFrom(old(properties), b, 1)
        decreases |b| - i
      {
        ghost var was := properties;
        ok, i := ParseOne(b, i);
        if !ok { return; }
      }
      action := Look();
    }

    // The two system points.
    method Look() returns (action: Action)
      modifies this
      ensures (properties, action) == Acted(old(properties))
    {
      hide Find;
      var isNew := ReadFlag(RESET_ID);
      if isNew { return Reboot; }
      isNew := ReadFlag(GETALL_ID);
      action := if isNew then SendAllPoints else Nothing;
    }

    // IOT_DataPoint_ReadBool
    method ReadFlag(id: uint16) returns (isNew: bool)
      modifies this
      ensures properties == Seen(old(properties), id) && isNew == IsNew(old(properties), id)
    {
      hide Find;
      var index := Index(id);
      if index == -1 { return false; }
      isNew := properties[index].flag == New;
      properties := properties[index := properties[index].(flag := Old)];
    }
  }

  method ReadNumber(b: seq<byte>, i: nat) returns (ok: bool, value: uint32, next: nat)
    ensures ok == GetNumber(b, i).Got?
    ensures ok ==> GetNumber(b, i) == Got(value, next)
  {
    ok, value, next := false, 0, i;
    if i >= |b| { return; }
    var n: nat := if 2 <= b[i] <= 4 then b[i] else 1;
    if i + 1 + n > |b| { return; }
    ghost var w := b[i + 1..i + 1 + n];
    hide NetworkOrder;
    next := i + 1;
    value := 0;
    assert NetworkOrder(w[..0]) == 0 by { OfNothing(); }
    while next < i + 1 + n
      invariant i + 1 <= next <= i + 1 + n && value == NetworkOrder(w[..next - i - 1])
    {
      NextBig(w, next - i - 1);
      var longer: int := (value as int) * 0x100 + b[next] as int;
      value := longer;
      next := next + 1;
    }
    assert w[..n] == w;
    ok := true;
  }

  lemma NextBig(w: seq<byte>, k: nat)
    requires k < |w| <= 4
    ensures NetworkOrder(w[..k + 1]) == NetworkOrder(w[..k]) * 0x100 + w[k] as int < 0x1_0000_0000
  {
    OfSnoc(w[..k], w[k]);
    assert w[..k + 1] == w[..k] + [w[k]];
    BigBound(w[..k + 1]);
  }

  method ReadBytes(b: seq<byte>, i: nat) returns (ok: bool, value: seq<byte>, next: nat)
    ensures ok == GetBytes(b, i).Got?
    ensures ok ==> GetBytes(b, i) == Got(value, next)
  {
    ok, value, next := false, [], i;
    if next >= |b| { return; }
    var dataLength: int := b[next];
    next := next + 1;
    if dataLength >= 0x80 {
      if next >= |b| { return; }
      dataLength := (dataLength - 0x80) * 0x100 + b[next];
      next := next + 1;
    }
    if next + dataLength > |b| { return; }
    value := b[next..next + dataLength];
    next := next + dataLength;
    ok := true;
  }
}
