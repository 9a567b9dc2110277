/** Data-point payloads byte by byte, and what the two system points make the device do. */
module DataPointWire {
  import opened Arithmetic
  import opened Bytes
  import opened DataPoints

  // Id, type, length and data of each type: ids and lengths below 0x80 take one byte, and two with the top
  // bit set from there on; numbers take one, two or four bytes, the high byte first, negative ones all four.
  lemma RecordBytes(p: Property)
    requires Storable(p.value)
    ensures p.dpID == 5 && p.value == Truth(true) ==> Record(p) == [5, 0, 1, 1]
    ensures p.dpID == 0x123 && p.value == Truth(false) ==> Record(p) == [0x81, 0x23, 0, 1, 0]
    ensures p.dpID == 0x9234 && p.value == Truth(false) ==> Record(p) == [0x92, 0x34, 0, 1, 0]
    ensures p.dpID == 5 && p.value == Number(7) ==> Record(p) == [5, 1, 1, 7]
    ensures p.dpID == 5 && p.value == Number(300) ==> Record(p) == [5, 1, 2, 1, 44]
    ensures p.dpID == 5 && p.value == Number(0x11223344) ==> Record(p) == [5, 1, 4, 0x11, 0x22, 0x33, 0x44]
    ensures p.dpID == 5 && p.value == Number(-2) ==> Record(p) == [5, 1, 4, 255, 255, 255, 254]
    ensures p.dpID == 5 && p.value == Choice(3) ==> Record(p) == [5, 2, 1, 3]
    ensures p.dpID == 5 && p.value == Text([72, 105]) ==> Record(p) == [5, 3, 2, 72, 105]
    ensures p.dpID == 5 && p.value == Blob([0, 9]) ==> Record(p) == [5, 4, 2, 0, 9]
  {}

  // An upload takes the points up to 0x3F00 that are not for downloading only: all, or the changed ones.
  lemma UploadTakes(p: Property, all: bool)
    ensures Uploaded(p, all) <==>
      (p.permission == UpOnly || p.permission == UpDown) && p.dpID <= 0x3F00 && (all || p.change)
  {}

  // ---------- the system points ----------

  // A table that has both, as truth values that have been read.
  predicate HasSystemPoints(ps: seq<Property>) {
    && Find(ps, 0x7F80) < |ps| && ps[Find(ps, 0x7F80)].value.Truth? && ps[Find(ps, 0x7F80)].flag == Old
    && Find(ps, 0x7F81) < |ps| && ps[Find(ps, 0x7F81)].value.Truth? && ps[Find(ps, 0x7F81)].flag == Old
  }

  lemma WriteKeepsIds(ps: seq<Property>, id: uint16, v: Value, other: uint16)
    ensures Find(WriteTo(ps, id, v, false), other) == Find(ps, other)
  {
    var r := WriteTo(ps, id, v, false);
    assert forall k :: 0 <= k < |ps| ==> r[k].dpID == ps[k].dpID;
    var i, j := Find(r, other), Find(ps, other);
    assert i == j;
  }

  lemma SystemRecord(ps: seq<Property>, id: uint16, x: byte)
    requires id == 0x7F80 || id == 0x7F81
    ensures Parse(ps, [0x31, 0xFF, id % 0x100, 0, 1, x]) == Parsed(WriteTo(ps, id, Truth(x != 0), false), 6)
  {
    hide WriteTo;
    var b: seq<byte> := [0x31, 0xFF, id % 0x100, 0, 1, x];
    assert Get15(b, 1) == Got(id, 3);
    assert ParseRecord(ps, b, 1) == Parsed(WriteTo(ps, id, Truth(x != 0), false), 6);
    hide ParseRecord;
    assert ParseFrom(WriteTo(ps, id, Truth(x != 0), false), b, 6) == Parsed(WriteTo(ps, id, Truth(x != 0), false), 6);
  }

  // The platform's write to 0x7F80 reboots the device and its write to 0x7F81 makes it send everything,
  // whatever the value; once, for the point has been read then. Without a write nothing happens.
  lemma PlatformAsks(ps: seq<Property>, id: uint16, x: byte)
    requires HasSystemPoints(ps) && (id == 0x7F80 || id == 0x7F81)
    ensures var o := Parse(ps, [0x31, 0xFF, id % 0x100, 0, 1, x]);
      && o.Parsed? && Acted(o.ps).1 == (if id == 0x7F80 then Reboot else SendAllPoints)
      && Acted(Acted(o.ps).0).1 == Nothing
    ensures Acted(ps).1 == Nothing
  {
    var r := WriteTo(ps, id, Truth(x != 0), false);
    SystemRecord(ps, id, x);
    WrittenIsNew(ps, id, Truth(x != 0), 0x7F80);
    WrittenIsNew(ps, id, Truth(x != 0), 0x7F81);
    NothingNew(ps);
    hide Parse, Find, WriteTo, Acted, IsNew, HasSystemPoints;
    FlagsAct(ps);
    FlagsAct(r);
    FlagsAct(Acted(r).0);
  }

  lemma NothingNew(ps: seq<Property>)
    requires HasSystemPoints(ps)
    ensures !IsNew(ps, 0x7F80) && !IsNew(ps, 0x7F81)
  {}

  // What the platform writes is new.
  lemma WrittenIsNew(ps: seq<Property>, id: uint16, v: Value, other: uint16)
    requires Find(ps, id) < |ps| && SameType(ps[Find(ps, id)].value, v)
    ensures IsNew(WriteTo(ps, id, v, false), other) <==> other == id || IsNew(ps, other)
  {
    WriteKeepsIds(ps, id, v, other);
  }

  lemma SeenIs(ps: seq<Property>, id: uint16, other: uint16)
    ensures var r := Seen(ps, id);
      && |r| == |ps| && Find(r, other) == Find(ps, other)
      && (IsNew(r, other) <==> other != id && IsNew(ps, other))
  {
    var r := Seen(ps, id);
    assert forall k :: 0 <= k < |ps| ==> r[k].dpID == ps[k].dpID;
    var i, j := Find(r, other), Find(ps, other);
    assert i == j;
    hide Find;
  }

  // The action by the two flags; the flag that was found new is old afterwards.
  lemma FlagsAct(ps: seq<Property>)
    ensures var (next, action) := Acted(ps);
      && action == (if IsNew(ps, 0x7F80) then Reboot else if IsNew(ps, 0x7F81) then SendAllPoints else Nothing)
      && !IsNew(next, 0x7F80) && (IsNew(next, 0x7F81) <==> IsNew(ps, 0x7F80) && IsNew(ps, 0x7F81))
  {
    hide Find, Seen, IsNew;
    SeenIs(ps, 0x7F80, 0x7F80);
    SeenIs(ps, 0x7F80, 0x7F81);
    SeenIs(Seen(ps, 0x7F80), 0x7F81, 0x7F80);
    SeenIs(Seen(ps, 0x7F80), 0x7F81, 0x7F81);
  }
}
