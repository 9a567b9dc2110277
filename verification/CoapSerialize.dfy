/** Writing a message into a buffer, with the 16-bit counters of CoAPSerialize.c. */
module CoapSerialize {
  import opened Bytes
  import opened CoapMessage

  function Wrap(n: int): uint16 { n % 0x1_0000 }

  method SerializeHeader(h: Header, buf: array<byte>, buflen: uint16) returns (n: nat)
    requires buflen <= buf.Length
    modifies buf
    ensures buflen < 4 ==> n == 0 && buf[..] == old(buf[..])
    ensures buflen >= 4 ==> n == 4 && buf[..4] == EncodeHeader(h)
  {
    if 4 > buflen { return 0; }
    buf[0] := (h.version % 4 * 4 + h.kind % 4) * 16 + h.tokenlen % 16;
    buf[1] := h.code;
    buf[2] := h.msgid / 0x100;
    buf[3] := h.msgid % 0x100;
    n := 4;
  }

  // at is where the remaining buflen bytes begin.
  method SerializeToken(m: Packet, buf: array<byte>, at: nat, buflen: uint16) returns (n: nat)
    requires at + buflen <= buf.Length && m.header.tokenlen == |m.token|
    modifies buf
    ensures buflen < |m.token| ==> n == 0 && buf[..] == old(buf[..])
    ensures buflen >= |m.token| ==> n == |m.token| && buf[..at + n] == old(buf[..at]) + m.token
  {
    if buflen < m.header.tokenlen { return 0; }
    var _ := Copy(buf, at, m.token);
    n := m.header.tokenlen;
  }

  method SerializeOption(o: CoapOption, buf: array<byte>, at: nat) returns (n: uint16)
    requires |o.val| < 0x1_0000 && |EncodeOption(o)| < 0x1_0000
    requires at + |EncodeOption(o)| <= buf.Length
    modifies buf
    ensures n == |EncodeOption(o)| && buf[..at + n] == old(buf[..at]) + EncodeOption(o)
  {
    hide Extended, Nibble;
    ghost var was := buf[..at];
    var len := |o.val|;
    var first := FirstByte(o.num, len);
    var ptr := Copy(buf, at, [first]);
    ptr := SerializeExtended(o.num, buf, ptr);
    Regroup(was, [first], Extended(o.num));
    ptr := SerializeExtended(len, buf, ptr);
    Regroup(was, [first] + Extended(o.num), Extended(len));
    ptr := Copy(buf, ptr, o.val);
    Regroup(was, [first] + Extended(o.num) + Extended(len), o.val);
    n := ptr - at;
  }

  method FirstByte(num: uint16, len: uint16) returns (first: byte)
    ensures first == Nibble(num) * 16 + Nibble(len)
  {
    if 269 <= num { first := 14 * 16; }
    else if 13 <= num { first := 13 * 16; }
    else { first := num * 16; }
    if 269 <= len { first := first + 14; }
    else if 13 <= len { first := first + 13; }
    else { first := first + len; }
  }

  // The extension bytes of a delta or a length.
  method SerializeExtended(x: uint16, buf: array<byte>, at: nat) returns (end: nat)
    requires at + |Extended(x)| <= buf.Length
    modifies buf
    ensures end == at + |Extended(x)| && buf[..end] == old(buf[..at]) + Extended(x)
  {
    end := at;
    if 269 <= x {
      buf[end] := (x - 269) / 0x100;
      buf[end + 1] := (x - 269) % 0x100;
      end := end + 2;
    } else if 13 <= x {
      buf[end] := x - 13;
      end := end + 1;
    }
    assert buf[..end] == old(buf[..at]) + Extended(x);
  }

  lemma {:induction false} EncodeOptionsSnoc(os: seq<CoapOption>, k: nat)
    requires k < |os| && forall j :: 0 <= j < |os| ==> |os[j].val| < 0x1_0000
    ensures EncodeOptions(os[..k + 1]) == EncodeOptions(os[..k]) + EncodeOption(os[k])
    decreases |os|
  {
    hide EncodeOption;
    if k == 0 {
      assert os[..1][1..] == [];
    } else {
      assert os[..k + 1][1..] == os[1..][..k] && os[..k][1..] == os[1..][..k - 1];
      EncodeOptionsSnoc(os[1..], k - 1);
    }
  }

  lemma {:induction false} EncodeOptionsPrefix(os: seq<CoapOption>, k: nat)
    requires k <= |os| && forall j :: 0 <= j < |os| ==> |os[j].val| < 0x1_0000
    ensures |EncodeOptions(os[..k])| <= |EncodeOptions(os)|
    decreases |os| - k
  {
    if k < |os| {
      EncodeOptionsSnoc(os, k);
      EncodeOptionsPrefix(os, k + 1);
    } else {
      assert os[..k] == os;
    }
  }

  method SerializeOptions(m: Packet, buf: array<byte>, at: nat) returns (count: uint16)
    requires WellFormed(m) && |EncodeOptions(m.options)| < 0x1_0000
    requires at + |EncodeOptions(m.options)| <= buf.Length
    modifies buf
    ensures count == |EncodeOptions(m.options)|
    ensures buf[..at + count] == old(buf[..at]) + EncodeOptions(m.options)
  {
    hide EncodeOption, EncodeOptions;
    count := 0;
    assert EncodeOptions(m.options[..0]) == [] by { EncodeNoOptions(); }
    for i := 0 to |m.options|
      invariant count == |EncodeOptions(m.options[..i])|
      invariant at + count <= buf.Length
      invariant buf[..at + count] == old(buf[..at]) + EncodeOptions(m.options[..i])
    {
      EncodeOptionsSnoc(m.options, i);
      EncodeOptionsPrefix(m.options, i + 1);
      var len := SerializeOption(m.options[i], buf, at + count);
      if 0 < len {
        count := Wrap(count + len);
      } else {
        assert false;   // no option is written in no bytes
      }
    }
    assert m.options[..|m.options|] == m.options;
  }

  lemma EncodeNoOptions()
    ensures EncodeOptions([]) == []
  {}

  // Fails, too, when there is no payload and no room is left.
  method SerializePayload(m: Packet, buf: array<byte>, at: nat, buflen: int) returns (n: int)
    requires at + buflen <= buf.Length
    modifies buf
    ensures |m.payload| + 1 > buflen ==> n == -1 && buf[..] == old(buf[..])
    ensures |m.payload| + 1 <= buflen ==>
      n == |EncodePayload(m.payload)| && buf[..at + n] == old(buf[..at]) + EncodePayload(m.payload)
  {
    if |m.payload| + 1 > buflen { return -1; }
    if |m.payload| > 0 {
      buf[at] := MARKER;
      assert buf[..at + 1] == old(buf[..at]) + [MARKER];
      var _ := Copy(buf, at + 1, m.payload);
      n := |m.payload| + 1;
    } else {
      n := 0;
    }
  }

  // CoAPSerialize_Message: the wire form is in the buffer; the length returned is one short
  // exactly when a message without payload fills the buffer.
  method SerializeMessage(m: Packet, buf: array<byte>, buflen: uint16) returns (n: nat)
    requires WellFormed(m) && |Encode(m)| <= buflen <= buf.Length
    modifies buf
    ensures buf[..|Encode(m)|] == Encode(m)
    ensures n == |Encode(m)| <==> m.payload != [] || |Encode(m)| < buflen
    ensures n != |Encode(m)| ==> n == |Encode(m)| - 1
  {
    EncodeParts(m);
    hide EncodeOptions, EncodeHeader, EncodePayload, Encode, WellFormed, Wrap;
    ghost var head := EncodeHeader(m.header) + m.token + EncodeOptions(m.options);
    var ptr, remlen := SerializeHead(m, buf, buflen);
    label Head:
    var paid := SerializePayload(m, buf, ptr, remlen);
    WrapPaid(remlen, paid);
    remlen := Wrap(remlen - Wrap(paid));
    n := buflen - remlen;
    if paid == -1 {
      assert buf[..ptr] == old@Head(buf[..ptr]);
    }
  }

  // A failed payload counts as one byte too many; 16 bits of it give one byte back.
  lemma WrapPaid(remlen: uint16, paid: int)
    requires if paid == -1 then remlen < 0xFFFF else 0 <= paid <= remlen
    ensures Wrap(remlen - Wrap(paid)) == remlen - paid
  {}

  // The header, token and options, and the room they leave.
  method SerializeHead(m: Packet, buf: array<byte>, buflen: uint16) returns (ptr: nat, remlen: uint16)
    requires WellFormed(m) && |Encode(m)| <= buflen <= buf.Length
    modifies buf
    ensures ptr <= buf.Length && remlen == buflen - ptr
    ensures buf[..ptr] == EncodeHeader(m.header) + m.token + EncodeOptions(m.options)
  {
    EncodeParts(m);
    var os := |EncodeOptions(m.options)|;
    assert 4 + |m.token| + os <= buflen && m.header.tokenlen == |m.token|;
    hide EncodeOptions, EncodeHeader, EncodePayload, Encode, Wrap, WellFormed;
    var count := SerializeHeader(m.header, buf, buflen);
    ptr := count;
    WrapStays(buflen - count);
    remlen := Wrap(buflen - count);
    count := SerializeToken(m, buf, ptr, remlen);
    ptr := ptr + count;
    WrapStays(remlen - count);
    remlen := Wrap(remlen - count);
    count := SerializeOptions(m, buf, ptr);
    ptr := ptr + count;
    WrapStays(remlen - count);
    remlen := Wrap(remlen - count);
  }

  lemma WrapStays(n: int)
    requires 0 <= n < 0x1_0000
    ensures Wrap(n) == n
  {}

  // ---------- the length, computed beforehand ----------

  method OptionLength(o: CoapOption) returns (len: uint16)
    requires |o.val| < 0x1_0000
    ensures len == Wrap(|EncodeOption(o)|)
  {
    len := 1;
    if 269 <= o.num { len := len + 2; } else if 13 <= o.num { len := len + 1; }
    if 269 <= |o.val| { len := len + 2; } else if 13 <= |o.val| { len := len + 1; }
    len := Wrap(len + |o.val|);
  }

  // An option whose 16-bit length comes out as 0.
  predicate Vanishes(o: CoapOption)
    requires |o.val| < 0x1_0000
  {
    |EncodeOption(o)| == 0x1_0000
  }

  predicate AnyVanishes(os: seq<CoapOption>)
    requires forall k :: 0 <= k < |os| ==> |os[k].val| < 0x1_0000
  {
    exists k :: 0 <= k < |os| && Vanishes(os[k])
  }

  // How long the code takes the options to be, before 16 bits are kept of it.
  function Counted(os: seq<CoapOption>): nat
    requires forall k :: 0 <= k < |os| ==> |os[k].val| < 0x1_0000
  {
    if AnyVanishes(os) then 0 else |EncodeOptions(os)|
  }

  lemma VanishesExactly(o: CoapOption, len: uint16)
    requires |o.val| < 0x1_0000 && len == Wrap(|EncodeOption(o)|)
    ensures len == 0 <==> Vanishes(o)
  {}

  method OptionsLength(m: Packet) returns (count: uint16)
    requires WellFormed(m)
    ensures count == Wrap(Counted(m.options))
  {
    hide EncodeOption, EncodeOptions, Vanishes;
    count := 0;
    EncodeNoOptions();
    assert m.options[..0] == [];
    for i := 0 to |m.options|
      invariant count == Wrap(|EncodeOptions(m.options[..i])|)
      invariant forall j :: 0 <= j < i ==> !Vanishes(m.options[j])
    {
      EncodeOptionsSnoc(m.options, i);
      var len := OptionLength(m.options[i]);
      VanishesExactly(m.options[i], len);
      if 0 < len {
        WrapAdds(|EncodeOptions(m.options[..i])|, |EncodeOption(m.options[i])|);
        count := Wrap(count + len);
      } else {
        return 0;
      }
    }
    assert m.options[..|m.options|] == m.options;
  }

  lemma WrapAdds(a: int, b: int)
    ensures Wrap(Wrap(a) + Wrap(b)) == Wrap(a + b) && Wrap(Wrap(a) + b) == Wrap(a + b)
  {}

  // Below 65536 bytes the count is exact.
  lemma {:induction false} VanishesIsLong(os: seq<CoapOption>)
    requires (forall k :: 0 <= k < |os| ==> |os[k].val| < 0x1_0000) && AnyVanishes(os)
    ensures |EncodeOptions(os)| >= 0x1_0000
    decreases |os|
  {
    hide EncodeOption;
    if !Vanishes(os[0]) {
      var k :| 0 <= k < |os| && Vanishes(os[k]);
      assert os[1..][k - 1] == os[k];
      VanishesIsLong(os[1..]);
    }
  }

  lemma CountedParts(m: Packet)
    requires WellFormed(m)
    ensures |Encode(m)| - |EncodeOptions(m.options)| == 4 + m.header.tokenlen + if m.payload == [] then 0 else |m.payload| + 1
    ensures |Encode(m)| < 0x1_0000 ==> Counted(m.options) == |EncodeOptions(m.options)|
  {
    EncodeParts(m);
    if AnyVanishes(m.options) { VanishesIsLong(m.options); }
  }

  lemma WrapAll(a: int, options: int, n: int)
    ensures Wrap(a + Wrap(options)) == Wrap(a + options)
    ensures Wrap(Wrap(Wrap(a + Wrap(options)) + n) + 1) == Wrap(a + options + n + 1)
  {
    WrapAdds(options, a);
    WrapAdds(a + options, n);
    WrapAdds(a + options + n, 1);
    hide Wrap;
  }

  // CoAPSerialize_MessageLength: 16 bits of the length of the wire form, the options taken as counted.
  method MessageLength(m: Packet) returns (len: uint16)
    requires WellFormed(m)
    ensures len == Wrap(|Encode(m)| - |EncodeOptions(m.options)| + Counted(m.options))
    ensures |Encode(m)| < 0x1_0000 ==> len == |Encode(m)|
  {
    CountedParts(m);
    assert 0 <= m.header.tokenlen == |m.token| < 16;
    if |Encode(m)| < 0x1_0000 { WrapStays(|Encode(m)|); }
    ghost var counted, head := Counted(m.options), 4 + m.header.tokenlen;
    hide EncodeOptions, Encode, Counted, Wrap, WellFormed;
    len := 4 + m.header.tokenlen;
    var options := OptionsLength(m);
    WrapAll(head, counted, |m.payload|);
    len := Wrap(len + options);
    if 0 < |m.payload| {
      len := Wrap(len + |m.payload|);
      len := Wrap(len + 1);
    }
  }
}
