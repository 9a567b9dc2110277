/** Deserialising what was serialised. */
module CoapRoundTrip {
  import opened Bytes
  import opened CoapMessage
  import opened CoapDeserialize

  lemma AtIs(b: seq<byte>, i: nat, w: seq<byte>, k: nat)
    requires StartsWith(b, i, w) && k < |w|
    ensures At(b, i + k) == w[k]
  {
    ItemAt(b, i, w, k);
  }

  lemma SliceIs(b: seq<byte>, i: nat, w: seq<byte>)
    requires StartsWith(b, i, w)
    ensures Slice(b, i, |w|) == w
  {}

  lemma FieldInverts(b: seq<byte>, p: nat, n: uint16)
    requires StartsWith(b, p, Extended(n))
    ensures Field(b, Nibble(n), p) == n && FieldSize(Nibble(n)) == |Extended(n)|
  {
    if n >= 13 { AtIs(b, p, Extended(n), 0); }
    if n >= 269 { AtIs(b, p, Extended(n), 1); }
  }

  lemma OptionParts(o: CoapOption)
    requires |o.val| < 0x1_0000
    ensures EncodeOption(o) ==
      [Nibble(o.num) * 16 + Nibble(|o.val|)] + (Extended(o.num) + (Extended(|o.val|) + o.val))
  {
    hide Nibble, Extended;
  }

  lemma OptionInverts(b: seq<byte>, p: nat, o: CoapOption, pre: uint16)
    requires |o.val| < 0x1_0000 && StartsWith(b, p, EncodeOption(o))
    ensures DecodeOption(b, p, pre) == (CoapOption((pre + o.num) % 0x1_0000, o.val), |EncodeOption(o)|)
  {
    hide StartsWith, Extended, Nibble, Field, FieldSize, Slice, At, EncodeOption;
    var len := |o.val|;
    var first: byte := Nibble(o.num) * 16 + Nibble(len);
    var q := p + 1 + |Extended(o.num)|;
    OptionParts(o);
    Split<byte>(b, p, [first], Extended(o.num) + (Extended(len) + o.val));
    Split<byte>(b, p + 1, Extended(o.num), Extended(len) + o.val);
    Split<byte>(b, q, Extended(len), o.val);
    AtIs(b, p, [first], 0);
    assert first / 16 == Nibble(o.num) && first % 16 == Nibble(len);
    FieldInverts(b, p + 1, o.num);
    FieldInverts(b, q, len);
    SliceIs(b, q + |Extended(len)|, o.val);
  }

  // No option is mistaken for the payload marker.
  lemma OptionIsNotMarker(o: CoapOption)
    requires |o.val| < 0x1_0000
    ensures EncodeOption(o)[0] != MARKER
  {
    assert EncodeOption(o)[0] == Nibble(o.num) * 16 + Nibble(|o.val|);
  }

  lemma {:induction false} OptionsInvert(
      b: seq<byte>, start: nat, buflen: int, count: nat, pre: uint16, os: seq<CoapOption>, index: nat)
    requires index + |os| <= MAX_OPTION_NUM
    requires forall k :: 0 <= k < |os| ==> |os[k].val| < 0x1_0000
    requires StartsWith(b, start + count, EncodeOptions(os)) && |EncodeOptions(os)| < 0x1_0000
    requires count + |EncodeOptions(os)| <= buflen
    requires count + |EncodeOptions(os)| == buflen || At(b, start + count + |EncodeOptions(os)|) == MARKER
    ensures DecodeOptions(b, start, buflen, count, pre, index)
      == Read(Absolute(os, pre), count + |EncodeOptions(os)|)
    decreases |os|
  {
    hide StartsWith, DecodeOptions, DecodeOption, EncodeOption, At;
    OptionsUnfold(b, start, buflen, count, pre, index);
    if os != [] {
      var o, rest := os[0], os[1..];
      var p := start + count;
      assert EncodeOptions(os) == EncodeOption(o) + EncodeOptions(rest);
      hide EncodeOptions;
      Split<byte>(b, p, EncodeOption(o), EncodeOptions(rest));
      OptionInverts(b, p, o, pre);
      OptionIsNotMarker(o);
      AtIs(b, p, EncodeOption(o), 0);
      OptionsInvert(b, start, buflen, count + |EncodeOption(o)|, (pre + o.num) % 0x1_0000, rest, index + 1);
    }
  }

  lemma FirstByte(version: nat, kind: nat, tokenlen: nat)
    requires version < 4 && kind < 4 && tokenlen < 16
    ensures var n := (version * 4 + kind) * 16 + tokenlen;
      n / 0x40 == version && n / 0x10 % 4 == kind && n % 0x10 == tokenlen
  {
    var n := (version * 4 + kind) * 16 + tokenlen;
    assert n / 0x10 == version * 4 + kind;
    assert n / 0x40 == n / 0x10 / 4;
  }

  lemma HeaderInverts(b: seq<byte>, h: Header)
    requires h.version < 4 && h.kind < 4 && h.tokenlen < 16 && StartsWith(b, 0, EncodeHeader(h))
    ensures DecodeHeader(b) == h
  {
    var w := EncodeHeader(h);
    HeaderBytes(h);
    AtIs(b, 0, w, 0); AtIs(b, 0, w, 1); AtIs(b, 0, w, 2); AtIs(b, 0, w, 3);
    hide StartsWith, At, EncodeHeader;
    FirstByte(h.version, h.kind, h.tokenlen);
  }

  lemma HeaderBytes(h: Header)
    requires h.version < 4 && h.kind < 4 && h.tokenlen < 16
    ensures var w := EncodeHeader(h);
      && |w| == 4 && w[0] == (h.version * 4 + h.kind) * 16 + h.tokenlen && w[1] == h.code
      && (w[2] as int) * 0x100 + w[3] as int == h.msgid
  {}

  lemma PayloadInverts(b: seq<byte>, p: nat, payload: seq<byte>)
    requires StartsWith(b, p, EncodePayload(payload)) && p + |EncodePayload(payload)| == |b|
    ensures DecodePayload(b, p) == payload
    ensures payload != [] ==> At(b, p) == MARKER
  {
    if payload != [] {
      AtIs(b, p, EncodePayload(payload), 0);
      assert b[p..] == EncodePayload(payload);
      assert b[p + 1..] == b[p..][1..];
    }
  }

  // Where the parts of a message stand in its wire form.
  lemma Layout(m: Packet)
    requires WellFormed(m)
    ensures var b, start := Encode(m), 4 + |m.token|;
      && StartsWith(b, 0, EncodeHeader(m.header)) && StartsWith(b, 4, m.token)
      && StartsWith(b, start, EncodeOptions(m.options))
      && StartsWith(b, start + |EncodeOptions(m.options)|, EncodePayload(m.payload))
      && start + |EncodeOptions(m.options)| + |EncodePayload(m.payload)| == |b|
      && (m.payload == [] ==> EncodePayload(m.payload) == [])
  {
    hide StartsWith, EncodeHeader, EncodeOptions, EncodePayload, Encode;
    EncodeParts(m);
    var os := EncodeOptions(m.options);
    hide WellFormed;
    FourParts(EncodeHeader(m.header), m.token, os, EncodePayload(m.payload));
  }

  lemma FourParts(a: seq<byte>, b: seq<byte>, c: seq<byte>, d: seq<byte>)
    ensures var w := a + b + c + d;
      && StartsWith(w, 0, a) && StartsWith(w, |a|, b) && StartsWith(w, |a| + |b|, c)
      && StartsWith(w, |a| + |b| + |c|, d)
  {
    var w := a + b + c + d;
    assert w[0..|a|] == a;
    assert w[|a|..|a| + |b|] == b;
    assert w[|a| + |b|..|a| + |b| + |c|] == c;
    assert w[|a| + |b| + |c|..|a| + |b| + |c| + |d|] == d;
  }

  // Sections 3 and 3.1 of RFC 7252: the receiver sees the same header, token, option values and
  // payload, and every option under the sum of the deltas up to it.
  lemma RoundTrip(m: Packet)
    requires WellFormed(m) && |Encode(m)| < 0x1_0000
    ensures Decode(Encode(m)) == Message(m.(options := Absolute(m.options, 0)))
  {
    hide StartsWith, EncodeHeader, EncodeOptions, EncodePayload, Encode, Absolute;
    hide DecodeHeader, DecodeOptions, DecodePayload, Slice, At;
    var b, start := Encode(m), 4 + |m.token|;
    Layout(m);
    HeaderInverts(b, m.header);
    PayloadInverts(b, start + |EncodeOptions(m.options)|, m.payload);
    OptionsInvert(b, start, |b| - start, 0, 0, m.options, 0);
    SliceIs(b, 4, m.token);
  }

  // ---------- appendix A of RFC 7252 ----------

  // GET "temperature", confirmable, with id 0x7d34, and its piggybacked response 2.05 "22.3 C".
  lemma FirstExample()
    ensures EncodeHeader(Header(1, 0, 0, 1, 0x7d34)) == [0x40, 0x01, 0x7d, 0x34]
    ensures EncodeHeader(Header(1, 2, 0, 0x45, 0x7d34)) == [0x60, 0x45, 0x7d, 0x34]
    ensures EncodeOption(CoapOption(11, [0x74, 0x65, 0x6d, 0x70, 0x65, 0x72, 0x61, 0x74, 0x75, 0x72, 0x65])) ==
      [0xbb, 0x74, 0x65, 0x6d, 0x70, 0x65, 0x72, 0x61, 0x74, 0x75, 0x72, 0x65]
    ensures EncodePayload([0x32, 0x32, 0x2e, 0x33, 0x20, 0x43]) == [0xff, 0x32, 0x32, 0x2e, 0x33, 0x20, 0x43]
  {}

  // The same request with the token 0x20, as one message.
  lemma SecondExample()
    ensures Encode(Packet(Header(1, 0, 1, 1, 0x7d35), [0x20], [CoapOption(11, [0x74])], [0x41])) ==
      [0x41, 0x01, 0x7d, 0x35, 0x20, 0xb1, 0x74, 0xff, 0x41]
  {
    var o := CoapOption(11, [0x74]);
    assert EncodeOption(o) == [0xb1, 0x74];
    assert EncodeOptions([o]) == [0xb1, 0x74] by { assert [o][1..] == [] && EncodeOption(o) + [] == EncodeOption(o); }
    assert EncodeHeader(Header(1, 0, 1, 1, 0x7d35)) == [0x41, 0x01, 0x7d, 0x35] && EncodePayload([0x41]) == [0xff, 0x41];
    hide EncodeHeader, EncodeOptions, EncodePayload;
  }

  // Deltas and lengths of 13 and 269 more take one byte and two.
  lemma LongOptions(v: seq<byte>)
    ensures |v| == 1 ==> EncodeOption(CoapOption(60, v)) == [0xd1, 47] + v
    ensures |v| == 1 ==> EncodeOption(CoapOption(300, v)) == [0xe1, 0, 31] + v
    ensures |v| == 20 ==> EncodeOption(CoapOption(1, v)) == [0x1d, 7] + v
    ensures |v| == 600 ==> EncodeOption(CoapOption(2048, v)) == [0xee, 6, 243, 1, 75] + v
  {}

  // What no serialisation produces: bytes missing behind the end are read as zeros, the nibble 15 as the number 15,
  // and numbers and lengths keep 16 bits.
  lemma OddOptions()
    ensures CoapDeserialize.DecodeOption([0x03, 7], 0, 3) == (CoapOption(3, [7, 0, 0]), 4)
    ensures CoapDeserialize.DecodeOption([0xf0], 0, 1) == (CoapOption(16, []), 1)
    ensures CoapDeserialize.DecodeOption([0xe0, 0xff, 0xff], 0, 0) == (CoapOption(268, []), 3)
    ensures CoapDeserialize.DecodeOption([0x0e, 0xfe, 0xf4, 9], 0, 5) == (CoapOption(5, [9]), 4)
  {
    OddSlices();
    hide CoapDeserialize.Slice;
  }

  lemma OddSlices()
    ensures CoapDeserialize.Slice([0x03, 7], 1, 3) == [7, 0, 0] && CoapDeserialize.Slice([0x0e, 0xfe, 0xf4, 9], 3, 1) == [9]
    ensures CoapDeserialize.Slice([0xf0], 1, 0) == [] && CoapDeserialize.Slice([0xe0, 0xff, 0xff], 3, 0) == []
  {
    var b: seq<byte> := [0x03, 7];
    SliceFirst(b, 3, 0);
    SliceFirst(b, 2, 1);
    SliceFirst(b, 1, 2);
    SliceFirst([0x0e, 0xfe, 0xf4, 9], 3, 0);
  }

  lemma SliceFirst(b: seq<byte>, i: nat, n: nat)
    ensures CoapDeserialize.Slice(b, i, n + 1) == [CoapDeserialize.At(b, i)] + CoapDeserialize.Slice(b, i + 1, n)
    ensures n == 0 ==> CoapDeserialize.Slice(b, i + 1, n) == []
  {}
}
