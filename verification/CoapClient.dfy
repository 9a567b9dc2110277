/** The requests of iotx_coap_client.c: the order of their options, and what a receiver makes of them. */
module CoapClient {
  import opened Bytes
  import opened CoapMessage
  import opened CoapSendList
  import CoapDeserialize
  import CoapRoundTrip
  import CoapRuns

  const URI_PATH: uint16 := 11
  const CONTENT_FORMAT: uint16 := 12
  const URI_QUERY: uint16 := 15
  const ACCEPT: uint16 := 17
  const CBOR: uint32 := 60
  const JSON: uint32 := 50
  const OCTET_STREAM: uint32 := 42

  // path and query are the segments of the URL and of the query string.
  datatype Call = Call(
    code: byte, observe: bool, path: seq<seq<byte>>, cbor: bool, query: seq<seq<byte>>, payload: seq<byte>)

  predicate Fits(c: Call) {
    && (forall k :: 0 <= k < |c.path| ==> |c.path[k]| < 0x1_0000)
    && (forall k :: 0 <= k < |c.query| ==> |c.query[k]| < 0x1_0000)
    && |c.payload| < 0x1_0000
  }

  function Each(num: uint16, texts: seq<seq<byte>>): (r: seq<CoapOption>)
    ensures |r| == |texts|
  {
    seq(|texts|, k requires 0 <= k < |texts| => CoapOption(num, texts[k]))
  }

  // The options in the order they are added.
  function Options(c: Call): seq<CoapOption> {
    (if c.observe then [CoapOption(OPTION_OBSERVE, [])] else [])
    + Each(URI_PATH, c.path)
    + [CoapOption(CONTENT_FORMAT, UintBytes(if c.cbor then CBOR else JSON))]
    + Each(URI_QUERY, c.query)
    + [CoapOption(ACCEPT, UintBytes(OCTET_STREAM))]
  }

  // The message has room for sixteen; the client ignores that an addition failed.
  function Cap(adds: seq<CoapOption>): (r: seq<CoapOption>)
    ensures |r| <= MAX_OPTION_NUM && r <= adds
  {
    if |adds| <= MAX_OPTION_NUM then adds else adds[..MAX_OPTION_NUM]
  }

  // The k-th request of the client.
  function RequestPacket(k: nat, c: Call): Packet {
    Packet(Header(1, CON, 4, c.code, MessageId(k)), Token(k), Built(Cap(Options(c)), 0), c.payload)
  }

  lemma {:induction false} BuiltVals(adds: seq<CoapOption>, last: nat, k: nat)
    requires k < |adds|
    ensures Built(adds, last)[k].val == adds[k].val
  {
    if k > 0 { BuiltVals(adds[1..], adds[0].num, k - 1); }
  }

  lemma OptionVals(c: Call, k: nat)
    requires Fits(c) && k < |Options(c)|
    ensures |Options(c)[k].val| < 0x1_0000 && Options(c)[k].num < 0x100
  {}

  lemma PacketWellFormed(k: nat, c: Call)
    requires Fits(c)
    ensures WellFormed(RequestPacket(k, c))
  {
    hide Options, Built, MessageId;
    var adds := Cap(Options(c));
    forall i | 0 <= i < |adds| ensures |Built(adds, 0)[i].val| < 0x1_0000 {
      BuiltVals(adds, 0, i);
      OptionVals(c, i);
    }
  }

  // A receiver sees the options that the client added, under their own numbers, up to sixteen of
  // them, with the request's code, id, token and payload.
  lemma RequestReceived(k: nat, c: Call)
    requires Fits(c)
    ensures WellFormed(RequestPacket(k, c))
    ensures |Encode(RequestPacket(k, c))| < 0x1_0000 ==>
      CoapDeserialize.Decode(Encode(RequestPacket(k, c))) ==
      CoapDeserialize.Message(RequestPacket(k, c).(options := Cap(Options(c))))
  {
    hide Options, Built, CoapDeserialize.Decode, Encode, WellFormed, Fits, Absolute;
    PacketWellFormed(k, c);
    var adds := Cap(Options(c));
    forall i | 0 <= i < |adds| - 1 ensures adds[i].num < 0x100 { OptionVals(c, i); }
    BuiltNumbers(adds);
    if |Encode(RequestPacket(k, c))| < 0x1_0000 { CoapRoundTrip.RoundTrip(RequestPacket(k, c)); }
  }

  lemma HeaderFirst(p: Packet)
    requires WellFormed(p) && |p.token| == 4
    ensures |Encode(p)| >= 8 && Encode(p)[..8] == EncodeHeader(p.header) + p.token
  {
    hide EncodeOptions, EncodePayload, EncodeHeader;
    assert |EncodeHeader(p.header)| == 4 by { FourLong(p.header); }
    assert Encode(p) == EncodeHeader(p.header) + p.token + EncodeOptions(p.options) + EncodePayload(p.payload);
  }

  lemma FourLong(h: Header)
    ensures |EncodeHeader(h)| == 4
  {}

  // The first eight bytes: version 1, confirmable, four token bytes; the code; the id, which is one more than
  // the requests before; and the token, which counts them on from 0x01020304, the low byte first.
  lemma RequestHeader(k: nat, c: Call)
    requires Fits(c)
    ensures WellFormed(RequestPacket(k, c))
    ensures var w := Encode(RequestPacket(k, c)); 
      var id, token := if k < 65534 then k + 1 else 1, (0x01020304 + k) % 0x1_0000_0000;
      |w| >= 8 && w[..8] == [0x44, c.code, id / 0x100, id % 0x100,
        token % 0x100, token / 0x100 % 0x100, token / 0x1_0000 % 0x100, token / 0x100_0000]
  {
    hide Options, Built, Fits;
    PacketWellFormed(k, c);
    HeaderFirst(RequestPacket(k, c));
  }

  // What goes out is all of the request but when it fills the send buffer without a payload: then its last
  // byte is missing. Otherwise the receiver gets the options of the call.
  lemma SentIsReceived(k: nat, c: Call)
    requires Fits(c)
    ensures WellFormed(RequestPacket(k, c))
    ensures var p := RequestPacket(k, c); |Encode(p)| <= 1280 ==>
      if p.payload == [] && |Encode(p)| == 1280 then |Wire(p)| == 1279 && Wire(p) <= Encode(p)
      else CoapDeserialize.Decode(Wire(p)) == CoapDeserialize.Message(p.(options := Cap(Options(c))))
  {
    hide Encode, CoapDeserialize.Decode, Options, Built, RequestPacket;
    RequestReceived(k, c);
  }

  // ---------- what the options say ----------

  // The values of the options with a number, in order.
  function Values(os: seq<CoapOption>, num: uint16): seq<seq<byte>> {
    if os == [] then [] else (if os[0].num == num then [os[0].val] else []) + Values(os[1..], num)
  }

  lemma ValuesUnfold(os: seq<CoapOption>, num: uint16)
    requires os != []
    ensures Values(os, num) == (if os[0].num == num then [os[0].val] else []) + Values(os[1..], num)
  {}

  lemma {:induction false} ValuesAppend(a: seq<CoapOption>, b: seq<CoapOption>, num: uint16)
    ensures Values(a + b, num) == Values(a, num) + Values(b, num)
  {
    if a == [] {
      assert a + b == b;
    } else {
      assert (a + b)[1..] == a[1..] + b;
      ValuesAppend(a[1..], b, num);
      ValuesUnfold(a, num);
      ValuesUnfold(a + b, num);
      hide Values;
      Regroup(if a[0].num == num then [a[0].val] else [], Values(a[1..], num), Values(b, num));
    }
  }

  lemma ValuesOfFive(a: seq<CoapOption>, b: seq<CoapOption>, c: seq<CoapOption>, d: seq<CoapOption>, e: seq<CoapOption>, num: uint16)
    ensures Values(a + b + c + d + e, num) ==
      Values(a, num) + Values(b, num) + Values(c, num) + Values(d, num) + Values(e, num)
  {
    hide Values;
    ValuesAppend(a + b + c + d, e, num);
    ValuesAppend(a + b + c, d, num);
    ValuesAppend(a + b, c, num);
    ValuesAppend(a, b, num);
  }

  lemma {:induction false} ValuesEach(own: uint16, texts: seq<seq<byte>>, num: uint16)
    ensures Values(Each(own, texts), num) == if own == num then texts else []
    decreases |texts|
  {
    if texts != [] {
      assert Each(own, texts)[1..] == Each(own, texts[1..]);
      ValuesEach(own, texts[1..], num);
      assert [texts[0]] + texts[1..] == texts;
    }
  }

  lemma ValuesOne(o: CoapOption, num: uint16)
    ensures Values([o], num) == if o.num == num then [o.val] else []
  {
    assert [o][1..] == [];
  }

  function First(c: Call): seq<CoapOption> { if c.observe then [CoapOption(OPTION_OBSERVE, [])] else [] }

  function Format(c: Call): CoapOption { CoapOption(CONTENT_FORMAT, [if c.cbor then 60 else 50]) }

  lemma OptionsParts(c: Call)
    ensures Options(c) == First(c) + Each(URI_PATH, c.path) + [Format(c)] + Each(URI_QUERY, c.query) + [CoapOption(ACCEPT, [42])]
  {
    assert UintBytes(if c.cbor then CBOR else JSON) == [if c.cbor then 60 else 50] && UintBytes(OCTET_STREAM) == [42];
    hide UintBytes, Each;
  }

  // The values with a number, of the options this call has of it.
  function Said(c: Call, num: uint16): seq<seq<byte>> {
    if num == 6 then (if c.observe then [[]] else []) else if num == 11 then c.path
    else if num == 12 then [Format(c).val] else if num == 15 then c.query else if num == 17 then [[42]] else []
  }

  lemma OptionsWith(c: Call, num: uint16)
    ensures Values(Options(c), num) == Said(c, num)
  {
    OptionsParts(c);
    ValuesOfFive(First(c), Each(URI_PATH, c.path), [Format(c)], Each(URI_QUERY, c.query), [CoapOption(ACCEPT, [42])], num);
    ValuesFirst(c, num);
    ValuesEach(URI_PATH, c.path, num);
    ValuesEach(URI_QUERY, c.query, num);
    ValuesOne(Format(c), num);
    ValuesOne(CoapOption(ACCEPT, [42]), num);
    hide Values, Options, First, Each;
    Alone(Said(c, num));
  }

  lemma ValuesFirst(c: Call, num: uint16)
    ensures Values(First(c), num) == if num == 6 && c.observe then [[]] else []
  {
    ValuesOne(CoapOption(OPTION_OBSERVE, []), num);
  }

  lemma Alone(v: seq<seq<byte>>)
    ensures v + [] == v && [] + v == v
  {}

  predicate Ascending(os: seq<CoapOption>) { forall k :: 0 < k < |os| ==> os[k - 1].num <= os[k].num }

  lemma AscendingParts(a: seq<CoapOption>, b: seq<CoapOption>, num: uint16)
    requires Ascending(a) && (forall k :: 0 <= k < |a| ==> a[k].num <= num) && forall k :: 0 <= k < |b| ==> b[k].num == num
    ensures Ascending(a + b) && forall k :: 0 <= k < |a + b| ==> (a + b)[k].num <= num
  {
    var os := a + b;
    forall k | 0 <= k < |os| ensures os[k].num <= num && (k > 0 ==> os[k - 1].num <= os[k].num) {
      assert os[k] == if k < |a| then a[k] else b[k - |a|];
      if k > 0 { assert os[k - 1] == if k - 1 < |a| then a[k - 1] else b[k - 1 - |a|]; }
    }
  }

  lemma OptionsAscend(c: Call)
    ensures Ascending(Options(c))
  {
    OptionsParts(c);
    var first, path, query := First(c), Each(URI_PATH, c.path), Each(URI_QUERY, c.query);
    hide Options, Ascending;
    assert Ascending([]) by { NothingAscends(); }
    AscendingParts([], first, 6);
    assert [] + first == first;
    AscendingParts(first, path, 11);
    AscendingParts(first + path, [Format(c)], 12);
    AscendingParts(first + path + [Format(c)], query, 15);
    AscendingParts(first + path + [Format(c)] + query, [CoapOption(ACCEPT, [42])], 17);
  }

  lemma NothingAscends()
    ensures Ascending([])
  {}

  // By section 5.10 of RFC 7252 and section 2 of RFC 7641: an empty Observe (6) if wanted, the path segments
  // (11), the format of the payload (12), the query segments (15) and the format accepted (17), ascending, and
  // nothing else.
  lemma OptionsSay(c: Call)
    ensures var os := Options(c);
      && Values(os, 6) == (if c.observe then [[]] else []) && Values(os, 11) == c.path
      && Values(os, 12) == [[if c.cbor then 60 else 50]] && Values(os, 15) == c.query && Values(os, 17) == [[42]]
      && (forall num: uint16 :: num !in [6, 11, 12, 15, 17] ==> Values(os, num) == []) && Ascending(os)
  {
    hide Options, Values, Ascending;
    OptionsAscend(c);
    forall num: uint16 ensures Values(Options(c), num) == Said(c, num) { OptionsWith(c, num); }
  }

  // So the deltas of the options are true differences.
  lemma DeltasDoNotWrap(c: Call, k: nat)
    requires Fits(c) && k < |Cap(Options(c))|
    ensures Built(Cap(Options(c)), 0)[k].num == Options(c)[k].num - if k == 0 then 0 else Options(c)[k - 1].num
  {
    hide Options, Fits, Built;
    OptionsAscend(c);
    BuiltAt(Cap(Options(c)), 0, k);
    OptionVals(c, k);
    if k > 0 { OptionVals(c, k - 1); }
  }

  lemma {:induction false} BuiltAt(adds: seq<CoapOption>, last: nat, k: nat)
    requires k < |adds|
    ensures Built(adds, last)[k].num == Delta(if k == 0 then last else adds[k - 1].num, adds[k].num)
  {
    hide Delta;
    if k > 0 { BuiltAt(adds[1..], adds[0].num, k - 1); }
  }

  // ---------- building and sending ----------

  function LastNumber(adds: seq<CoapOption>): nat {
    if adds == [] then 0 else adds[|adds| - 1].num
  }

  // The message holds the first sixteen of the options added so far.
  ghost predicate Holds(m: CoapMessage, adds: seq<CoapOption>, empty: Packet)
    reads m
  {
    && m.packet == empty.(options := Built(Cap(adds), 0))
    && (|adds| < MAX_OPTION_NUM ==> m.optdelta == LastNumber(adds) % 0x100)
  }

  lemma {:induction false} BuiltSnoc(adds: seq<CoapOption>, last: nat, o: CoapOption)
    ensures Built(adds + [o], last) ==
      Built(adds, last) + [CoapOption(Delta(if adds == [] then last else LastNumber(adds), o.num), o.val)]
  {
    hide Delta;
    if adds == [] {
      assert [o][1..] == [];
      assert adds + [o] == [o];
    } else {
      assert (adds + [o])[1..] == adds[1..] + [o];
      BuiltSnoc(adds[1..], adds[0].num, o);
    }
  }

  lemma DeltaByte(last: nat, next: uint16)
    ensures Delta(last % 0x100, next) == Delta(last, next)
  {}

  lemma CapSnoc(adds: seq<CoapOption>, o: CoapOption)
    ensures Built(Cap(adds + [o]), 0) ==
      if |adds| < MAX_OPTION_NUM then Built(adds, 0) + [CoapOption(Delta(LastNumber(adds) % 0x100, o.num), o.val)]
      else Built(Cap(adds), 0)
  {
    DeltaByte(LastNumber(adds), o.num);
    CapOfSnoc(adds, o);
    hide Built, Delta, Cap;
    if |adds| < MAX_OPTION_NUM { BuiltSnoc(adds, 0, o); }
  }

  lemma CapOfSnoc(adds: seq<CoapOption>, o: CoapOption)
    ensures Cap(adds + [o]) == if |adds| < MAX_OPTION_NUM then adds + [o] else Cap(adds)
  {
    if |adds| >= MAX_OPTION_NUM { assert (adds + [o])[..MAX_OPTION_NUM] == adds[..MAX_OPTION_NUM]; }
  }

  method AddUint(m: CoapMessage, num: uint16, data: uint32, ghost adds: seq<CoapOption>, ghost empty: Packet)
    returns (ghost more: seq<CoapOption>)
    requires Holds(m, adds, empty) && num < 0x100
    modifies m
    ensures more == adds + [CoapOption(num, UintBytes(data))] && Holds(m, more, empty)
    ensures m.observer == if |adds| < MAX_OPTION_NUM && num == OPTION_OBSERVE && data == 0
      then REGISTERED_OBSERVE else if num == OPTION_OBSERVE && |adds| < MAX_OPTION_NUM then DEREGISTER_OBSERVE else old(m.observer)
  {
    hide Built, Delta, UintBytes;
    CapSnoc(adds, CoapOption(num, UintBytes(data)));
    var _ := m.AddUint(num, data);
    more := adds + [CoapOption(num, UintBytes(data))];
  }

  method AddTexts(m: CoapMessage, num: uint16, texts: seq<seq<byte>>, ghost adds: seq<CoapOption>, ghost empty: Packet)
    returns (ghost more: seq<CoapOption>)
    requires Holds(m, adds, empty) && num < 0x100
    modifies m
    ensures more == adds + Each(num, texts) && Holds(m, more, empty)
    ensures m.observer == old(m.observer)
  {
    hide Built, Delta, Holds;
    more := adds;
    for i := 0 to |texts|
      invariant more == adds + Each(num, texts[..i]) && Holds(m, more, empty) && m.observer == old(m.observer)
    {
      AddText(m, num, texts[i], more, empty);
      assert Each(num, texts[..i + 1]) == Each(num, texts[..i]) + [CoapOption(num, texts[i])];
      more := more + [CoapOption(num, texts[i])];
    }
    assert texts[..|texts|] == texts;
  }

  method AddText(m: CoapMessage, num: uint16, text: seq<byte>, ghost adds: seq<CoapOption>, ghost empty: Packet)
    requires Holds(m, adds, empty) && num < 0x100
    modifies m
    ensures Holds(m, adds + [CoapOption(num, text)], empty) && m.observer == old(m.observer)
  {
    hide Built, Delta;
    CapSnoc(adds, CoapOption(num, text));
    var _ := m.AddString(num, text);
  }

  method Build(c: Call, id: uint16, token: seq<byte>, k: nat) returns (m: CoapMessage)
    requires id == MessageId(k) && token == Token(k)
    ensures fresh(m) && m.packet == RequestPacket(k, c)
    ensures m.observer == if c.observe then REGISTERED_OBSERVE else DEREGISTER_OBSERVE
  {
    hide Built, Delta, UintBytes, MessageId, Token, Holds;
    m := new CoapMessage();
    m.packet := Packet(Header(1, CON, 4, c.code, id), token, [], c.payload);
    ghost var empty := m.packet;
    ghost var adds := [];
    HoldsNothing(m, empty);
    if c.observe { adds := AddUint(m, OPTION_OBSERVE, 0, adds, empty); }
    assert c.observe ==> adds == [CoapOption(OPTION_OBSERVE, [])] by { NoBytes(); }
    adds := AddTexts(m, URI_PATH, c.path, adds, empty);
    adds := AddUint(m, CONTENT_FORMAT, if c.cbor then CBOR else JSON, adds, empty);
    adds := AddTexts(m, URI_QUERY, c.query, adds, empty);
    adds := AddUint(m, ACCEPT, OCTET_STREAM, adds, empty);
    HoldsMeans(m, adds, empty);
  }

  lemma NoBytes()
    ensures UintBytes(0) == []
  {}

  lemma HoldsNothing(m: CoapMessage, empty: Packet)
    requires m.packet == empty && m.optdelta == 0 && empty.options == []
    ensures Holds(m, [], empty)
  {}

  lemma HoldsMeans(m: CoapMessage, adds: seq<CoapOption>, empty: Packet)
    requires Holds(m, adds, empty)
    ensures m.packet == empty.(options := Built(Cap(adds), 0))
  {}

  // IOT_CoAP_Client_Send and IOT_CoAP_Client_Observe_Send; written says whether the network took it.
  method Send(client: Client, c: Call, written: bool) returns (r: SendResult)
    requires client.Valid() && Fits(c)
    modifies client, client.sendbuf
    ensures client.Valid() && WellFormed(RequestPacket(old(client.serial), c))
    ensures client.Now() == CoapRuns.Step(old(client.Now()), CoapRuns.Requested(
      Wire(RequestPacket(old(client.serial), c)),
      if c.observe then REGISTERED_OBSERVE else DEREGISTER_OBSERVE,
      r == Success && Listed(RequestPacket(old(client.serial), c).header))).0
    ensures r == Success <==> written && |Encode(RequestPacket(old(client.serial), c))| <= MAX_PDU_LEN
    ensures |Encode(RequestPacket(old(client.serial), c))| < 0x1_0000 ==> r != Overrun
  {
    hide Built, MessageId, Token, Options, Encode, Wire, Cap, Fits, WellFormed;
    ghost var before := client.Now();
    var k := client.serial;
    PacketWellFormed(k, c);
    var id, token := client.Draw();
    var m := Build(c, id, token, k);
    r := client.Send(m.packet, m.observer, k, written);
  }
}
