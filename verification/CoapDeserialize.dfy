/** Reading a datagram: what CoAPDeserialize.c makes of every input, and that it undoes
    serialisation. The receive buffer is zero-filled behind the datagram. */
module CoapDeserialize {
  import opened Bytes
  import opened CoapMessage

  function At(b: seq<byte>, i: nat): byte { if i < |b| then b[i] else 0 }

  function Slice(b: seq<byte>, i: nat, n: nat): (w: seq<byte>)
    ensures |w| == n
    ensures i + n <= |b| ==> w == b[i..i + n]
    decreases n
  {
    if n == 0 then [] else [At(b, i)] + Slice(b, i + 1, n - 1)
  }

  datatype Received =
    | Message(packet: Packet)
    | InvalidLength   // shorter than a header
    | Overrun         // a token or option that the message struct has no room for

  datatype OptionsRead = Read(options: seq<CoapOption>, count: int) | Full

  // ---------- one option ----------

  // The number that a nibble and its extension bytes at p stand for; 15 is taken as it is.
  function Field(b: seq<byte>, nibble: nat, p: nat): nat {
    if nibble == 13 then 13 + At(b, p)
    else if nibble == 14 then 269 + At(b, p) * 0x100 + At(b, p + 1)
    else nibble
  }

  function FieldSize(nibble: nat): nat {
    if nibble == 13 then 1 else if nibble == 14 then 2 else 0
  }

  // The option at p after one numbered pre, and the distance to the next one.
  function DecodeOption(b: seq<byte>, p: nat, pre: uint16): (CoapOption, nat) {
    var delta, length := At(b, p) / 16, At(b, p) % 16;
    var q := p + 1 + FieldSize(delta);
    var r := q + FieldSize(length);
    var num := (pre + Field(b, delta, p + 1)) % 0x1_0000;
    var len := Field(b, length, q) % 0x1_0000;
    (CoapOption(num, Slice(b, r, len)), r - p + len)
  }

  // The option loop: index options are stored, count bytes from start are consumed.
  function DecodeOptions(b: seq<byte>, start: nat, buflen: int, count: nat, pre: uint16, index: nat): OptionsRead
    requires index <= MAX_OPTION_NUM
    decreases MAX_OPTION_NUM - index
  {
    if count < buflen && At(b, start + count) != MARKER then
      if index == MAX_OPTION_NUM then Full
      else
        var (o, len) := DecodeOption(b, start + count, pre);
        match DecodeOptions(b, start, buflen, count + len % 0x1_0000, o.num, index + 1)
        case Full => Full
        case Read(os, end) => Read([o] + os, end)
    else Read([], count)
  }

  function DecodeHeader(b: seq<byte>): Header {
    Header(At(b, 0) / 0x40, At(b, 0) / 0x10 % 4, At(b, 0) % 0x10, At(b, 1),
           At(b, 2) * 0x100 + At(b, 3))
  }

  function Decode(b: seq<byte>): Received {
    if |b| < 4 then InvalidLength
    else
      var h := DecodeHeader(b);
      if h.tokenlen > MAX_TOKEN_LEN then Overrun
      else
        var start := 4 + h.tokenlen;
        match DecodeOptions(b, start, |b| - start, 0, 0, 0)
        case Full => Overrun
        case Read(os, count) =>
          Message(Packet(h, Slice(b, 4, h.tokenlen), os, DecodePayload(b, start + count)))
  }

  function DecodePayload(b: seq<byte>, p: int): seq<byte> {
    if 0 <= p < |b| && b[p] == MARKER then b[p + 1..] else []
  }

  // ---------- the reader ----------

  lemma WrapTwice(a: int, b: int)
    ensures (a % 0x1_0000 + b) % 0x1_0000 == (a + b) % 0x1_0000
  {}

  method ReadDelta(b: seq<byte>, optdelta: byte, p: nat, pre: uint16) returns (num: uint16, ptr: nat)
    ensures num == (pre + Field(b, optdelta, p)) % 0x1_0000 && ptr == p + FieldSize(optdelta)
  {
    num, ptr := pre, p;
    if 13 == optdelta {
      num := (num + 13 + At(b, ptr)) % 0x1_0000;
      ptr := ptr + 1;
    } else if 14 == optdelta {
      num := (num + 269) % 0x1_0000;
      num := (num + At(b, ptr) * 0x100) % 0x1_0000;
      num := (num + At(b, ptr + 1)) % 0x1_0000;
      WrapTwice(pre + 269, At(b, p) * 0x100);
      WrapTwice(pre + 269 + At(b, p) * 0x100, At(b, p + 1));
      ptr := ptr + 2;
    } else {
      num := (num + optdelta) % 0x1_0000;
    }
  }

  method ReadLength(b: seq<byte>, nibble: byte, p: nat) returns (optlen: uint16, ptr: nat)
    ensures optlen == Field(b, nibble, p) % 0x1_0000 && ptr == p + FieldSize(nibble)
  {
    optlen, ptr := nibble, p;
    if 13 == optlen {
      optlen := 13 + At(b, ptr);
      ptr := ptr + 1;
    } else if 14 == optlen {
      optlen := 269;
      optlen := (optlen + At(b, ptr) * 0x100) % 0x1_0000;
      optlen := (optlen + At(b, ptr + 1)) % 0x1_0000;
      WrapTwice(269 + At(b, p) * 0x100, At(b, p + 1));
      ptr := ptr + 2;
    }
  }

  // CoAPDeserialize_Option
  method ReadOption(b: seq<byte>, start: nat, pre: uint16) returns (o: CoapOption, num: uint16, len: nat)
    ensures (o, len) == DecodeOption(b, start, pre) && num == o.num
  {
    hide Field, FieldSize, Slice, At;
    var optdelta, optlen := At(b, start) / 16, At(b, start) % 16;
    var ptr := start + 1;
    num, ptr := ReadDelta(b, optdelta, ptr, pre);
    var length: uint16;
    length, ptr := ReadLength(b, optlen, ptr);
    o := CoapOption(num, Slice(b, ptr, length));
    len := ptr - start + length;
  }

  function Prepend(done: seq<CoapOption>, rest: OptionsRead): OptionsRead {
    match rest
    case Read(os, count) => Read(done + os, count)
    case Full => Full
  }

  lemma PrependTwice(done: seq<CoapOption>, o: CoapOption, rest: OptionsRead)
    ensures Prepend(done, Prepend([o], rest)) == Prepend(done + [o], rest)
  {
    if rest.Read? { assert done + ([o] + rest.options) == done + [o] + rest.options; }
  }

  lemma OptionsUnfold(b: seq<byte>, start: nat, buflen: int, count: nat, pre: uint16, index: nat)
    requires index <= MAX_OPTION_NUM
    ensures DecodeOptions(b, start, buflen, count, pre, index) ==
      if !(count < buflen && At(b, start + count) != MARKER) then Read([], count)
      else if index == MAX_OPTION_NUM then Full
      else
        var (o, len) := DecodeOption(b, start + count, pre);
        Prepend([o], DecodeOptions(b, start, buflen, count + len % 0x1_0000, o.num, index + 1))
  {
    hide DecodeOption;
  }

  // CoAPDeserialize_Options
  method ReadOptions(b: seq<byte>, start: nat, buflen: int) returns (r: OptionsRead)
    ensures r == DecodeOptions(b, start, buflen, 0, 0, 0)
  {
    hide DecodeOption, DecodeOptions, Prepend;
    var options: seq<CoapOption> := [];
    var count: nat, optdeltas: uint16 := 0, 0;
    ghost var whole := DecodeOptions(b, start, buflen, 0, 0, 0);
    PrependNothing(whole);
    while count < buflen && MARKER != At(b, start + count)
      invariant |options| <= MAX_OPTION_NUM
      invariant whole == Prepend(options, DecodeOptions(b, start, buflen, count, optdeltas, |options|))
      decreases MAX_OPTION_NUM - |options|
    {
      OptionsUnfold(b, start, buflen, count, optdeltas, |options|);
      if |options| == MAX_OPTION_NUM {
        PrependEnd(options, 0);
        return Full;
      }
      var o, num, len := ReadOption(b, start + count, optdeltas);
      optdeltas := num;
      count := count + len % 0x1_0000;
      PrependTwice(options, o, DecodeOptions(b, start, buflen, count, optdeltas, |options| + 1));
      options := options + [o];
    }
    OptionsUnfold(b, start, buflen, count, optdeltas, |options|);
    PrependEnd(options, count);
    r := Read(options, count);
  }

  lemma PrependNothing(rest: OptionsRead)
    ensures Prepend([], rest) == rest
  {
    if rest.Read? { assert [] + rest.options == rest.options; }
  }

  lemma PrependEnd(done: seq<CoapOption>, count: int)
    ensures Prepend(done, Read([], count)) == Read(done, count)
    ensures Prepend(done, Full) == Full
  {
    assert done + [] == done;
  }

  // CoAPDeserialize_Message
  method ReadMessage(b: seq<byte>) returns (r: Received)
    ensures r == Decode(b)
  {
    hide DecodeOptions, DecodeHeader, Slice;
    if |b| < 4 { return InvalidLength; }
    var h := ReadHeader(b);
    if h.tokenlen > MAX_TOKEN_LEN { return Overrun; }
    var token := Slice(b, 4, h.tokenlen);
    var ptr, remlen := 4 + h.tokenlen, |b| - 4 - h.tokenlen;
    var read := ReadOptions(b, ptr, remlen);
    if read.Full? { return Overrun; }
    var end := ptr + read.count;
    var payload: seq<byte> := [];
    if 0 <= end && At(b, end) == MARKER {
      payload := b[end + 1..];
    }
    r := Message(Packet(h, token, read.options, payload));
  }

  // CoAPDeserialize_Header
  method ReadHeader(b: seq<byte>) returns (h: Header)
    ensures h == DecodeHeader(b)
  {
    var msgid := At(b, 2) * 0x100;
    msgid := msgid + At(b, 3);
    h := Header(At(b, 0) / 0x40, At(b, 0) / 0x10 % 4, At(b, 0) % 0x10, At(b, 1), msgid);
  }
}
