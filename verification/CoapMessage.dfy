/** CoAP messages, the option builders, and the wire form of section 3 of RFC 7252. */
module CoapMessage {
  import opened Bytes
  import opened Arithmetic

  const MAX_TOKEN_LEN := 8
  const MAX_OPTION_NUM := 16
  const MAX_PDU_LEN := 1280
  const MARKER: byte := 0xFF

  datatype Header = Header(version: byte, kind: byte, tokenlen: byte, code: byte, msgid: uint16)

  // num is a delta while a message is built and sent, and absolute once it has been received.
  datatype CoapOption = CoapOption(num: uint16, val: seq<byte>)

  // An absent payload is an empty one.
  datatype Packet = Packet(header: Header, token: seq<byte>, options: seq<CoapOption>, payload: seq<byte>)

  // What the setters and bit fields of the message struct guarantee of a message.
  predicate WellFormed(m: Packet) {
    && m.header.version < 4 && m.header.kind < 4
    && m.header.tokenlen == |m.token| <= MAX_TOKEN_LEN
    && |m.options| <= MAX_OPTION_NUM
    && (forall k :: 0 <= k < |m.options| ==> |m.options[k].val| < 0x1_0000)
    && |m.payload| < 0x1_0000
  }

  // ---------- wire form ----------

  // The 4-bit form of an option delta or length, and the bytes that extend it.
  function Nibble(n: uint16): (r: byte)
    ensures r <= 14
  {
    if n >= 269 then 14 else if n >= 13 then 13 else n
  }

  function Extended(n: uint16): seq<byte> {
    if n >= 269 then [(n - 269) / 0x100, (n - 269) % 0x100]
    else if n >= 13 then [n - 13]
    else []
  }

  function EncodeOption(o: CoapOption): (w: seq<byte>)
    requires |o.val| < 0x1_0000
    ensures w != []
  {
    [Nibble(o.num) * 16 + Nibble(|o.val|)] + Extended(o.num) + Extended(|o.val|) + o.val
  }

  function EncodeOptions(os: seq<CoapOption>): seq<byte>
    requires forall k :: 0 <= k < |os| ==> |os[k].val| < 0x1_0000
  {
    if os == [] then [] else EncodeOption(os[0]) + EncodeOptions(os[1..])
  }

  function EncodeHeader(h: Header): seq<byte> {
    [(h.version % 4 * 4 + h.kind % 4) * 16 + h.tokenlen % 16, h.code, h.msgid / 0x100, h.msgid % 0x100]
  }

  function EncodePayload(payload: seq<byte>): seq<byte> {
    if payload == [] then [] else [MARKER] + payload
  }

  function Encode(m: Packet): seq<byte>
    requires WellFormed(m)
  {
    EncodeHeader(m.header) + m.token + EncodeOptions(m.options) + EncodePayload(m.payload)
  }

  // The options a receiver reconstructs: each number is the sum of the deltas up to it.
  function Absolute(os: seq<CoapOption>, pre: uint16): (r: seq<CoapOption>)
    ensures |r| == |os|
  {
    if os == [] then []
    else
      var num := (pre + os[0].num) % 0x1_0000;
      [CoapOption(num, os[0].val)] + Absolute(os[1..], num)
  }

  function DeltaSum(os: seq<CoapOption>): nat {
    if os == [] then 0 else os[0].num + DeltaSum(os[1..])
  }

  // With a sum below 65536 nothing wraps: the numbers are the plain prefix sums.
  lemma {:induction false} AbsoluteIsPrefixSum(os: seq<CoapOption>, pre: uint16, k: nat)
    requires k < |os| && pre + DeltaSum(os) < 0x1_0000
    ensures DeltaSum(os[..k + 1]) <= DeltaSum(os)
    ensures Absolute(os, pre)[k] == CoapOption(pre + DeltaSum(os[..k + 1]), os[k].val)
    decreases |os|
  {
    assert os[..k + 1][1..] == os[1..][..k];
    assert DeltaSum(os[..k + 1]) == os[0].num + DeltaSum(os[1..][..k]);
    if k == 0 {
      assert os[1..][..0] == [];
    } else {
      hide DeltaSum;
      AbsoluteIsPrefixSum(os[1..], pre + os[0].num, k - 1);
    }
  }

  lemma EncodeParts(m: Packet)
    requires WellFormed(m)
    ensures |EncodeHeader(m.header)| == 4
    ensures Encode(m) == EncodeHeader(m.header) + m.token + EncodeOptions(m.options) + EncodePayload(m.payload)
    ensures m.payload == [] ==> Encode(m) == EncodeHeader(m.header) + m.token + EncodeOptions(m.options)
    ensures m.payload == [] ==> EncodePayload(m.payload) == []
    ensures |EncodePayload(m.payload)| == if m.payload == [] then 0 else |m.payload| + 1
  {}

  // ---------- option values ----------

  // What CoAPUintOption_add stores for a value.
  function UintBytes(data: uint32): seq<byte> {
    if data == 0 then []
    else if data <= 256 then [data % 0x100]
    else if data <= 0xFFFF then [data / 0x100, data % 0x100]
    else [data / 0x100_0000, data / 0x1_0000 % 0x100, data / 0x100 % 0x100, data % 0x100]
  }

  // By section 3.2 of RFC 7252 the stored bytes stand for the value, except for 256 alone.
  lemma UintRoundTrip(data: uint32)
    ensures NetworkOrder(UintBytes(data)) == data <==> data != 256
  {
    OfBytes(data % 0x100, 0, 0, 0);
    if 256 < data <= 0xFFFF { OfBytes(data / 0x100, data % 0x100, 0, 0); }
    OfBytes(data / 0x100_0000, data / 0x1_0000 % 0x100, data / 0x100 % 0x100, data % 0x100);
    FourBytes(data);
    hide NetworkOrder;
    assert NetworkOrder([]) == 0 by { OfNothing(); }
  }

  // Nothing for 0, one byte up to 256, two up to 65535, and four beyond.
  lemma UintLengths(data: uint32)
    ensures |UintBytes(data)| == 0 <==> data == 0
    ensures |UintBytes(data)| == 1 <==> 1 <= data <= 256
    ensures |UintBytes(data)| == 2 <==> 257 <= data <= 65535
    ensures |UintBytes(data)| == 4 <==> data >= 65536
  {}

  // ---------- the message under construction ----------

  const OPTION_OBSERVE: uint16 := 6
  const REGISTERED_OBSERVE: byte := 0
  const DEREGISTER_OBSERVE: byte := 1

  // The delta that follows an option numbered last (kept in 8 bits) for one numbered next.
  function Delta(last: nat, next: uint16): uint16 { (next - last % 0x100) % 0x1_0000 }

  class CoapMessage {
    var packet: Packet
    var optdelta: byte
    var observer: byte

    // CoAPMessage_init
    constructor ()
      ensures packet == Packet(Header(1, 2, 0, 0, 0), [], [], []) && optdelta == 0
      ensures observer == DEREGISTER_OBSERVE
    {
      packet := Packet(Header(1, 2, 0, 0, 0), [], [], []);
      optdelta := 0;
      observer := DEREGISTER_OBSERVE;
    }

    // CoAPStrOption_add
    method AddString(optnum: uint16, data: seq<byte>) returns (ok: bool)
      modifies this
      ensures ok == (|old(packet).options| < MAX_OPTION_NUM)
      ensures observer == old(observer)
      ensures if ok then
          optdelta == optnum % 0x100 &&
          packet == old(packet).(options := old(packet).options + [CoapOption(Delta(old(optdelta), optnum), data)])
        else packet == old(packet) && optdelta == old(optdelta)
    {
      if MAX_OPTION_NUM <= |packet.options| { return false; }
      packet := packet.(options := packet.options + [CoapOption((optnum - optdelta) % 0x1_0000, data)]);
      optdelta := optnum % 0x100;
      ok := true;
    }

    // CoAPUintOption_add
    method AddUint(optnum: uint16, data: uint32) returns (ok: bool)
      modifies this
      ensures ok == (|old(packet).options| < MAX_OPTION_NUM)
      ensures observer == if ok && optnum == OPTION_OBSERVE then
          (if data == 0 then REGISTERED_OBSERVE else DEREGISTER_OBSERVE) else old(observer)
      ensures if ok then
          optdelta == optnum % 0x100 &&
          packet == old(packet).(options :=
            old(packet).options + [CoapOption(Delta(old(optdelta), optnum), UintBytes(data))])
        else packet == old(packet) && optdelta == old(optdelta)
    {
      if MAX_OPTION_NUM <= |packet.options| { return false; }
      if optnum == OPTION_OBSERVE {
        observer := if data == 0 then REGISTERED_OBSERVE else DEREGISTER_OBSERVE;
      }
      var val: seq<byte>;
      if 0 == data {
        val := [];
      } else if 256 >= data {
        val := [data % 0x100];
      } else if 65535 >= data {
        val := [data / 0x100 % 0x100, data % 0x100];
      } else {
        val := [data / 0x100_0000 % 0x100, data / 0x1_0000 % 0x100, data / 0x100 % 0x100, data % 0x100];
      }
      packet := packet.(options := packet.options + [CoapOption((optnum - optdelta) % 0x1_0000, val)]);
      optdelta := optnum % 0x100;
      ok := true;
    }
  }

  // The options that a run of successful additions leaves behind.
  function Built(adds: seq<CoapOption>, last: nat): (r: seq<CoapOption>)
    ensures |r| == |adds|
  {
    if adds == [] then []
    else [CoapOption(Delta(last, adds[0].num), adds[0].val)] + Built(adds[1..], adds[0].num)
  }

  predicate AllButLastSmall(adds: seq<CoapOption>) {
    forall k :: 0 <= k < |adds| - 1 ==> adds[k].num < 0x100
  }

  // A receiver sees the numbers that were added exactly when all but the last are below 256:
  // the running number is kept in one byte.
  lemma {:induction false} BuiltNumbers(adds: seq<CoapOption>)
    ensures Absolute(Built(adds, 0), 0) == adds <==> AllButLastSmall(adds)
  {
    if adds != [] { BuiltFrom(adds, 0, 0); }
  }

  lemma {:induction false} BuiltFrom(adds: seq<CoapOption>, last: uint16, pre: uint16)
    requires adds != [] && pre == last % 0x100
    ensures Absolute(Built(adds, last), pre) == adds <==> AllButLastSmall(adds)
    decreases |adds|
  {
    hide Absolute, Built, AllButLastSmall;
    var n, rest := adds[0].num, adds[1..];
    var seen := Absolute(Built(rest, n), n);
    BuiltStep(adds, last, pre);
    ConsEqual(adds[0], seen, rest);
    assert adds == [adds[0]] + rest;
    SmallStep(adds);
    if rest != [] {
      if n < 0x100 {
        BuiltFrom(rest, n, n);
      } else {
        BuiltLoses(rest, n);
      }
    }
  }

  lemma SmallStep(adds: seq<CoapOption>)
    requires adds != []
    ensures AllButLastSmall(adds) <==> |adds| == 1 || (adds[0].num < 0x100 && AllButLastSmall(adds[1..]))
  {
    var rest := adds[1..];
    assert forall k :: 0 < k < |adds| ==> adds[k] == rest[k - 1];
    assert forall k :: 0 <= k < |rest| ==> rest[k] == adds[k + 1];
  }

  lemma BuiltStep(adds: seq<CoapOption>, last: uint16, pre: uint16)
    requires adds != [] && pre == last % 0x100
    ensures Absolute(Built(adds, last), pre)
      == [adds[0]] + Absolute(Built(adds[1..], adds[0].num), adds[0].num)
  {
    assert Built(adds, last)[1..] == Built(adds[1..], adds[0].num);
    DeltaAdds(last, adds[0].num);
    hide Delta;
  }

  lemma DeltaAdds(last: nat, next: uint16)
    ensures (last % 0x100 + Delta(last, next)) % 0x1_0000 == next
  {}

  lemma ConsEqual<T>(x: T, a: seq<T>, b: seq<T>)
    ensures [x] + a == [x] + b <==> a == b
  {
    assert ([x] + a)[1..] == a && ([x] + b)[1..] == b;
  }

  // The number after one that did not fit the byte comes out too large by what the byte lost.
  lemma BuiltLoses(rest: seq<CoapOption>, n: uint16)
    requires rest != [] && n >= 0x100
    ensures Absolute(Built(rest, n), n) != rest
  {
    DeltaLoses(n, rest[0].num);
    hide Delta;
    assert Absolute(Built(rest, n), n)[0].num == (n + Delta(n, rest[0].num)) % 0x1_0000;
  }

  lemma DeltaLoses(n: uint16, next: uint16)
    requires n >= 0x100
    ensures (n + Delta(n, next)) % 0x1_0000 != next
  {
    var low, lost := n % 0x100, n / 0x100 * 0x100;
    assert n == lost + low && 0 < lost < 0x1_0000;
    assert Delta(n, next) == if next < low then next - low + 0x1_0000 else next - low;
  }
}
