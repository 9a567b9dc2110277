/** The list of unanswered CoAP requests (sections 4.2 and 5.3.2 of RFC 7252): how a client's
    sends, the datagrams it receives and its periodic cycle change it. */
module CoapSendList {
  import opened Arithmetic
  import opened Bytes
  import opened CoapMessage
  import CoapDeserialize
  import CoapSerialize

  const ACK_TIMEOUT := 2
  const MAX_RETRY := 4
  const MAX_SPAN := 10
  const CON: byte := 0
  const ACK: byte := 2
  const BAD_REQUEST := 0x80
  const CONTENT := 0x45
  const INIT_TOKEN: uint32 := 0x01020304
  const MAX_MESSAGE_ID: uint16 := 65535

  // serial stands for the node's address: it counts the requests of the client.
  datatype SendNode = SendNode(
    serial: nat, msgid: uint16, token: seq<byte>, message: seq<byte>, observer: byte,
    acked: bool, retrans: byte, timeout: uint16, timeoutVal: uint16)

  datatype State = State(nodes: seq<SendNode>, count: byte, serial: nat)

  datatype Output =
    | Resend(serial: nat, bytes: seq<byte>)   // a listed message goes out again
    | AckSent(bytes: seq<byte>)
    | Notified(code: byte)                    // the context's notifier
    | Ran(serial: nat)                        // the handler given with that request

  // ---------- sending ----------

  function Counter(k: nat): uint32 { (INIT_TOKEN + k) % 0x1_0000_0000 }

  function LittleEndian(v: uint32): seq<byte> {
    [v % 0x100, v / 0x100 % 0x100, v / 0x1_0000 % 0x100, v / 0x100_0000]
  }

  // The token of the client's k-th request: its counter, little end first.
  function Token(k: nat): seq<byte> { LittleEndian(Counter(k)) }

  // The id of the k-th request: 1 for ever once the counter has reached 65535.
  function MessageId(k: nat): uint16 { if k < 65534 then k + 1 else 1 }

  // Two requests share a token exactly when a multiple of 2^32 lies between them.
  lemma TokensDiffer(i: nat, j: nat)
    requires i < j
    ensures Token(i) == Token(j) <==> (j - i) % 0x1_0000_0000 == 0
  {
    hide LittleEndian;
    if Token(i) == Token(j) { BytesTell(Counter(i), Counter(j)); }
    SameModulo(INIT_TOKEN + i, INIT_TOKEN + j);
  }

  lemma TokenBytes(v: uint32)
    ensures LittleEndian(v) == [v % 0x100, v / 0x100 % 0x100, v / 0x1_0000 % 0x100, v / 0x100_0000 % 0x100]
  {}

  lemma BytesTell(v: uint32, w: uint32)
    requires LittleEndian(v) == LittleEndian(w)
    ensures v == w
  {
    assert LittleEndian(v)[0] == LittleEndian(w)[0] && LittleEndian(v)[1] == LittleEndian(w)[1];
    assert LittleEndian(v)[2] == LittleEndian(w)[2] && LittleEndian(v)[3] == LittleEndian(w)[3];
    FourBytes(v);
    FourBytes(w);
  }

  lemma SameModulo(a: nat, b: nat)
    requires a <= b
    ensures a % 0x1_0000_0000 == b % 0x1_0000_0000 <==> (b - a) % 0x1_0000_0000 == 0
  {}

  // Message ids repeat exactly from the 65535th request on.
  lemma MessageIdsRepeat(i: nat, j: nat)
    requires i < j
    ensures MessageId(i) == MessageId(j) <==> j >= 65534 && (i == 0 || i >= 65534)
  {}

  // Requests, and confirmable 2.05 responses, wait for an answer.
  predicate Listed(h: Header) { 1 <= h.code < 32 || (h.code == CONTENT && h.kind == CON) }

  // What serialisation leaves of a message in the send buffer.
  function Wire(m: Packet): seq<byte>
    requires WellFormed(m)
  {
    var w := Encode(m);
    if m.payload == [] && |w| == MAX_PDU_LEN then w[..|w| - 1] else w
  }

  function NewNode(serial: nat, m: Packet, message: seq<byte>, observer: byte): SendNode {
    var con := m.header.kind == CON;
    SendNode(serial, m.header.msgid, m.token, message, observer, false,
             if con then 0 else MAX_RETRY, if con then ACK_TIMEOUT else MAX_SPAN, ACK_TIMEOUT)
  }

  // An 8-bit counter's steps.
  function Up(c: byte): byte { (c + 1) % 0x100 }

  function Down(c: byte): byte { (c - 1) % 0x100 }

  lemma CountMoves(n: nat)
    ensures Up(n % 0x100) == (n + 1) % 0x100
    ensures n > 0 ==> Down(n % 0x100) == (n - 1) % 0x100
  {
    hide Up, Down;
    var q, c := n / 0x100, n % 0x100;
    Neighbours(c);
    ModuloIs(n + 1, if c == 0xFF then q + 1 else q, Up(c));
    if n > 0 { ModuloIs(n - 1, if c == 0 then q - 1 else q, Down(c)); }
  }

  lemma Neighbours(c: byte)
    ensures Up(c) == if c == 0xFF then 0 else c + 1
    ensures Down(c) == if c == 0 then 0xFF else c - 1
  {}

  lemma ModuloIs(n: nat, q: nat, r: byte)
    requires n == 0x100 * q + r
    ensures n % 0x100 == r
  {}

  function Added(s: State, n: SendNode): State {
    s.(nodes := s.nodes + [n], count := Up(s.count))
  }

  // ---------- receiving ----------

  predicate IsAck(h: Header) { h.code == 0 && h.kind == ACK }

  predicate IsResponse(h: Header) { 0x40 <= h.code < 0xc0 }

  predicate Answers(m: Packet, n: SendNode) { n.token != [] && n.token == m.token }

  function FirstById(nodes: seq<SendNode>, msgid: uint16): (k: nat)
    ensures k <= |nodes| && forall j :: 0 <= j < k ==> nodes[j].msgid != msgid
    ensures k < |nodes| ==> nodes[k].msgid == msgid
  {
    if nodes == [] || nodes[0].msgid == msgid then 0 else 1 + FirstById(nodes[1..], msgid)
  }

  function FirstAnswered(nodes: seq<SendNode>, m: Packet): (k: nat)
    ensures k <= |nodes| && forall j :: 0 <= j < k ==> !Answers(m, nodes[j])
    ensures k < |nodes| ==> Answers(m, nodes[k])
  {
    if nodes == [] || Answers(m, nodes[0]) then 0 else 1 + FirstAnswered(nodes[1..], m)
  }

  function Acked(s: State, msgid: uint16): State {
    var k := FirstById(s.nodes, msgid);
    if k < |s.nodes| then s.(nodes := s.nodes[k := s.nodes[k].(acked := true)]) else s
  }

  function Without(nodes: seq<SendNode>, k: nat): seq<SendNode>
    requires k < |nodes|
  {
    nodes[..k] + nodes[k + 1..]
  }

  function Removed(s: State, k: nat): State
    requires k < |s.nodes|
  {
    s.(nodes := Without(s.nodes, k), count := Down(s.count))
  }

  function Answered(s: State, m: Packet): State {
    var k := FirstAnswered(s.nodes, m);
    if k < |s.nodes| && s.nodes[k].observer == DEREGISTER_OBSERVE then Removed(s, k) else s
  }

  function AckBytes(m: Packet): seq<Output> {
    if m.header.kind == CON then [AckSent(EncodeHeader(Header(1, ACK, 0, 0, m.header.msgid)))] else []
  }

  function AnswerOutputs(s: State, m: Packet): seq<Output> {
    var k := FirstAnswered(s.nodes, m);
    AckBytes(m) +
    (if k < |s.nodes| then
      (if BAD_REQUEST <= m.header.code then [Notified(m.header.code)] else []) + [Ran(s.nodes[k].serial)]
    else [])
  }

  // ---------- the cycle ----------

  datatype Visited = Kept(node: SendNode, out: seq<Output>) | Gone(out: seq<Output>)

  predicate ToResend(n: SendNode) { n.retrans < MAX_RETRY && !n.acked && n.observer == DEREGISTER_OBSERVE }

  function Resent(n: SendNode): SendNode {
    var t := 2 * n.timeoutVal % 0x1_0000;
    n.(timeout := t, timeoutVal := t, retrans := (n.retrans + 1) % 0x100)
  }

  // What the cycle does with one node.
  function Visit(n: SendNode): Visited {
    if n.timeout != 0 then Kept(n.(timeout := n.timeout - 1), [])
    else
      var out := if ToResend(n) then [Resend(n.serial, n.message)] else [];
      var next := if ToResend(n) then Resent(n) else n;
      if (next.timeout > MAX_SPAN || next.retrans >= MAX_RETRY) && n.observer == DEREGISTER_OBSERVE
      then Gone(out) else Kept(next, out)
  }

  datatype Passed = Passed(nodes: seq<SendNode>, out: seq<Output>, gone: bool)

  // One pass over the list: it ends with the first node it removes.
  function Pass(nodes: seq<SendNode>): Passed {
    if nodes == [] then Passed([], [], false)
    else
      match Visit(nodes[0])
      case Gone(out) => Passed(nodes[1..], out, true)
      case Kept(n, out) => Onto(n, out, Pass(nodes[1..]))
  }

  function Onto(n: SendNode, out: seq<Output>, rest: Passed): Passed {
    Passed([n] + rest.nodes, out + rest.out, rest.gone)
  }

  function Swept(s: State): State {
    var p := Pass(s.nodes);
    s.(nodes := p.nodes, count := if p.gone then Down(s.count) else s.count)
  }

  // ---------- the client ----------

  // Overrun: the 16-bit length passed the check, and the code writes behind its buffer.
  datatype SendResult = Success | DataSize | WriteFailed | Overrun

  function Length16(m: Packet): uint16
    requires WellFormed(m)
  {
    CoapSerialize.Wrap(|Encode(m)| - |EncodeOptions(m.options)| + CoapSerialize.Counted(m.options))
  }

  // An option of 65536 bytes makes the whole length of the options 0; otherwise it is that of the message.
  lemma Length16Is(m: Packet)
    requires WellFormed(m)
    ensures Length16(m) ==
      if exists k :: 0 <= k < |m.options| && |EncodeOption(m.options[k])| == 0x1_0000
      then |EncodeHeader(m.header) + m.token + EncodePayload(m.payload)| % 0x1_0000
      else |Encode(m)| % 0x1_0000
  {
    hide EncodeOption, EncodeOptions, EncodeHeader, EncodePayload;
    assert |Encode(m)| - |EncodeOptions(m.options)| == |EncodeHeader(m.header) + m.token + EncodePayload(m.payload)|;
    if CoapSerialize.AnyVanishes(m.options) {
      var k :| 0 <= k < |m.options| && CoapSerialize.Vanishes(m.options[k]);
      assert |EncodeOption(m.options[k])| == 0x1_0000;
    } else {
      forall k | 0 <= k < |m.options| ensures |EncodeOption(m.options[k])| != 0x1_0000 {
        assert !CoapSerialize.Vanishes(m.options[k]);
      }
    }
  }

  // iotx_coap_t with its CoAPContext; lock-free, one caller at a time.
  class Client {
    var nodes: seq<SendNode>
    var count: byte
    var coapToken: uint32
    var messageId: uint16
    var serial: nat   // the requests made so far; as a node's field, its address
    const sendbuf: array<byte>

    ghost function Now(): State
      reads this
    {
      State(nodes, count, serial)
    }

    ghost predicate Valid()
      reads this
    {
      && sendbuf.Length == MAX_PDU_LEN
      && coapToken == Counter(serial)
      && messageId == if serial < 65534 then serial + 1 else MAX_MESSAGE_ID
    }

    constructor ()
      ensures Valid() && Now() == State([], 0, 0) && fresh(sendbuf)
    {
      nodes, count, coapToken, messageId, serial := [], 0, INIT_TOKEN, 1, 0;
      sendbuf := new byte[MAX_PDU_LEN];
    }

    // iotx_get_coap_token
    method DrawToken() returns (token: seq<byte>)
      requires coapToken == Counter(serial)
      modifies this`coapToken
      ensures coapToken == Counter(serial + 1) && token == Token(serial)
    {
      token := [coapToken % 0x100, coapToken / 0x100 % 0x100,
                coapToken / 0x1_0000 % 0x100, coapToken / 0x100_0000 % 0x100];
      TokenBytes(coapToken);
      hide LittleEndian;
      NextModulo(INIT_TOKEN + serial);
      coapToken := (coapToken + 1) % 0x1_0000_0000;
    }

    // CoAPMessageId_gen and iotx_get_coap_token, drawn together for each request.
    method Draw() returns (id: uint16, token: seq<byte>)
      requires Valid()
      modifies this`messageId, this`coapToken, this`serial
      ensures Valid() && serial == old(serial) + 1
      ensures id == MessageId(old(serial)) && token == Token(old(serial))
    {
      hide Counter, LittleEndian;
      if messageId == MAX_MESSAGE_ID {
        id := 1;
      } else {
        id := messageId;
        messageId := messageId + 1;
      }
      token := DrawToken();
      serial := serial + 1;
    }

    // CoAPMessageList_add, whose bound compares two addresses and never holds.
    method Add(m: Packet, message: seq<byte>, observer: byte, k: nat)
      modifies this`nodes, this`count
      ensures Now() == Added(old(Now()), NewNode(k, m, message, observer))
    {
      var timeout: uint16, retrans: byte := ACK_TIMEOUT, 0;
      if m.header.kind != CON {
        timeout, retrans := MAX_SPAN, MAX_RETRY;
      }
      var node := SendNode(k, m.header.msgid, m.token, message, observer, false, retrans, timeout, ACK_TIMEOUT);
      nodes := nodes + [node];
      count := (count + 1) % 0x100;
    }

    // CoAPMessage_send of request k; written says whether the network took it.
    method Send(m: Packet, observer: byte, k: nat, written: bool) returns (r: SendResult)
      requires Valid() && WellFormed(m)
      modifies this`nodes, this`count, sendbuf
      ensures Valid()
      ensures r == if |Encode(m)| <= MAX_PDU_LEN then (if written then Success else WriteFailed)
        else if Length16(m) > MAX_PDU_LEN then DataSize else Overrun
      ensures |Encode(m)| < 0x1_0000 ==> r != Overrun
      ensures Now() == if r == Success && Listed(m.header)
        then Added(old(Now()), NewNode(k, m, Wire(m), observer)) else old(Now())
    {
      hide Encode, WellFormed;
      var msglen := CoapSerialize.MessageLength(m);
      if MAX_PDU_LEN < msglen { return DataSize; }
      if |Encode(m)| > MAX_PDU_LEN { return Overrun; }
      var n := CoapSerialize.SerializeMessage(m, sendbuf, MAX_PDU_LEN);
      assert sendbuf[..n] == Wire(m);
      if !written { return WriteFailed; }
      if Listed(m.header) {
        Add(m, sendbuf[..n], observer, k);
      }
      r := Success;
    }

    // CoAPAckMessage_handle
    method HandleAck(msgid: uint16)
      modifies this`nodes
      ensures Now() == Acked(old(Now()), msgid)
    {
      for i := 0 to |nodes|
        invariant nodes == old(nodes) && forall j :: 0 <= j < i ==> nodes[j].msgid != msgid
      {
        if nodes[i].msgid == msgid {
          nodes := nodes[i := nodes[i].(acked := true)];
          return;
        }
      }
    }

    // CoAPRespMessage_handle; the handlers do not call back into the client.
    method HandleResponse(m: Packet) returns (out: seq<Output>)
      modifies this`nodes, this`count
      ensures Now() == Answered(old(Now()), m) && out == AnswerOutputs(old(Now()), m)
    {
      out := [];
      if m.header.kind == CON {
        out := [AckSent(EncodeHeader(Header(1, ACK, 0, 0, m.header.msgid)))];
      }
      for i := 0 to |nodes|
        invariant nodes == old(nodes) && count == old(count) && out == AckBytes(m)
        invariant forall j :: 0 <= j < i ==> !Answers(m, nodes[j])
      {
        var node := nodes[i];
        if node.token != [] && node.token == m.token {
          assert i == FirstAnswered(nodes, m);
          if BAD_REQUEST <= m.header.code { out := out + [Notified(m.header.code)]; }
          out := out + [Ran(node.serial)];
          if node.observer == DEREGISTER_OBSERVE {
            nodes := nodes[..i] + nodes[i + 1..];
            count := (count - 1) % 0x100;
          }
          return;
        }
      }
    }

    // CoAPMessage_handle of a datagram that the message struct has room for.
    method Handle(b: seq<byte>) returns (out: seq<Output>)
      requires !CoapDeserialize.Decode(b).Overrun?
      modifies this`nodes, this`count
      ensures (Now(), out) == Arrived(old(Now()), CoapDeserialize.Decode(b))
    {
      hide CoapDeserialize.Decode, Acked, Answered, AnswerOutputs;
      var r := CoapDeserialize.ReadMessage(b);
      out := [];
      if r.Message? {
        var h := r.packet.header;
        if h.code == 0 && h.kind == ACK {
          HandleAck(h.msgid);
        } else if 0x40 <= h.code && h.code < 0xc0 {
          out := HandleResponse(r.packet);
        }
      }
    }

    // The body of the cycle's loop for the node at i.
    method VisitAt(i: nat) returns (out: seq<Output>, gone: bool)
      requires i < |nodes|
      modifies this`nodes, this`count
      ensures match Visit(old(nodes[i]))
        case Kept(n, o) => !gone && out == o && nodes == old(nodes)[i := n] && count == old(count)
        case Gone(o) => gone && out == o && nodes == Without(old(nodes), i) && count == Down(old(count))
    {
      out, gone := [], false;
      var node := nodes[i];
      if node.timeout == 0 {
        if node.retrans < MAX_RETRY && !node.acked && node.observer == DEREGISTER_OBSERVE {
          node := node.(timeout := node.timeoutVal * 2 % 0x1_0000);
          node := node.(timeoutVal := node.timeout);
          node := node.(retrans := (node.retrans + 1) % 0x100);
          out := [Resend(node.serial, node.message)];
        }
        nodes := nodes[i := node];
        if node.timeout > MAX_SPAN || node.retrans >= MAX_RETRY {
          if node.observer == DEREGISTER_OBSERVE {
            nodes := nodes[..i] + nodes[i + 1..];
            count := (count - 1) % 0x100;
            gone := true;
          }
        }
      } else {
        nodes := nodes[i := node.(timeout := node.timeout - 1)];
      }
    }

    // CoAPMessage_cycle after it has received: one pass, ended by a removal.
    method Cycle() returns (out: seq<Output>)
      modifies this`nodes, this`count
      ensures Now() == Swept(old(Now())) && out == Pass(old(nodes)).out
    {
      hide Visit, Pass, Down;
      out := [];
      var i := 0;
      var gone := false;
      while i < |nodes| && !gone
        invariant i <= |nodes| && serial == old(serial)
        invariant count == if gone then Down(old(count)) else old(count)
        invariant gone ==> Pass(old(nodes)) == Passed(nodes, out, true)
        invariant !gone ==> Pass(old(nodes)) == Over(nodes[..i], out, Pass(nodes[i..]))
        decreases if gone then 0 else 1, |nodes| - i
      {
        ghost var was, before := nodes, out;
        var more;
        more, gone := VisitAt(i);
        PassUnfold(was[i..]);
        assert was[i..][1..] == was[i + 1..];
        out := out + more;
        if gone {
          assert nodes == was[..i] + was[i + 1..];
        } else {
          assert nodes[i + 1..] == was[i + 1..] && nodes[..i + 1] == was[..i] + [nodes[i]];
          OverOnto(was[..i], before, nodes[i], more, Pass(nodes[i + 1..]));
          i := i + 1;
        }
      }
      if !gone {
        PassUnfold(nodes[i..]);
        assert nodes[..i] == nodes && nodes[i..] == [];
      }
    }
  }

  // What a decoded datagram does.
  function Arrived(s: State, r: CoapDeserialize.Received): (State, seq<Output>) {
    if !r.Message? then (s, [])
    else if IsAck(r.packet.header) then (Acked(s, r.packet.header.msgid), [])
    else if IsResponse(r.packet.header) then (Answered(s, r.packet), AnswerOutputs(s, r.packet))
    else (s, [])
  }

  lemma NextModulo(a: nat)
    ensures (a % 0x1_0000_0000 + 1) % 0x1_0000_0000 == (a + 1) % 0x1_0000_0000
  {}

  function Over(done: seq<SendNode>, out: seq<Output>, rest: Passed): Passed {
    Passed(done + rest.nodes, out + rest.out, rest.gone)
  }

  lemma OverOnto(done: seq<SendNode>, out: seq<Output>, n: SendNode, more: seq<Output>, rest: Passed)
    ensures Over(done, out, Onto(n, more, rest)) == Over(done + [n], out + more, rest)
  {
    assert done + ([n] + rest.nodes) == done + [n] + rest.nodes;
    assert out + (more + rest.out) == out + more + rest.out;
  }

  lemma PassUnfold(nodes: seq<SendNode>)
    ensures Pass(nodes) ==
      if nodes == [] then Passed([], [], false)
      else if Visit(nodes[0]).Gone? then Passed(nodes[1..], Visit(nodes[0]).out, true)
      else Onto(Visit(nodes[0]).node, Visit(nodes[0]).out, Pass(nodes[1..]))
  {}
}
