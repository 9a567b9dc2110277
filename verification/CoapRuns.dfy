/** Every run of a CoAP client: requests, datagrams and cycles in any order. */
module CoapRuns {
  import opened Bytes
  import opened Search
  import opened CoapMessage
  import opened CoapSendList
  import CoapDeserialize

  datatype Event =
    | Requested(message: seq<byte>, observer: byte, listed: bool)
    | Received(datagram: CoapDeserialize.Received)
    | Cycled

  // Requests are confirmable; id and token come from the client's counters.
  function Request(k: nat, message: seq<byte>, observer: byte): SendNode {
    SendNode(k, MessageId(k), Token(k), message, observer, false, 0, ACK_TIMEOUT, ACK_TIMEOUT)
  }

  function Step(s: State, e: Event): (State, seq<Output>) {
    match e
    case Requested(message, observer, listed) =>
      var next := s.(serial := s.serial + 1);
      (if listed then Added(next, Request(s.serial, message, observer)) else next, [])
    case Received(r) => Arrived(s, r)
    case Cycled => (Swept(s), Pass(s.nodes).out)
  }

  function Run(s: State, es: seq<Event>): (State, seq<Output>)
    decreases |es|
  {
    if es == [] then (s, [])
    else
      var (next, out) := Step(s, es[0]);
      var (last, more) := Run(next, es[1..]);
      (last, out + more)
  }

  const INIT := State([], 0, 0)

  function Requests(es: seq<Event>): nat {
    if es == [] then 0 else (if es[0].Requested? then 1 else 0) + Requests(es[1..])
  }

  // ---------- what every step keeps ----------

  // Doubling timeouts 2, 4, 8 for the retransmissions 0, 1, 2.
  predicate OnSchedule(n: SendNode) {
    && n.retrans <= 2 && n.timeout <= n.timeoutVal
    && n.timeoutVal == (if n.retrans == 0 then 2 else if n.retrans == 1 then 4 else 8)
  }

  predicate Sound(n: SendNode) {
    n.token == Token(n.serial) && n.msgid == MessageId(n.serial) && OnSchedule(n)
  }

  // The nodes stand in the order of their requests, which are numbered from lo up to hi.
  predicate Ordered(nodes: seq<SendNode>, lo: nat, hi: nat) {
    nodes == [] ||
    (lo <= nodes[0].serial < hi && Sound(nodes[0]) && Ordered(nodes[1..], nodes[0].serial + 1, hi))
  }

  ghost predicate Inv(s: State) { s.count == |s.nodes| % 0x100 && Ordered(s.nodes, 0, s.serial) }

  lemma {:induction false} Widen(nodes: seq<SendNode>, lo: nat, hi: nat, lo': nat, hi': nat)
    requires Ordered(nodes, lo, hi) && lo' <= lo && hi <= hi'
    ensures Ordered(nodes, lo', hi')
  {
    if nodes != [] { Widen(nodes[1..], nodes[0].serial + 1, hi, nodes[0].serial + 1, hi'); }
  }

  lemma {:induction false} OrderedSnoc(nodes: seq<SendNode>, lo: nat, hi: nat, n: SendNode)
    requires Ordered(nodes, lo, hi) && lo <= hi && n.serial == hi && Sound(n)
    ensures Ordered(nodes + [n], lo, hi + 1)
  {
    if nodes == [] {
      assert (nodes + [n])[1..] == [];
    } else {
      assert (nodes + [n])[1..] == nodes[1..] + [n];
      OrderedSnoc(nodes[1..], nodes[0].serial + 1, hi, n);
    }
  }

  lemma {:induction false} OrderedUpdate(nodes: seq<SendNode>, lo: nat, hi: nat, i: nat, n: SendNode)
    requires Ordered(nodes, lo, hi) && i < |nodes| && Sound(n) && n.serial == nodes[i].serial
    ensures Ordered(nodes[i := n], lo, hi)
  {
    if i > 0 {
      assert nodes[i := n][1..] == nodes[1..][i - 1 := n];
      OrderedUpdate(nodes[1..], nodes[0].serial + 1, hi, i - 1, n);
    } else {
      assert nodes[i := n][1..] == nodes[1..];
    }
  }

  lemma {:induction false} OrderedWithout(nodes: seq<SendNode>, lo: nat, hi: nat, i: nat)
    requires Ordered(nodes, lo, hi) && i < |nodes|
    ensures Ordered(Without(nodes, i), lo, hi)
  {
    if i == 0 {
      Widen(nodes[1..], nodes[0].serial + 1, hi, lo, hi);
      assert Without(nodes, 0) == nodes[1..];
    } else {
      assert Without(nodes, i)[1..] == Without(nodes[1..], i - 1);
      OrderedWithout(nodes[1..], nodes[0].serial + 1, hi, i - 1);
    }
  }

  lemma {:induction false} OrderedAt(nodes: seq<SendNode>, lo: nat, hi: nat, i: nat)
    requires Ordered(nodes, lo, hi) && i < |nodes|
    ensures Sound(nodes[i]) && lo <= nodes[i].serial < hi
  {
    if i > 0 { OrderedAt(nodes[1..], nodes[0].serial + 1, hi, i - 1); }
  }

  // A visit moves a node along its schedule, or removes it.
  lemma VisitKeeps(n: SendNode)
    requires Sound(n)
    ensures Visit(n).Kept? ==> Sound(Visit(n).node) && Visit(n).node.serial == n.serial
  {
    hide Token, MessageId;
  }

  lemma {:induction false} PassKeeps(nodes: seq<SendNode>, lo: nat, hi: nat)
    requires Ordered(nodes, lo, hi)
    ensures var p := Pass(nodes);
      Ordered(p.nodes, lo, hi) && |p.nodes| == |nodes| - if p.gone then 1 else 0
  {
    hide Visit, Sound;
    if nodes != [] {
      VisitKeeps(nodes[0]);
      if Visit(nodes[0]).Gone? {
        Widen(nodes[1..], nodes[0].serial + 1, hi, lo, hi);
      } else {
        PassKeeps(nodes[1..], nodes[0].serial + 1, hi);
        var p := Pass(nodes[1..]);
        assert ([Visit(nodes[0]).node] + p.nodes)[1..] == p.nodes;
      }
    }
  }

  lemma ReceiveKeeps(s: State, r: CoapDeserialize.Received)
    requires Inv(s)
    ensures Inv(Arrived(s, r).0)
  {
    hide Ordered, Token, MessageId, FirstById, FirstAnswered, AnswerOutputs, Up, Down;
    CountMoves(|s.nodes|);
    if r.Message? {
      var i, k := FirstById(s.nodes, r.packet.header.msgid), FirstAnswered(s.nodes, r.packet);
      if i < |s.nodes| {
        OrderedAt(s.nodes, 0, s.serial, i);
        OrderedUpdate(s.nodes, 0, s.serial, i, s.nodes[i].(acked := true));
      }
      if k < |s.nodes| { OrderedWithout(s.nodes, 0, s.serial, k); }
    }
  }

  lemma StepKeeps(s: State, e: Event)
    requires Inv(s)
    ensures Inv(Step(s, e).0)
  {
    hide Ordered, Token, MessageId, Pass, Arrived, Up, Down;
    CountMoves(|s.nodes|);
    match e
    case Requested(message, observer, listed) =>
      Widen(s.nodes, 0, s.serial, 0, s.serial + 1);
      OrderedSnoc(s.nodes, 0, s.serial, Request(s.serial, message, observer));
    case Cycled =>
      PassKeeps(s.nodes, 0, s.serial);
    case Received(r) =>
      ReceiveKeeps(s, r);
  }

  // In every run the count is the list's length modulo 256, whatever was sent, lost or received.
  lemma {:induction false} RunKeeps(s: State, es: seq<Event>)
    requires Inv(s)
    ensures Inv(Run(s, es).0) && Run(s, es).0.serial == s.serial + Requests(es)
    decreases |es|
  {
    hide Inv, Pass, FirstById, FirstAnswered;
    if es != [] {
      StepKeeps(s, es[0]);
      RunKeeps(Step(s, es[0]).0, es[1..]);
    }
  }

  // ---------- responses ----------

  // With fewer than 2^32 requests made, a response reaches the one request that has its token.
  lemma ResponseMatches(s: State, m: Packet, k: nat)
    requires Inv(s) && s.serial < 0x1_0000_0000
    requires k < |s.nodes| && IsResponse(m.header) && m.token == s.nodes[k].token
    ensures var (next, out) := Step(s, Received(CoapDeserialize.Message(m)));
      && out == AckBytes(m) +
          (if BAD_REQUEST <= m.header.code then [Notified(m.header.code)] else []) + [Ran(s.nodes[k].serial)]
      && next == if s.nodes[k].observer == DEREGISTER_OBSERVE then Removed(s, k) else s
  {
    hide Ordered, Token, FirstAnswered;
    TokenFinds(s.nodes, 0, s.serial, m, k);
  }

  lemma InitIsSound()
    ensures Inv(INIT)
  {}

  // After any run of a new client with fewer than 2^32 requests.
  lemma ResponseInRun(es: seq<Event>, m: Packet, k: nat)
    requires Requests(es) < 0x1_0000_0000 && IsResponse(m.header)
    requires k < |Run(INIT, es).0.nodes| && m.token == Run(INIT, es).0.nodes[k].token
    ensures var s := Run(INIT, es).0;
      Step(s, Received(CoapDeserialize.Message(m))).0 ==
        if s.nodes[k].observer == DEREGISTER_OBSERVE then Removed(s, k) else s
    ensures forall j :: 0 <= j < |Run(INIT, es).0.nodes| && j != k ==>
      Ran(Run(INIT, es).0.nodes[j].serial) !in Step(Run(INIT, es).0, Received(CoapDeserialize.Message(m))).1
    ensures Ran(Run(INIT, es).0.nodes[k].serial) in Step(Run(INIT, es).0, Received(CoapDeserialize.Message(m))).1
  {
    hide Run, Step, Ordered;
    InitIsSound();
    RunKeeps(INIT, es);
    var s := Run(INIT, es).0;
    ResponseMatches(s, m, k);
    var out := Step(s, Received(CoapDeserialize.Message(m))).1;
    forall j | 0 <= j < |s.nodes| && j != k ensures Ran(s.nodes[j].serial) !in out {
      if j < k { Increasing(s.nodes, 0, s.serial, j, k); } else { Increasing(s.nodes, 0, s.serial, k, j); }
    }
  }

  // No earlier request has the token of the one at k.
  lemma TokenFinds(nodes: seq<SendNode>, lo: nat, hi: nat, m: Packet, k: nat)
    requires Ordered(nodes, lo, hi) && hi < 0x1_0000_0000 && k < |nodes| && m.token == nodes[k].token
    ensures FirstAnswered(nodes, m) == k
  {
    hide Ordered, OnSchedule, MessageId;
    var i := FirstAnswered(nodes, m);
    OrderedAt(nodes, lo, hi, k);
    assert Answers(m, nodes[k]);
    if i < k {
      OrderedAt(nodes, lo, hi, i);
      Increasing(nodes, lo, hi, i, k);
      TokensDiffer(nodes[i].serial, nodes[k].serial);
    }
  }

  lemma {:induction false} Increasing(nodes: seq<SendNode>, lo: nat, hi: nat, i: nat, k: nat)
    requires Ordered(nodes, lo, hi) && i < k < |nodes|
    ensures nodes[i].serial < nodes[k].serial
  {
    if i == 0 {
      OrderedAt(nodes[1..], nodes[0].serial + 1, hi, k - 1);
    } else {
      Increasing(nodes[1..], nodes[0].serial + 1, hi, i - 1, k - 1);
    }
  }

  // Any other response is at most acknowledged.
  lemma ResponseUnmatched(s: State, m: Packet)
    requires IsResponse(m.header) && (m.token == [] || forall k :: 0 <= k < |s.nodes| ==> s.nodes[k].token != m.token)
    ensures Step(s, Received(CoapDeserialize.Message(m))) == (s, AckBytes(m))
  {
    var k := FirstAnswered(s.nodes, m);
    assert k == |s.nodes|;
    assert AckBytes(m) + [] == AckBytes(m);
  }

  // ---------- following one request ----------

  function Lookup(nodes: seq<SendNode>, k: nat): Found<SendNode> {
    if nodes == [] then Missing
    else if nodes[0].serial == k then At(nodes[0])
    else Lookup(nodes[1..], k)
  }

  lemma {:induction false} LookupIs(nodes: seq<SendNode>, lo: nat, hi: nat, i: nat)
    requires Ordered(nodes, lo, hi) && i < |nodes|
    ensures Lookup(nodes, nodes[i].serial) == At(nodes[i])
  {
    if i > 0 {
      Increasing(nodes, lo, hi, 0, i);
      LookupIs(nodes[1..], nodes[0].serial + 1, hi, i - 1);
    }
  }

  lemma {:induction false} LookupBelow(nodes: seq<SendNode>, lo: nat, hi: nat, k: nat)
    requires Ordered(nodes, lo, hi) && k < lo
    ensures Lookup(nodes, k) == Missing
  {
    if nodes != [] { LookupBelow(nodes[1..], nodes[0].serial + 1, hi, k); }
  }

  lemma {:induction false} LookupSnoc(nodes: seq<SendNode>, n: SendNode, k: nat)
    requires n.serial != k
    ensures Lookup(nodes + [n], k) == Lookup(nodes, k)
  {
    if nodes != [] {
      assert (nodes + [n])[1..] == nodes[1..] + [n];
      LookupSnoc(nodes[1..], n, k);
    } else {
      assert (nodes + [n])[1..] == [];
    }
  }

  lemma {:induction false} LookupUpdate(nodes: seq<SendNode>, i: nat, n: SendNode, k: nat)
    requires i < |nodes| && nodes[i].serial == n.serial
    requires n.serial != k
    ensures Lookup(nodes[i := n], k) == Lookup(nodes, k)
  {
    assert nodes[i := n][1..] == if i == 0 then nodes[1..] else nodes[1..][i - 1 := n];
    if i > 0 { LookupUpdate(nodes[1..], i - 1, n, k); }
  }

  lemma {:induction false} LookupWithout(nodes: seq<SendNode>, i: nat, k: nat)
    requires i < |nodes| && nodes[i].serial != k
    ensures Lookup(Without(nodes, i), k) == Lookup(nodes, k)
  {
    if i == 0 {
      assert Without(nodes, 0) == nodes[1..];
    } else {
      assert Without(nodes, i)[1..] == Without(nodes[1..], i - 1);
      LookupWithout(nodes[1..], i - 1, k);
    }
  }

  // The bytes that went out again for request k.
  function Resends(out: seq<Output>, k: nat): seq<seq<byte>> {
    if out == [] then []
    else (if out[0].Resend? && out[0].serial == k then [out[0].bytes] else []) + Resends(out[1..], k)
  }

  lemma {:induction false} ResendsAppend(a: seq<Output>, b: seq<Output>, k: nat)
    ensures Resends(a + b, k) == Resends(a, k) + Resends(b, k)
  {
    if a == [] {
      assert a + b == b;
    } else {
      assert (a + b)[1..] == a[1..] + b;
      ResendsAppend(a[1..], b, k);
    }
  }

  // Does the pass get as far as request k?
  predicate Reaches(nodes: seq<SendNode>, k: nat) {
    nodes != [] && (nodes[0].serial == k || (Visit(nodes[0]).Kept? && Reaches(nodes[1..], k)))
  }

  function Moved(f: Found<SendNode>): Found<SendNode> {
    if f.At? && Visit(f.item).Kept? then At(Visit(f.item).node) else Missing
  }

  // A pass visits request k once if it reaches it, and leaves it alone otherwise.
  lemma {:induction false} PassFollows(nodes: seq<SendNode>, lo: nat, hi: nat, k: nat)
    requires Ordered(nodes, lo, hi)
    ensures Reaches(nodes, k) ==> Lookup(nodes, k).At?
    ensures Lookup(Pass(nodes).nodes, k) == if Reaches(nodes, k) then Moved(Lookup(nodes, k)) else Lookup(nodes, k)
    ensures Resends(Pass(nodes).out, k) == if Reaches(nodes, k) then Resends(Visit(Lookup(nodes, k).item).out, k) else []
  {
    hide Visit, Resends, Sound;
    if nodes == [] {
      assert Resends([], k) == [] by { NoResends([], k); }
    } else {
      var n, rest := nodes[0], nodes[1..];
      VisitKeeps(n);
      OnlyOwn(n, k);
      if n.serial == k { LookupBelow(rest, n.serial + 1, hi, k); }
      if Visit(n).Kept? {
        PassFollows(rest, n.serial + 1, hi, k);
        ResendsAppend(Visit(n).out, Pass(rest).out, k);
        assert ([Visit(n).node] + Pass(rest).nodes)[1..] == Pass(rest).nodes;
        if n.serial == k {
          PassKeeps(rest, n.serial + 1, hi);
          assert !Reaches(rest, k);
        }
      }
    }
  }

  lemma NoResends(out: seq<Output>, k: nat)
    requires forall i :: 0 <= i < |out| ==> !out[i].Resend?
    ensures Resends(out, k) == []
  {}

  lemma OnlyOwn(n: SendNode, k: nat)
    ensures n.serial != k ==> Resends(Visit(n).out, k) == []
  {
    assert |Visit(n).out| <= 1;
  }

  // ---------- the retransmission schedule ----------

  // The visits a request has had, read off its timer.
  function VisitsDone(n: SendNode): int {
    (if n.retrans == 0 then 2 else if n.retrans == 1 then 7 else 16) - n.timeout
  }

  // The state after v visits.
  function Scheduled(n: SendNode, v: nat): SendNode
    requires v <= 16
  {
    if v <= 2 then n.(retrans := 0, timeoutVal := 2, timeout := 2 - v)
    else if v <= 7 then n.(retrans := 1, timeoutVal := 4, timeout := 7 - v)
    else n.(retrans := 2, timeoutVal := 8, timeout := 16 - v)
  }

  // Retransmissions due within the first v visits.
  function Due(v: int): nat { if v < 3 then 0 else if v < 8 then 1 else if v < 17 then 2 else 3 }

  function Copies(w: seq<byte>, c: nat): seq<seq<byte>> { seq(c, i => w) }

  lemma VisitOnSchedule(n: SendNode)
    requires Sound(n) && ToResend(n)
    ensures var v := VisitsDone(n);
      && 0 <= v <= 16 && n == Scheduled(n, v)
      && Resends(Visit(n).out, n.serial) == Copies(n.message, Due(v + 1) - Due(v))
      && Moved(At(n)) == if v == 16 then Missing else At(Scheduled(n, v + 1))
  {
    hide Token, MessageId;
    assert Visit(n).out == [] || Visit(n).out == [Resend(n.serial, n.message)];
  }

  // No acknowledgement carries the request's id, and no response its token.
  predicate Unheard(es: seq<Event>, n: SendNode) {
    forall i :: 0 <= i < |es| ==> Ignores(es[i], n)
  }

  predicate Ignores(e: Event, n: SendNode) {
    e.Received? && e.datagram.Message? ==>
      var m := e.datagram.packet;
      && (IsAck(m.header) ==> m.header.msgid != n.msgid)
      && (IsResponse(m.header) ==> m.token != n.token)
  }

  function Visits(s: State, es: seq<Event>, k: nat): nat
    decreases |es|
  {
    if es == [] then 0
    else (if es[0].Cycled? && Reaches(s.nodes, k) then 1 else 0) + Visits(Step(s, es[0]).0, es[1..], k)
  }

  // An event that is not a cycle leaves a request alone unless it speaks of it.
  lemma OtherStep(s: State, e: Event, k: nat)
    requires Inv(s) && k < s.serial && !e.Cycled?
    requires Lookup(s.nodes, k).At? ==> Ignores(e, Lookup(s.nodes, k).item)
    ensures Lookup(Step(s, e).0.nodes, k) == Lookup(s.nodes, k)
    ensures Resends(Step(s, e).1, k) == []
  {
    hide Lookup, Ordered, Token, MessageId;
    NoResends(Step(s, e).1, k);
    match e
    case Requested(message, observer, listed) =>
      LookupSnoc(s.nodes, Request(s.serial, message, observer), k);
    case Received(r) =>
      if r.Message? {
        var i, j := FirstById(s.nodes, r.packet.header.msgid), FirstAnswered(s.nodes, r.packet);
        if IsAck(r.packet.header) && i < |s.nodes| {
          LookupIs(s.nodes, 0, s.serial, i);
          LookupUpdate(s.nodes, i, s.nodes[i].(acked := true), k);
        }
        if IsResponse(r.packet.header) && j < |s.nodes| {
          LookupIs(s.nodes, 0, s.serial, j);
          LookupWithout(s.nodes, j, k);
        }
      }
  }

  // A request that has left the list stays out of it.
  lemma {:induction false} GoneForGood(s: State, es: seq<Event>, k: nat)
    requires Inv(s) && k < s.serial && Lookup(s.nodes, k) == Missing
    ensures Visits(s, es, k) == 0 && Resends(Run(s, es).1, k) == []
    ensures Lookup(Run(s, es).0.nodes, k) == Missing
    decreases |es|
  {
    hide Lookup, Inv, Step, Resends;
    RunUnfold(s, es, k);
    if es != [] {
      var next := Step(s, es[0]).0;
      StepKeeps(s, es[0]);
      StepSerial(s, es[0]);
      if es[0].Cycled? { CycleStep(s, k); } else { OtherStep(s, es[0], k); }
      GoneForGood(next, es[1..], k);
    }
  }

  lemma StepSerial(s: State, e: Event)
    ensures s.serial <= Step(s, e).0.serial
  {}

  lemma CycleStep(s: State, k: nat)
    requires Inv(s)
    ensures var (next, out) := Step(s, Cycled);
      && (Reaches(s.nodes, k) ==> Lookup(s.nodes, k).At?)
      && Lookup(next.nodes, k) == (if Reaches(s.nodes, k) then Moved(Lookup(s.nodes, k)) else Lookup(s.nodes, k))
      && Resends(out, k) == if Reaches(s.nodes, k) then Resends(Visit(Lookup(s.nodes, k).item).out, k) else []
  {
    hide Lookup, Ordered, Pass, Visit, Moved;
    PassFollows(s.nodes, 0, s.serial, k);
  }

  lemma RunUnfold(s: State, es: seq<Event>, k: nat)
    ensures es == [] ==> Run(s, es) == (s, []) && Resends([], k) == []
    ensures es != [] ==>
      var (next, out) := Step(s, es[0]);
      && Run(s, es).0 == Run(next, es[1..]).0
      && Resends(Run(s, es).1, k) == Resends(out, k) + Resends(Run(next, es[1..]).1, k)
  {
    hide Step;
    if es != [] { ResendsAppend(Step(s, es[0]).1, Run(Step(s, es[0]).0, es[1..]).1, k); }
  }

  lemma {:induction false} LookupAt(nodes: seq<SendNode>, lo: nat, hi: nat, k: nat)
    requires Ordered(nodes, lo, hi) && Lookup(nodes, k).At?
    ensures Sound(Lookup(nodes, k).item) && Lookup(nodes, k).item.serial == k && lo <= k < hi
  {
    if nodes[0].serial != k { LookupAt(nodes[1..], nodes[0].serial + 1, hi, k); }
  }

  // A confirmable request nobody answers goes out again, unchanged, on its 3rd, 8th and 17th visit,
  // and leaves the list on the 17th.
  lemma {:induction false} Retransmission(s: State, es: seq<Event>, n: SendNode)
    requires Inv(s) && Lookup(s.nodes, n.serial) == At(n) && ToResend(n) && Unheard(es, n)
    ensures var v := VisitsDone(n) + Visits(s, es, n.serial);
      && 0 <= VisitsDone(n) <= v <= 17
      && Resends(Run(s, es).1, n.serial) == Copies(n.message, Due(v) - Due(VisitsDone(n)))
      && Lookup(Run(s, es).0.nodes, n.serial) == if v == 17 then Missing else At(Scheduled(n, v))
    decreases |es|
  {
    hide Lookup, Ordered, Step, Resends, Visit, Moved, Scheduled, VisitsDone, Sound, Reaches, Due;
    var k, v := n.serial, VisitsDone(n);
    LookupAt(s.nodes, 0, s.serial, k);
    VisitOnSchedule(n);
    RunUnfold(s, es, k);
    if es != [] {
      var next := Step(s, es[0]).0;
      StepKeeps(s, es[0]);
      StepSerial(s, es[0]);
      assert forall i :: 0 <= i < |es[1..]| ==> es[1..][i] == es[i + 1];
      if es[0].Cycled? && Reaches(s.nodes, k) {
        CycleStep(s, k);
        if v == 16 {
          GoneForGood(next, es[1..], k);
        } else {
          ScheduleMoves(n, v);
          Retransmission(next, es[1..], Scheduled(n, v + 1));
          var last := v + 1 + Visits(next, es[1..], k);
          DueGrows(v, v + 1, last);
          CopiesAppend(n.message, Due(v + 1) - Due(v), Due(last) - Due(v + 1));
        }
      } else {
        if es[0].Cycled? { CycleStep(s, k); } else { OtherStep(s, es[0], k); }
        Retransmission(next, es[1..], n);
      }
    }
  }

  // Any other message that is listed goes out only once: it waits for ten visits, and is gone on the eleventh.
  lemma OnceOnly(k: nat, m: Packet, w: seq<byte>, t: nat)
    requires m.header.kind != 0 && t <= 10
    ensures var n := NewNode(k, m, w, DEREGISTER_OBSERVE);
      && n.timeout == 10 && n.message == w && n.msgid == m.header.msgid && n.token == m.token && !n.acked
      && Visit(n.(timeout := t)) == if t == 0 then Gone([]) else Kept(n.(timeout := t - 1), [])
    ensures NewNode(k, m.(header := m.header.(kind := 0, msgid := MessageId(k)), token := Token(k)), w, DEREGISTER_OBSERVE)
      == Request(k, w, DEREGISTER_OBSERVE)
  {}

  // A new request that stays unanswered: the same bytes once, twice, three times, then it is gone.
  lemma NewRequest(s: State, message: seq<byte>, es: seq<Event>)
    requires Inv(s) && Unheard(es, Request(s.serial, message, DEREGISTER_OBSERVE))
    ensures var next := Step(s, Requested(message, DEREGISTER_OBSERVE, true)).0;
      var v := Visits(next, es, s.serial);
      && v <= 17
      && Resends(Run(next, es).1, s.serial) == Copies(message, if v < 3 then 0 else if v < 8 then 1 else if v < 17 then 2 else 3)
      && (Lookup(Run(next, es).0.nodes, s.serial) == Missing <==> v == 17)
  {
    hide Lookup, Ordered, Run, Visits, Resends, Unheard;
    var n := Request(s.serial, message, DEREGISTER_OBSERVE);
    var e := Requested(message, DEREGISTER_OBSERVE, true);
    StepKeeps(s, e);
    assert Step(s, e).0.nodes[|s.nodes|] == n;
    LookupIs(Step(s, e).0.nodes, 0, s.serial + 1, |s.nodes|);
    Retransmission(Step(s, e).0, es, n);
  }

  lemma ScheduleMoves(n: SendNode, v: nat)
    requires v < 16 && ToResend(n) && n == Scheduled(n, v)
    ensures var m := Scheduled(n, v + 1);
      && ToResend(m) && VisitsDone(m) == v + 1 && m.serial == n.serial && m.message == n.message
      && m.msgid == n.msgid && m.token == n.token
      && forall w :: 0 <= w <= 16 ==> Scheduled(m, w) == Scheduled(n, w)
  {}

  lemma DueGrows(a: int, b: int, c: int)
    requires a <= b <= c
    ensures Due(a) <= Due(b) <= Due(c)
  {}

  lemma CopiesAppend(w: seq<byte>, a: nat, b: nat)
    ensures Copies(w, a) + Copies(w, b) == Copies(w, a + b)
  {}

  // ---------- acknowledged requests ----------

  // Once acknowledged, a request is never sent again and never given up: only a response removes it.
  lemma {:induction false} AckedStays(s: State, es: seq<Event>, n: SendNode)
    requires Inv(s) && Lookup(s.nodes, n.serial) == At(n) && n.acked
    requires forall i :: 0 <= i < |es| ==> !Responds(es[i], n)
    ensures Resends(Run(s, es).1, n.serial) == []
    ensures var f := Lookup(Run(s, es).0.nodes, n.serial); f.At? && f.item.(timeout := n.timeout) == n
    decreases |es|
  {
    hide Lookup, Ordered, Step, Resends, Visit, Moved, Reaches, Sound;
    var k := n.serial;
    LookupAt(s.nodes, 0, s.serial, k);
    RunUnfold(s, es, k);
    if es != [] {
      StepKeeps(s, es[0]);
      assert forall i :: 0 <= i < |es[1..]| ==> es[1..][i] == es[i + 1];
      VisitAcked(n);
      if es[0].Cycled? { CycleStep(s, k); } else { HeardStep(s, es[0], k); }
      AckedStays(Step(s, es[0]).0, es[1..], Lookup(Step(s, es[0]).0.nodes, k).item);
    }
  }

  // An empty acknowledgement (code 0.00, type 2) marks the first request with its id, and nothing else.
  lemma AckMarks(s: State, m: Packet, j: nat)
    requires m.header.code == 0 && m.header.kind == 2 && j < |s.nodes|
    ensures var (next, out) := Step(s, Received(CoapDeserialize.Message(m)));
      && out == [] && next.(nodes := s.nodes) == s && |next.nodes| == |s.nodes|
      && next.nodes[j] ==
           if s.nodes[j].msgid == m.header.msgid && (forall i :: 0 <= i < j ==> s.nodes[i].msgid != m.header.msgid)
           then s.nodes[j].(acked := true) else s.nodes[j]
  {
    var k := FirstById(s.nodes, m.header.msgid);
    if s.nodes[j].msgid == m.header.msgid && (forall i :: 0 <= i < j ==> s.nodes[i].msgid != m.header.msgid) {
      assert k == j;
    }
  }

  // While ids have not come round, no other request has the id of the one at k.
  lemma IdFinds(s: State, k: nat)
    requires Inv(s) && s.serial <= 65534 && k < |s.nodes|
    ensures forall i :: 0 <= i < k ==> s.nodes[i].msgid != s.nodes[k].msgid
  {
    hide Token, OnSchedule, Ordered;
    OrderedAt(s.nodes, 0, s.serial, k);
    forall i | 0 <= i < k ensures s.nodes[i].msgid != s.nodes[k].msgid {
      OrderedAt(s.nodes, 0, s.serial, i);
      Increasing(s.nodes, 0, s.serial, i, k);
    }
  }

  // From its acknowledgement on a request is never sent again, whatever follows but a response, and it stays.
  lemma AckStops(s: State, k: nat, m: Packet, es: seq<Event>)
    requires Inv(s) && k < |s.nodes| && m.header.code == 0 && m.header.kind == 2
    requires m.header.msgid == s.nodes[k].msgid && forall i :: 0 <= i < k ==> s.nodes[i].msgid != m.header.msgid
    requires forall i :: 0 <= i < |es| ==> !Responds(es[i], s.nodes[k])
    ensures var (last, out) := Run(s, [Received(CoapDeserialize.Message(m))] + es);
      var f := Lookup(last.nodes, s.nodes[k].serial);
      && Resends(out, s.nodes[k].serial) == []
      && f.At? && f.item.(timeout := s.nodes[k].timeout) == s.nodes[k].(acked := true)
  {
    hide Lookup, Ordered, Step, Resends, Run;
    var e := Received(CoapDeserialize.Message(m));
    var next := Step(s, e).0;
    AckMarks(s, m, k);
    StepKeeps(s, e);
    LookupIs(next.nodes, 0, next.serial, k);
    assert ([e] + es)[0] == e && ([e] + es)[1..] == es;
    RunUnfold(s, [e] + es, s.nodes[k].serial);
    NoResends([], s.nodes[k].serial);
    AckedStays(next, es, next.nodes[k]);
  }

  // An observing request is never sent again and never leaves the list, whatever is received.
  lemma {:induction false} ObserveStays(s: State, es: seq<Event>, n: SendNode)
    requires Inv(s) && Lookup(s.nodes, n.serial) == At(n) && n.observer == REGISTERED_OBSERVE
    ensures Resends(Run(s, es).1, n.serial) == []
    ensures var f := Lookup(Run(s, es).0.nodes, n.serial); f.At? && f.item.(timeout := n.timeout, acked := n.acked) == n
    decreases |es|
  {
    hide Lookup, Ordered, Step, Resends, Visit, Moved, Reaches, Sound;
    var k := n.serial;
    LookupAt(s.nodes, 0, s.serial, k);
    RunUnfold(s, es, k);
    if es != [] {
      StepKeeps(s, es[0]);
      VisitObserver(n);
      if es[0].Cycled? { CycleStep(s, k); } else { ObserverStep(s, es[0], k); }
      ObserveStays(Step(s, es[0]).0, es[1..], Lookup(Step(s, es[0]).0.nodes, k).item);
    }
  }

  lemma VisitObserver(n: SendNode)
    requires n.observer == REGISTERED_OBSERVE
    ensures Resends(Visit(n).out, n.serial) == []
    ensures Moved(At(n)).At? && Moved(At(n)).item.(timeout := n.timeout) == n
  {}

  lemma ObserverStep(s: State, e: Event, k: nat)
    requires Inv(s) && !e.Cycled? && Lookup(s.nodes, k).At? && Lookup(s.nodes, k).item.observer == REGISTERED_OBSERVE
    ensures Resends(Step(s, e).1, k) == []
    ensures var n, f := Lookup(s.nodes, k).item, Lookup(Step(s, e).0.nodes, k);
      f.At? && f.item.(acked := n.acked) == n
  {
    hide Lookup, Ordered, Token, MessageId;
    LookupAt(s.nodes, 0, s.serial, k);
    NoResends(Step(s, e).1, k);
    match e
    case Requested(message, observer, listed) =>
      LookupSnoc(s.nodes, Request(s.serial, message, observer), k);
    case Received(r) =>
      if r.Message? {
        var i, j := FirstById(s.nodes, r.packet.header.msgid), FirstAnswered(s.nodes, r.packet);
        if IsAck(r.packet.header) && i < |s.nodes| {
          var marked := s.nodes[i].(acked := true);
          LookupIs(s.nodes, 0, s.serial, i);
          if s.nodes[i].serial == k {
            OrderedAt(s.nodes, 0, s.serial, i);
            OrderedUpdate(s.nodes, 0, s.serial, i, marked);
            LookupIs(s.nodes[i := marked], 0, s.serial, i);
          } else {
            LookupUpdate(s.nodes, i, marked, k);
          }
        }
        if IsResponse(r.packet.header) && j < |s.nodes| {
          LookupIs(s.nodes, 0, s.serial, j);
          if s.nodes[j].serial != k { LookupWithout(s.nodes, j, k); }
        }
      }
  }

  // By section 5.2 of RFC 7252 responses have the classes 2 to 5, and requests class 0.
  lemma CodeClasses(h: Header)
    ensures IsResponse(h) <==> 2 <= h.code / 32 <= 5
    ensures Listed(h) <==> (h.code / 32 == 0 && h.code % 32 != 0) || (h.code / 32 == 2 && h.code % 32 == 5 && h.kind == 0)
  {}

  // A confirmable response is acknowledged by an empty message with its id, on the wire 0x60 0x00 and the id.
  lemma AckOnWire(m: Packet)
    ensures AckBytes(m) ==
      if m.header.kind == 0 then [AckSent([0x60, 0, m.header.msgid / 0x100, m.header.msgid % 0x100])] else []
  {}

  predicate Responds(e: Event, n: SendNode) {
    e.Received? && e.datagram.Message? && IsResponse(e.datagram.packet.header) && e.datagram.packet.token == n.token
  }

  lemma VisitAcked(n: SendNode)
    requires Sound(n) && n.acked
    ensures Resends(Visit(n).out, n.serial) == []
    ensures Moved(At(n)).At? && Moved(At(n)).item.(timeout := n.timeout) == n
  {}

  // An acknowledgement changes nothing in a request that is acknowledged already.
  lemma HeardStep(s: State, e: Event, k: nat)
    requires Inv(s) && !e.Cycled? && Lookup(s.nodes, k).At? && Lookup(s.nodes, k).item.acked
    requires !Responds(e, Lookup(s.nodes, k).item)
    ensures Lookup(Step(s, e).0.nodes, k) == Lookup(s.nodes, k) && Resends(Step(s, e).1, k) == []
  {
    hide Lookup, Ordered, Token, MessageId;
    LookupAt(s.nodes, 0, s.serial, k);
    if Ignores(e, Lookup(s.nodes, k).item) {
      OtherStep(s, e, k);
    } else {
      var i := FirstById(s.nodes, e.datagram.packet.header.msgid);
      NoResends(Step(s, e).1, k);
      if i < |s.nodes| {
        LookupIs(s.nodes, 0, s.serial, i);
        if s.nodes[i].serial == k {
          assert s.nodes[i := s.nodes[i].(acked := true)] == s.nodes;
        } else {
          LookupUpdate(s.nodes, i, s.nodes[i].(acked := true), k);
        }
      }
    }
  }

  // ---------- termination ----------

  // The visits that a request still needs before it is given up.
  function Remaining(n: SendNode): nat {
    if ToResend(n) && VisitsDone(n) <= 17 then 17 - VisitsDone(n) else 0
  }

  function Total(nodes: seq<SendNode>): nat {
    if nodes == [] then 0 else Remaining(nodes[0]) + Total(nodes[1..])
  }

  function Pending(nodes: seq<SendNode>): nat {
    if nodes == [] then 0 else (if ToResend(nodes[0]) then 1 else 0) + Pending(nodes[1..])
  }

  lemma VisitDrains(n: SendNode)
    requires Sound(n)
    ensures Remaining(n) <= 17 && (Remaining(n) == 0 <==> !ToResend(n))
    ensures match Visit(n)
      case Gone(out) => Remaining(n) == 1
      case Kept(m, out) => Remaining(m) == if ToResend(n) then Remaining(n) - 1 else 0
  {
    hide Token, MessageId;
  }

  // Although a removal ends the pass, the sum of remaining visits falls with every pass.
  lemma {:induction false} PassDrains(nodes: seq<SendNode>, lo: nat, hi: nat)
    requires Ordered(nodes, lo, hi)
    ensures Total(nodes) == 0 ==> Total(Pass(nodes).nodes) == 0
    ensures Total(nodes) > 0 ==> Total(Pass(nodes).nodes) < Total(nodes)
  {
    hide Visit, Remaining, Sound, ToResend;
    if nodes != [] {
      VisitDrains(nodes[0]);
      if Visit(nodes[0]).Kept? {
        PassDrains(nodes[1..], nodes[0].serial + 1, hi);
        var p := Pass(nodes[1..]);
        assert ([Visit(nodes[0]).node] + p.nodes)[1..] == p.nodes;
      }
    }
  }

  lemma {:induction false} UpdateDrains(nodes: seq<SendNode>, i: nat)
    requires i < |nodes|
    ensures Total(nodes[i := nodes[i].(acked := true)]) <= Total(nodes)
  {
    var n := nodes[i].(acked := true);
    assert nodes[i := n][1..] == if i == 0 then nodes[1..] else nodes[1..][i - 1 := n];
    if i > 0 { UpdateDrains(nodes[1..], i - 1); }
  }

  lemma {:induction false} WithoutDrains(nodes: seq<SendNode>, i: nat)
    requires i < |nodes|
    ensures Total(Without(nodes, i)) <= Total(nodes)
  {
    if i == 0 {
      assert Without(nodes, 0) == nodes[1..];
    } else {
      assert Without(nodes, i)[1..] == Without(nodes[1..], i - 1);
      WithoutDrains(nodes[1..], i - 1);
    }
  }

  lemma StepDrains(s: State, e: Event)
    requires Inv(s) && !e.Requested?
    ensures var t, t' := Total(s.nodes), Total(Step(s, e).0.nodes);
      if e.Cycled? && t > 0 then t' < t else t' <= t
  {
    hide Total, Ordered, Pass;
    match e
    case Cycled => PassDrains(s.nodes, 0, s.serial);
    case Received(r) =>
      if r.Message? {
        var i, j := FirstById(s.nodes, r.packet.header.msgid), FirstAnswered(s.nodes, r.packet);
        if i < |s.nodes| { UpdateDrains(s.nodes, i); }
        if j < |s.nodes| { WithoutDrains(s.nodes, j); }
      }
  }

  function Cycles(es: seq<Event>): nat {
    if es == [] then 0 else (if es[0].Cycled? then 1 else 0) + Cycles(es[1..])
  }

  lemma {:induction false} RunDrains(s: State, es: seq<Event>)
    requires Inv(s) && Requests(es) == 0
    ensures var t := Total(Run(s, es).0.nodes); t == 0 || t + Cycles(es) <= Total(s.nodes)
    decreases |es|
  {
    hide Inv, Step, Total;
    if es != [] {
      StepKeeps(s, es[0]);
      StepDrains(s, es[0]);
      RunDrains(Step(s, es[0]).0, es[1..]);
    }
  }

  lemma {:induction false} TotalBound(nodes: seq<SendNode>, lo: nat, hi: nat)
    requires Ordered(nodes, lo, hi)
    ensures Pending(nodes) <= Total(nodes) <= 17 * Pending(nodes)
  {
    hide Remaining, Sound, ToResend;
    if nodes != [] {
      VisitDrains(nodes[0]);
      TotalBound(nodes[1..], nodes[0].serial + 1, hi);
    }
  }

  // With no new requests, n waiting ones are all gone or acknowledged after 17 n cycles.
  lemma Drained(s: State, es: seq<Event>)
    requires Inv(s) && Requests(es) == 0 && Cycles(es) >= 17 * Pending(s.nodes)
    ensures Pending(Run(s, es).0.nodes) == 0
  {
    hide Ordered, Run, Pending, Total;
    RunDrains(s, es);
    RunKeeps(s, es);
    TotalBound(s.nodes, 0, s.serial);
    TotalBound(Run(s, es).0.nodes, 0, Run(s, es).0.serial);
  }
}
