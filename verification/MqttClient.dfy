/** Publishing with quality of service 1 in iotx_mqtt_client.c: the list of publishes that wait for
    an acknowledgement, and the sweep that drops and repeats them. */
module MqttClient {
  import opened Bytes
  import opened LinkedList
  import opened MqttSend

  const REPUB_NUM_MAX := 20
  const PACKET_ID_MAX: uint16 := 65535

  // serial stands for the record's address.
  datatype PubInfo = PubInfo(serial: nat, id: uint16, bytes: seq<byte>, valid: bool, start: uint32)

  datatype ClientState = Initialized | Connected | Disconnected | Reconnecting

  // What the network and the clock answer: the writes of the n-th packet, and the n-th reading; and what
  // lies behind the buffer of the n-th packet.
  datatype Env = Env(writes: nat -> seq<int>, behind: nat -> nat -> byte, clock: nat -> uint32, timeout: uint32)

  // The n-th packet of all.
  function NthSending(env: Env, n: nat, bytes: seq<byte>): Sending { Sent(Memory(bytes, env.behind(n)), env.writes(n)) }

  datatype Progress = Progress(state: ClientState, ticks: nat, sends: nat)

  // A packet sent again: what went out, the stamp of its last sending, the time of this one, and its stamp.
  datatype Repeat = Repeat(
    serial: nat, id: uint16, bytes: seq<byte>, sending: Sending, since: uint32, at: uint32, stamp: uint32)

  function Spent(since: uint32, now: uint32): uint32 { (now - since) % 0x1_0000_0000 }

  // ---------- the sweep ----------

  datatype Treated = Drop | Keep(info: PubInfo, log: seq<Repeat>, progress: Progress, failed: bool)

  // One waiting publish.
  function Treat(env: Env, v: PubInfo, p: Progress): Treated {
    if !v.valid then Drop
    else if p.state != Connected then Keep(v, [], p, false)
    else
      var now := env.clock(p.ticks);
      if Spent(v.start, now) <= 2 * env.timeout then Keep(v, [], p.(ticks := p.ticks + 1), false)
      else
        var s := NthSending(env, p.sends, v.bytes);
        Keep(v.(start := env.clock(p.ticks + 1)), [Repeat(v.serial, v.id, v.bytes, s, v.start, now, env.clock(p.ticks + 1))],
             Progress(if s.ok then p.state else Disconnected, p.ticks + 2, p.sends + 1), !s.ok)
  }

  datatype Swept = Swept(list: seq<PubInfo>, log: seq<Repeat>, progress: Progress)

  function Last<T>(s: seq<T>): T
    requires s != []
  {
    s[|s| - 1]
  }

  function Init<T>(s: seq<T>): seq<T>
    requires s != []
  {
    s[..|s| - 1]
  }

  // From the tail to the head; a failed sending ends it.
  function Sweep(env: Env, list: seq<PubInfo>, p: Progress): Swept {
    if list == [] then Swept([], [], p)
    else
      match Treat(env, Last(list), p)
      case Drop => Sweep(env, Init(list), p)
      case Keep(v, log, next, failed) =>
        if failed then Swept(Init(list) + [v], log, next)
        else Before(Sweep(env, Init(list), next), log, [v])
  }

  function Before(s: Swept, log: seq<Repeat>, kept: seq<PubInfo>): Swept {
    Swept(s.list + kept, log + s.log, s.progress)
  }

  lemma BeforeTwice(s: Swept, log: seq<Repeat>, kept: seq<PubInfo>, more: seq<Repeat>, v: seq<PubInfo>)
    ensures Before(Before(s, more, v), log, kept) == Before(s, log + more, v + kept)
  {
    assert s.list + v + kept == s.list + (v + kept);
    assert log + (more + s.log) == log + more + s.log;
  }

  // ---------- the client ----------

  datatype World = World(
    list: seq<PubInfo>, packetId: uint16, serial: nat, progress: Progress)

  datatype Qos = Qos0 | Qos1 | Qos2

  datatype PublishResult = Success(id: uint16) | TopicError | QosError | StateError | PacketError | PushError | NetworkError

  // iotx_mc_get_next_packetid
  function NextId(id: uint16): uint16 { if id == PACKET_ID_MAX then 1 else id + 1 }

  // A publish; topicOk says whether the topic is well formed, and encode gives the packet for an id,
  // payload processing included, and nothing when it cannot be built.
  function Published(env: Env, w: World, topicOk: bool, qos: Qos, encode: uint16 -> seq<byte>): (World, PublishResult) {
    if !topicOk then (w, TopicError)
    else if w.progress.state != Connected then (w, StateError)
    else
      var id := if qos == Qos0 then 0 else NextId(w.packetId);
      var drawn := if qos == Qos0 then w else w.(packetId := id);
      var bytes := encode(id);
      if qos == Qos2 then (drawn, QosError)
      else if bytes == [] then (drawn, PacketError)
      else if qos == Qos1 then PublishedOnce(env, drawn, id, bytes)
      else
        var sent := NthSending(env, w.progress.sends, bytes).ok;
        var after := if sent then w.progress else w.progress.(state := Disconnected);
        (w.(progress := after.(sends := w.progress.sends + 1)), if sent then Success(id) else NetworkError)
  }

  // With quality of service 1 the packet is listed, and stays so if it is sent.
  function PublishedOnce(env: Env, w: World, id: uint16, bytes: seq<byte>): (World, PublishResult) {
    if |w.list| >= REPUB_NUM_MAX then (w, PushError)
    else
      var p := w.progress;
      var v := PubInfo(w.serial, id, bytes, true, env.clock(p.ticks));
      var sent := NthSending(env, p.sends, bytes).ok;
      (World(if sent then w.list + [v] else w.list, w.packetId, w.serial + 1,
             Progress(if sent then p.state else Disconnected, p.ticks + 1, p.sends + 1)),
       if sent then Success(id) else NetworkError)
  }

  // An acknowledgement marks every record with its id.
  function Marked(list: seq<PubInfo>, id: uint16): (r: seq<PubInfo>)
    ensures |r| == |list|
    ensures forall k :: 0 <= k < |list| ==> r[k] == if list[k].id == id then list[k].(valid := false) else list[k]
  {
    seq(|list|, k requires 0 <= k < |list| => if list[k].id == id then list[k].(valid := false) else list[k])
  }

  ghost predicate Carries(nodes: seq<Node<PubInfo>>, infos: seq<PubInfo>)
    reads nodes`val
  {
    |nodes| == |infos| && forall k :: 0 <= k < |nodes| ==> nodes[k].val == infos[k]
  }

  // The records from p on are new, those before it old.
  ghost predicate Halfway(nodes: seq<Node<PubInfo>>, was: seq<PubInfo>, now: seq<PubInfo>, p: int)
    requires |nodes| == |was| == |now|
    reads nodes`val
  {
    forall k :: 0 <= k < |nodes| ==> nodes[k].val == if k < p then was[k] else now[k]
  }

  lemma HalfwayEnds(nodes: seq<Node<PubInfo>>, was: seq<PubInfo>, now: seq<PubInfo>)
    requires |nodes| == |was| == |now|
    ensures Carries(nodes, was) ==> Halfway(nodes, was, now, |nodes|)
    ensures Halfway(nodes, was, now, 0) ==> Carries(nodes, now)
  {}

  ghost predicate Parted(nodes: seq<Node<PubInfo>>, p: int, t: nat, kept: seq<PubInfo>, was: seq<PubInfo>)
    reads nodes`val
  {
    && 0 <= p <= |was| && |nodes| == p + t + |kept|
    && (forall k :: 0 <= k < p ==> nodes[k].val == was[k])
    && forall k :: 0 <= k < |kept| ==> nodes[p + t + k].val == kept[k]
  }

  lemma PartedDrop(nodes: seq<Node<PubInfo>>, p: int, kept: seq<PubInfo>, was: seq<PubInfo>)
    requires Parted(nodes, p, 0, kept, was) && 0 < p
    ensures Parted(nodes, p - 1, 1, kept, was)
  {}

  lemma PartedKeep(nodes: seq<Node<PubInfo>>, p: int, kept: seq<PubInfo>, was: seq<PubInfo>)
    requires 0 < p <= |was| && |nodes| == p + |kept|
    requires forall k :: 0 <= k < p - 1 ==> nodes[k].val == was[k]
    requires forall k :: 0 <= k < |kept| ==> nodes[p + k].val == kept[k]
    ensures Parted(nodes, p - 1, 0, [nodes[p - 1].val] + kept, was)
  {}

  class Client {
    const env: Env
    const list: List<PubInfo>
    var packetId: uint16
    var serial: nat
    var state: ClientState
    var ticks: nat   // clock readings so far
    var sends: nat   // packets handed to the network so far
    ghost var waiting: seq<PubInfo>

    ghost predicate Valid()
      reads this, list, list.repr
    {
      list.Valid() && Carries(list.nodes, waiting)
    }

    ghost function Now(): World
      reads this
    {
      World(waiting, packetId, serial, Here())
    }

    ghost function Here(): Progress
      reads this`state, this`ticks, this`sends
    {
      Progress(state, ticks, sends)
    }

    constructor (env: Env)
      ensures Valid() && fresh(list) && this.env == env
      ensures Now() == World([], 0, 0, Progress(Initialized, 0, 0)) && list.nodes == [] && list.repr == {}
    {
      this.env := env;
      list := new List();
      packetId, serial, state, ticks, sends, waiting := 0, 0, Initialized, 0, 0, [];
    }

    // iotx_mc_publish, with MQTTPublish
    method Publish(topicOk: bool, qos: Qos, encode: uint16 -> seq<byte>) returns (r: PublishResult)
      requires Valid()
      modifies this, list, list.repr
      ensures Valid() && fresh(list.repr - old(list.repr))
      ensures (Now(), r) == Published(env, old(Now()), topicOk, qos, encode)
    {
      hide List.Valid, Carries;
      if !topicOk { return TopicError; }
      if state != Connected { return StateError; }
      Length();
      var id: uint16 := 0;
      if qos == Qos1 || qos == Qos2 {
        packetId := if packetId == PACKET_ID_MAX then 1 else packetId + 1;
        id := packetId;
      }
      if qos == Qos2 { return QosError; }
      var bytes := encode(id);
      if bytes == [] { return PacketError; }
      if qos == Qos0 {
        var s := SendOut(bytes);
        return if s.ok then Success(id) else NetworkError;
      }
      if list.len >= REPUB_NUM_MAX { return PushError; }
      r := PushAndSend(id, bytes);
      assert old(waiting) + [] == old(waiting);
    }

    lemma Length()
      requires Valid()
      ensures list.len == |waiting| == |list.nodes|
    {}

    // iotx_mc_send_packet, and the state after a failure.
    method SendOut(bytes: seq<byte>) returns (s: Sending)
      modifies this`sends, this`state
      ensures s == NthSending(env, old(sends), bytes) && sends == old(sends) + 1
      ensures state == if s.ok then old(state) else Disconnected
    {
      s := SendPacket(Memory(bytes, env.behind(sends)), env.writes(sends));
      sends := sends + 1;
      if !s.ok { state := Disconnected; }
    }

    // The record goes into the list first, and out again when sending fails.
    method PushAndSend(id: uint16, bytes: seq<byte>) returns (r: PublishResult)
      requires Valid()
      modifies this`ticks, this`serial, this`waiting, this`sends, this`state, list, list.repr
      ensures Valid() && fresh(list.repr - old(list.repr))
      ensures ticks == old(ticks) + 1 && serial == old(serial) + 1 && sends == old(sends) + 1
      ensures state == if NthSending(env, old(sends), bytes).ok then old(state) else Disconnected
      ensures r == if NthSending(env, old(sends), bytes).ok then Success(id) else NetworkError
      ensures waiting == old(waiting) +
        if r.Success? then [PubInfo(old(serial), id, bytes, true, env.clock(old(ticks)))] else []
    {
      hide List.Valid;
      ghost var was, nodes := waiting, list.nodes;
      Length();
      var node := Push(id, bytes);
      var s := SendOut(bytes);
      if !s.ok {
        list.Remove(node, |was|);
        assert list.nodes == nodes;
        waiting := was;
        return NetworkError;
      }
      r := Success(id);
    }

    // iotx_mc_push_pubInfo_to
    method Push(id: uint16, bytes: seq<byte>) returns (node: Node<PubInfo>)
      requires Valid()
      modifies this`ticks, this`serial, this`waiting, list, list.repr
      ensures Valid() && fresh(node) && list.nodes == old(list.nodes) + [node] && list.repr == old(list.repr) + {node}
      ensures ticks == old(ticks) + 1 && serial == old(serial) + 1
      ensures waiting == old(waiting) + [PubInfo(old(serial), id, bytes, true, env.clock(old(ticks)))]
    {
      var v := PubInfo(serial, id, bytes, true, env.clock(ticks));
      ticks, serial := ticks + 1, serial + 1;
      node := new Node(v);
      list.RPush(node);
      waiting := waiting + [v];
    }

    // iotx_mc_mask_pubInfo_from
    method Acknowledge(id: uint16)
      requires Valid()
      modifies this`waiting, list.repr`val
      ensures Valid() && list.nodes == old(list.nodes)
      ensures Now() == old(Now()).(list := Marked(old(waiting), id))
    {
      hide List.Valid, Marked, Carries;
      ghost var was := waiting;
      Length();
      MarkAll(id, was);
      waiting := Marked(was, id);
    }

    // The walk from the tail.
    method MarkAll(id: uint16, ghost was: seq<PubInfo>)
      requires list.Valid() && |list.nodes| == |was| && Carries(list.nodes, was)
      modifies list.repr`val
      ensures list.Valid() && Carries(list.nodes, Marked(was, id))
    {
      hide List.Valid, Marked, Halfway, Carries;
      HalfwayEnds(list.nodes, was, Marked(was, id));
      ghost var p: int := |list.nodes|;
      var iter := FromEnd();
      var node := FromTail(iter, p);
      while node != null
        invariant 0 <= p <= |list.nodes| == |was| && fresh(iter) && iter.direction == Tail && list.Valid()
        invariant node == list.At(p - 1) && (node != null ==> iter.next == list.At(p - 2))
        invariant Halfway(list.nodes, was, Marked(was, id), p)
        decreases p
      {
        p := p - 1;
        list.Held(p);
        MarkNode(node, id, p, was);
        node := FromTail(iter, p);
      }
      HalfwayEnds(list.nodes, was, Marked(was, id));
    }

    method MarkNode(node: Node<PubInfo>, id: uint16, ghost p: nat, ghost was: seq<PubInfo>)
      requires list.Valid() && p < |list.nodes| == |was| && node == list.nodes[p]
      requires Halfway(list.nodes, was, Marked(was, id), p + 1)
      modifies node`val
      ensures Halfway(list.nodes, was, Marked(was, id), p)
    {
      hide List.Valid;
      forall k | 0 <= k < |list.nodes| && k != p ensures list.nodes[k] != node {
        list.Distinct(k, p);
      }
      if node.val.id == id {
        node.val := node.val.(valid := false);
      }
    }

    // list_iterator_new at the tail.
    method FromEnd() returns (iter: Iterator<PubInfo>)
      requires list.Valid()
      ensures fresh(iter) && iter.direction == Tail && iter.next == list.At(|list.nodes| - 1)
    {
      iter := list.Iterate(Tail);
    }

    // list_iterator_next, on the way from the tail.
    method FromTail(iter: Iterator<PubInfo>, ghost p: int) returns (node: Node?<PubInfo>)
      requires list.Valid() && p <= |list.nodes| && iter.direction == Tail && iter.next == list.At(p - 1)
      modifies iter
      ensures node == list.At(p - 1) && (node != null ==> iter.next == list.At(p - 2))
    {
      if p > 0 { assert Linked(list.nodes, p - 1); }
      node := iter.Next();
    }

    // The part of the sweep's body that deals with one record.
    method Check(node: Node<PubInfo>) returns (drop: bool, failed: bool, log: seq<Repeat>)
      modifies this`state, this`ticks, this`sends, node`val
      ensures drop == Treat(env, old(node.val), old(Here())).Drop?
      ensures drop ==> node.val == old(node.val) && Here() == old(Here()) && log == [] && !failed
      ensures !drop ==> Keep(node.val, log, Here(), failed) == Treat(env, old(node.val), old(Here()))
    {
      drop, failed, log := false, false, [];
      var info := node.val;
      if !info.valid { return true, false, []; }
      if state != Connected { return; }
      var now := env.clock(ticks);
      ticks := ticks + 1;
      if (now - info.start) % 0x1_0000_0000 <= env.timeout * 2 { return; }
      var s := SendOut(info.bytes);
      failed := !s.ok;
      node.val := info.(start := env.clock(ticks));
      log := [Repeat(info.serial, info.id, info.bytes, s, info.start, now, node.val.start)];
      ticks := ticks + 1;
    }

    // The first p records are untouched, temp waits to be removed, the rest is done.
    ghost predicate Standing(p: int, temp: Node?<PubInfo>, kept: seq<PubInfo>, was: seq<PubInfo>)
      reads this, list, list.repr
    {
      && list.Valid() && 0 <= p <= |was| && p <= |list.nodes|
      && (temp != null ==> p < |list.nodes| && list.nodes[p] == temp)
      && Parted(list.nodes, p, if temp == null then 0 else 1, kept, was)
    }

    lemma AllStanding()
      requires Valid()
      ensures Standing(|waiting|, null, [], waiting) && |waiting| == |list.nodes|
    {}

    lemma NoneLeft(kept: seq<PubInfo>, p: int, was: seq<PubInfo>)
      requires Standing(p, null, kept, was)
      ensures list.Valid() && 0 <= p <= |was| && Carries(list.nodes, was[..p] + kept)
    {}

    // The deferred list_remove.
    method Release(temp: Node?<PubInfo>, ghost p: int, ghost kept: seq<PubInfo>, ghost was: seq<PubInfo>)
      requires Standing(p, temp, kept, was)
      modifies list, list.repr`next, list.repr`prev
      ensures Standing(p, null, kept, was) && list.nodes[..p] == old(list.nodes[..p])
      ensures list.repr == old(list.repr)
    {
      if temp != null {
        list.Remove(temp, p);
      }
    }

    // The body of the sweep for the record before p; temp is what it leaves to be removed.
    method Step(node: Node<PubInfo>, ghost p: int, ghost kept: seq<PubInfo>, ghost was: seq<PubInfo>)
      returns (temp: Node?<PubInfo>, failed: bool, log: seq<Repeat>, ghost more: seq<PubInfo>)
      requires Standing(p, null, kept, was) && 0 < p && node == list.nodes[p - 1]
      modifies this`state, this`ticks, this`sends, node`val
      ensures Standing(p - 1, temp, more, was)
      ensures var t := Treat(env, was[p - 1], old(Here()));
        if t.Drop? then temp == node && !failed && log == [] && more == kept && Here() == old(Here())
        else temp == null && Keep(node.val, log, Here(), failed) == t && more == [node.val] + kept
    {
      hide Treat, List.Valid;
      forall k | 0 <= k < |list.nodes| && k != p - 1 ensures list.nodes[k] != node {
        list.Distinct(k, p - 1);
      }
      var drop;
      drop, failed, log := Check(node);
      if drop {
        temp, more := node, kept;
        PartedDrop(list.nodes, p, kept, was);
      } else {
        temp, more := null, [node.val] + kept;
        PartedKeep(list.nodes, p, kept, was);
      }
    }

    // One turn of the loop, after which the iterator has moved on and temp is gone.
    method Turn(
      iter: Iterator<PubInfo>, node: Node<PubInfo>, ghost p: int, ghost kept: seq<PubInfo>, ghost was: seq<PubInfo>)
      returns (next: Node?<PubInfo>, failed: bool, log: seq<Repeat>, ghost more: seq<PubInfo>)
      requires Standing(p, null, kept, was) && 0 < p && node == list.nodes[p - 1]
      requires iter.direction == Tail && iter.next == list.At(p - 2)
      modifies this`state, this`ticks, this`sends, iter, list, list.repr
      ensures Standing(p - 1, null, more, was)
      ensures var t := Treat(env, was[p - 1], old(Here()));
        if t.Drop? then !failed && log == [] && more == kept && Here() == old(Here())
        else more == [t.info] + kept && log == t.log && Here() == t.progress && failed == t.failed
      ensures !failed ==> next == list.At(p - 2) && (next != null ==> iter.next == list.At(p - 3))
      ensures list.repr == old(list.repr)
    {
      hide Treat, List.Valid, Parted;
      list.Held(p - 1);
      var temp;
      temp, failed, log, more := Step(node, p, kept, was);
      next := null;
      if !failed { next := FromTail(iter, p - 1); }
      ghost var nodes := list.nodes;
      Release(temp, p - 1, more, was);
      assert list.nodes[..p - 1] == nodes[..p - 1];
    }

    // MQTTPubInfoProc: a record is removed once the iterator has left it.
    method PubInfoProc() returns (log: seq<Repeat>)
      requires Valid()
      modifies this`state, this`ticks, this`sends, this`waiting, list, list.repr
      ensures Valid() && list.repr == old(list.repr)
      ensures Swept(waiting, log, Here()) == Sweep(env, old(waiting), old(Here()))
    {
      hide Sweep, Treat, List.Valid, Parted, Standing, SoFar;
      log := [];
      ghost var was, start := waiting, Here();
      ghost var p: int, kept := |was|, [];
      AllStanding();
      SoFarStart(env, was, start);
      var iter := FromEnd();
      var failed := false;
      var node := FromTail(iter, p);
      while node != null && !failed
        invariant fresh(iter) && iter.direction == Tail && Standing(p, null, kept, was) && 0 <= p <= |was|
        invariant !failed ==> node == list.At(p - 1) && (node != null ==> iter.next == list.At(p - 2))
        invariant SoFar(env, was, start, p, kept, log, failed, Here())
        invariant list.repr == old(list.repr)
        decreases p
      {
        ghost var before, here, done := kept, Here(), log;
        var more;
        node, failed, more, kept := Turn(iter, node, p, before, was);
        SoFarStep(env, was, start, p, before, done, here, kept, more, failed, Here());
        log := log + more;
        p := p - 1;
      }
      NoneLeft(kept, p, was);
      SoFarEnd(env, was, start, p, kept, log, failed, Here());
      waiting := was[..p] + kept;
    }
  }

  // The sweep from start is what has been done, for the records from p on, and a sweep of the rest,
  // or nothing more after a failure.
  ghost predicate SoFar(
    env: Env, was: seq<PubInfo>, start: Progress,
    p: int, kept: seq<PubInfo>, log: seq<Repeat>, failed: bool, here: Progress)
  {
    && 0 <= p <= |was|
    && Sweep(env, was, start) ==
      if failed then Swept(was[..p] + kept, log, here) else Before(Sweep(env, was[..p], here), log, kept)
  }

  lemma SoFarStart(env: Env, was: seq<PubInfo>, start: Progress)
    ensures SoFar(env, was, start, |was|, [], [], false, start)
  {
    hide Sweep;
    assert was[..|was|] == was;
    var s := Sweep(env, was, start);
    assert s.list + [] == s.list && [] + s.log == s.log;
  }

  lemma SoFarStep(
    env: Env, was: seq<PubInfo>, start: Progress,
    p: int, kept: seq<PubInfo>, log: seq<Repeat>, here: Progress,
    kept': seq<PubInfo>, more: seq<Repeat>, failed: bool, here': Progress)
    requires 0 < p && SoFar(env, was, start, p, kept, log, false, here)
    requires var t := Treat(env, was[p - 1], here);
      if t.Drop? then !failed && more == [] && kept' == kept && here' == here
      else kept' == [t.info] + kept && more == t.log && here' == t.progress && failed == t.failed
    ensures SoFar(env, was, start, p - 1, kept', log + more, failed, here')
  {
    hide Sweep, Treat;
    SweepUnfold(env, was[..p], here);
    assert was[..p][..p - 1] == was[..p - 1];
    var t := Treat(env, was[p - 1], here);
    if t.Keep? {
      BeforeTwice(Sweep(env, was[..p - 1], here'), log, kept, more, [t.info]);
      assert was[..p - 1] + [t.info] + kept == was[..p - 1] + kept';
    } else {
      assert log + [] == log;
    }
  }

  lemma SoFarEnd(
    env: Env, was: seq<PubInfo>, start: Progress,
    p: int, kept: seq<PubInfo>, log: seq<Repeat>, failed: bool, here: Progress)
    requires SoFar(env, was, start, p, kept, log, failed, here) && (failed || p == 0)
    ensures Sweep(env, was, start) == Swept(was[..p] + kept, log, here)
  {
    hide Sweep;
    if !failed {
      SweepUnfold(env, was[..p], here);
      assert log + [] == log;
    }
  }

  lemma SweepUnfold(env: Env, list: seq<PubInfo>, p: Progress)
    ensures list == [] ==> Sweep(env, list, p) == Swept([], [], p)
    ensures list != [] && Treat(env, Last(list), p).Drop? ==> Sweep(env, list, p) == Sweep(env, Init(list), p)
    ensures list != [] && Treat(env, Last(list), p).Keep? ==>
      var t := Treat(env, Last(list), p);
      Sweep(env, list, p) == if t.failed then Swept(Init(list) + [t.info], t.log, t.progress)
                             else Before(Sweep(env, Init(list), t.progress), t.log, [t.info])
  {
    hide Treat;
  }
}
