/** Every run of an MQTT client: publishes, acknowledgements, sweeps and changes of the connection
    state in any order. */
module MqttRuns {
  import opened Bytes
  import opened Search
  import opened MqttSend
  import opened MqttClient

  datatype Event =
    | Publish(topicOk: bool, qos: Qos, encode: uint16 -> seq<byte>)
    | PubAck(id: uint16)
    | SweepNow
    | StateIs(state: ClientState)

  function Step(env: Env, w: World, e: Event): (World, seq<Repeat>) {
    match e
    case Publish(topicOk, qos, encode) => (Published(env, w, topicOk, qos, encode).0, [])
    case PubAck(id) => (w.(list := Marked(w.list, id)), [])
    case SweepNow =>
      var s := Sweep(env, w.list, w.progress);
      (w.(list := s.list, progress := s.progress), s.log)
    case StateIs(state) => (w.(progress := w.progress.(state := state)), [])
  }

  function Run(env: Env, w: World, es: seq<Event>): (World, seq<Repeat>)
    decreases |es|
  {
    if es == [] then (w, [])
    else
      var (next, log) := Step(env, w, es[0]);
      var (last, more) := Run(env, next, es[1..]);
      (last, log + more)
  }

  // ---------- what every step keeps ----------

  // Records stand in the order in which they were made.
  predicate Ordered(list: seq<PubInfo>, hi: nat) {
    list == [] || (Last(list).serial < hi && Ordered(Init(list), Last(list).serial))
  }

  predicate Inv(w: World) { Ordered(w.list, w.serial) && |w.list| <= REPUB_NUM_MAX }

  lemma {:induction false} Widen(list: seq<PubInfo>, hi: nat, hi': nat)
    requires Ordered(list, hi) && hi <= hi'
    ensures Ordered(list, hi')
  {}

  lemma SnocParts<T>(s: seq<T>, x: T)
    ensures Last(s + [x]) == x && Init(s + [x]) == s
  {}

  // A record keeps its id and bytes whatever happens to it.
  lemma TreatKeeps(env: Env, v: PubInfo, p: Progress)
    ensures var t := Treat(env, v, p);
      t.Keep? ==> t.info.(start := v.start) == v && v.valid
  {}

  lemma {:induction false} SweepKeeps(env: Env, list: seq<PubInfo>, hi: nat, p: Progress)
    requires Ordered(list, hi)
    ensures Ordered(Sweep(env, list, p).list, hi) && |Sweep(env, list, p).list| <= |list|
    decreases |list|
  {
    hide Treat, Sweep;
    SweepUnfold(env, list, p);
    if list != [] {
      var v, rest, t := Last(list), Init(list), Treat(env, Last(list), p);
      TreatKeeps(env, v, p);
      if t.Drop? {
        SweepKeeps(env, rest, v.serial, p);
        Widen(Sweep(env, rest, p).list, v.serial, hi);
      } else {
        SnocParts(rest, t.info);
        SweepKeeps(env, rest, v.serial, t.progress);
        SnocParts(Sweep(env, rest, t.progress).list, t.info);
      }
    }
  }

  lemma MarkedParts(list: seq<PubInfo>, id: uint16)
    requires list != []
    ensures Init(Marked(list, id)) == Marked(Init(list), id)
    ensures Last(Marked(list, id)) == if Last(list).id == id then Last(list).(valid := false) else Last(list)
  {}

  lemma {:induction false} MarkedKeeps(list: seq<PubInfo>, hi: nat, id: uint16)
    requires Ordered(list, hi)
    ensures Ordered(Marked(list, id), hi)
    decreases |list|
  {
    if list != [] {
      MarkedParts(list, id);
      MarkedKeeps(Init(list), Last(list).serial, id);
    }
  }

  lemma StepKeeps(env: Env, w: World, e: Event)
    requires Inv(w)
    ensures Inv(Step(env, w, e).0) && w.serial <= Step(env, w, e).0.serial
  {
    hide Ordered, Sweep, Marked;
    match e
    case Publish(topicOk, qos, encode) =>
      Widen(w.list, w.serial, w.serial + 1);
      forall v: PubInfo | v.serial == w.serial ensures Ordered(w.list + [v], w.serial + 1) {
        OrderedSnoc(w.list, v);
      }
    case PubAck(id) => MarkedKeeps(w.list, w.serial, id);
    case SweepNow => SweepKeeps(env, w.list, w.serial, w.progress);
    case StateIs(state) =>
  }

  lemma OrderedSnoc(list: seq<PubInfo>, v: PubInfo)
    requires Ordered(list, v.serial)
    ensures Ordered(list + [v], v.serial + 1)
  {
    SnocParts(list, v);
  }

  // In every run at most twenty publishes wait.
  lemma {:induction false} AtMostTwenty(env: Env, w: World, es: seq<Event>)
    requires Inv(w)
    ensures Inv(Run(env, w, es).0) && |Run(env, w, es).0.list| <= 20
    decreases |es|
  {
    hide Step, Inv;
    if es != [] {
      StepKeeps(env, w, es[0]);
      AtMostTwenty(env, Step(env, w, es[0]).0, es[1..]);
    }
    assert |Run(env, w, es).0.list| <= 20 by { Bounded(Run(env, w, es).0, w, env, es); }
  }

  lemma Bounded(last: World, w: World, env: Env, es: seq<Event>)
    requires Inv(last)
    ensures |last.list| <= 20
  {}

  // ---------- following one publish ----------

  function Lookup(list: seq<PubInfo>, k: nat): Found<PubInfo> {
    if list == [] then Missing
    else if Last(list).serial == k then At(Last(list))
    else Lookup(Init(list), k)
  }

  lemma {:induction false} LookupBelow(list: seq<PubInfo>, hi: nat, k: nat)
    requires Ordered(list, hi) && hi <= k
    ensures Lookup(list, k) == Missing
    decreases |list|
  {
    if list != [] { LookupBelow(Init(list), Last(list).serial, k); }
  }

  lemma LookupSnoc(list: seq<PubInfo>, v: PubInfo, k: nat)
    ensures Lookup(list + [v], k) == if v.serial == k then At(v) else Lookup(list, k)
  {
    SnocParts(list, v);
  }

  lemma {:induction false} LookupMarked(list: seq<PubInfo>, id: uint16, k: nat)
    ensures var f := Lookup(list, k);
      Lookup(Marked(list, id), k) == if f.At? && f.item.id == id then At(f.item.(valid := false)) else f
    decreases |list|
  {
    hide Marked;
    if list != [] {
      MarkedParts(list, id);
      LookupMarked(Init(list), id, k);
    }
  }

  // The repetitions of publish k.
  function For(log: seq<Repeat>, k: nat): seq<Repeat> {
    if log == [] then []
    else One(log[0], k) + For(log[1..], k)
  }

  function One(r: Repeat, k: nat): seq<Repeat> { if r.serial == k then [r] else [] }

  lemma ForUnfold(log: seq<Repeat>, k: nat)
    ensures For(log, k) == if log == [] then [] else One(log[0], k) + For(log[1..], k)
  {}

  lemma {:induction false} ForAppend(a: seq<Repeat>, b: seq<Repeat>, k: nat)
    ensures For(a + b, k) == For(a, k) + For(b, k)
    decreases |a|
  {
    hide For, One;
    ForUnfold(a, k);
    if a == [] {
      assert a + b == b && [] + For(b, k) == For(b, k);
    } else {
      ForUnfold(a + b, k);
      assert (a + b)[1..] == a[1..] + b;
      ForAppend(a[1..], b, k);
      assert One(a[0], k) + (For(a[1..], k) + For(b, k)) == One(a[0], k) + For(a[1..], k) + For(b, k);
    }
  }

  // Each repetition is late, offers the packet as it was first sent to the network, and starts from the
  // stamp of the sending before it; what goes out is the packet exactly if that succeeds.
  predicate Faithful(env: Env, log: seq<Repeat>, id: uint16, bytes: seq<byte>, from: uint32, to: uint32) {
    if log == [] then from == to
    else
      && log[0].id == id && log[0].bytes == bytes && log[0].since == from
      && Proper(log[0].sending, bytes)
      && Spent(from, log[0].at) > 2 * env.timeout
      && Faithful(env, log[1..], id, bytes, log[0].stamp, to)
  }

  lemma {:induction false} FaithfulAppend(
    env: Env, a: seq<Repeat>, b: seq<Repeat>, id: uint16, bytes: seq<byte>, from: uint32, mid: uint32, to: uint32)
    requires Faithful(env, a, id, bytes, from, mid) && Faithful(env, b, id, bytes, mid, to)
    ensures Faithful(env, a + b, id, bytes, from, to)
    decreases |a|
  {
    if a == [] {
      assert a + b == b;
    } else {
      assert (a + b)[1..] == a[1..] + b;
      FaithfulAppend(env, a[1..], b, id, bytes, a[0].stamp, mid, to);
    }
  }

  // What a sweep may do to a record: a valid one stays, an invalid one may go.
  predicate Follows(env: Env, before: Found<PubInfo>, after: Found<PubInfo>, log: seq<Repeat>) {
    match before
    case Missing => after == Missing && log == []
    case At(v) =>
      if v.valid then
        && after.At? && after.item.(start := v.start) == v
        && Faithful(env, log, v.id, v.bytes, v.start, after.item.start)
      else log == [] && (after == Missing || after == before)
  }

  lemma TreatFollows(env: Env, v: PubInfo, p: Progress)
    ensures Treat(env, v, p).Drop? <==> !v.valid
    ensures var t := Treat(env, v, p);
      t.Keep? ==> t.info.serial == v.serial && Follows(env, At(v), At(t.info), For(t.log, v.serial))
    ensures var t := Treat(env, v, p);
      t.Keep? ==> forall k :: k != v.serial ==> For(t.log, k) == []
  {
    hide Sent;
    var t := Treat(env, v, p);
    SendProper(Memory(v.bytes, env.behind(p.sends)), env.writes(p.sends));
    if t.Keep? && t.log != [] {
      assert t.log == [t.log[0]] && t.log[1..] == [];
      assert Faithful(env, t.log[1..], v.id, v.bytes, t.log[0].stamp, t.info.start);
    }
  }

  lemma Unmoved(env: Env, f: Found<PubInfo>)
    ensures Follows(env, f, f, [])
  {}

  lemma {:induction false} SweepFollows(env: Env, list: seq<PubInfo>, hi: nat, p: Progress, k: nat)
    requires Ordered(list, hi)
    ensures var s := Sweep(env, list, p);
      Follows(env, Lookup(list, k), Lookup(s.list, k), For(s.log, k))
    decreases |list|
  {
    hide Treat, Sweep, Follows, For;
    SweepUnfold(env, list, p);
    assert For([], k) == [] by { ForNothing(k); }
    Unmoved(env, Missing);
    if list != [] {
      var v, rest, t := Last(list), Init(list), Treat(env, Last(list), p);
      TreatFollows(env, v, p);
      if v.serial == k { LookupBelow(rest, v.serial, k); }
      if t.Drop? {
        SweepFollows(env, rest, v.serial, p, k);
        if v.serial == k { DroppedFollows(env, v, Sweep(env, rest, p), k); }
      } else if t.failed {
        LookupSnoc(rest, t.info, k);
        Unmoved(env, Lookup(rest, k));
      } else {
        var s := Sweep(env, rest, t.progress);
        SweepFollows(env, rest, v.serial, t.progress, k);
        LookupSnoc(s.list, t.info, k);
        ForAppend(t.log, s.log, k);
        if v.serial == k { MissingFollows(env, Lookup(s.list, k), For(s.log, k)); }
        assert For(t.log, k) + [] == For(t.log, k) && [] + For(s.log, k) == For(s.log, k);
      }
    }
  }

  lemma ForNothing(k: nat)
    ensures For([], k) == []
  {}

  lemma MissingFollows(env: Env, after: Found<PubInfo>, log: seq<Repeat>)
    requires Follows(env, Missing, after, log)
    ensures after == Missing && log == []
  {}

  lemma DroppedFollows(env: Env, v: PubInfo, s: Swept, k: nat)
    requires !v.valid && Follows(env, Missing, Lookup(s.list, k), For(s.log, k))
    ensures Follows(env, At(v), Lookup(s.list, k), For(s.log, k))
  {}

  lemma StepFollows(env: Env, w: World, e: Event, k: nat)
    requires Inv(w) && k < w.serial
    requires e.PubAck? && Lookup(w.list, k).At? ==> e.id != Lookup(w.list, k).item.id || !Lookup(w.list, k).item.valid
    ensures var (next, log) := Step(env, w, e);
      Follows(env, Lookup(w.list, k), Lookup(next.list, k), For(log, k))
  {
    hide Ordered, Lookup, Sweep, Marked, Follows;
    ForNothing(k);
    Unmoved(env, Lookup(w.list, k));
    match e
    case Publish(topicOk, qos, encode) =>
      forall v: PubInfo | v.serial == w.serial ensures Lookup(w.list + [v], k) == Lookup(w.list, k) {
        LookupSnoc(w.list, v, k);
      }
    case PubAck(id) => LookupMarked(w.list, id, k);
    case SweepNow => SweepFollows(env, w.list, w.serial, w.progress, k);
    case StateIs(state) =>
  }

  predicate Unacked(es: seq<Event>, id: uint16) {
    forall i :: 0 <= i < |es| ==> es[i].PubAck? ==> es[i].id != id
  }

  lemma RunUnfold(env: Env, w: World, es: seq<Event>, k: nat)
    ensures es == [] ==> Run(env, w, es) == (w, []) && For([], k) == []
    ensures es != [] ==>
      var (next, log) := Step(env, w, es[0]);
      && Run(env, w, es).0 == Run(env, next, es[1..]).0
      && For(Run(env, w, es).1, k) == For(log, k) + For(Run(env, next, es[1..]).1, k)
  {
    hide Step;
    if es != [] { ForAppend(Step(env, w, es[0]).1, Run(env, Step(env, w, es[0]).0, es[1..]).1, k); }
  }

  // Until it is acknowledged a publish keeps waiting with its id and bytes, and every time it is
  // sent again it is that packet, more than twice the request timeout after the time before.
  lemma {:induction false} Retained(env: Env, w: World, es: seq<Event>, v: PubInfo)
    requires Inv(w) && v.serial < w.serial && Lookup(w.list, v.serial) == At(v) && v.valid && Unacked(es, v.id)
    ensures var (last, log) := Run(env, w, es);
      var f := Lookup(last.list, v.serial);
      && f.At? && f.item.(start := v.start) == v
      && Faithful(env, For(log, v.serial), v.id, v.bytes, v.start, f.item.start)
    decreases |es|
  {
    hide Step, Inv, Lookup, For;
    var k := v.serial;
    RunUnfold(env, w, es, k);
    if es != [] {
      var (next, log) := Step(env, w, es[0]);
      StepKeeps(env, w, es[0]);
      StepFollows(env, w, es[0], k);
      assert forall i :: 0 <= i < |es[1..]| ==> es[1..][i] == es[i + 1];
      var u := Lookup(next.list, k).item;
      Retained(env, next, es[1..], u);
      var (last, more) := Run(env, next, es[1..]);
      FaithfulAppend(env, For(log, k), For(more, k), v.id, v.bytes, v.start, u.start, Lookup(last.list, k).item.start);
    }
  }

  // A publish whose first sending succeeded waits from then on.
  lemma Waits(env: Env, w: World, encode: uint16 -> seq<byte>)
    requires Inv(w) && Published(env, w, true, Qos1, encode).1.Success?
    ensures var (next, r) := Published(env, w, true, Qos1, encode);
      && r.id == NextId(w.packetId) && next.serial == w.serial + 1
      && Lookup(next.list, w.serial) == At(PubInfo(w.serial, r.id, encode(r.id), true, env.clock(w.progress.ticks)))
  {
    hide Ordered, Lookup;
    var (next, r) := Published(env, w, true, Qos1, encode);
    LookupSnoc(w.list, Last(next.list), w.serial);
  }

  // From a publish whose first sending succeeded on, until its acknowledgement: it waits with the id
  // it was given and the packet that was sent, and every repetition is that packet, late.
  lemma NewPublish(env: Env, w: World, encode: uint16 -> seq<byte>, es: seq<Event>)
    requires Inv(w) && Published(env, w, true, Qos1, encode).1.Success? && Unacked(es, NextId(w.packetId))
    ensures var next := Published(env, w, true, Qos1, encode).0;
      var (last, log) := Run(env, next, es);
      var f, id := Lookup(last.list, w.serial), NextId(w.packetId);
      && NthSending(env, w.progress.sends, encode(id)).wire == encode(id)
      && f.At? && f.item.id == id && f.item.bytes == encode(id) && f.item.valid
      && Faithful(env, For(log, w.serial), id, encode(id), env.clock(w.progress.ticks), f.item.start)
  {
    hide Ordered, Lookup, For, Run, Faithful, Inv, Sent;
    var next := Published(env, w, true, Qos1, encode).0;
    SendProper(Memory(encode(NextId(w.packetId)), env.behind(w.progress.sends)), env.writes(w.progress.sends));
    Waits(env, w, encode);
    StepKeeps(env, w, Publish(true, Qos1, encode));
    Retained(env, next, es, Lookup(next.list, w.serial).item);
  }

  // Acknowledged or gone, a publish is never sent again.
  lemma {:induction false} NeverAgain(env: Env, w: World, es: seq<Event>, k: nat)
    requires Inv(w) && k < w.serial && (Lookup(w.list, k).At? ==> !Lookup(w.list, k).item.valid)
    ensures For(Run(env, w, es).1, k) == []
    decreases |es|
  {
    hide Step, Inv, Lookup, For;
    RunUnfold(env, w, es, k);
    if es != [] {
      StepKeeps(env, w, es[0]);
      StepFollows(env, w, es[0], k);
      NeverAgain(env, Step(env, w, es[0]).0, es[1..], k);
    }
  }

  lemma AckEnds(env: Env, w: World, es: seq<Event>, v: PubInfo)
    requires Inv(w) && v.serial < w.serial && Lookup(w.list, v.serial) == At(v)
    ensures For(Run(env, Step(env, w, PubAck(v.id)).0, es).1, v.serial) == []
  {
    hide Ordered, Lookup, Marked;
    LookupMarked(w.list, v.id, v.serial);
    StepKeeps(env, w, PubAck(v.id));
    NeverAgain(env, Step(env, w, PubAck(v.id)).0, es, v.serial);
  }

  // ---------- what a sweep leaves ----------

  function ValidOnly(list: seq<PubInfo>): seq<PubInfo> {
    if list == [] then []
    else ValidOnly(Init(list)) + (if Last(list).valid then [Last(list)] else [])
  }

  // The same records but for their stamps.
  predicate Same(a: seq<PubInfo>, b: seq<PubInfo>) {
    |a| == |b| && forall k :: 0 <= k < |a| ==> a[k].(start := b[k].start) == b[k]
  }

  // Unless a sending fails, a sweep leaves exactly the records not marked invalid, in order.
  lemma {:induction false} SweepCleans(env: Env, list: seq<PubInfo>, p: Progress)
    requires p.state == Connected ==> Sweep(env, list, p).progress.state == Connected
    ensures Same(Sweep(env, list, p).list, ValidOnly(list))
    decreases |list|
  {
    hide Treat, Sweep;
    SweepUnfold(env, list, p);
    if list != [] {
      var v, rest, t := Last(list), Init(list), Treat(env, Last(list), p);
      TreatStates(env, v, p);
      if t.Drop? {
        SweepCleans(env, rest, p);
        assert ValidOnly(rest) + [] == ValidOnly(rest);
      } else {
        SweepCleans(env, rest, t.progress);
      }
    }
  }

  lemma TreatStates(env: Env, v: PubInfo, p: Progress)
    ensures Treat(env, v, p).Drop? <==> !v.valid
    ensures var t := Treat(env, v, p);
      t.Keep? ==>
        && t.info.(start := v.start) == v
        && (if t.failed then p.state == Connected && t.progress.state == Disconnected else t.progress.state == p.state)
  {}

  // ---------- packet ids ----------

  // The k-th id a client draws; the counter starts at 0.
  function DrawnId(k: nat): uint16 {
    if k == 0 then 0 else NextId(DrawnId(k - 1))
  }

  lemma {:induction false} DrawnIdIs(k: nat)
    ensures k > 0 ==> DrawnId(k) == (k - 1) % 65535 + 1
  {
    if k > 1 {
      DrawnIdIs(k - 1);
      NextModulo(k - 2);
    }
  }

  lemma NextModulo(n: nat)
    ensures (n + 1) % 65535 == if n % 65535 == 65534 then 0 else n % 65535 + 1
  {}

  // Ids run through 1 to 65535: two draws share one exactly when a multiple of 65535 lies between.
  lemma IdsRepeat(i: nat, j: nat)
    requires 0 < i < j
    ensures DrawnId(i) == DrawnId(j) <==> (j - i) % 65535 == 0
  {
    DrawnIdIs(i);
    DrawnIdIs(j);
    hide DrawnId;
    SameModulo(i - 1, j - 1);
  }

  lemma SameModulo(a: nat, b: nat)
    requires a <= b
    ensures a % 65535 == b % 65535 <==> (b - a) % 65535 == 0
  {}
}
