/** When an MQTT client sends: at a publish, and again at every sweep that finds it overdue. */
module MqttTimeouts {
  import opened Arithmetic
  import opened Bytes
  import opened Search
  import opened MqttSend
  import opened MqttClient
  import opened MqttRuns

  // Below 2^32 the time spent is the true one, although the clock wraps.
  lemma SpentIsExact(start: nat, elapsed: uint32)
    ensures Spent(start % 0x1_0000_0000, (start + elapsed) % 0x1_0000_0000) == elapsed
  {
    var n := 0x1_0000_0000;
    DivMod(start, n);
    DivMod(start + elapsed, n);
    var a, b := start % n, (start + elapsed) % n;
    ModIs(b - a, n, start / n - (start + elapsed) / n, elapsed);
  }

  // ---------- a sweep ----------

  // Where a sweep stands when it comes to record i: the records behind it are done.
  function Reached(env: Env, list: seq<PubInfo>, p: Progress, i: nat): Progress
    requires i < |list|
  {
    Sweep(env, list[i + 1..], p).progress
  }

  // A valid record whose last sending is more than twice the request timeout ago when its turn comes.
  predicate Overdue(env: Env, v: PubInfo, p: Progress) {
    v.valid && p.state == Connected && Spent(v.start, env.clock(p.ticks)) > 2 * env.timeout
  }

  function Again(env: Env, v: PubInfo, p: Progress): Repeat {
    Repeat(v.serial, v.id, v.bytes, NthSending(env, p.sends, v.bytes), v.start, env.clock(p.ticks), env.clock(p.ticks + 1))
  }

  lemma TreatSends(env: Env, v: PubInfo, p: Progress)
    ensures var t := Treat(env, v, p);
      t.Keep? ==>
        && t.log == (if Overdue(env, v, p) then [Again(env, v, p)] else [])
        && t.info == (if Overdue(env, v, p) then v.(start := env.clock(p.ticks + 1)) else v)
        && t.progress.sends == p.sends + |t.log|
        && (t.failed <==> Overdue(env, v, p) && !NthSending(env, p.sends, v.bytes).ok)
        && (t.failed ==> t.progress.state == Disconnected)
    ensures Overdue(env, v, p) ==> Treat(env, v, p).Keep?
  {
    hide Sent;
  }

  lemma ReachedUnfold(env: Env, list: seq<PubInfo>, p: Progress, i: nat)
    requires i < |list| - 1
    ensures var t := Treat(env, Last(list), p);
      Reached(env, list, p, i) ==
        if t.Drop? then Reached(env, Init(list), p, i)
        else if t.failed then t.progress else Reached(env, Init(list), t.progress, i)
  {
    hide Treat, Sweep;
    assert Last(list[i + 1..]) == Last(list) && Init(list[i + 1..]) == Init(list)[i + 1..];
    SweepUnfold(env, list[i + 1..], p);
  }

  // What is sent for a record that is not listed: nothing.
  lemma NotListed(env: Env, list: seq<PubInfo>, hi: nat, p: Progress, k: nat)
    requires Ordered(list, hi) && hi <= k
    ensures For(Sweep(env, list, p).log, k) == []
  {
    hide Sweep, For, Ordered, Lookup, Follows;
    LookupBelow(list, hi, k);
    SweepFollows(env, list, hi, p, k);
    MissingFollows(env, Lookup(Sweep(env, list, p).list, k), For(Sweep(env, list, p).log, k));
  }

  lemma OneFor(r: Repeat, k: nat)
    ensures For([r], k) == (if r.serial == k then [r] else []) && For([], k) == []
  {
    assert [r][1..] == [];
  }

  // A sweep sends a record again, once and as it is, exactly if it is overdue when its turn comes.
  lemma {:induction false} SweepSends(env: Env, list: seq<PubInfo>, hi: nat, p: Progress, i: nat)
    requires Ordered(list, hi) && i < |list|
    ensures var v, q := list[i], Reached(env, list, p, i);
      For(Sweep(env, list, p).log, v.serial) == if Overdue(env, v, q) then [Again(env, v, q)] else []
    decreases |list|
  {
    hide Treat, Sweep, For, Reached, Ordered;
    var v, rest := Last(list), Init(list);
    var t, k := Treat(env, v, p), list[i].serial;
    var next := if t.Keep? then t.progress else p;
    LastIsNewest(list, hi, i);
    SweepUnfold(env, list, p);
    TreatSends(env, v, p);
    OneFor(Again(env, v, p), k);
    if t.Keep? && !t.failed { ForAppend(t.log, Sweep(env, rest, next).log, k); }
    if i == |list| - 1 {
      LastReached(env, list, p);
      NotListed(env, rest, v.serial, next, k);
    } else {
      ReachedUnfold(env, list, p, i);
      SweepSends(env, rest, v.serial, next, i);
      assert [] + For(Sweep(env, rest, next).log, k) == For(Sweep(env, rest, next).log, k);
    }
  }

  lemma LastReached(env: Env, list: seq<PubInfo>, p: Progress)
    requires list != []
    ensures Reached(env, list, p, |list| - 1) == p
  {
    assert list[|list|..] == [];
    SweepUnfold(env, [], p);
  }

  lemma {:induction false} LastIsNewest(list: seq<PubInfo>, hi: nat, i: nat)
    requires Ordered(list, hi) && i < |list|
    ensures Ordered(Init(list), Last(list).serial) && (i < |list| - 1 ==> list[i].serial < Last(list).serial)
    decreases |list|
  {
    if i < |list| - 1 { LastIsNewest(Init(list), Last(list).serial, i); }
  }

  // The client's count of sendings rises by one for each.
  lemma {:induction false} SweepCounts(env: Env, list: seq<PubInfo>, p: Progress)
    ensures var s := Sweep(env, list, p); s.progress.sends == p.sends + |s.log|
    decreases |list|
  {
    hide Treat, Sweep;
    SweepUnfold(env, list, p);
    if list != [] {
      var t := Treat(env, Last(list), p);
      TreatSends(env, Last(list), p);
      if t.Drop? { SweepCounts(env, Init(list), p); }
      if t.Keep? && !t.failed { SweepCounts(env, Init(list), t.progress); }
    }
  }

  // ---------- a sweep in which no sending fails ----------

  lemma {:induction false} StaysConnected(env: Env, list: seq<PubInfo>, p: Progress, i: nat)
    requires p.state == Connected && Sweep(env, list, p).progress.state == Connected && i < |list|
    ensures Reached(env, list, p, i).state == Connected
    decreases |list|
  {
    hide Treat, Sweep, Reached;
    SweepUnfold(env, list, p);
    var t := Treat(env, Last(list), p);
    TreatStates(env, Last(list), p);
    if i == |list| - 1 {
      LastReached(env, list, p);
    } else {
      ReachedUnfold(env, list, p, i);
      if t.Keep? { StaysConnected(env, Init(list), t.progress, i); } else { StaysConnected(env, Init(list), p, i); }
    }
  }

  // Then every valid record that is late when its turn comes goes out again, with its bytes on the wire.
  lemma AllLateSent(env: Env, list: seq<PubInfo>, hi: nat, p: Progress, i: nat)
    requires Ordered(list, hi) && i < |list| && list[i].valid
    requires p.state == Connected && Sweep(env, list, p).progress.state == Connected
    requires Spent(list[i].start, env.clock(Reached(env, list, p, i).ticks)) > 2 * env.timeout
    ensures var log := For(Sweep(env, list, p).log, list[i].serial);
      && |log| == 1 && log[0].id == list[i].id && log[0].bytes == list[i].bytes
      && log[0].since == list[i].start && log[0].at == env.clock(Reached(env, list, p, i).ticks)
  {
    hide Sweep, Ordered, Reached, Sent;
    StaysConnected(env, list, p, i);
    SweepSends(env, list, hi, p, i);
  }

  // ---------- over a run ----------

  // A publish that was not acknowledged is sent again by the next sweep exactly if it is overdue then.
  lemma SentAgain(env: Env, w: World, es: seq<Event>, v: PubInfo, i: nat)
    requires Inv(w) && v.serial < w.serial && Lookup(w.list, v.serial) == At(v) && v.valid && Unacked(es, v.id)
    requires var last := Run(env, w, es).0; i < |last.list| && last.list[i].serial == v.serial
    ensures var last := Run(env, w, es).0;
      var u, q := last.list[i], Reached(env, last.list, last.progress, i);
      && u.(start := v.start) == v
      && For(Step(env, last, SweepNow).1, v.serial) ==
           if q.state == Connected && Spent(u.start, env.clock(q.ticks)) > 2 * env.timeout then [Again(env, u, q)] else []
  {
    hide Run, Ordered, Lookup, For, Sweep, Faithful, Reached, Sent;
    AtMostTwenty(env, w, es);
    Retained(env, w, es, v);
    var last := Run(env, w, es).0;
    LookupIs(last.list, last.serial, i);
    SweepSends(env, last.list, last.serial, last.progress, i);
  }

  lemma {:induction false} LookupIs(list: seq<PubInfo>, hi: nat, i: nat)
    requires Ordered(list, hi) && i < |list|
    ensures Lookup(list, list[i].serial) == At(list[i])
    decreases |list|
  {
    if i < |list| - 1 {
      LastIsNewest(list, hi, i);
      LookupIs(Init(list), Last(list).serial, i);
    }
  }

  // ---------- a publish ----------

  // A publish succeeds exactly if the topic is good, the client connected, the quality of service below 2, the
  // packet built, room in the list where it must wait, and all of the packet goes out.
  lemma PublishesExactly(env: Env, w: World, topicOk: bool, qos: Qos, encode: uint16 -> seq<byte>)
    ensures var (next, r) := Published(env, w, topicOk, qos, encode);
      var bytes := encode(if qos == Qos0 then 0 else NextId(w.packetId));
      var tries := topicOk && w.progress.state == Connected && qos != Qos2 && bytes != []
        && (qos == Qos1 ==> |w.list| < REPUB_NUM_MAX);
      && (r.Success? <==> tries && NthSending(env, w.progress.sends, bytes).wire == bytes)
      && next.progress.sends == w.progress.sends + (if tries then 1 else 0)
      && next.progress.state == (if tries && !r.Success? then Disconnected else w.progress.state)
      && next.packetId == (if topicOk && w.progress.state == Connected && qos != Qos0 then NextId(w.packetId) else w.packetId)
      && (if r.Success? && qos == Qos1 then |next.list| == |w.list| + 1 && next.list[..|w.list|] == w.list else next.list == w.list)
  {
    var bytes := encode(if qos == Qos0 then 0 else NextId(w.packetId));
    SendProper(Memory(bytes, env.behind(w.progress.sends)), env.writes(w.progress.sends));
    hide Sent;
  }
}
