/** The connection state machine of iotx_comm_if_api.c: cloud notifications, and reconnecting with
    growing intervals. */
module CommIf {
  import opened Arithmetic
  import opened Bytes

  const MIN_INTERVAL: uint32 := 1000
  const MAX_INTERVAL: uint32 := 60000

  datatype ConnState = Invalid | Initialized | Connected | Disconnected | Reconnecting

  datatype Note = CloudUp | CloudDown | NetworkUp | NetworkDown

  datatype Conn = Conn(network: bool, state: ConnState, interval: uint32, nextTime: uint32)

  // What a step does besides changing the record: notifications, and delays armed.
  datatype Effect = Effect(conn: Conn, notes: seq<Note>, delays: seq<uint32>)

  // What the transport, the clock and the random numbers answer during a step of the main loop:
  // the link's state, what an automatic upload returned if there was one, the time, what connecting
  // returned, a random number, and the time when the timer is set.
  datatype Turn = Turn(link: bool, upload: Upload, now: uint32, rc: int, random: uint32, later: uint32)

  datatype Upload = NoUpload | Uploaded(rc: int)

  datatype Event =
    | SetNetwork(up: bool)
    | CheckNetwork
    | Connect(rc: int)
    | CheckLink(link: bool)
    | Disconnect
    | Send(rc: int)
    | SendReply(formed: bool, rc: int)
    | Yield(turn: Turn)

  // ---------- one step ----------

  function Cloud(from: ConnState, to: ConnState): seq<Note> {
    if from == Connected && (to == Initialized || to == Disconnected) then [CloudDown]
    else if from != Connected && to == Connected then [CloudUp]
    else []
  }

  function SetState(c: Conn, s: ConnState): Effect { Effect(c.(state := s), Cloud(c.state, s), []) }

  function Still(c: Conn): Effect { Effect(c, [], []) }

  // Without a network the connection counts as disconnected.
  function NetworkChecked(c: Conn): Effect { if c.network then Still(c) else SetState(c, Disconnected) }

  function Ready(c: Conn): bool { c.network && c.state == Connected }

  function Sent(c: Conn, rc: int): Effect {
    if Ready(c) && rc < 0 then SetState(c, Disconnected) else if Ready(c) then Still(c) else NetworkChecked(c)
  }

  function LinkChecked(c: Conn, link: bool): Effect {
    if !Ready(c) then NetworkChecked(c) else SetState(c, if link then Connected else Disconnected)
  }

  function NextInterval(i: uint32): uint32 {
    if i < MAX_INTERVAL then 2 * i else MIN_INTERVAL
  }

  // HAL_Random(i), which may be any number below i.
  function Random(x: uint32, i: uint32): uint32 { if i == 0 then 0 else x % i }

  function Delay(i: uint32, x: uint32): uint32 {
    var d := (i as int) + Random(x, i) as int;
    if d > MAX_INTERVAL then MAX_INTERVAL else d
  }

  // utils_time_is_expired
  predicate Expired(time: uint32, now: uint32) { (now - time) % 0x1_0000_0000 < 0x7FFF_FFFF }

  // utils_time_countdown_ms
  function Armed(now: uint32, delay: uint32): uint32 { ((now as int) + delay as int) % 0x1_0000_0000 }

  function Reconnected(c: Conn, t: Turn): Effect {
    if !Expired(c.nextTime, t.now) then Still(c)
    else if t.rc == 0 then
      var e := SetState(c, Connected);
      e.(conn := e.conn.(interval := MAX_INTERVAL))
    else
      var i := NextInterval(c.interval);
      var d := Delay(i, t.random);
      Effect(c.(interval := i, nextTime := Armed(t.later, d)), [], [d])
  }

  function Then(a: Effect, b: Effect): Effect { Effect(b.conn, a.notes + b.notes, a.delays + b.delays) }

  // What the main loop does once the link has been checked.
  function Turned(c: Conn, t: Turn): Effect {
    if Ready(c) then (if t.upload.Uploaded? then Sent(c, t.upload.rc) else Still(c))
    else if c.state == Reconnecting then Reconnected(c, t)
    else if c.state == Disconnected then
      Effect(c.(state := Reconnecting, interval := MIN_INTERVAL, nextTime := Armed(t.later, MIN_INTERVAL)),
             [], [MIN_INTERVAL])
    else Still(c)
  }

  function Step(c: Conn, e: Event): Effect {
    match e
    case SetNetwork(up) =>
      Effect(c.(network := up), if up == c.network then [] else if up then [NetworkUp] else [NetworkDown], [])
    case CheckNetwork => NetworkChecked(c)
    case Connect(rc) =>
      if !c.network then NetworkChecked(c)
      else if c.state == Connected then Still(c)
      else SetState(c, if rc < 0 then Disconnected else Connected)
    case CheckLink(link) => LinkChecked(c, link)
    case Disconnect => SetState(c, Initialized)
    case Send(rc) => Sent(c, rc)
    case SendReply(formed, rc) => if Ready(c) && !formed then Still(c) else Sent(c, rc)
    case Yield(t) =>
      if !c.network then NetworkChecked(c)
      else var checked := LinkChecked(c, t.link); Then(checked, Turned(checked.conn, t))
  }

  // ---------- every run ----------

  const INIT := Conn(false, Invalid, 0, 0)

  function Run(c: Conn, es: seq<Event>): Effect
    decreases |es|
  {
    if es == [] then Still(c)
    else
      var first := Step(c, es[0]);
      Then(first, Run(first.conn, es[1..]))
  }

  // The cloud notifications alternate, beginning with CloudUp, if the client starts unconnected;
  // now tells how it ends.
  predicate Alternates(notes: seq<Note>, start: bool, now: bool) {
    if notes == [] then start == now
    else if notes[0] == CloudUp then !start && Alternates(notes[1..], true, now)
    else if notes[0] == CloudDown then start && Alternates(notes[1..], false, now)
    else Alternates(notes[1..], start, now)
  }

  function Power2(k: nat): (p: nat)
    ensures p > 0
  {
    if k == 0 then 1 else 2 * Power2(k - 1)
  }

  // 1000 doubled up to six times
  predicate IsInterval(i: uint32) {
    i == 1000 || i == 2000 || i == 4000 || i == 8000 || i == 16000 || i == 32000 || i == 64000
  }

  predicate Sound(c: Conn) { c.state == Reconnecting ==> IsInterval(c.interval) }

  predicate DelaysInRange(ds: seq<uint32>) { forall k :: 0 <= k < |ds| ==> MIN_INTERVAL <= ds[k] <= MAX_INTERVAL }

  lemma {:induction false} AlternatesAppend(a: seq<Note>, b: seq<Note>, x: bool, y: bool, z: bool)
    requires Alternates(a, x, y) && Alternates(b, y, z)
    ensures Alternates(a + b, x, z)
    decreases |a|
  {
    if a == [] {
      assert a + b == b;
    } else {
      assert (a + b)[1..] == a[1..] + b;
      AlternatesAppend(a[1..], b, if a[0] == CloudUp then true else if a[0] == CloudDown then false else x, y, z);
    }
  }

  // What holds of every single effect.
  predicate Proper(c: Conn, e: Effect) {
    Sound(e.conn) && Alternates(e.notes, c.state == Connected, e.conn.state == Connected) && DelaysInRange(e.delays)
  }

  lemma StillIsProper(c: Conn)
    requires Sound(c)
    ensures Proper(c, Still(c))
  {}

  lemma SetStateIsProper(c: Conn, s: ConnState)
    requires s == Initialized || s == Connected || s == Disconnected
    ensures Proper(c, SetState(c, s))
  {
    var notes := Cloud(c.state, s);
    assert |notes| <= 1 && (notes != [] ==> notes[1..] == []);
  }

  lemma ThenIsProper(c: Conn, a: Effect, b: Effect)
    requires Proper(c, a) && Proper(a.conn, b)
    ensures Proper(c, Then(a, b))
  {
    AlternatesAppend(a.notes, b.notes, c.state == Connected, a.conn.state == Connected, b.conn.state == Connected);
  }

  // Every delay lies between the two bounds.
  lemma DelayInRange(i: uint32, x: uint32)
    requires IsInterval(i)
    ensures IsInterval(NextInterval(i)) && MIN_INTERVAL <= Delay(i, x) <= MAX_INTERVAL
  {}

  lemma ReconnectedIsProper(c: Conn, t: Turn)
    requires Sound(c) && c.state == Reconnecting
    ensures Proper(c, Reconnected(c, t))
  {
    SetStateIsProper(c, Connected);
    DelayInRange(c.interval, t.random);
    DelayInRange(NextInterval(c.interval), t.random);
    hide Delay;
    assert Alternates([], false, false);
  }

  lemma TurnedIsProper(c: Conn, t: Turn)
    requires Sound(c)
    ensures Proper(c, Turned(c, t))
  {
    hide Reconnected, Proper;
    StillIsProper(c);
    SetStateIsProper(c, Disconnected);
    if c.state == Reconnecting { ReconnectedIsProper(c, t); }
    if c.state == Disconnected { FirstDelayIsProper(c, t); }
  }

  lemma FirstDelayIsProper(c: Conn, t: Turn)
    requires c.state == Disconnected
    ensures Proper(c, Turned(c, t))
  {
    assert Alternates([], false, false);
  }

  lemma StepIsProper(c: Conn, e: Event)
    requires Sound(c)
    ensures Proper(c, Step(c, e))
  {
    hide Proper, Turned;
    StillIsProper(c);
    SetStateIsProper(c, Initialized);
    SetStateIsProper(c, Connected);
    SetStateIsProper(c, Disconnected);
    match e
    case SetNetwork(up) => NetworkIsProper(c, up);
    case Yield(t) =>
      if c.network {
        var checked := LinkChecked(c, t.link);
        ProperIsSound(c, checked);
        TurnedIsProper(checked.conn, t);
        ThenIsProper(c, checked, Turned(checked.conn, t));
      }
    case _ =>
  }

  lemma ProperIsSound(c: Conn, e: Effect)
    requires Proper(c, e)
    ensures Sound(e.conn)
  {}

  lemma NetworkIsProper(c: Conn, up: bool)
    requires Sound(c)
    ensures Proper(c, Step(c, SetNetwork(up)))
  {
    var notes := Step(c, SetNetwork(up)).notes;
    assert |notes| <= 1 && (notes != [] ==> notes[1..] == []);
  }

  // In every run: the cloud notifications strictly alternate, starting with connected; while
  // reconnecting the interval is a doubling of 1000 up to 64000; every delay armed lies between
  // 1000 and 60000.
  lemma {:induction false} RunIsProper(c: Conn, es: seq<Event>)
    requires Sound(c)
    ensures Proper(c, Run(c, es))
    decreases |es|
  {
    hide Step, Proper;
    StillIsProper(c);
    if es != [] {
      var first := Step(c, es[0]);
      StepIsProper(c, es[0]);
      ProperIsSound(c, first);
      RunIsProper(first.conn, es[1..]);
      ThenIsProper(c, first, Run(first.conn, es[1..]));
    }
  }

  lemma FromStart(es: seq<Event>)
    ensures var r := Run(INIT, es);
      && Alternates(r.notes, false, r.conn.state == Connected) && DelaysInRange(r.delays)
      && (r.conn.state == Reconnecting ==> IsInterval(r.conn.interval))
  {
    RunIsProper(INIT, es);
  }

  // ---------- the intervals and the timer ----------

  // The interval after n failed attempts: 1000 doubled n times, beginning again at every seventh.
  function IntervalAfter(n: nat): (i: nat)
    ensures i > 0
  {
    1000 * Power2(n % 7)
  }

  lemma NextIntervalAfter(n: nat)
    ensures IntervalAfter(n) <= 64000 && NextInterval(IntervalAfter(n)) == IntervalAfter(n + 1)
  {
    Powers();
    NextModulo(n);
  }

  function Yields(ts: seq<Turn>): (es: seq<Event>)
    ensures |es| == |ts|
  {
    seq(|ts|, k requires 0 <= k < |ts| => Yield(ts[k]))
  }

  // The turns that find the timer run out, and so try to connect.
  function Attempts(c: Conn, ts: seq<Turn>): nat
    decreases |ts|
  {
    if ts == [] then 0
    else (if Expired(c.nextTime, ts[0].now) then 1 else 0) + Attempts(Step(c, Yield(ts[0])).conn, ts[1..])
  }

  // No turn that tries to connect succeeds.
  predicate NoneConnects(c: Conn, ts: seq<Turn>)
    decreases |ts|
  {
    ts == [] ||
    ((Expired(c.nextTime, ts[0].now) ==> ts[0].rc != 0) && NoneConnects(Step(c, Yield(ts[0])).conn, ts[1..]))
  }

  predicate Waiting(c: Conn, n: nat) { c.network && c.state == Reconnecting && c.interval == IntervalAfter(n) }

  lemma FailingTurn(c: Conn, t: Turn, n: nat)
    requires Waiting(c, n) && (Expired(c.nextTime, t.now) ==> t.rc != 0)
    ensures var e := Step(c, Yield(t));
      && Waiting(e.conn, if Expired(c.nextTime, t.now) then n + 1 else n)
      && e.notes == [] && |e.delays| == if Expired(c.nextTime, t.now) then 1 else 0
  {
    hide Delay, Armed, Expired, IntervalAfter;
    NextIntervalAfter(n);
  }

  // However many turns of the main loop pass with the network up and no success, waiting ones among
  // them: the connection goes on reconnecting, silently, one delay is armed for each failed attempt,
  // and after n of them the interval is 1000 times 2 to the n modulo 7.
  lemma {:induction false} Backoff(c: Conn, ts: seq<Turn>, n: nat)
    requires Waiting(c, n) && NoneConnects(c, ts)
    ensures var r, k := Run(c, Yields(ts)), Attempts(c, ts);
      && r.conn.network && r.conn.state == Reconnecting && r.conn.interval == 1000 * Power2((n + k) % 7)
      && r.notes == [] && |r.delays| == k
    decreases |ts|
  {
    hide Step, Expired;
    if ts != [] {
      var next := Step(c, Yield(ts[0])).conn;
      FailingTurn(c, ts[0], n);
      assert Yields(ts)[1..] == Yields(ts[1..]);
      Backoff(next, ts[1..], if Expired(c.nextTime, ts[0].now) then n + 1 else n);
    }
  }

  // A failed attempt arms the delay it drew, from its interval on.
  lemma FailureArms(c: Conn, t: Turn, n: nat)
    requires Waiting(c, n) && Expired(c.nextTime, t.now) && t.rc != 0
    ensures var e, i := Step(c, Yield(t)), IntervalAfter(n + 1);
      && |e.delays| == 1 && e.conn.nextTime == (t.later + e.delays[0]) % 0x1_0000_0000
      && e.delays[0] == if i + t.random % i > 60000 then 60000 else i + t.random % i
  {
    NextIntervalAfter(n);
    NextIntervalAfter(n + 1);
    hide IntervalAfter, Expired, Armed, Delay;
    DelayIs(IntervalAfter(n + 1), t.random, t.later);
  }

  // From 60000 on an interval is not doubled: the next one is 1000, with a delay below 2000.
  lemma BeginsAgain(c: Conn, t: Turn)
    requires c.network && c.state == Reconnecting && c.interval >= 60000 && Expired(c.nextTime, t.now) && t.rc != 0
    ensures var e := Step(c, Yield(t));
      e.conn.interval == 1000 && |e.delays| == 1 && 1000 <= e.delays[0] < 2000
  {
    DelayIs(1000, t.random, t.later);
    hide Expired, Armed;
  }

  lemma DelayIs(i: uint32, x: uint32, now: uint32)
    requires 0 < i <= 64000
    ensures Delay(i, x) == if i + x % i > 60000 then 60000 else i + x % i
    ensures Armed(now, Delay(i, x)) == (now + Delay(i, x)) % 0x1_0000_0000
  {}

  // The delays that can be drawn for an interval: from it up to twice of it, cut off at 60000.
  lemma DelaySpread(i: uint32, d: uint32)
    requires IsInterval(i)
    ensures (exists x :: Delay(i, x) == d) <==> (i <= d < 2 * i && d < 60000) || (d == 60000 && 2 * i > 60000)
  {
    if i <= d < 2 * i && d < 60000 {
      ModIs(d - i, i, 0, d - i);
      assert Delay(i, d - i) == d;
    }
    if d == 60000 && 2 * i > 60000 {
      ModIs(i - 1, i, 0, i - 1);
      assert Delay(i, i - 1) == d;
    }
  }

  // ---------- reconnecting succeeds ----------

  // An attempt whose time has come and that returns 0 connects, and the cloud is notified.
  lemma AttemptConnects(c: Conn, t: Turn)
    requires c.network && c.state == Reconnecting && (t.now - c.nextTime) % 0x1_0000_0000 < 0x7FFF_FFFF && t.rc == 0
    ensures Step(c, Yield(t)) == Effect(c.(state := Connected, interval := 60000), [CloudUp], [])
  {}

  lemma {:induction false} RunAppend(c: Conn, a: seq<Event>, b: seq<Event>)
    ensures Run(c, a + b) == Then(Run(c, a), Run(Run(c, a).conn, b))
    decreases |a|
  {
    hide Step;
    if a == [] {
      assert a + b == b;
      assert Then(Still(c), Run(c, b)) == Run(c, b) by { StillThen(c, Run(c, b)); }
    } else {
      var first := Step(c, a[0]);
      assert (a + b)[0] == a[0] && (a + b)[1..] == a[1..] + b;
      RunAppend(first.conn, a[1..], b);
      ThenTwice(first, Run(first.conn, a[1..]), Run(Run(first.conn, a[1..]).conn, b));
    }
  }

  lemma StillThen(c: Conn, e: Effect)
    ensures Then(Still(c), e) == e
  {}

  lemma ThenTwice(a: Effect, b: Effect, c: Effect)
    ensures Then(a, Then(b, c)) == Then(Then(a, b), c)
  {
    Regroup(a.notes, b.notes, c.notes);
    Regroup(a.delays, b.delays, c.delays);
  }

  lemma RunOne(c: Conn, e: Event)
    ensures Run(c, [e]) == Step(c, e)
  {
    var first := Step(c, e);
    assert [e][1..] == [] && first.notes + [] == first.notes && first.delays + [] == first.delays;
    hide Step;
  }

  // However many attempts have failed, the first one that returns 0 connects; the cloud hears of it once.
  lemma BackoffEnds(c: Conn, ts: seq<Turn>, t: Turn, n: nat)
    requires Waiting(c, n) && NoneConnects(c, ts)
    requires (t.now - Run(c, Yields(ts)).conn.nextTime) % 0x1_0000_0000 < 0x7FFF_FFFF && t.rc == 0
    ensures var r := Run(c, Yields(ts) + [Yield(t)]);
      && r.conn.network && r.conn.state == Connected && r.notes == [CloudUp] && |r.delays| == Attempts(c, ts)
  {
    hide Step, Run, Attempts, NoneConnects, Waiting;
    var middle := Run(c, Yields(ts)).conn;
    Backoff(c, ts, n);
    AttemptConnects(middle, t);
    RunAppend(c, Yields(ts), [Yield(t)]);
    RunOne(middle, Yield(t));
  }

  // A connection whose link is lost: the cloud hears of the loss, and of the next success.
  lemma LossAndRecovery(c: Conn, lost: Turn, ts: seq<Turn>, t: Turn)
    requires c.network && c.state == Connected && !lost.link
    requires var next := Step(c, Yield(lost)).conn;
      && NoneConnects(next, ts)
      && (t.now - Run(next, Yields(ts)).conn.nextTime) % 0x1_0000_0000 < 0x7FFF_FFFF && t.rc == 0
    ensures var r := Run(c, [Yield(lost)] + (Yields(ts) + [Yield(t)]));
      && r.conn.state == Connected && r.notes == [CloudDown, CloudUp] && |r.delays| == 1 + Attempts(Step(c, Yield(lost)).conn, ts)
  {
    LinkLost(c, lost);
    hide Step, Run, Attempts, NoneConnects, Waiting;
    var next := Step(c, Yield(lost)).conn;
    BackoffEnds(next, ts, t, 0);
    RunAppend(c, [Yield(lost)], Yields(ts) + [Yield(t)]);
    RunOne(c, Yield(lost));
  }

  lemma LinkLost(c: Conn, t: Turn)
    requires c.network && c.state == Connected && !t.link
    ensures var e := Step(c, Yield(t));
      && Waiting(e.conn, 0) && e.notes == [CloudDown] && e.delays == [1000]
      && e.conn.nextTime == (t.later + 1000) % 0x1_0000_0000
  {
    Powers();
  }

  // ---------- what the other events do ----------

  // Connecting, sending, uploading and checking the link: success keeps or makes the connection, failure
  // ends it, and the cloud is notified of either.
  lemma EventsMean(c: Conn, e: Event)
    requires c.network
    ensures e.Connect? && c.state != Connected ==>
      Step(c, e) == if e.rc >= 0 then Effect(c.(state := Connected), [CloudUp], []) else Effect(c.(state := Disconnected), [], [])
    ensures c.state == Connected ==>
      var failed := (e.Send? && e.rc < 0) || (e.SendReply? && e.formed && e.rc < 0) || (e.CheckLink? && !e.link);
      e.Connect? || e.Send? || e.SendReply? || e.CheckLink? ==>
        Step(c, e) == if failed then Effect(c.(state := Disconnected), [CloudDown], []) else Effect(c, [], [])
    ensures e.Disconnect? ==>
      Step(c, e) == Effect(c.(state := Initialized), if c.state == Connected then [CloudDown] else [], [])
    ensures e.Yield? && c.state == Connected && e.turn.link ==>
      Step(c, e) ==
        if e.turn.upload.Uploaded? && e.turn.upload.rc < 0 then Effect(c.(state := Disconnected), [CloudDown], [])
        else Effect(c, [], [])
  {}

  // Without a network nothing is sent or connected, and a connection is found lost.
  lemma NetworkGone(c: Conn, e: Event)
    requires !c.network && (e.CheckNetwork? || e.Connect? || e.CheckLink? || e.Send? || e.Yield? || (e.SendReply? && e.formed))
    ensures Step(c, e) == Effect(c.(state := Disconnected), if c.state == Connected then [CloudDown] else [], [])
  {}

  // The notifications of the network alternate, and tell how it is.
  predicate NetworkAlternates(notes: seq<Note>, start: bool, now: bool) {
    if notes == [] then start == now
    else if notes[0] == NetworkUp then !start && NetworkAlternates(notes[1..], true, now)
    else if notes[0] == NetworkDown then start && NetworkAlternates(notes[1..], false, now)
    else NetworkAlternates(notes[1..], start, now)
  }

  lemma {:induction false} NetworkAppend(a: seq<Note>, b: seq<Note>, x: bool, y: bool, z: bool)
    requires NetworkAlternates(a, x, y) && NetworkAlternates(b, y, z)
    ensures NetworkAlternates(a + b, x, z)
    decreases |a|
  {
    if a == [] {
      assert a + b == b;
    } else {
      assert (a + b)[1..] == a[1..] + b;
      NetworkAppend(a[1..], b, if a[0] == NetworkUp then true else if a[0] == NetworkDown then false else x, y, z);
    }
  }

  // Does an effect tell the network's changes, and no others?
  predicate TellsNetwork(c: Conn, e: Effect) { NetworkAlternates(e.notes, c.network, e.conn.network) }

  lemma {:induction false} RunTellsNetwork(c: Conn, es: seq<Event>)
    ensures TellsNetwork(c, Run(c, es))
    decreases |es|
  {
    hide Step;
    if es != [] {
      var first := Step(c, es[0]);
      StepTellsNetwork(c, es[0]);
      RunTellsNetwork(first.conn, es[1..]);
      NetworkAppend(first.notes, Run(first.conn, es[1..]).notes, c.network, first.conn.network, Run(c, es).conn.network);
    }
  }

  lemma SetStateTells(c: Conn, s: ConnState)
    ensures TellsNetwork(c, SetState(c, s)) && TellsNetwork(c, Still(c))
  {
    var notes := Cloud(c.state, s);
    assert |notes| <= 1 && (notes != [] ==> notes[1..] == []);
  }

  lemma StepTellsNetwork(c: Conn, e: Event)
    ensures TellsNetwork(c, Step(c, e))
    ensures e.SetNetwork? ==> Step(c, e).conn == c.(network := e.up)
    ensures !e.SetNetwork? ==> Step(c, e).conn.network == c.network
  {
    SetStateTells(c, Initialized);
    SetStateTells(c, Connected);
    SetStateTells(c, Disconnected);
    match e
    case SetNetwork(up) =>
      assert [NetworkUp][1..] == [] && [NetworkDown][1..] == [];
      assert NetworkAlternates([], up, up);
    case Yield(t) =>
      if c.network {
        hide TellsNetwork, NetworkAlternates;
        var checked := LinkChecked(c, t.link);
        TurnedTells(checked.conn, t);
        TellsBoth(c, checked, Turned(checked.conn, t));
      }
    case _ =>
  }

  lemma TellsBoth(c: Conn, a: Effect, b: Effect)
    requires TellsNetwork(c, a) && TellsNetwork(a.conn, b)
    ensures TellsNetwork(c, Then(a, b))
  {
    NetworkAppend(a.notes, b.notes, c.network, a.conn.network, b.conn.network);
  }

  lemma TurnedTells(c: Conn, t: Turn)
    ensures TellsNetwork(c, Turned(c, t)) && Turned(c, t).conn.network == c.network
  {
    SetStateTells(c, Connected);
    SetStateTells(c, Disconnected);
    hide Delay, Armed, Expired;
  }

  // A lost connection starts with the interval 1000.
  lemma LossStarts(c: Conn, t: Turn)
    requires c.network && c.state == Disconnected
    ensures Waiting(Step(c, Yield(t)).conn, 0)
  {
    Powers();
  }

  lemma Powers()
    ensures Power2(0) == 1 && Power2(1) == 2 && Power2(2) == 4 && Power2(3) == 8
    ensures Power2(4) == 16 && Power2(5) == 32 && Power2(6) == 64
  {
    assert Power2(2) == 4;
    assert Power2(4) == 16;
  }

  lemma NextModulo(n: nat)
    ensures (n + 1) % 7 == if n % 7 == 6 then 0 else n % 7 + 1
  {}

  // For a whole round of the clock: the timer has run out if and only if the delay has passed since
  // it was set, and less than half of the clock's range since then.
  lemma TimerIsExact(start: nat, delay: uint32, elapsed: nat)
    requires delay <= MAX_INTERVAL && elapsed < delay + 0x1_0000_0000
    ensures Expired(Armed(start % 0x1_0000_0000, delay), (start + elapsed) % 0x1_0000_0000)
      <==> delay <= elapsed < delay + 0x7FFF_FFFF
  {
    hide Armed;
    var time: int := Armed(start % 0x1_0000_0000, delay);
    var now: int := (start + elapsed) % 0x1_0000_0000;
    ArmedIs(start, delay);
    DivMod(start + delay, 0x1_0000_0000);
    DivMod(start + elapsed, 0x1_0000_0000);
    var q := (start + elapsed) / 0x1_0000_0000 - (start + delay) / 0x1_0000_0000;
    assert now - time == elapsed - delay - 0x1_0000_0000 * q;
    if elapsed >= delay {
      ModIs(now - time, 0x1_0000_0000, -q, elapsed - delay);
    } else {
      ModIs(now - time, 0x1_0000_0000, -q - 1, elapsed - delay + 0x1_0000_0000);
    }
  }

  lemma ArmedIs(start: nat, delay: uint32)
    ensures Armed(start % 0x1_0000_0000, delay) == (start + delay) % 0x1_0000_0000
  {
    var low := start % 0x1_0000_0000;
    DivMod(start, 0x1_0000_0000);
    DivMod(low + delay, 0x1_0000_0000);
    ModIs(start + delay, 0x1_0000_0000, start / 0x1_0000_0000 + (low + delay) / 0x1_0000_0000, (low + delay) % 0x1_0000_0000);
  }

  // ---------- the connection record ----------

  class Connection {
    var network: bool
    var state: ConnState
    var interval: uint32
    var nextTime: uint32
    ghost var notes: seq<Note>      // notifications so far
    ghost var delays: seq<uint32>   // delays armed so far

    ghost function Now(): Conn
      reads this
    {
      Conn(network, state, interval, nextTime)
    }

    // A call had the effect e on a record that was c with that history.
    ghost predicate Did(c: Conn, was: seq<Note>, armed: seq<uint32>, e: Effect)
      reads this
    {
      Now() == e.conn && notes == was + e.notes && delays == armed + e.delays
    }

    // IOT_Comm_Init
    constructor ()
      ensures Now() == INIT && notes == [] && delays == []
    {
      network, state, interval, nextTime, notes, delays := false, Invalid, 0, 0, [], [];
    }

    // iotx_set_network_state
    method SetNetworkState(up: bool)
      modifies this
      ensures Did(old(Now()), old(notes), old(delays), Step(old(Now()), SetNetwork(up)))
    {
      if network != up {
        if up { notes := notes + [NetworkUp]; } else { notes := notes + [NetworkDown]; }
      }
      network := up;
    }

    // iotx_set_conn_state
    method SetConnState(newState: ConnState)
      modifies this`state, this`notes
      ensures Did(old(Now()), old(notes), old(delays), SetState(old(Now()), newState))
    {
      if state != newState {
        match newState {
          case Initialized => if state == Connected { notes := notes + [CloudDown]; }
          case Disconnected => if state == Connected { notes := notes + [CloudDown]; }
          case Connected => notes := notes + [CloudUp];
          case _ =>
        }
      }
      state := newState;
    }

    // IOT_Network_IsConnected
    method NetworkIsConnected() returns (up: bool)
      modifies this`state, this`notes
      ensures up == network
      ensures Did(old(Now()), old(notes), old(delays), NetworkChecked(old(Now())))
    {
      if !network {
        SetConnState(Disconnected);
        return false;
      }
      up := true;
    }

    // IOT_Comm_Connect; rc is what connecting returns.
    method Connect(rc: int)
      modifies this`state, this`notes
      ensures Did(old(Now()), old(notes), old(delays), Step(old(Now()), Event.Connect(rc)))
    {
      var up := NetworkIsConnected();
      if !up { return; }
      if state == Connected { return; }
      if rc < 0 { SetConnState(Disconnected); } else { SetConnState(Connected); }
    }

    // IOT_Comm_IsConnected
    method IsConnected(link: bool) returns (rst: bool)
      modifies this`state, this`notes
      ensures rst == (Ready(old(Now())) && link) && rst == Ready(Now())
      ensures Did(old(Now()), old(notes), old(delays), LinkChecked(old(Now()), link))
    {
      var up := NetworkIsConnected();
      if !up { return false; }
      if state != Connected { return false; }
      if link { SetConnState(Connected); } else { SetConnState(Disconnected); }
      rst := link;
    }

    // IOT_Comm_Disconnect
    method Disconnect()
      modifies this`state, this`notes
      ensures Did(old(Now()), old(notes), old(delays), Step(old(Now()), Event.Disconnect))
    {
      SetConnState(Initialized);
    }

    // IOT_Comm_SendData; rc is what the transport returns.
    method SendData(rc: int) returns (rst: int)
      modifies this`state, this`notes
      ensures rst == if Ready(old(Now())) then rc else -1
      ensures Did(old(Now()), old(notes), old(delays), Sent(old(Now()), rc))
    {
      var up := NetworkIsConnected();
      if !up { return -1; }
      if state != Connected { return -1; }
      if rc < 0 { SetConnState(Disconnected); }
      rst := rc;
    }

    // IOT_Comm_SendActionReply; formed says whether the reply could be built.
    method SendActionReply(formed: bool, rc: int) returns (rst: int)
      modifies this`state, this`notes
      ensures rst == if Ready(old(Now())) && formed then rc else -1
      ensures Did(old(Now()), old(notes), old(delays), Step(old(Now()), SendReply(formed, rc)))
    {
      var up := NetworkIsConnected();
      if !up { return -1; }
      if state != Connected { return -1; }
      if !formed { return -1; }
      if rc < 0 { SetConnState(Disconnected); }
      rst := rc;
    }

    // utils_time_countdown_ms on the record's timer.
    method Countdown(later: uint32, ms: uint32)
      modifies this`nextTime, this`delays
      ensures nextTime == Armed(later, ms) && delays == old(delays) + [ms]
    {
      nextTime := ((later as int) + ms as int) % 0x1_0000_0000;
      delays := delays + [ms];
    }

    // iotx_conn_handle_reconnect
    method HandleReconnect(t: Turn) returns (done: bool)
      requires state == Reconnecting && IsInterval(interval)
      modifies this
      ensures done == (Expired(old(nextTime), t.now) && t.rc == 0)
      ensures var e := Reconnected(old(Now()), t);
        Did(old(Now()), old(notes), old(delays), if done then e.(conn := e.conn.(interval := old(interval))) else e)
    {
      hide Delay, Expired, Armed;
      if !Expired(nextTime, t.now) { return false; }
      if t.rc == 0 {
        SetConnState(Connected);
        return true;
      }
      IntervalGrows();
      if MAX_INTERVAL > interval {
        interval := interval * 2;
      } else {
        interval := MIN_INTERVAL;
      }
      var ms := Backed(interval, t.random);
      Countdown(t.later, ms);
      done := false;
    }

    lemma IntervalGrows()
      requires IsInterval(interval)
      ensures IsInterval(NextInterval(interval)) && 0 < interval <= 64000
    {}

    // The delay: interval and a random part, cut off.
    method Backed(i: uint32, random: uint32) returns (ms: uint32)
      requires IsInterval(i)
      ensures ms == Delay(i, random)
    {
      var d := (i as int) + Random(random, i) as int;
      if MAX_INTERVAL < d { d := MAX_INTERVAL; }
      ms := d;
    }

    // IOT_Comm_Yield
    method Yield(t: Turn) returns (rc: int)
      requires Sound(Now())
      modifies this
      ensures rc == if old(network) then 0 else -1
      ensures Did(old(Now()), old(notes), old(delays), Step(old(Now()), Event.Yield(t)))
    {
      ghost var c := Now();
      NoNetwork(c, t);
      hide Turned, LinkChecked, Step, NetworkChecked;
      var up := NetworkIsConnected();
      if !up { return -1; }
      var connected := IsConnected(t.link);
      ghost var checked := LinkChecked(c, t.link);
      if connected { Upload(t); } else { Reconnect(t); }
      Appends(old(notes), old(delays), checked, Turned(checked.conn, t));
      rc := 0;
    }

    // What Yield does while it is connected.
    method Upload(t: Turn)
      requires Ready(Now())
      modifies this
      ensures Did(old(Now()), old(notes), old(delays), Turned(old(Now()), t))
    {
      if t.upload.Uploaded? {
        var _ := SendData(t.upload.rc);
      }
    }

    // What Yield does while it is not connected.
    method Reconnect(t: Turn)
      requires !Ready(Now()) && (state == Reconnecting ==> IsInterval(interval))
      modifies this
      ensures Did(old(Now()), old(notes), old(delays), Turned(old(Now()), t))
    {
      hide Reconnected, Sent, Armed;
      ghost var c := Now();
      if state == Reconnecting {
        var done := HandleReconnect(t);
        if done { ReconnectedSets(c, t); interval := MAX_INTERVAL; }
      } else if state == Disconnected {
        interval := MIN_INTERVAL;
        Countdown(t.later, interval);
        SetConnState(Reconnecting);
      }
    }
  }

  lemma ReconnectedSets(c: Conn, t: Turn)
    requires Expired(c.nextTime, t.now) && t.rc == 0
    ensures Reconnected(c, t).conn.interval == MAX_INTERVAL && Reconnected(c, t).delays == []
  {}

  lemma NoNetwork(c: Conn, t: Turn)
    ensures Step(c, Event.Yield(t)) == if !c.network then NetworkChecked(c)
      else Then(LinkChecked(c, t.link), Turned(LinkChecked(c, t.link).conn, t))
    ensures c.network ==> NetworkChecked(c) == Still(c)
    ensures LinkChecked(c, t.link).conn.interval == c.interval
    ensures LinkChecked(c, t.link).conn.state == Reconnecting ==> c.state == Reconnecting
  {}

  lemma Appends(was: seq<Note>, armed: seq<uint32>, a: Effect, b: Effect)
    ensures was + a.notes + b.notes == was + Then(a, b).notes
    ensures armed + a.delays + b.delays == armed + Then(a, b).delays
  {
    Regroup(was, a.notes, b.notes);
    Regroup(armed, a.delays, b.delays);
  }
}
