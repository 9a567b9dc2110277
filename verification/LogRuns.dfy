/** Every run of the log: level changes and messages in any order, with any number of addresses for a text. */
module LogRuns {
  import opened CacheOrder
  import opened LogCache

  datatype Op = Set(name: string, level: Level) | Message(level: Level, tag: Tag)

  // ---------- by the levels alone ----------

  datatype Settings = Settings(given: map<string, Level>, default: Level)

  const UNSET := Settings(map[], 0)

  function Apply(l: Settings, op: Op): Settings {
    if !op.Set? then l
    else if op.name == WILDCARD then Settings(map[], op.level)
    else l.(given := l.given[op.name := op.level])
  }

  function Of(l: Settings, name: string): Level { if name in l.given then l.given[name] else l.default }

  // Whether each message should be printed.
  function Printed(l: Settings, text: Tag -> string, ops: seq<Op>): seq<bool>
    decreases |ops|
  {
    if ops == [] then []
    else
      (if ops[0].Message? then [ops[0].level <= Of(l, text(ops[0].tag))] else [])
      + Printed(Apply(l, ops[0]), text, ops[1..])
  }

  // ---------- through the cache ----------

  function Step(st: Store, text: Tag -> string, size: nat, op: Op): (r: Store)
    requires |st.cache| <= size && 0 < size
    ensures |r.cache| <= size
  {
    match op
    case Set(name, level) => SetTo(st, text, name, level)
    case Message(_, tag) => Wrote(st, text, size, tag)
  }

  // Whether each message is printed.
  function PrintedBy(st: Store, text: Tag -> string, size: nat, ops: seq<Op>): seq<bool>
    requires |st.cache| <= size && 0 < size
    decreases |ops|
  {
    if ops == [] then []
    else
      (if ops[0].Message? then [Prints(st, text, ops[0].level, ops[0].tag)] else [])
      + PrintedBy(Step(st, text, size, ops[0]), text, size, ops[1..])
  }

  function Since(history: seq<Tag>, op: Op): seq<Tag> {
    match op
    case Set(name, _) => if name == WILDCARD then [] else history
    case Message(_, tag) => history + [tag]
  }

  lemma StepInv(st: Store, text: Tag -> string, size: nat, history: seq<Tag>, op: Op)
    requires Inv(st, size, history)
    ensures Inv(Step(st, text, size, op), size, Since(history, op))
  {
    hide Inv, Wrote, SetTo;
    assert |st.cache| <= size && 0 < size by { InvSize(st, size, history); }
    match op {
      case Set(name, level) => SetInv(st, text, size, history, name, level);
      case Message(_, tag) => WroteInv(st, text, size, history, tag);
    }
  }

  lemma InvSize(st: Store, size: nat, history: seq<Tag>)
    requires Inv(st, size, history)
    ensures |st.cache| <= size && 0 < size && size % 2 == 1 && DistinctTags(st.cache)
  {}

  ghost predicate Matches(st: Store, l: Settings) {
    forall n :: LevelIn(st.list, st.default, n) == Of(l, n)
  }

  lemma StepMatches(st: Store, l: Settings, text: Tag -> string, size: nat, op: Op)
    requires |st.cache| <= size && 0 < size && Matches(st, l)
    ensures Matches(Step(st, text, size, op), Apply(l, op))
  {
    hide ListSet, UpdateFirst, Settled;
    if op.Set? && op.name != WILDCARD { ListSetIs(st.list, st.default, op.name, op.level); }
  }

  // ---------- which runs go right ----------

  // A set of a new level must not find two cached tags with its text. Nothing else can go wrong.
  predicate Harmless(st: Store, text: Tag -> string, op: Op) {
    op.Set? ==>
      op.name == WILDCARD || op.level == LevelIn(st.list, st.default, op.name) || AtMostOnce(st.cache, text, op.name)
  }

  predicate Clean(st: Store, text: Tag -> string, size: nat, ops: seq<Op>)
    requires |st.cache| <= size && 0 < size
    decreases |ops|
  {
    ops == [] || (Harmless(st, text, ops[0]) && Clean(Step(st, text, size, ops[0]), text, size, ops[1..]))
  }

  lemma StepAgrees(st: Store, text: Tag -> string, size: nat, op: Op)
    requires |st.cache| <= size && 0 < size && DistinctTags(st.cache) && Agrees(st, text)
    ensures Agrees(Step(st, text, size, op), text) <==> Harmless(st, text, op)
  {
    hide Agrees, Wrote, SetTo, AtMostOnce, DistinctTags;
    match op {
      case Set(name, level) => SetAgrees(st, text, name, level);
      case Message(_, tag) => WroteAgrees(st, text, size, tag);
    }
  }

  // A clean run prints what the levels alone say.
  lemma {:induction false} CleanPrints(st: Store, l: Settings, text: Tag -> string, size: nat, history: seq<Tag>, ops: seq<Op>)
    requires Inv(st, size, history) && Agrees(st, text) && Matches(st, l) && Clean(st, text, size, ops)
    ensures PrintedBy(st, text, size, ops) == Printed(l, text, ops)
    decreases |ops|
  {
    hide Inv, Agrees, Matches, Step, Harmless, Prints;
    if ops != [] {
      InvSize(st, size, history);
      StepInv(st, text, size, history, ops[0]);
      StepMatches(st, l, text, size, ops[0]);
      StepAgrees(st, text, size, ops[0]);
      CleanPrints(Step(st, text, size, ops[0]), Apply(l, ops[0]), text, size, Since(history, ops[0]), ops[1..]);
      if ops[0].Message? { PrintsRight(st, l, text, ops[0].level, ops[0].tag); }
    }
  }

  lemma PrintsRight(st: Store, l: Settings, text: Tag -> string, level: Level, tag: Tag)
    requires DistinctTags(st.cache) && Matches(st, l) && Agrees(st, text)
    ensures Prints(st, text, level, tag) <==> level <= Of(l, text(tag))
  {
    hide Agrees, Prints, DistinctTags;
    AgreesExactly(st, text);
  }

  // One that is not has a beginning after which some message fares otherwise.
  lemma {:induction false} NotCleanMisprints(
      st: Store, l: Settings, text: Tag -> string, size: nat, history: seq<Tag>, ops: seq<Op>)
      returns (i: nat, m: Op)
    requires Inv(st, size, history) && Agrees(st, text) && Matches(st, l) && !Clean(st, text, size, ops)
    ensures i <= |ops| && m.Message?
    ensures PrintedBy(st, text, size, ops[..i] + [m]) != Printed(l, text, ops[..i] + [m])
    decreases |ops|
  {
    hide Inv, Agrees, Matches, Step, Harmless, Prints;
    InvSize(st, size, history);
    StepInv(st, text, size, history, ops[0]);
    StepMatches(st, l, text, size, ops[0]);
    StepAgrees(st, text, size, ops[0]);
    var next, after := Step(st, text, size, ops[0]), Apply(l, ops[0]);
    if Harmless(st, text, ops[0]) {
      i, m := NotCleanMisprints(next, after, text, size, Since(history, ops[0]), ops[1..]);
      i := i + 1;
      if ops[0].Message? { PrintsRight(st, l, text, ops[0].level, ops[0].tag); }
      FirstThen(st, l, text, size, ops, i, m);
    } else {
      InvSize(next, size, Since(history, ops[0]));
      m := Misprinted(next, after, text, size);
      i := 1;
      assert ops[..1][1..] == [];
      NotMessage(st, text, ops[0]);
      FirstThen(st, l, text, size, ops, 1, m);
    }
  }

  lemma NotMessage(st: Store, text: Tag -> string, op: Op)
    requires !Harmless(st, text, op)
    ensures op.Set?
  {}

  // A message that a store out of agreement gets wrong.
  lemma Misprinted(st: Store, l: Settings, text: Tag -> string, size: nat) returns (m: Op)
    requires DistinctTags(st.cache) && Matches(st, l) && !Agrees(st, text) && |st.cache| <= size && 0 < size
    ensures m.Message? && PrintedBy(st, text, size, [m]) != Printed(l, text, [m])
  {
    hide DistinctTags, Agrees, Prints, Step;
    AgreesExactly(st, text);
    var tag, level: Level :| Prints(st, text, level, tag) != (level <= LevelIn(st.list, st.default, text(tag)));
    m := Message(level, tag);
    OneMessage(st, l, text, size, level, tag);
  }

  lemma OneMessage(st: Store, l: Settings, text: Tag -> string, size: nat, level: Level, tag: Tag)
    requires |st.cache| <= size && 0 < size
    ensures PrintedBy(st, text, size, [Message(level, tag)]) == [Prints(st, text, level, tag)]
    ensures Printed(l, text, [Message(level, tag)]) == [level <= Of(l, text(tag))]
  {
    hide Prints, Step;
    assert [Message(level, tag)][1..] == [];
  }

  // What a run prints begins with its first message.
  lemma FirstThen(st: Store, l: Settings, text: Tag -> string, size: nat, ops: seq<Op>, i: nat, m: Op)
    requires |st.cache| <= size && 0 < size && 0 < i <= |ops|
    requires ops[0].Message? ==> (Prints(st, text, ops[0].level, ops[0].tag) <==> ops[0].level <= Of(l, text(ops[0].tag)))
    requires PrintedBy(Step(st, text, size, ops[0]), text, size, ops[1..][..i - 1] + [m])
      != Printed(Apply(l, ops[0]), text, ops[1..][..i - 1] + [m])
    ensures PrintedBy(st, text, size, ops[..i] + [m]) != Printed(l, text, ops[..i] + [m])
  {
    hide Prints, Step, Apply;
    var w := ops[..i] + [m];
    assert w[0] == ops[0] && w[1..] == ops[1..][..i - 1] + [m];
    var first := if w[0].Message? then [Prints(st, text, w[0].level, w[0].tag)] else [];
    SameFirst(first, PrintedBy(Step(st, text, size, w[0]), text, size, w[1..]), Printed(Apply(l, w[0]), text, w[1..]));
  }

  lemma SameFirst(first: seq<bool>, a: seq<bool>, b: seq<bool>)
    requires a != b
    ensures first + a != first + b
  {
    assert (first + a)[|first|..] == a && (first + b)[|first|..] == b;
  }

  lemma {:induction false} CleanBegins(st: Store, text: Tag -> string, size: nat, ops: seq<Op>, i: nat, m: Op)
    requires |st.cache| <= size && 0 < size && i <= |ops| && m.Message? && Clean(st, text, size, ops)
    ensures Clean(st, text, size, ops[..i] + [m])
    decreases i
  {
    hide Step, Harmless;
    var w := ops[..i] + [m];
    if i == 0 {
      assert w == [m] && w[1..] == [];
      assert Harmless(st, text, m) by { AnyMessage(st, text, m); }
    } else {
      assert w[0] == ops[0] && w[1..] == ops[1..][..i - 1] + [m];
      CleanBegins(Step(st, text, size, ops[0]), text, size, ops[1..], i - 1, m);
    }
  }

  lemma AnyMessage(st: Store, text: Tag -> string, op: Op)
    requires op.Message?
    ensures Harmless(st, text, op)
  {}

  // Does a new log print in a run what the levels alone say?
  predicate Right(text: Tag -> string, size: nat, ops: seq<Op>)
    requires 0 < size
  {
    PrintedBy(EMPTY, text, size, ops) == Printed(UNSET, text, ops)
  }

  // From a new log on: a run is clean exactly if, at every moment of it, every message fares as the levels alone say.
  lemma CleanExactly(text: Tag -> string, size: nat, ops: seq<Op>)
    requires size % 2 == 1
    ensures Clean(EMPTY, text, size, ops) <==>
      forall i, m: Op :: 0 <= i <= |ops| && m.Message? ==> Right(text, size, ops[..i] + [m])
  {
    EmptyInv(size);
    assert Agrees(EMPTY, text) && Matches(EMPTY, UNSET);
    hide Clean, PrintedBy, Printed, Inv, Agrees, Matches;
    if Clean(EMPTY, text, size, ops) {
      forall i, m: Op | 0 <= i <= |ops| && m.Message? ensures Right(text, size, ops[..i] + [m])
      {
        CleanBegins(EMPTY, text, size, ops, i, m);
        CleanPrints(EMPTY, UNSET, text, size, [], ops[..i] + [m]);
      }
    } else {
      var i, m := NotCleanMisprints(EMPTY, UNSET, text, size, [], ops);
      assert !Right(text, size, ops[..i] + [m]);
    }
  }

  // ---------- what the run itself tells ----------

  predicate Once(tags: seq<Tag>, text: Tag -> string, name: string) {
    forall j, k :: 0 <= j < k < |tags| ==> text(tags[j]) != name || text(tags[k]) != name
  }

  // The same condition read off the levels and the messages, without a cache.
  predicate CleanByHistory(l: Settings, text: Tag -> string, size: nat, history: seq<Tag>, ops: seq<Op>)
    requires 0 < size
    decreases |ops|
  {
    ops == [] ||
    (&& (ops[0].Set? && ops[0].name != WILDCARD && ops[0].level != Of(l, ops[0].name) ==>
          Once(Order(history, size), text, ops[0].name))
     && CleanByHistory(Apply(l, ops[0]), text, size, Since(history, ops[0]), ops[1..]))
  }

  lemma OnceCached(s: seq<Entry>, order: seq<Tag>, text: Tag -> string, name: string)
    requires Ranked(s, order) && DistinctTags(s)
    ensures AtMostOnce(s, text, name) <==> Once(order, text, name)
  {
    hide Ranked;
    RankedUnique(s, order);
    if !AtMostOnce(s, text, name) {
      var j, k :| 0 <= j < k < |s| && text(s[j].tag) == name && text(s[k].tag) == name;
      var p, q := Pos(order, s[j].tag), Pos(order, s[k].tag);
      assert order[p] != order[q];
    }
    if !Once(order, text, name) {
      var j, k :| 0 <= j < k < |order| && text(order[j]) == name && text(order[k]) == name;
      assert Holds(s, order[j]) && Holds(s, order[k]);
      var p :| 0 <= p < |s| && s[p].tag == order[j];
      var q :| 0 <= q < |s| && s[q].tag == order[k];
      assert order[j] != order[k];
    }
  }

  lemma HarmlessByHistory(st: Store, l: Settings, text: Tag -> string, size: nat, history: seq<Tag>, op: Op)
    requires Inv(st, size, history) && Matches(st, l) && st.stamps <= 0x2000_0000
    ensures Harmless(st, text, op) <==>
      (op.Set? && op.name != WILDCARD && op.level != Of(l, op.name) ==> Once(Order(history, size), text, op.name))
  {
    hide Ranked, DistinctTags, Fresh, Order, AtMostOnce, Once;
    if op.Set? { OnceCached(st.cache, Order(history, size), text, op.name); }
  }

  lemma StampsGrow(st: Store, text: Tag -> string, size: nat, op: Op)
    requires |st.cache| <= size && 0 < size
    ensures Step(st, text, size, op).stamps <= st.stamps + 1
  {}

  // They are the same as long as the stamps do not wrap.
  lemma {:induction false} HistoryTells(
      st: Store, l: Settings, text: Tag -> string, size: nat, history: seq<Tag>, ops: seq<Op>)
    requires Inv(st, size, history) && Matches(st, l) && st.stamps + |ops| <= 0x2000_0000
    ensures |st.cache| <= size && 0 < size
    ensures Clean(st, text, size, ops) <==> CleanByHistory(l, text, size, history, ops)
    decreases |ops|
  {
    InvSize(st, size, history);
    hide Inv, Matches, Step, Harmless, Once, Order, Apply;
    if ops != [] {
      HarmlessByHistory(st, l, text, size, history, ops[0]);
      StepInv(st, text, size, history, ops[0]);
      StepMatches(st, l, text, size, ops[0]);
      StampsGrow(st, text, size, ops[0]);
      HistoryTells(Step(st, text, size, ops[0]), Apply(l, ops[0]), text, size, Since(history, ops[0]), ops[1..]);
    }
  }

  // Does every text that messages are written with have one address?
  predicate Interned(text: Tag -> string, ops: seq<Op>) {
    forall i, j :: 0 <= i < |ops| && 0 <= j < |ops| && ops[i].Message? && ops[j].Message? ==>
      (text(ops[i].tag) == text(ops[j].tag) ==> ops[i].tag == ops[j].tag)
  }

  predicate CachedIn(s: seq<Entry>, ops: seq<Op>, n: nat)
    requires n <= |ops|
  {
    forall k :: 0 <= k < |s| ==> exists i :: 0 <= i < n && ops[i].Message? && ops[i].tag == s[k].tag
  }

  lemma StepCachedIn(st: Store, text: Tag -> string, size: nat, ops: seq<Op>, n: nat)
    requires n < |ops| && CachedIn(st.cache, ops, n) && |st.cache| <= size && 0 < size && DistinctTags(st.cache)
    ensures CachedIn(Step(st, text, size, ops[n]).cache, ops, n + 1)
  {
    match ops[n] {
      case Set(name, level) =>
        UpdateFirstKeeps(st.cache, text, name, level, 0);
      case Message(_, tag) =>
        var level, stamp := LevelFor(st, text, tag), Stamp(st.stamps);
        var t := Touched(st.cache, |st.cache| == size, tag, level, stamp);
        SettledKeeps(st.cache, size, tag, level, stamp);
        assert CachedIn(t, ops, n + 1) by { assert ops[n].tag == tag; }
        hide Settled, Touched, DistinctTags;
        SameEntries(t, Settled(st.cache, size, tag, level, stamp));
    }
  }

  // Then the run is clean, however many stamps it takes.
  lemma {:induction false} InternedIsClean(
      st: Store, text: Tag -> string, size: nat, history: seq<Tag>, ops: seq<Op>, n: nat)
    requires n <= |ops| && Inv(st, size, history) && Interned(text, ops) && CachedIn(st.cache, ops, n)
    ensures |st.cache| <= size && 0 < size && Clean(st, text, size, ops[n..])
    decreases |ops| - n
  {
    InvSize(st, size, history);
    if n < |ops| {
      assert ops[n..][0] == ops[n] && ops[n..][1..] == ops[n + 1..];
      StepCachedIn(st, text, size, ops, n);
      assert Harmless(st, text, ops[n]) by { InternedHarmless(st, text, ops, n); }
      hide Inv, Step, Harmless, Interned, CachedIn;
      StepInv(st, text, size, history, ops[n]);
      InternedIsClean(Step(st, text, size, ops[n]), text, size, Since(history, ops[n]), ops, n + 1);
    }
  }

  lemma InternedHarmless(st: Store, text: Tag -> string, ops: seq<Op>, n: nat)
    requires n < |ops| && Interned(text, ops) && CachedIn(st.cache, ops, n) && DistinctTags(st.cache)
    ensures Harmless(st, text, ops[n])
  {
    if ops[n].Set? { assert AtMostOnce(st.cache, text, ops[n].name); }
  }

  // ---------- the log itself ----------

  // A new log on which the run is made.
  method Replay(text: Tag -> string, size: nat, ops: seq<Op>) returns (printed: seq<bool>)
    requires size % 2 == 1
    ensures printed == PrintedBy(EMPTY, text, size, ops)
    ensures Clean(EMPTY, text, size, ops) ==> printed == Printed(UNSET, text, ops)
    ensures Interned(text, ops) ==> printed == Printed(UNSET, text, ops)
  {
    hide PrintedBy, Printed, Clean, Inv, Wrote, SetTo, Prints;
    var log := new Log(text, size);
    printed := [];
    for i := 0 to |ops|
      invariant fresh(log) && fresh(log.cache) && log.Valid() && log.text == text && log.cache.Length == size
      invariant |log.Now().cache| <= size
      invariant PrintedBy(EMPTY, text, size, ops) == printed + PrintedBy(log.Now(), text, size, ops[i..])
    {
      PrintedByUnfold(log.Now(), text, size, ops[i..]);
      assert ops[i..][1..] == ops[i + 1..];
      match ops[i] {
        case Set(name, level) => log.SetLevel(name, level);
        case Message(level, tag) =>
          var output := log.Write(level, tag);
          printed := printed + [output];
      }
    }
    PrintedByUnfold(log.Now(), text, size, ops[|ops|..]);
    RunsRight(text, size, ops);
  }

  lemma RunsRight(text: Tag -> string, size: nat, ops: seq<Op>)
    requires size % 2 == 1
    ensures Clean(EMPTY, text, size, ops) || Interned(text, ops) ==>
      Right(text, size, ops)
  {
    EmptyInv(size);
    assert Agrees(EMPTY, text) && Matches(EMPTY, UNSET) && CachedIn(EMPTY.cache, ops, 0) && ops[0..] == ops;
    hide Clean, PrintedBy, Printed, Inv, Agrees, Matches, Interned, CachedIn;
    if Interned(text, ops) { InternedIsClean(EMPTY, text, size, [], ops, 0); }
    if Clean(EMPTY, text, size, ops) { CleanPrints(EMPTY, UNSET, text, size, [], ops); }
  }

  lemma PrintedByUnfold(st: Store, text: Tag -> string, size: nat, ops: seq<Op>)
    requires |st.cache| <= size && 0 < size
    ensures ops == [] ==> PrintedBy(st, text, size, ops) == []
    ensures ops != [] ==>
      var first := if ops[0].Message? then [Prints(st, text, ops[0].level, ops[0].tag)] else [];
      PrintedBy(st, text, size, ops) == first + PrintedBy(Step(st, text, size, ops[0]), text, size, ops[1..])
  {}
}
