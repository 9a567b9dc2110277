/** The per-tag log levels of iotx_log_api.c: a list of the levels that were set, and in front of it
    a small cache that is also a min-heap on stamps. Messages give out stamps, but a hit gives none
    until the cache is full (see CacheOrder). */
module LogCache {
  import opened CacheOrder

  type Level = x: nat | x <= 5
  type Generation = x: nat | x < 0x2000_0000
  type Counter = x: nat | x < 0x1_0000_0000

  datatype Entry = Entry(tag: Tag, level: Level, generation: Generation)

  datatype TagLevel = TagLevel(name: string, level: Level)

  const WILDCARD := "*"

  // The level in force for a name: its entry in the list, or the default.
  function LevelIn(list: seq<TagLevel>, default: Level, name: string): Level {
    if list == [] then default
    else if list[0].name == name then list[0].level
    else LevelIn(list[1..], default, name)
  }

  function Levels(list: seq<TagLevel>, default: Level): string -> Level {
    name => LevelIn(list, default, name)
  }

  // ---------- the heap ----------

  predicate Above(s: seq<Entry>, i: nat)
    requires i < |s|
  {
    && (2 * i + 1 < |s| ==> s[i].generation < s[2 * i + 1].generation)
    && (2 * i + 2 < |s| ==> s[i].generation < s[2 * i + 2].generation)
  }

  predicate Heap(s: seq<Entry>) { forall i :: 0 <= i < |s| ==> Above(s, i) }

  predicate DistinctStamps(s: seq<Entry>) {
    forall i, j :: 0 <= i < j < |s| ==> s[i].generation != s[j].generation
  }

  predicate DistinctTags(s: seq<Entry>) {
    forall i, j :: 0 <= i < j < |s| ==> s[i].tag != s[j].tag
  }

  // A heap but for the entry at hole, which is the newest and may stand too high.
  predicate AlmostHeap(s: seq<Entry>, hole: nat) {
    && hole < |s| && DistinctStamps(s)
    && (forall i :: 0 <= i < |s| && i != hole ==> Above(s, i))
    && (forall i :: 0 <= i < |s| ==> s[i].generation <= s[hole].generation)
    && (hole > 0 ==> Under(s, (hole - 1) / 2, hole))
  }

  // The children of hole are newer than p.
  predicate Under(s: seq<Entry>, p: nat, hole: nat)
    requires p < |s|
  {
    && (2 * hole + 1 < |s| ==> s[p].generation < s[2 * hole + 1].generation)
    && (2 * hole + 2 < |s| ==> s[p].generation < s[2 * hole + 2].generation)
  }

  function Swap(s: seq<Entry>, i: nat, j: nat): (r: seq<Entry>)
    requires i < |s| && j < |s|
    ensures |r| == |s|
  {
    s[i := s[j]][j := s[i]]
  }

  lemma SwapDistinct(s: seq<Entry>, i: nat, j: nat)
    requires i < |s| && j < |s|
    ensures DistinctStamps(s) ==> DistinctStamps(Swap(s, i, j))
    ensures DistinctTags(s) ==> DistinctTags(Swap(s, i, j))
    ensures multiset(Swap(s, i, j)) == multiset(s)
  {
    SwapStamps(s, i, j);
    SwapTags(s, i, j);
  }

  lemma SwapStamps(s: seq<Entry>, i: nat, j: nat)
    requires i < |s| && j < |s|
    ensures DistinctStamps(s) ==> DistinctStamps(Swap(s, i, j))
  {}

  lemma SwapTags(s: seq<Entry>, i: nat, j: nat)
    requires i < |s| && j < |s|
    ensures DistinctTags(s) ==> DistinctTags(Swap(s, i, j))
  {}

  // One step of the way down.
  lemma SwapDown(s: seq<Entry>, hole: nat, next: nat)
    requires AlmostHeap(s, hole) && 2 * hole + 2 < |s|
    requires next == if s[2 * hole + 1].generation < s[2 * hole + 2].generation then 2 * hole + 1 else 2 * hole + 2
    ensures AlmostHeap(Swap(s, hole, next), next)
  {
    var r := Swap(s, hole, next);
    SwapDistinct(s, hole, next);
    assert s[2 * hole + 1].generation != s[2 * hole + 2].generation && s[next].generation != s[hole].generation;
    hide DistinctStamps;
    assert (next - 1) / 2 == hole && Above(s, next);
    hide Above;
    forall i | 0 <= i < |r| && i != next ensures Above(r, i) {
      SwapAbove(s, hole, next, i);
    }
    AboveIsUnder(s, r, hole, next);
  }

  lemma SwapAbove(s: seq<Entry>, hole: nat, next: nat, i: nat)
    requires 2 * hole + 2 < |s| && next < |s| && i < |s| && i != next && (i != hole ==> Above(s, i))
    requires hole > 0 ==> Under(s, (hole - 1) / 2, hole)
    requires s[next].generation < s[hole].generation
    requires next == if s[2 * hole + 1].generation < s[2 * hole + 2].generation then 2 * hole + 1 else 2 * hole + 2
    requires s[2 * hole + 1].generation != s[2 * hole + 2].generation
    ensures Above(Swap(s, hole, next), i)
  {
    if 2 * i + 1 == hole || 2 * i + 2 == hole { assert i == (hole - 1) / 2; }
  }

  lemma AboveIsUnder(s: seq<Entry>, r: seq<Entry>, hole: nat, next: nat)
    requires hole < next < |s| && r == Swap(s, hole, next) && Above(s, next)
    ensures Under(r, hole, next)
  {}

  lemma {:induction false} RootIsOldest(s: seq<Entry>, i: nat)
    requires Heap(s) && i < |s|
    ensures s[0].generation <= s[i].generation
    ensures i > 0 ==> s[0].generation < s[i].generation
  {
    if i > 0 {
      var p := (i - 1) / 2;
      assert Above(s, p) && (i == 2 * p + 1 || i == 2 * p + 2);
      RootIsOldest(s, p);
    }
  }

  // An entry with a newer stamp than all can stand anywhere.
  lemma Restamped(s: seq<Entry>, i: nat, e: Entry)
    requires Heap(s) && DistinctStamps(s) && i < |s|
    requires forall k :: 0 <= k < |s| ==> s[k].generation < e.generation
    ensures AlmostHeap(s[i := e], i)
  {
    var r := s[i := e];
    assert Above(s, i);
    if i > 0 {
      var p := (i - 1) / 2;
      assert Above(s, p) && (i == 2 * p + 1 || i == 2 * p + 2);
    }
    assert DistinctStamps(r) by { hide Above, Heap; }
    hide DistinctStamps;
    forall k | 0 <= k < |r| && k != i ensures Above(r, k) {
      assert Above(s, k);
      StillAbove(s, k, i, e);
    }
  }

  lemma StillAbove(s: seq<Entry>, k: nat, i: nat, e: Entry)
    requires i < |s| && k < |s| && k != i && Above(s, k) && s[k].generation < e.generation
    ensures Above(s[i := e], k)
  {}

  // While the cache fills, entries come with growing stamps.
  lemma Appended(s: seq<Entry>, e: Entry)
    requires Heap(s) && DistinctStamps(s)
    requires forall k :: 0 <= k < |s| ==> s[k].generation < e.generation
    ensures Heap(s + [e]) && DistinctStamps(s + [e])
  {
    var r := s + [e];
    forall k | 0 <= k < |r| ensures Above(r, k) {
      if k < |s| { assert Above(s, k); }
    }
  }

  // ---------- setting a level ----------

  // What molmc_log_level_set does to the cached entries: the first of that name is updated.
  function UpdateFirst(s: seq<Entry>, text: Tag -> string, name: string, level: Level): (r: seq<Entry>)
    ensures |r| == |s|
  {
    if s == [] then []
    else if text(s[0].tag) == name then [s[0].(level := level)] + s[1..]
    else [s[0]] + UpdateFirst(s[1..], text, name, level)
  }

  lemma {:induction false} UpdateFirstAt(s: seq<Entry>, text: Tag -> string, name: string, level: Level, k: nat)
    requires k < |s|
    ensures var r := UpdateFirst(s, text, name, level);
      && r[k] == (if text(s[k].tag) == name && (forall j :: 0 <= j < k ==> text(s[j].tag) != name)
                  then s[k].(level := level) else s[k])
  {
    if k > 0 {
      UpdateFirstAt(s[1..], text, name, level, k - 1);
      assert forall j :: 0 < j < k ==> s[j] == s[1..][j - 1];
      assert forall j :: 0 <= j < k - 1 ==> s[1..][j] == s[j + 1];
    }
  }

  // Do the cached levels agree with levels given by name?
  ghost predicate Agree(s: seq<Entry>, text: Tag -> string, levels: string -> Level) {
    forall k :: 0 <= k < |s| ==> s[k].level == levels(text(s[k].tag))
  }

  predicate AtMostOnce(s: seq<Entry>, text: Tag -> string, name: string) {
    forall j, k :: 0 <= j < k < |s| ==> text(s[j].tag) != name || text(s[k].tag) != name
  }

  // Setting a level keeps the cache in agreement exactly when it changes nothing, or no two cached
  // tags have that text: with two addresses for one text the second entry stays behind.
  lemma SetKeepsAgreement(s: seq<Entry>, text: Tag -> string, levels: string -> Level, name: string, level: Level)
    requires Agree(s, text, levels)
    ensures Agree(UpdateFirst(s, text, name, level), text, n => if n == name then level else levels(n))
      <==> level == levels(name) || AtMostOnce(s, text, name)
  {
    hide UpdateFirst;
    var r := UpdateFirst(s, text, name, level);
    forall k | 0 <= k < |s|
      ensures r[k] == if text(s[k].tag) == name && (forall j :: 0 <= j < k ==> text(s[j].tag) != name)
        then s[k].(level := level) else s[k]
    {
      UpdateFirstAt(s, text, name, level, k);
    }
    if level != levels(name) && !AtMostOnce(s, text, name) {
      var j, k :| 0 <= j < k < |s| && text(s[j].tag) == name && text(s[k].tag) == name;
      assert r[k].level == levels(name);
    }
  }

  // ---------- the log ----------

  function FindTag(s: seq<Entry>, tag: Tag): (k: nat)
    ensures k <= |s| && forall j :: 0 <= j < k ==> s[j].tag != tag
    ensures k < |s| ==> s[k].tag == tag
  {
    if s == [] || s[0].tag == tag then 0 else 1 + FindTag(s[1..], tag)
  }

  // What a message with a tag does to the cache, the order of the entries aside: a hit renews the
  // stamp, but only in a full cache; a miss adds an entry, and when full it replaces the root.
  function Touched(s: seq<Entry>, full: bool, tag: Tag, level: Level, stamp: Generation): seq<Entry>
    requires full ==> s != []
  {
    var k, e := FindTag(s, tag), Entry(tag, level, stamp);
    if k < |s| then (if full then s[k := s[k].(generation := stamp)] else s)
    else if full then s[0 := e]
    else s + [e]
  }

  ghost predicate Rearranged(s: seq<Entry>, r: seq<Entry>) { multiset(s) == multiset(r) }

  // Stamps below 2^29 are distinct, heap-ordered and in the past.
  predicate Fresh(s: seq<Entry>, stamps: nat) {
    Heap(s) && DistinctStamps(s) && forall k :: 0 <= k < |s| ==> s[k].generation < stamps
  }

  lemma FreshAnyOrder(s: seq<Entry>, r: seq<Entry>, stamps: nat)
    requires multiset(s) == multiset(r) && forall k :: 0 <= k < |s| ==> s[k].generation < stamps
    requires Heap(r) && DistinctStamps(r)
    ensures Fresh(r, stamps)
  {
    hide Heap, DistinctStamps;
    SameEntries(s, r);
  }

  // ---------- the order of the stamps ----------

  predicate Holds(s: seq<Entry>, t: Tag) { exists k :: 0 <= k < |s| && s[k].tag == t }

  predicate SameTags(s: seq<Entry>, order: seq<Tag>) {
    && |s| == |order| && Unique(order)
    && (forall k :: 0 <= k < |s| ==> s[k].tag in order)
    && (forall j :: 0 <= j < |order| ==> Holds(s, order[j]))
  }

  predicate Before(order: seq<Tag>, a: Entry, b: Entry)
    requires a.tag in order && b.tag in order
  {
    a.generation < b.generation ==> Pos(order, a.tag) < Pos(order, b.tag)
  }

  // Are the tags of the entries, from the oldest stamp to the newest, those of order?
  predicate Ranked(s: seq<Entry>, order: seq<Tag>) {
    SameTags(s, order) && forall j, k :: 0 <= j < |s| && 0 <= k < |s| ==> Before(order, s[j], s[k])
  }

  lemma RankedAlike(s: seq<Entry>, r: seq<Entry>, order: seq<Tag>)
    requires Ranked(s, order) && |r| == |s|
    requires forall k :: 0 <= k < |s| ==> r[k].tag == s[k].tag && r[k].generation == s[k].generation
    ensures Ranked(r, order)
  {
    forall j | 0 <= j < |order| ensures Holds(r, order[j]) {
      var k :| 0 <= k < |s| && s[k].tag == order[j] by { assert Holds(s, order[j]); }
      assert r[k].tag == order[j];
    }
    forall j, k | 0 <= j < |r| && 0 <= k < |r| ensures Before(order, r[j], r[k]) {
      assert Before(order, s[j], s[k]);
    }
  }

  lemma RankedAnyOrder(s: seq<Entry>, r: seq<Entry>, order: seq<Tag>)
    requires Ranked(s, order) && multiset(s) == multiset(r)
    ensures Ranked(r, order)
  {
    SameEntries(s, r);
    SameEntries(r, s);
    forall j | 0 <= j < |order| ensures Holds(r, order[j]) {
      var k :| 0 <= k < |s| && s[k].tag == order[j];
      assert s[k] in r;
    }
  }

  lemma RootIsFirst(s: seq<Entry>, order: seq<Tag>)
    requires Ranked(s, order) && Heap(s) && s != []
    ensures order[0] == s[0].tag
  {
    var k :| 0 <= k < |s| && s[k].tag == order[0] by { assert Holds(s, order[0]); }
    RootIsOldest(s, k);
    assert Pos(order, order[0]) == 0;
  }

  lemma PosAppended(order: seq<Tag>, t: Tag, u: Tag)
    requires Unique(order) && t !in order && (u in order || u == t)
    ensures Unique(order + [t]) && u in order + [t]
    ensures Pos(order + [t], u) == if u == t then |order| else Pos(order, u)
  {
    var after := order + [t];
    assert Unique(after);
    PosIs(after, if u == t then |order| else Pos(order, u));
  }

  lemma RankedAppended(s: seq<Entry>, order: seq<Tag>, e: Entry)
    requires Ranked(s, order) && e.tag !in order
    requires forall k :: 0 <= k < |s| ==> s[k].generation < e.generation
    ensures Ranked(s + [e], order + [e.tag])
  {
    hide Unique, Pos, Holds;
    var r, after := s + [e], order + [e.tag];
    forall k | 0 <= k < |r| ensures r[k].tag in after { PosAppended(order, e.tag, r[k].tag); }
    forall j | 0 <= j < |after| ensures Holds(r, after[j]) { StillHolds(s, e, order, j); }
    assert Unique(after) by { PosAppended(order, e.tag, e.tag); }
    forall j, k | 0 <= j < |r| && 0 <= k < |r| ensures Before(after, r[j], r[k]) {
      PosAppended(order, e.tag, r[j].tag);
      PosAppended(order, e.tag, r[k].tag);
      if j < |s| && k < |s| { assert Before(order, s[j], s[k]); }
    }
  }

  lemma StillHolds(s: seq<Entry>, e: Entry, order: seq<Tag>, j: nat)
    requires j <= |order| && (j < |order| ==> Holds(s, order[j]))
    ensures Holds(s + [e], (order + [e.tag])[j])
  {
    var k :| 0 <= k <= |s| && (s + [e])[k].tag == (order + [e.tag])[j] by {
      assert (s + [e])[|s|] == e;
      assert forall k :: 0 <= k < |s| ==> (s + [e])[k] == s[k];
    }
  }

  // Taking an entry out takes its tag out of the order.
  lemma RankedWithout(s: seq<Entry>, order: seq<Tag>, i: nat)
    requires Ranked(s, order) && DistinctTags(s) && i < |s|
    ensures Ranked(s[..i] + s[i + 1..], Without(order, s[i].tag))
  {
    hide Unique, Pos, Holds, Without;
    var r, rest := s[..i] + s[i + 1..], Without(order, s[i].tag);
    WithoutHas(order, s[i].tag);
    forall k | 0 <= k < |r| ensures r[k].tag in rest { WithoutAt(order, s[i].tag, r[k].tag); }
    forall j | 0 <= j < |rest| ensures Holds(r, rest[j]) { HoldsElsewhere(s, i, rest[j], order); }
    assert SameTags(r, rest);
    forall j, k | 0 <= j < |r| && 0 <= k < |r| ensures Before(rest, r[j], r[k]) {
      assert Before(order, r[j], r[k]);
      WithoutAt(order, s[i].tag, r[j].tag);
      WithoutAt(order, s[i].tag, r[k].tag);
    }
  }

  lemma HoldsElsewhere(s: seq<Entry>, i: nat, t: Tag, order: seq<Tag>)
    requires SameTags(s, order) && i < |s| && t in order && t != s[i].tag
    ensures Holds(s[..i] + s[i + 1..], t)
  {
    var j :| 0 <= j < |order| && order[j] == t;
    assert Holds(s, order[j]);
    var k :| 0 <= k < |s| && s[k].tag == t;
    assert (s[..i] + s[i + 1..])[if k < i then k else k - 1].tag == t;
  }

  lemma ReplacedMoves(s: seq<Entry>, i: nat, e: Entry)
    requires i < |s|
    ensures multiset(s[..i] + s[i + 1..] + [e]) == multiset(s[i := e])
  {
    assert s[i := e] == s[..i] + [e] + s[i + 1..];
  }

  lemma RankedReplaced(s: seq<Entry>, order: seq<Tag>, i: nat, e: Entry)
    requires Ranked(s, order) && DistinctTags(s) && i < |s| && (e.tag == s[i].tag || e.tag !in order)
    requires forall k :: 0 <= k < |s| ==> s[k].generation < e.generation
    ensures Ranked(s[i := e], Without(order, s[i].tag) + [e.tag])
  {
    hide Ranked, Unique, DistinctTags;
    var rest := s[..i] + s[i + 1..];
    RankedWithout(s, order, i);
    assert Unique(order) by { RankedUnique(s, order); }
    WithoutHas(order, s[i].tag);
    hide Without;
    assert forall k :: 0 <= k < |rest| ==> rest[k] in s;
    RankedAppended(rest, Without(order, s[i].tag), e);
    ReplacedMoves(s, i, e);
    RankedAnyOrder(rest + [e], s[i := e], Without(order, s[i].tag) + [e.tag]);
  }

  lemma RankedUnique(s: seq<Entry>, order: seq<Tag>)
    requires Ranked(s, order)
    ensures Unique(order) && |s| == |order| && forall k :: 0 <= k < |s| ==> s[k].tag in order
    ensures forall t :: t in order <==> Holds(s, t)
  {}

  // The cache moves as its order does.
  lemma RankedTouched(s: seq<Entry>, order: seq<Tag>, size: nat, tag: Tag, level: Level, stamp: Generation)
    requires Ranked(s, order) && DistinctTags(s) && 0 < size && |s| <= size
    requires Fresh(s, stamp) || FindTag(s, tag) < |s| < size
    ensures Ranked(Touched(s, |s| == size, tag, level, stamp), Touch(order, size, tag))
  {
    var k := FindTag(s, tag);
    RankedUnique(s, order);
    hide Ranked, DistinctTags, Unique, Without, Pos;
    assert tag in order <==> k < |s|;
    if k < |s| {
      if |s| == size { RankedReplaced(s, order, k, s[k].(generation := stamp)); }
    } else if |s| == size {
      RootIsFirst(s, order);
      RankedReplaced(s, order, 0, Entry(tag, level, stamp));
      assert Without(order, order[0]) == order[1..] by { WithoutFirst(order); }
    } else {
      RankedAppended(s, order, Entry(tag, level, stamp));
    }
  }

  // The same for what a message with a tag does when stamps have been given out so far.
  lemma RankedWrite(s: seq<Entry>, r: seq<Entry>, past: seq<Tag>, size: nat, tag: Tag, level: Level, stamps: nat)
    requires DistinctTags(s) && 0 < size && |s| <= size
    requires stamps <= 0x2000_0000 ==> Fresh(s, stamps) && Ranked(s, Order(past, size))
    requires Rearranged(r, Touched(s, |s| == size, tag, level, Stamp(stamps)))
    ensures (if FindTag(s, tag) < |s| < size then stamps else stamps + 1) <= 0x2000_0000 ==>
      Ranked(r, Order(past + [tag], size))
  {
    hide Ranked, DistinctTags, Fresh, Touched, Touch, Order;
    if stamps < 0x2000_0000 || (stamps == 0x2000_0000 && FindTag(s, tag) < |s| < size) {
      OrderStep(past, size, tag);
      if stamps < 0x2000_0000 { assert Fresh(s, Stamp(stamps)); }
      RankedTouched(s, Order(past, size), size, tag, level, Stamp(stamps));
      RankedAnyOrder(Touched(s, |s| == size, tag, level, Stamp(stamps)), r, Touch(Order(past, size), size, tag));
    }
  }

  lemma WithoutFirst(order: seq<Tag>)
    requires order != []
    ensures Without(order, order[0]) == order[1..]
  {}

  function Stamp(stamps: nat): Generation { stamps % 0x2000_0000 }

  function Wrapped(stamps: nat): Counter { stamps % 0x1_0000_0000 }

  lemma StampOfCounter(stamps: nat)
    ensures Wrapped(stamps) % 0x2000_0000 == Stamp(stamps)
    ensures (Wrapped(stamps) + 1) % 0x1_0000_0000 == Wrapped(stamps + 1)
    ensures stamps < 0x2000_0000 ==> Stamp(stamps) == stamps
  {
    assert stamps == stamps / 0x1_0000_0000 * 8 * 0x2000_0000 + Wrapped(stamps);
  }

  lemma {:induction false} LevelInUpdate(list: seq<TagLevel>, default: Level, i: nat, level: Level, n: string)
    requires i < |list| && forall j :: 0 <= j < i ==> list[j].name != list[i].name
    ensures LevelIn(list[i := list[i].(level := level)], default, n)
      == if n == list[i].name then level else LevelIn(list, default, n)
  {
    var r := list[i := list[i].(level := level)];
    if i == 0 {
      assert r[1..] == list[1..];
    } else {
      assert r[1..] == list[1..][i - 1 := list[i].(level := level)];
      assert forall j :: 0 <= j < i - 1 ==> list[1..][j] == list[j + 1];
      LevelInUpdate(list[1..], default, i - 1, level, n);
    }
  }

  lemma LevelInNew(list: seq<TagLevel>, default: Level, name: string, level: Level, n: string)
    ensures LevelIn([TagLevel(name, level)] + list, default, n) == if n == name then level else LevelIn(list, default, n)
  {
    assert ([TagLevel(name, level)] + list)[1..] == list;
  }

  // Only levels change.
  lemma UpdateFirstKeeps(s: seq<Entry>, text: Tag -> string, name: string, level: Level, stamps: nat)
    ensures var r := UpdateFirst(s, text, name, level);
      && (forall k :: 0 <= k < |s| ==> r[k].tag == s[k].tag && r[k].generation == s[k].generation)
      && (DistinctTags(s) ==> DistinctTags(r)) && (Fresh(s, stamps) ==> Fresh(r, stamps))
  {
    hide UpdateFirst;
    var r := UpdateFirst(s, text, name, level);
    forall k | 0 <= k < |s| ensures r[k].tag == s[k].tag && r[k].generation == s[k].generation {
      UpdateFirstAt(s, text, name, level, k);
    }
    if Fresh(s, stamps) {
      forall k | 0 <= k < |s| ensures Above(r, k) { assert Above(s, k); }
    }
  }

  lemma UpdateFirstIs(s: seq<Entry>, text: Tag -> string, name: string, level: Level, i: nat)
    requires i <= |s| && forall j :: 0 <= j < i ==> text(s[j].tag) != name
    requires i < |s| ==> text(s[i].tag) == name
    ensures UpdateFirst(s, text, name, level) == if i < |s| then s[i := s[i].(level := level)] else s
  {
    hide UpdateFirst;
    forall k | 0 <= k < |s|
      ensures UpdateFirst(s, text, name, level)[k] == if k == i then s[k].(level := level) else s[k]
    {
      UpdateFirstAt(s, text, name, level, k);
    }
  }

  lemma SameEntries(s: seq<Entry>, r: seq<Entry>)
    requires multiset(s) == multiset(r)
    ensures |s| == |r| && forall k :: 0 <= k < |r| ==> r[k] in s
  {
    assert |multiset(s)| == |multiset(r)|;
    forall k | 0 <= k < |r| ensures r[k] in s {
      assert r[k] in multiset(r);
    }
  }

  // ---------- what a message and a setting do ----------

  // The smaller child, the right one when they are equal.
  function Smaller(s: seq<Entry>, i: nat): (next: nat)
    requires 2 * i + 2 < |s|
    ensures i < next < |s|
  {
    if s[2 * i + 1].generation < s[2 * i + 2].generation then 2 * i + 1 else 2 * i + 2
  }

  // An entry goes down to a leaf.
  function Sink(s: seq<Entry>, i: nat): (r: seq<Entry>)
    requires i < |s|
    ensures |r| == |s|
    decreases |s| - i
  {
    if 2 * i + 2 < |s| then Sink(Swap(s, i, Smaller(s, i)), Smaller(s, i)) else s
  }

  // It loses no entry, and if it was the newest and only misplaced one, there is a heap afterwards.
  lemma {:induction false} SinkKeeps(s: seq<Entry>, i: nat)
    requires i < |s|
    ensures multiset(Sink(s, i)) == multiset(s) && (DistinctTags(s) ==> DistinctTags(Sink(s, i)))
    ensures |s| % 2 == 1 && AlmostHeap(s, i) ==> Heap(Sink(s, i)) && DistinctStamps(Sink(s, i))
    decreases |s| - i
  {
    hide AlmostHeap, DistinctTags, DistinctStamps, Swap;
    if 2 * i + 2 < |s| {
      var next := Smaller(s, i);
      SwapDistinct(s, i, next);
      if AlmostHeap(s, i) { SwapDown(s, i, next); }
      SinkKeeps(Swap(s, i, next), next);
    } else if |s| % 2 == 1 && AlmostHeap(s, i) {
      NoChildren(s, i);
    }
  }

  lemma NoChildren(s: seq<Entry>, hole: nat)
    requires AlmostHeap(s, hole) && |s| <= 2 * hole + 2 && |s| % 2 == 1
    ensures Heap(s) && DistinctStamps(s)
  {
    assert Above(s, hole);
  }

  // The cache after a message, in the order of the array.
  function Settled(s: seq<Entry>, size: nat, tag: Tag, level: Level, stamp: Generation): (r: seq<Entry>)
    requires |s| <= size && 0 < size
    ensures |s| <= |r| <= size
  {
    var k, e := FindTag(s, tag), Entry(tag, level, stamp);
    if k < |s| then (if |s| == size then Sink(s[k := s[k].(generation := stamp)], k) else s)
    else if |s| == size then Sink(s[0 := e], 0)
    else s + [e]
  }

  lemma SettledKeeps(s: seq<Entry>, size: nat, tag: Tag, level: Level, stamp: Generation)
    requires |s| <= size && 0 < size
    ensures var r := Settled(s, size, tag, level, stamp);
      && Rearranged(r, Touched(s, |s| == size, tag, level, stamp)) && (DistinctTags(s) ==> DistinctTags(r))
  {
    hide DistinctTags, Sink;
    var k, e := FindTag(s, tag), Entry(tag, level, stamp);
    if k == |s| { WithNew(s, e); } else { WithStamp(s, k, stamp); }
    if k < |s| == size { SinkKeeps(s[k := s[k].(generation := stamp)], k); }
    if k == |s| == size { SinkKeeps(s[0 := e], 0); }
  }

  lemma WithNew(s: seq<Entry>, e: Entry)
    requires FindTag(s, e.tag) == |s|
    ensures DistinctTags(s) ==> DistinctTags(s + [e]) && (s != [] ==> DistinctTags(s[0 := e]))
  {}

  lemma WithStamp(s: seq<Entry>, k: nat, stamp: Generation)
    requires k < |s|
    ensures DistinctTags(s) ==> DistinctTags(s[k := s[k].(generation := stamp)])
  {}

  // A new stamp keeps the heap.
  lemma SettledFresh(s: seq<Entry>, size: nat, tag: Tag, level: Level, stamp: Generation)
    requires |s| <= size && size % 2 == 1 && Fresh(s, stamp)
    ensures Fresh(Settled(s, size, tag, level, stamp), stamp + 1)
  {
    hide Sink;
    var k, e := FindTag(s, tag), Entry(tag, level, stamp);
    if |s| < size {
      if k == |s| { Appended(s, e); }
    } else {
      var i, f := if k < |s| then k else 0, if k < |s| then s[k].(generation := stamp) else e;
      Restamped(s, i, f);
      SinkKeeps(s[i := f], i);
      FreshAnyOrder(s[i := f], Sink(s[i := f], i), stamp + 1);
    }
  }

  // The list of levels and the cache; stamps were given out since the last wildcard.
  datatype Store = Store(list: seq<TagLevel>, default: Level, cache: seq<Entry>, stamps: nat)

  const EMPTY := Store([], 0, [], 0)

  // The level a message with the tag is held against, in the cache or else in the list.
  function LevelFor(st: Store, text: Tag -> string, tag: Tag): Level {
    var k := FindTag(st.cache, tag);
    if k < |st.cache| then st.cache[k].level else LevelIn(st.list, st.default, text(tag))
  }

  predicate Prints(st: Store, text: Tag -> string, level: Level, tag: Tag) { level <= LevelFor(st, text, tag) }

  // molmc_log_write
  function Wrote(st: Store, text: Tag -> string, size: nat, tag: Tag): (r: Store)
    requires |st.cache| <= size && 0 < size
    ensures |r.cache| <= size
  {
    var hit := FindTag(st.cache, tag) < |st.cache|;
    st.(cache := Settled(st.cache, size, tag, LevelFor(st, text, tag), Stamp(st.stamps)),
        stamps := if hit && |st.cache| < size then st.stamps else st.stamps + 1)
  }

  function FindName(list: seq<TagLevel>, name: string): (k: nat)
    ensures k <= |list| && forall j :: 0 <= j < k ==> list[j].name != name
    ensures k < |list| ==> list[k].name == name
  {
    if list == [] || list[0].name == name then 0 else 1 + FindName(list[1..], name)
  }

  function ListSet(list: seq<TagLevel>, name: string, level: Level): seq<TagLevel> {
    var k := FindName(list, name);
    if k < |list| then list[k := list[k].(level := level)] else [TagLevel(name, level)] + list
  }

  // molmc_log_level_set
  function SetTo(st: Store, text: Tag -> string, name: string, level: Level): (r: Store)
    ensures |r.cache| <= |st.cache|
  {
    if name == WILDCARD then Store([], level, [], 0)
    else st.(list := ListSet(st.list, name, level), cache := UpdateFirst(st.cache, text, name, level))
  }

  // The wildcard leaves a new log with that default, however much was set and printed before.
  lemma WildcardRenews(st: Store, text: Tag -> string, level: Level)
    ensures SetTo(st, text, "*", level) == EMPTY.(default := level)
  {}

  // Every store of every run: no tag is cached twice; and up to 2^29 stamps the cache is a heap whose
  // tags, from the oldest stamp to the newest, are those that the message history gives.
  predicate Inv(st: Store, size: nat, history: seq<Tag>) {
    && size % 2 == 1 && |st.cache| <= size && DistinctTags(st.cache)
    && (st.stamps <= 0x2000_0000 ==> Fresh(st.cache, st.stamps) && Ranked(st.cache, Order(history, size)))
  }

  lemma EmptyInv(size: nat)
    requires size % 2 == 1
    ensures Inv(EMPTY, size, []) && forall level :: Inv(Store([], level, [], 0), size, [])
  {}

  lemma WroteInv(st: Store, text: Tag -> string, size: nat, history: seq<Tag>, tag: Tag)
    requires Inv(st, size, history)
    ensures Inv(Wrote(st, text, size, tag), size, history + [tag])
  {
    hide DistinctTags, Fresh, Ranked, Order, Settled;
    var level, stamp := LevelFor(st, text, tag), Stamp(st.stamps);
    SettledKeeps(st.cache, size, tag, level, stamp);
    var r := Settled(st.cache, size, tag, level, stamp);
    RankedWrite(st.cache, r, history, size, tag, level, st.stamps);
    if st.stamps < 0x2000_0000 { SettledFresh(st.cache, size, tag, level, stamp); }
    if FindTag(st.cache, tag) < |st.cache| < size { HitWhileRoom(st.cache, size, tag, level, stamp); }
  }

  lemma HitWhileRoom(s: seq<Entry>, size: nat, tag: Tag, level: Level, stamp: Generation)
    requires FindTag(s, tag) < |s| < size
    ensures Settled(s, size, tag, level, stamp) == s
  {}

  lemma SetInv(st: Store, text: Tag -> string, size: nat, history: seq<Tag>, name: string, level: Level)
    requires Inv(st, size, history)
    ensures Inv(SetTo(st, text, name, level), size, if name == WILDCARD then [] else history)
  {
    EmptyInv(size);
    hide DistinctTags, Fresh, Ranked, Order, UpdateFirst;
    UpdateFirstKeeps(st.cache, text, name, level, st.stamps);
    if name != WILDCARD && st.stamps <= 0x2000_0000 {
      RankedAlike(st.cache, UpdateFirst(st.cache, text, name, level), Order(history, size));
    }
  }

  // ---------- cache and list ----------

  // Does the cache hold the levels of the list?
  ghost predicate Agrees(st: Store, text: Tag -> string) { Agree(st.cache, text, Levels(st.list, st.default)) }

  // It does exactly if every message would be printed as the list says.
  lemma AgreesExactly(st: Store, text: Tag -> string)
    requires DistinctTags(st.cache)
    ensures Agrees(st, text) <==> forall tag, level: Level ::
      Prints(st, text, level, tag) <==> level <= LevelIn(st.list, st.default, text(tag))
  {
    if Agrees(st, text) {
      forall tag ensures LevelFor(st, text, tag) == LevelIn(st.list, st.default, text(tag)) {
        assert FindTag(st.cache, tag) < |st.cache| ==> Agree(st.cache, text, Levels(st.list, st.default));
      }
    } else {
      var tag := WrongTag(st, text);
      var level := if LevelFor(st, text, tag) < LevelIn(st.list, st.default, text(tag))
        then LevelIn(st.list, st.default, text(tag)) else LevelFor(st, text, tag);
      assert !(Prints(st, text, level, tag) <==> level <= LevelIn(st.list, st.default, text(tag)));
    }
  }

  lemma WrongTag(st: Store, text: Tag -> string) returns (tag: Tag)
    requires DistinctTags(st.cache) && !Agrees(st, text)
    ensures LevelFor(st, text, tag) != LevelIn(st.list, st.default, text(tag))
  {
    var k :| 0 <= k < |st.cache| && st.cache[k].level != LevelIn(st.list, st.default, text(st.cache[k].tag));
    tag := st.cache[k].tag;
    assert FindTag(st.cache, tag) == k;
  }

  lemma WroteAgrees(st: Store, text: Tag -> string, size: nat, tag: Tag)
    requires |st.cache| <= size && 0 < size && DistinctTags(st.cache) && Agrees(st, text)
    ensures Agrees(Wrote(st, text, size, tag), text)
  {
    var level, stamp := LevelFor(st, text, tag), Stamp(st.stamps);
    var r, t := Settled(st.cache, size, tag, level, stamp), Touched(st.cache, |st.cache| == size, tag, level, stamp);
    assert level == LevelIn(st.list, st.default, text(tag));
    assert Agree(t, text, Levels(st.list, st.default));
    SettledKeeps(st.cache, size, tag, level, stamp);
    hide DistinctTags, Settled, Touched;
    SameEntries(t, r);
  }

  // Setting a level keeps them in agreement exactly under a condition on the tags that are cached.
  lemma SetAgrees(st: Store, text: Tag -> string, name: string, level: Level)
    requires Agrees(st, text)
    ensures Agrees(SetTo(st, text, name, level), text) <==>
      name == WILDCARD || level == LevelIn(st.list, st.default, name) || AtMostOnce(st.cache, text, name)
  {
    hide UpdateFirst, ListSet;
    SetKeepsAgreement(st.cache, text, Levels(st.list, st.default), name, level);
    ListSetIs(st.list, st.default, name, level);
  }

  lemma ListSetIs(list: seq<TagLevel>, default: Level, name: string, level: Level)
    ensures forall n :: LevelIn(ListSet(list, name, level), default, n) == if n == name then level else LevelIn(list, default, n)
  {
    hide LevelIn;
    forall n ensures LevelIn(ListSet(list, name, level), default, n) == if n == name then level else LevelIn(list, default, n) {
      var k := FindName(list, name);
      if k < |list| { LevelInUpdate(list, default, k, level, n); } else { LevelInNew(list, default, name, level, n); }
    }
  }

  lemma SwapIs(s: seq<Entry>, i: nat, j: nat)
    requires i < |s| && j < |s| && i != j
    ensures Swap(s, i, j) == s[i := s[j]][j := s[i]]
  {}

  class Log {
    const text: Tag -> string
    var list: seq<TagLevel>
    var default: Level
    const cache: array<Entry>
    var count: nat
    var maxGeneration: Counter
    ghost var stamps: nat            // given out since the last wildcard
    ghost var history: seq<Tag>      // the messages since the last wildcard

    ghost function Cached(): seq<Entry>
      requires count <= cache.Length
      reads this`count, cache
    {
      cache[..count]
    }

    ghost function Now(): Store
      requires count <= cache.Length
      reads this`list, this`default, this`count, this`stamps, cache
    {
      Store(list, default, Cached(), stamps)
    }

    ghost predicate Valid()
      reads this, cache
    {
      Fits() && Inv(Now(), cache.Length, history)
    }

    ghost predicate Fits()
      reads this`count, this`maxGeneration, this`stamps
    {
      cache.Length % 2 == 1 && count <= cache.Length && maxGeneration == Wrapped(stamps)
    }

    constructor (text: Tag -> string, size: nat)
      requires size % 2 == 1
      ensures Valid() && this.text == text && fresh(cache) && cache.Length == size
      ensures Now() == EMPTY && history == []
    {
      this.text, history := text, [];
      list, default, count, maxGeneration, stamps := [], 0, 0, 0, 0;
      cache := new Entry[size](i => Entry(0, 0, 0));
      new;
      EmptyInv(size);
    }

    // molmc_log_level_set
    method SetLevel(name: string, level: Level)
      requires Valid()
      modifies this, cache
      ensures Valid() && Now() == SetTo(old(Now()), text, name, level)
      ensures history == if name == WILDCARD then [] else old(history)
    {
      hide Inv, UpdateFirst, ListSet;
      SetInv(Now(), text, cache.Length, history, name, level);
      if name == WILDCARD {
        default := level;
        list := [];
        count, maxGeneration, stamps, history := 0, 0, 0, [];
        return;
      }
      SetInList(name, level);
      SetInCache(name, level);
    }

    method SetInList(name: string, level: Level)
      modifies this`list
      ensures list == ListSet(old(list), name, level)
    {
      for i := 0 to |list|
        invariant list == old(list) && forall j :: 0 <= j < i ==> list[j].name != name
      {
        if list[i].name == name {
          assert FindName(list, name) == i;
          list := list[i := list[i].(level := level)];
          return;
        }
      }
      assert FindName(list, name) == |list|;
      list := [TagLevel(name, level)] + list;
    }

    method SetInCache(name: string, level: Level)
      requires count <= cache.Length
      modifies cache
      ensures Cached() == UpdateFirst(old(Cached()), text, name, level)
    {
      hide UpdateFirst;
      for i := 0 to count
        invariant cache[..] == old(cache[..]) && forall j :: 0 <= j < i ==> text(cache[j].tag) != name
      {
        if text(cache[i].tag) == name {
          UpdateFirstIs(Cached(), text, name, level, i);
          cache[i] := cache[i].(level := level);
          return;
        }
      }
      UpdateFirstIs(Cached(), text, name, level, count);
    }

    // heap_bubble_down, which always goes down to a leaf.
    method BubbleDown(from: nat)
      requires cache.Length % 2 == 1 && from < cache.Length
      modifies cache
      ensures cache[..] == Sink(old(cache[..]), from)
    {
      hide Swap;
      var index := from;
      while index < cache.Length / 2
        invariant index < cache.Length && Sink(cache[..], index) == Sink(old(cache[..]), from)
        decreases cache.Length - index
      {
        var left := index * 2 + 1;
        var right := left + 1;
        var next := if cache[left].generation < cache[right].generation then left else right;
        SwapIs(cache[..], index, next);
        assert next == Smaller(cache[..], index);
        cache[index], cache[next] := cache[next], cache[index];
        index := next;
      }
    }

    // get_cached_log_level
    method GetCached(tag: Tag) returns (hit: bool, level: Level)
      requires Fits()
      modifies this`maxGeneration, this`stamps, cache
      ensures Fits() && hit == (FindTag(old(Cached()), tag) < count)
      ensures hit ==> level == LevelFor(old(Now()), text, tag) && Now() == Wrote(old(Now()), text, cache.Length, tag)
      ensures !hit ==> Now() == old(Now())
    {
      hide Wrapped, Stamp, Sink;
      hit, level := false, 0;
      for i := 0 to count
        invariant cache[..] == old(cache[..]) && maxGeneration == old(maxGeneration) && stamps == old(stamps)
        invariant forall j :: 0 <= j < i ==> cache[j].tag != tag
      {
        if cache[i].tag == tag {
          assert FindTag(Cached(), tag) == i by {
            assert forall j :: 0 <= j < count ==> Cached()[j] == cache[j];
          }
          hit, level := true, cache[i].level;
          if count == cache.Length { Renew(i); }
          return;
        }
      }
      assert FindTag(Cached(), tag) == count by {
        assert forall j :: 0 <= j < count ==> Cached()[j] == cache[j];
      }
    }

    // A hit in a full cache.
    method Renew(i: nat)
      requires Fits() && i < count == cache.Length
      modifies this`maxGeneration, this`stamps, cache
      ensures Fits() && stamps == old(stamps) + 1
      ensures Cached() == Sink(old(Cached())[i := old(Cached()[i]).(generation := Stamp(old(stamps)))], i)
    {
      hide Wrapped, Stamp, Sink;
      StampOfCounter(stamps);
      Place(i, cache[i].(generation := maxGeneration % 0x2000_0000));
    }

    // Put e at i of the full cache, and restore the order.
    method Place(i: nat, e: Entry)
      requires Fits() && i < count == cache.Length
      modifies this`maxGeneration, this`stamps, cache
      ensures Fits() && stamps == old(stamps) + 1
      ensures Cached() == Sink(old(Cached())[i := e], i)
    {
      hide Wrapped, Sink;
      StampOfCounter(stamps);
      ghost var was := cache[..];
      assert Cached() == was;
      maxGeneration := (maxGeneration + 1) % 0x1_0000_0000;
      stamps := stamps + 1;
      cache[i] := e;
      assert cache[..] == was[i := e];
      BubbleDown(i);
      assert Cached() == cache[..];
    }

    // add_to_cache
    method AddToCache(tag: Tag, level: Level)
      requires Fits() && FindTag(Cached(), tag) == count && level == LevelFor(Now(), text, tag)
      modifies this`maxGeneration, this`stamps, this`count, cache
      ensures Fits() && Now() == Wrote(old(Now()), text, cache.Length, tag)
    {
      hide Wrapped, Stamp, Sink;
      StampOfCounter(stamps);
      var e := Entry(tag, level, maxGeneration % 0x2000_0000);
      ghost var was := Cached();
      if count < cache.Length {
        maxGeneration := (maxGeneration + 1) % 0x1_0000_0000;
        cache[count] := e;
        count := count + 1;
        stamps := stamps + 1;
        assert Cached() == was + [e];
      } else {
        Place(0, e);
      }
    }

    // get_uncached_log_level, or the default.
    method GetUncached(tag: Tag) returns (level: Level)
      ensures level == LevelIn(list, default, text(tag))
    {
      for i := 0 to |list|
        invariant LevelIn(list, default, text(tag)) == LevelIn(list[i..], default, text(tag))
      {
        if text(tag) == list[i].name { return list[i].level; }
        assert list[i..][1..] == list[i + 1..];
      }
      level := default;
    }

    // molmc_log_write: is a message of this level printed?
    method Write(level: Level, tag: Tag) returns (output: bool)
      requires Valid()
      modifies this`maxGeneration, this`stamps, this`history, this`count, cache
      ensures Valid() && Now() == Wrote(old(Now()), text, cache.Length, tag)
      ensures output == Prints(old(Now()), text, level, tag)
      ensures history == old(history) + [tag]
    {
      hide Inv, Wrote;
      WroteInv(Now(), text, cache.Length, history, tag);
      var hit, levelForTag := GetCached(tag);
      if !hit {
        levelForTag := GetUncached(tag);
        AddToCache(tag, levelForTag);
      }
      output := level <= levelForTag;
      history := history + [tag];
    }

    // The entry that a miss evicts from a full cache is the one with the oldest stamp: the first of the order.
    lemma EvictsOldest(k: nat)
      requires Valid() && stamps <= 0x2000_0000 && k < count
      ensures cache[0].generation <= cache[k].generation < stamps && (k > 0 ==> cache[0].generation < cache[k].generation)
      ensures var s := Order(history, cache.Length); |s| == count && cache[0].tag == s[0] && cache[k].tag in s
    {
      RootIsOldest(Cached(), k);
      assert Cached()[k].generation < stamps;
      RootIsFirst(Cached(), Order(history, cache.Length));
    }

    // After the cache was full at p: the entry to be evicted is the least recently used one exactly when it was
    // used since, or no other entry unused since had been used longer ago than it.
    lemma EvictsLeastRecent(p: seq<Tag>, r: seq<Tag>)
      requires Valid() && stamps <= 0x2000_0000 && history == p + r && |Order(p, cache.Length)| == cache.Length
      ensures count == cache.Length
      ensures forall k :: 0 <= k < count ==> cache[k].tag in history && (cache[k].tag in r || cache[k].tag in p)
      ensures (forall k :: 0 < k < count ==> LastUse(history, cache[0].tag) < LastUse(history, cache[k].tag)) <==>
        (cache[0].tag in r || forall k :: 0 < k < count && cache[k].tag !in r ==> LastUse(p, cache[0].tag) < LastUse(p, cache[k].tag))
    {
      hide LastUse, Order, Ranked, Heap, DistinctTags, LeastRecentFirst, Wrapped;
      LeastRecentExactly(p, r, cache.Length);
      RankedUnique(Cached(), Order(history, cache.Length));
      EvictedIsLeastRecent(Cached(), Order(history, cache.Length), p, r);
      assert forall k :: 0 <= k < count ==> Cached()[k] == cache[k];
    }
  }

  lemma EvictedIsLeastRecent(s: seq<Entry>, order: seq<Tag>, p: seq<Tag>, r: seq<Tag>)
    requires Ranked(s, order) && Heap(s) && DistinctTags(s) && s != [] && forall t :: t in order ==> t in p + r && (t in r || t in p)
    requires LeastRecentFirst(order, p + r) <==>
      order[0] in r || forall k :: 0 < k < |order| && order[k] !in r ==> LastUse(p, order[0]) < LastUse(p, order[k])
    ensures forall k :: 0 <= k < |s| ==> s[k].tag in p + r && (s[k].tag in r || s[k].tag in p)
    ensures (forall k :: 0 < k < |s| ==> LastUse(p + r, s[0].tag) < LastUse(p + r, s[k].tag)) <==>
      (s[0].tag in r || forall k :: 0 < k < |s| && s[k].tag !in r ==> LastUse(p, s[0].tag) < LastUse(p, s[k].tag))
  {
    RankedUnique(s, order);
    RootIsFirst(s, order);
    var h, t := p + r, order[0];
    TailsAgree(s, order, u => u in h && t in h && LastUse(h, t) < LastUse(h, u));
    TailsAgree(s, order, u => u !in r && u in p && t in p ==> LastUse(p, t) < LastUse(p, u));
    hide LastUse, Ranked, Heap, DistinctTags;
  }

  // Behind the first, cache and order hold the same tags.
  lemma TailsAgree(s: seq<Entry>, order: seq<Tag>, q: Tag -> bool)
    requires Ranked(s, order) && DistinctTags(s) && s != [] && order[0] == s[0].tag
    ensures (forall k :: 0 < k < |s| ==> q(s[k].tag)) <==> (forall j :: 0 < j < |order| ==> q(order[j]))
  {
    forall k | 0 < k < |s| ensures exists j :: 0 < j < |order| && order[j] == s[k].tag {
      assert order[Pos(order, s[k].tag)] == s[k].tag;
    }
    forall j | 0 < j < |order| ensures exists k :: 0 < k < |s| && s[k].tag == order[j] {
      assert Holds(s, order[j]);
    }
  }
}
