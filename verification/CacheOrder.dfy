/** Which entry the log-level cache of iotx_log_api.c gives up next, by the history of its messages:
    a message found in the cache counts as a use only once the cache is full. */
module CacheOrder {
  // A tag is the address of a string constant; the cache compares addresses.
  type Tag = nat

  predicate Unique(s: seq<Tag>) { forall i, j :: 0 <= i < j < |s| ==> s[i] != s[j] }

  function Pos(s: seq<Tag>, t: Tag): (k: nat)
    requires t in s
    ensures k < |s| && s[k] == t && forall j :: 0 <= j < k ==> s[j] != t
  {
    if s[0] == t then 0 else 1 + Pos(s[1..], t)
  }

  function Without(s: seq<Tag>, t: Tag): seq<Tag>
    requires t in s
  {
    s[..Pos(s, t)] + s[Pos(s, t) + 1..]
  }

  // The cached tags from the oldest stamp to the newest, and what a message does to them.
  function Touch(s: seq<Tag>, size: nat, t: Tag): seq<Tag>
    requires size > 0
  {
    if t in s then (if |s| == size then Without(s, t) + [t] else s)
    else (if |s| == size then s[1..] else s) + [t]
  }

  function Order(history: seq<Tag>, size: nat): (s: seq<Tag>)
    requires size > 0
    ensures |s| <= size
  {
    if history == [] then []
    else
      var n := |history| - 1;
      Touch(Order(history[..n], size), size, history[n])
  }

  function FirstUse(h: seq<Tag>, t: Tag): (k: nat)
    requires t in h
    ensures k < |h| && h[k] == t && forall j :: 0 <= j < k ==> h[j] != t
  {
    Pos(h, t)
  }

  function LastUse(h: seq<Tag>, t: Tag): (k: nat)
    requires t in h
    ensures k < |h| && h[k] == t && forall j :: k < j < |h| ==> h[j] != t
  {
    if h[|h| - 1] == t then |h| - 1 else LastUse(h[..|h| - 1], t)
  }

  lemma LastUseOf(p: seq<Tag>, r: seq<Tag>, t: Tag)
    requires t in p + r
    ensures t in r ==> LastUse(p + r, t) == |p| + LastUse(r, t)
    ensures t !in r ==> t in p && LastUse(p + r, t) == LastUse(p, t)
  {
    var h := p + r;
    if t in r {
      LastUseIs(h, t, |p| + LastUse(r, t));
    } else {
      LastUseIs(h, t, LastUse(p, t));
    }
  }

  lemma LastUseIs(h: seq<Tag>, t: Tag, k: nat)
    requires k < |h| && h[k] == t && forall j :: k < j < |h| ==> h[j] != t
    ensures LastUse(h, t) == k
  {
    assert h[LastUse(h, t)] == t;
  }

  lemma PosIs(s: seq<Tag>, k: nat)
    requires Unique(s) && k < |s|
    ensures Pos(s, s[k]) == k
  {
    assert s[Pos(s, s[k])] == s[k];
  }

  lemma WithoutHas(s: seq<Tag>, t: Tag)
    requires Unique(s) && t in s
    ensures Unique(Without(s, t)) && t !in Without(s, t) && |Without(s, t)| == |s| - 1
    ensures forall u :: u in Without(s, t) ==> u in s
  {
    var r, k := Without(s, t), Pos(s, t);
    assert forall j :: 0 <= j < |r| ==> r[j] == if j < k then s[j] else s[j + 1];
  }

  lemma WithoutAt(s: seq<Tag>, t: Tag, u: Tag)
    requires Unique(s) && t in s && u in s && u != t
    ensures u in Without(s, t)
    ensures Pos(Without(s, t), u) == if Pos(s, u) < Pos(s, t) then Pos(s, u) else Pos(s, u) - 1
  {
    WithoutHas(s, t);
    var j := if Pos(s, u) < Pos(s, t) then Pos(s, u) else Pos(s, u) - 1;
    assert Without(s, t)[j] == u;
    PosIs(Without(s, t), j);
  }

  lemma TouchUnique(s: seq<Tag>, size: nat, t: Tag)
    requires Unique(s) && size > 0
    ensures Unique(Touch(s, size, t)) && t in Touch(s, size, t)
    ensures forall u :: u in Touch(s, size, t) ==> u in s || u == t
    ensures |s| == size ==> |Touch(s, size, t)| == size
  {
    if t in s { WithoutHas(s, t); }
    var r := Touch(s, size, t);
    if t in s && |s| == size { assert r[|r| - 1] == t; }
    if t !in s { assert r[|r| - 1] == t; }
  }

  lemma {:induction false} OrderUnique(h: seq<Tag>, size: nat)
    requires size > 0
    ensures Unique(Order(h, size)) && forall u :: u in Order(h, size) ==> u in h
  {
    if h != [] {
      var n := |h| - 1;
      OrderUnique(h[..n], size);
      TouchUnique(Order(h[..n], size), size, h[n]);
    }
  }

  lemma OrderStep(h: seq<Tag>, size: nat, t: Tag)
    requires size > 0
    ensures Order(h + [t], size) == Touch(Order(h, size), size, t)
  {
    assert (h + [t])[..|h|] == h;
  }

  // In a full cache every message renews or enters, and what it does not renew moves down in order.
  lemma TouchFull(s: seq<Tag>, t: Tag)
    requires Unique(s) && s != []
    ensures var r, k := Touch(s, |s|, t), if t in s then Pos(s, t) else 0;
      && |r| == |s| && r[|r| - 1] == t
      && forall j :: 0 <= j < |s| - 1 ==> r[j] == s[if j < k then j else j + 1] && r[j] != t
  {
    var k := if t in s then Pos(s, t) else 0;
    assert Touch(s, |s|, t) == s[..k] + s[k + 1..] + [t];
    assert t in s ==> s[k] == t;
    hide Touch, Pos;
    MovedDown(s, k, t);
  }

  lemma MovedDown(s: seq<Tag>, k: nat, t: Tag)
    requires Unique(s) && k < |s| && (s[k] == t || t !in s)
    ensures var r := s[..k] + s[k + 1..] + [t];
      forall j :: 0 <= j < |s| - 1 ==> r[j] == s[if j < k then j else j + 1] && r[j] != t
  {
    var r := s[..k] + s[k + 1..] + [t];
    forall j | 0 <= j < |s| - 1 ensures r[j] == s[if j < k then j else j + 1] && r[j] != t {
      var i := if j < k then j else j + 1;
      assert r[j] == s[i];
      if s[k] == t && i < k { assert s[i] != s[k]; }
      if s[k] == t && k < i { assert s[k] != s[i]; }
    }
  }

  // ---------- least recently used ----------

  // Is the entry with the oldest stamp the one whose tag was used longest ago?
  predicate LeastRecentFirst(s: seq<Tag>, h: seq<Tag>) {
    && (forall j :: 0 <= j < |s| ==> s[j] in h)
    && (forall k :: 0 < k < |s| ==> LastUse(h, s[0]) < LastUse(h, s[k]))
  }

  predicate ByLastUse(s: seq<Tag>, h: seq<Tag>) {
    && (forall j :: 0 <= j < |s| ==> s[j] in h)
    && (forall j, k :: 0 <= j < k < |s| ==> LastUse(h, s[j]) < LastUse(h, s[k]))
  }

  predicate ByFirstUse(s: seq<Tag>, h: seq<Tag>) {
    && (forall j :: 0 <= j < |s| ==> s[j] in h)
    && (forall j, k :: 0 <= j < k < |s| ==> FirstUse(h, s[j]) < FirstUse(h, s[k]))
  }

  // Used after p, the tags stand behind those that were not, in the order of their last use.
  predicate SortedSince(s: seq<Tag>, p: seq<Tag>, r: seq<Tag>) {
    && (forall j :: 0 <= j < |s| ==> s[j] in p + r)
    && (forall j, k :: 0 <= j < k < |s| && s[j] in r ==> s[k] in r && LastUse(p + r, s[j]) < LastUse(p + r, s[k]))
  }

  lemma {:induction false} FullStaysSorted(p: seq<Tag>, q: seq<Tag>, r: seq<Tag>, size: nat)
    requires size > 0 && |Order(p + q, size)| == size && SortedSince(Order(p + q, size), p, q)
    ensures |Order(p + (q + r), size)| == size && SortedSince(Order(p + (q + r), size), p, q + r)
  {
    hide Order, LastUse, Unique, Touch, SortedSince;
    if r == [] {
      assert q + r == q;
    } else {
      var n := |r| - 1;
      var h := p + (q + r[..n]);
      FullStaysSorted(p, q, r[..n], size);
      OrderUnique(h, size);
      assert p + (q + r) == h + [r[n]];
      OrderStep(h, size, r[n]);
      SortedStep(Order(h, size), p, q + r[..n], r[n]);
      TouchFull(Order(h, size), r[n]);
      assert q + r[..n] + [r[n]] == q + r;
    }
  }

  lemma UseStep(h: seq<Tag>, t: Tag, u: Tag)
    requires u in h || u == t
    ensures u in h + [t] && LastUse(h + [t], u) == if u == t then |h| else LastUse(h, u)
  {
    assert t in [t];
    LastUseOf(h, [t], u);
  }

  lemma SortedStep(s: seq<Tag>, p: seq<Tag>, r: seq<Tag>, t: Tag)
    requires Unique(s) && s != [] && SortedSince(s, p, r)
    ensures SortedSince(Touch(s, |s|, t), p, r + [t])
  {
    var k := if t in s then Pos(s, t) else 0;
    TouchFull(s, t);
    SortedMoved(s, Touch(s, |s|, t), p, r, t, k);
  }

  lemma SortedMoved(s: seq<Tag>, s': seq<Tag>, p: seq<Tag>, r: seq<Tag>, t: Tag, k: nat)
    requires SortedSince(s, p, r) && |s'| == |s| && k < |s| && s'[|s| - 1] == t
    requires forall j :: 0 <= j < |s| - 1 ==> s'[j] == s[if j < k then j else j + 1] && s'[j] != t
    ensures SortedSince(s', p, r + [t])
  {
    hide LastUse;
    var r' := r + [t];
    assert p + r' == (p + r) + [t];
    forall i | 0 <= i < |s'| ensures s'[i] in p + r' {
      UseStep(p + r, t, s'[i]);
    }
    forall i, j | 0 <= i < j < |s'| && s'[i] in r'
      ensures s'[j] in r' && LastUse(p + r', s'[i]) < LastUse(p + r', s'[j])
    {
      SortedPair(s, s', p, r, t, k, i, j);
    }
  }

  lemma SortedPair(s: seq<Tag>, s': seq<Tag>, p: seq<Tag>, r: seq<Tag>, t: Tag, k: nat, i: nat, j: nat)
    requires SortedSince(s, p, r) && 0 <= i < j < |s'| == |s| && k < |s|
    requires s'[|s| - 1] == t
    requires forall j :: 0 <= j < |s| - 1 ==> s'[j] == s[if j < k then j else j + 1] && s'[j] != t
    requires s'[i] in r + [t]
    ensures s'[j] in r + [t] && s'[i] in (p + r) + [t] && s'[j] in (p + r) + [t]
    ensures LastUse((p + r) + [t], s'[i]) < LastUse((p + r) + [t], s'[j])
  {
    hide LastUse;
    var i', j' := if i < k then i else i + 1, if j < k then j else j + 1;
    assert s'[i] == s[i'] && s'[i] in r;
    UseStep(p + r, t, s'[i]);
    if j < |s| - 1 { assert s'[j] == s[j'] && i' < j' && s[j'] in r; }
    UseStep(p + r, t, s'[j]);
  }

  // From a full cache on: the next to go is the least recently used one exactly when it was used since,
  // or every other one not used since was, before, used later than it.
  lemma LeastRecentExactly(p: seq<Tag>, r: seq<Tag>, size: nat)
    requires size > 0 && |Order(p, size)| == size
    ensures var s := Order(p + r, size);
      && |s| == size && (forall t :: t in s ==> t in p + r && (t in r || t in p))
      && (LeastRecentFirst(s, p + r) <==>
          s[0] in r || forall k :: 0 < k < |s| && s[k] !in r ==> LastUse(p, s[0]) < LastUse(p, s[k]))
  {
    hide Order;
    var s := Order(p + r, size);
    OrderUnique(p, size);
    assert p + [] == p && [] + r == r;
    FullStaysSorted(p, [], r, size);
    forall t | t in s
      ensures t in r ==> LastUse(p + r, t) >= |p|
      ensures t !in r ==> t in p && LastUse(p + r, t) == LastUse(p, t)
    {
      LastUseOf(p, r, t);
    }
  }

  // ---------- from the first message on ----------

  // Until it is full, the cache holds the tags in the order of their first use.
  lemma {:induction false} FillsByFirstUse(h: seq<Tag>, t: Tag, size: nat)
    requires size > 0 && |Order(h, size)| < size
    ensures var s := Order(h + [t], size);
      && (forall u :: u in s <==> u in h + [t]) && ByFirstUse(s, h + [t])
  {
    hide Order, Touch;
    OrderStep(h, size, t);
    if h == [] {
      assert Order([], size) == [] by { OrderEmpty(size); }
      assert Touch([], size, t) == [t] by { TouchRoom([], size, t); }
    } else {
      var g, u := h[..|h| - 1], h[|h| - 1];
      assert h == g + [u];
      OrderStep(g, size, u);
      OrderUnique(g, size);
      TouchGrows(Order(g, size), size, u);
      FillsByFirstUse(g, u, size);
      FirstUseStep(Order(h, size), h, t);
      TouchRoom(Order(h, size), size, t);
    }
  }

  lemma OrderEmpty(size: nat)
    requires size > 0
    ensures Order([], size) == []
  {}

  lemma TouchRoom(s: seq<Tag>, size: nat, t: Tag)
    requires |s| < size
    ensures Touch(s, size, t) == if t in s then s else s + [t]
  {}

  lemma TouchGrows(s: seq<Tag>, size: nat, t: Tag)
    requires Unique(s) && size > 0
    ensures |Touch(s, size, t)| >= |s|
  {}

  lemma FirstUseStep(s: seq<Tag>, h: seq<Tag>, t: Tag)
    requires (forall u :: u in s <==> u in h) && ByFirstUse(s, h)
    ensures var s' := if t in s then s else s + [t];
      && (forall u :: u in s' <==> u in h + [t]) && ByFirstUse(s', h + [t])
  {
    hide FirstUse;
    var s', h' := if t in s then s else s + [t], h + [t];
    forall u ensures u in s' <==> u in h' {}
    forall j | 0 <= j < |s'| ensures s'[j] in h' {}
    forall j, k | 0 <= j < k < |s'| ensures FirstUse(h', s'[j]) < FirstUse(h', s'[k]) {
      FirstUseSnoc(h, t, s'[j]);
      FirstUseSnoc(h, t, s'[k]);
    }
  }

  lemma FirstUseSnoc(h: seq<Tag>, t: Tag, u: Tag)
    requires u in h + [t]
    ensures u in h ==> FirstUse(h + [t], u) == FirstUse(h, u) < |h|
    ensures u !in h ==> FirstUse(h + [t], u) == |h|
  {
    var k := FirstUse(h + [t], u);
    if u in h { assert (h + [t])[FirstUse(h, u)] == u; }
    if k < |h| { assert h[k] == u; }
  }

  // Messages that go round the first entries of a full cache move them behind the others.
  lemma {:induction false} Rotated(p: seq<Tag>, size: nat, i: nat)
    requires size > 0 && |Order(p, size)| == size && i <= size
    ensures var s := Order(p, size); Order(p + s[..i], size) == s[i..] + s[..i]
  {
    hide Order;
    var s := Order(p, size);
    if i == 0 {
      assert p + s[..i] == p;
    } else {
      Rotated(p, size, i - 1);
      OrderUnique(p, size);
      assert p + s[..i] == (p + s[..i - 1]) + [s[i - 1]];
      OrderStep(p + s[..i - 1], size, s[i - 1]);
      assert (s[i - 1..] + s[..i - 1])[0] == s[i - 1];
      assert s[i..] + s[..i] == (s[i - 1..] + s[..i - 1])[1..] + [s[i - 1]];
    }
  }

  lemma SortedIsByLastUse(s: seq<Tag>, h: seq<Tag>)
    ensures ByLastUse(s, h) <==> SortedSince(s, [], h)
  {
    assert [] + h == h;
  }

  // A full cache gives up the least recently used entry from now on exactly when it is in the order of last use.
  lemma AlwaysLeastRecent(p: seq<Tag>, size: nat)
    requires size > 0 && |Order(p, size)| == size
    ensures (forall r :: LeastRecentFirst(Order(p + r, size), p + r)) <==> ByLastUse(Order(p, size), p)
  {
    hide Order, LastUse;
    var s := Order(p, size);
    OrderUnique(p, size);
    forall j | 0 <= j < |s| ensures s[j] in p {}
    if ByLastUse(s, p) {
      forall r ensures LeastRecentFirst(Order(p + r, size), p + r) { StaysByLastUse(p, r, size); }
    } else {
      var j, k :| 0 <= j < k < |s| && LastUse(p, s[j]) >= LastUse(p, s[k]);
      Rotated(p, size, j);
      LastUseOf(p, s[..j], s[j]);
      LastUseOf(p, s[..j], s[k]);
      assert (s[j..] + s[..j])[k - j] == s[k];
      assert !LeastRecentFirst(Order(p + s[..j], size), p + s[..j]);
    }
  }

  lemma StaysByLastUse(p: seq<Tag>, r: seq<Tag>, size: nat)
    requires size > 0 && |Order(p, size)| == size && ByLastUse(Order(p, size), p)
    ensures ByLastUse(Order(p + r, size), p + r)
  {
    hide Order, LastUse;
    SortedIsByLastUse(Order(p, size), p);
    assert [] + p == p && [] + (p + r) == p + r;
    FullStaysSorted([], p, r, size);
    SortedIsByLastUse(Order(p + r, size), p + r);
  }

  // From the moment p at which the cache is full, it always gives up the least recently used entry
  // exactly when the tags that filled it were first used and last used in the same order.
  lemma LeastRecentSinceFull(q: seq<Tag>, t: Tag, size: nat)
    requires size > 0 && |Order(q, size)| < size
    ensures var p := q + [t]; |Order(p, size)| == size ==>
      ((forall r :: LeastRecentFirst(Order(p + r, size), p + r)) <==>
        forall u, v :: u in p && v in p && FirstUse(p, u) < FirstUse(p, v) ==> LastUse(p, u) < LastUse(p, v))
  {
    hide Order, LastUse;
    var p := q + [t];
    var s := Order(p, size);
    if |s| == size {
      AlwaysLeastRecent(p, size);
      FillsByFirstUse(q, t, size);
      SameOrders(s, p);
    }
  }

  lemma SameOrders(s: seq<Tag>, p: seq<Tag>)
    requires (forall u :: u in s <==> u in p) && ByFirstUse(s, p)
    ensures ByLastUse(s, p) <==>
      forall u, v :: u in p && v in p && FirstUse(p, u) < FirstUse(p, v) ==> LastUse(p, u) < LastUse(p, v)
  {
    hide LastUse, FirstUse;
    if ByLastUse(s, p) {
      forall u, v | u in p && v in p && FirstUse(p, u) < FirstUse(p, v) ensures LastUse(p, u) < LastUse(p, v) {
        var j, k :| 0 <= j < |s| && 0 <= k < |s| && s[j] == u && s[k] == v;
        assert j != k;
      }
    } else {
      forall j | 0 <= j < |s| ensures s[j] in p {}
    }
  }

  // With room for three, A B A C D gives up A, although B was used longer ago.
  lemma HitWhileFilling(a: Tag, b: Tag, c: Tag)
    requires a != b && b != c && a != c
    ensures var h := [a, b, a, c];
      Order(h, 3) == [a, b, c] && LastUse(h, b) < LastUse(h, a) && !LeastRecentFirst(Order(h, 3), h)
  {
    var h := [a, b, a, c];
    hide LastUse, Order;
    OrderEmpty(3);
    OrderStep([], 3, a);
    OrderStep([a], 3, b);
    OrderStep([a, b], 3, a);
    OrderStep([a, b, a], 3, c);
    assert [] + [a] == [a] && [a] + [b] == [a, b] && [a, b] + [a] == [a, b, a] && [a, b, a] + [c] == [a, b, a, c];
    LastUseIs(h, b, 1);
    LastUseIs(h, a, 2);
    var s := Order(h, 3);
    assert s[0] == a && s[1] == b;
  }

  // The tags from m to n - 1.
  function UpTo(m: nat, n: nat): seq<Tag>
    requires m <= n
  {
    seq(n - m, i => m + i)
  }

  lemma {:induction false} Fills(q: seq<Tag>, size: nat, m: nat, n: nat)
    requires m <= n <= size && size > 0 && Order(q, size) == UpTo(0, m)
    ensures Order(q + UpTo(m, n), size) == UpTo(0, n)
  {
    hide Order;
    if m == n {
      assert q + UpTo(m, n) == q;
    } else {
      Fills(q, size, m, n - 1);
      assert q + UpTo(m, n) == (q + UpTo(m, n - 1)) + [n - 1];
      OrderStep(q + UpTo(m, n - 1), size, n - 1);
      TouchRoom(UpTo(0, n - 1), size, n - 1);
      assert UpTo(0, n - 1) + [n - 1] == UpTo(0, n);
    }
  }

  lemma NotLeastRecent(s: seq<Tag>, h: seq<Tag>, k: nat)
    requires 0 < k < |s| && s[0] in h && s[k] in h && LastUse(h, s[k]) < LastUse(h, s[0])
    ensures !LeastRecentFirst(s, h)
  {}

  lemma UpToMiss(size: nat)
    requires size > 0
    ensures Touch(UpTo(0, size), size, size) == UpTo(1, size + 1)
  {
    assert UpTo(0, size)[1..] + [size] == UpTo(1, size + 1);
  }

  // Once the cache has filled, the wrong entry can go more than once: with room for size entries, the
  // tags 0 1 2 1 0 3 4 ... give up 0 and then 1, although 2 was used longest ago both times.
  lemma WrongTwice(size: nat)
    requires size >= 4
    ensures var p := [0, 1, 2, 1, 0] + UpTo(3, size);
      && Order(p, size) == UpTo(0, size) && !LeastRecentFirst(Order(p, size), p)
      && Order(p + [size], size) == UpTo(1, size + 1) && !LeastRecentFirst(Order(p + [size], size), p + [size])
  {
    hide Order, LastUse, Touch, LeastRecentFirst;
    var p := [0, 1, 2, 1, 0] + UpTo(3, size);
    FirstThree(size);
    Fills([0, 1, 2, 1, 0], size, 3, size);
    OrderStep(p, size, size);
    UpToMiss(size);
    LastUseIs(p, 0, 4);
    LastUseIs(p, 1, 3);
    LastUseIs(p, 2, 2);
    NotLeastRecent(UpTo(0, size), p, 2);
    UseStep(p, size, 1);
    UseStep(p, size, 2);
    NotLeastRecent(UpTo(1, size + 1), p + [size], 1);
  }

  lemma FirstThree(size: nat)
    requires size >= 4
    ensures Order([0, 1, 2, 1, 0], size) == UpTo(0, 3)
  {
    hide Order, Touch;
    OrderEmpty(size);
    assert UpTo(0, 0) == [] && [] + UpTo(0, 3) == UpTo(0, 3) == [0, 1, 2];
    Fills([], size, 0, 3);
    OrderStep([0, 1, 2], size, 1);
    TouchRoom([0, 1, 2], size, 1);
    OrderStep([0, 1, 2, 1], size, 0);
    TouchRoom([0, 1, 2], size, 0);
    assert [0, 1, 2] + [1] == [0, 1, 2, 1] && [0, 1, 2, 1] + [0] == [0, 1, 2, 1, 0];
  }
}
