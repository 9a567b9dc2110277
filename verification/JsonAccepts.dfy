/** Exactly which texts cJSON accepts, and as what: the grammar of its values by positions in the text. */
module JsonAccepts {
  import opened Bytes
  import opened JsonText
  import opened JsonGrammar
  import opened JsonRoundTrip

  predicate IsBlank(c: char) { c != NUL && c <= ' ' }

  predicate Blanks(t: string, i: nat, j: nat) { i <= j && forall k :: i <= k < j ==> IsBlank(At(t, k)) }

  // The value v stands from i up to j.
  ghost predicate IsValue(t: string, i: nat, v: Json, j: nat)
    decreases v, 0
  {
    match v
    case Null => StartsWith(t, i, "null") && j == i + 4
    case False => StartsWith(t, i, "false") && j == i + 5
    case True => StartsWith(t, i, "true") && j == i + 4
    case Number(_, _) => (At(t, i) == '-' || IsDigit(At(t, i))) && ParseNumber(t, i) == Ok(v, j)
    case Str(s) => ParseString(t, i) == Ok(s, j)
    case Array(items) => exists marks :: Marked(t, i, '[', marks, |items|, ']', j) && ItemsBetween(t, items, marks)
    case Object(ms) => exists marks :: Marked(t, i, '{', marks, |ms|, '}', j) && MembersBetween(t, ms, marks)
  }

  // The marks are an opening bracket at i, commas, and a closing bracket right before j: one more than
  // there are items, or two around nothing but blanks.
  predicate Marked(t: string, i: nat, open: char, marks: seq<nat>, count: nat, close: char, j: nat) {
    && |marks| == (if count == 0 then 2 else count + 1)
    && marks[0] == i && At(t, i) == open
    && marks[|marks| - 1] + 1 == j && At(t, j - 1) == close
    && Commas(t, marks)
    && (count == 0 ==> Blanks(t, i + 1, j - 1))
  }

  predicate Commas(t: string, marks: seq<nat>) { forall k :: 0 < k < |marks| - 1 ==> At(t, marks[k]) == ',' }

  // Each item stands between two marks, with blanks around it.
  ghost predicate ItemsBetween(t: string, items: seq<Json>, marks: seq<nat>)
    requires items == [] || |marks| == |items| + 1
    decreases items, 1
  {
    forall k :: 0 <= k < |items| ==> ItemBetween(t, marks[k], items[k], marks[k + 1])
  }

  ghost predicate ItemBetween(t: string, a: nat, v: Json, b: nat)
    decreases v, 1
  {
    exists p: nat, q: nat :: Blanks(t, a + 1, p) && IsValue(t, p, v, q) && Blanks(t, q, b)
  }

  ghost predicate MembersBetween(t: string, ms: seq<Member>, marks: seq<nat>)
    requires ms == [] || |marks| == |ms| + 1
    decreases ms, 1
  {
    forall k :: 0 <= k < |ms| ==> MemberBetween(t, marks[k], ms[k], marks[k + 1])
  }

  // A member is its name, a colon and its value.
  ghost predicate MemberBetween(t: string, a: nat, m: Member, b: nat)
    decreases m, 1
  {
    exists c: nat :: At(t, c) == ':' && NameBetween(t, a, m.name, c) && ItemBetween(t, c, m.value, b)
  }

  ghost predicate NameBetween(t: string, a: nat, name: string, c: nat) {
    exists p: nat, q: nat :: Blanks(t, a + 1, p) && ParseString(t, p) == Ok(name, q) && Blanks(t, q, c)
  }

  // ---------- blanks ----------

  lemma {:induction false} SkipBlanks(t: string, i: nat, j: nat)
    ensures Skip(t, i) == j <==> Blanks(t, i, j) && !IsBlank(At(t, j))
    decreases Left(t, i)
  {
    if IsBlank(At(t, i)) { SkipBlanks(t, i + 1, j); }
  }

  lemma SkipTwice(t: string, i: nat)
    ensures Skip(t, Skip(t, i)) == Skip(t, i)
  {
    SkipBlanks(t, i, Skip(t, i));
    SkipBlanks(t, Skip(t, i), Skip(t, i));
  }

  lemma ValueStarts(t: string, i: nat)
    requires ParseValue(t, i).Ok?
    ensures At(t, i) > ' ' && At(t, i) !in ",:]}"
  {
    Keywords(t, i);
  }

  lemma ItemsUnfold(t: string, j: nat)
    ensures var r := ParseValue(t, Skip(t, j));
      ParseItems(t, j) ==
        if r.Err? then Err(r.ep)
        else
          var k := Skip(t, r.end);
          if At(t, k) == ',' then
            var rest := ParseItems(t, k + 1);
            if rest.Err? then Err(rest.ep) else Ok([r.value] + rest.value, rest.end)
          else if At(t, k) == ']' then Ok([r.value], k + 1)
          else Err(k)
  {
    hide ParseValue, Skip;
  }

  lemma MembersUnfold(t: string, j: nat)
    ensures var r := ParseMember(t, j);
      ParseMembers(t, j) ==
        if r.Err? then Err(r.ep)
        else
          var k := Skip(t, r.end);
          if At(t, k) == ',' then
            var rest := ParseMembers(t, k + 1);
            if rest.Err? then Err(rest.ep) else Ok([r.value] + rest.value, rest.end)
          else if At(t, k) == '}' then Ok([r.value], k + 1)
          else Err(k)
  {
    hide ParseMember, Skip;
  }

  lemma MemberUnfold(t: string, j: nat)
    ensures var name := ParseString(t, Skip(t, j));
      ParseMember(t, j) ==
        if name.Err? then Err(name.ep)
        else
          var c := Skip(t, name.end);
          if At(t, c) != ':' then Err(c)
          else
            var v := ParseValue(t, Skip(t, c + 1));
            if v.Err? then Err(v.ep) else Ok(Member(name.value, v.value), v.end)
  {
    hide ParseValue, ParseString, Skip;
  }

  // ---------- what is accepted is a value ----------

  lemma {:induction false} Accepted(t: string, i: nat)
    requires ParseValue(t, i).Ok?
    ensures IsValue(t, i, ParseValue(t, i).value, ParseValue(t, i).end)
    decreases Left(t, i), 4
  {
    hide StartsWith, ParseNumber, ParseString, ParseItems, ParseMembers;
    Keywords(t, i);
    if At(t, i) == '[' {
      ArrayAccepted(t, i);
    } else if At(t, i) == '{' {
      ObjectAccepted(t, i);
    } else {
      NumberIs(t, i);
    }
  }

  lemma NumberIs(t: string, i: nat)
    ensures ParseNumber(t, i).Ok? && ParseNumber(t, i).value.Number?
  {}

  lemma {:induction false} ArrayAccepted(t: string, i: nat)
    requires ParseValue(t, i).Ok? && At(t, i) == '['
    ensures IsValue(t, i, ParseValue(t, i).value, ParseValue(t, i).end)
    decreases Left(t, i), 3
  {
    hide StartsWith, ParseItems;
    Keywords(t, i);
    var v, j, s := ParseValue(t, i).value, ParseValue(t, i).end, Skip(t, i + 1);
    SkipBlanks(t, i + 1, s);
    if At(t, s) == ']' {
      assert Marked(t, i, '[', [i, s], 0, ']', j) && ItemsBetween(t, [], [i, s]);
    } else {
      SkipTwice(t, i + 1);
      ItemsAfterSkip(t, i + 1, s);
      var marks := ItemsAccepted(t, i);
      hide ItemsBetween, Commas, ParseValue;
      assert Marked(t, i, '[', marks, |v.items|, ']', j) && ItemsBetween(t, v.items, marks);
    }
  }

  lemma {:induction false} ObjectAccepted(t: string, i: nat)
    requires ParseValue(t, i).Ok? && At(t, i) == '{'
    ensures IsValue(t, i, ParseValue(t, i).value, ParseValue(t, i).end)
    decreases Left(t, i), 3
  {
    hide StartsWith, ParseMembers;
    Keywords(t, i);
    var v, j, s := ParseValue(t, i).value, ParseValue(t, i).end, Skip(t, i + 1);
    SkipBlanks(t, i + 1, s);
    if At(t, s) == '}' {
      assert Marked(t, i, '{', [i, s], 0, '}', j) && MembersBetween(t, [], [i, s]);
    } else {
      SkipTwice(t, i + 1);
      MembersAfterSkip(t, i + 1, s);
      var marks := MembersAccepted(t, i);
      hide MembersBetween, Commas, ParseValue;
      assert Marked(t, i, '{', marks, |v.members|, '}', j) && MembersBetween(t, v.members, marks);
    }
  }

  lemma {:induction false} ItemAccepted(t: string, a: nat)
    requires ParseValue(t, Skip(t, a + 1)).Ok? && a < |t|
    ensures var r := ParseValue(t, Skip(t, a + 1)); ItemBetween(t, a, r.value, Skip(t, r.end))
    decreases Left(t, a), 0
  {
    var p := Skip(t, a + 1);
    var r := ParseValue(t, p);
    SkipBlanks(t, a + 1, p);
    SkipBlanks(t, r.end, Skip(t, r.end));
    Accepted(t, p);
    hide IsValue, ParseValue, Skip, Blanks;
    assert Blanks(t, a + 1, p) && IsValue(t, p, r.value, r.end) && Blanks(t, r.end, Skip(t, r.end));
  }

  lemma OneItem(t: string, a: nat, v: Json, b: nat)
    requires ItemBetween(t, a, v, b)
    ensures ItemsBetween(t, [v], [a, b]) && Commas(t, [a, b])
  {
    hide ItemBetween;
  }

  lemma ItemsJoined(t: string, a: nat, v: Json, items: seq<Json>, marks: seq<nat>)
    requires |marks| == |items| + 1 && items != [] && At(t, marks[0]) == ',' && ItemBetween(t, a, v, marks[0])
    requires ItemsBetween(t, items, marks) && Commas(t, marks)
    ensures ItemsBetween(t, [v] + items, [a] + marks) && Commas(t, [a] + marks)
  {
    hide ItemBetween, At;
    var vs, ms := [v] + items, [a] + marks;
    forall n | 0 <= n < |vs| ensures ItemBetween(t, ms[n], vs[n], ms[n + 1]) {
      if n > 0 { assert ItemBetween(t, marks[n - 1], items[n - 1], marks[n - 1 + 1]); }
    }
    forall n | 0 < n < |ms| - 1 ensures At(t, ms[n]) == ',' { assert ms[n] == marks[n - 1]; }
  }

  lemma {:induction false} ItemsAccepted(t: string, a: nat) returns (marks: seq<nat>)
    requires ParseItems(t, a + 1).Ok? && a < |t|
    ensures var r := ParseItems(t, a + 1);
      && r.value != [] && |marks| == |r.value| + 1 && marks[0] == a
      && marks[|marks| - 1] + 1 == r.end && At(t, r.end - 1) == ']'
      && Commas(t, marks) && ItemsBetween(t, r.value, marks)
    decreases Left(t, a), 2
  {
    hide *;
    ItemsUnfold(t, a + 1);
    var r := ParseValue(t, Skip(t, a + 1));
    var k := Skip(t, r.end);
    ItemAccepted(t, a);
    if At(t, k) == ',' {
      MarkIn(t, a, k);
      var rest := ItemsAccepted(t, k);
      var items := ParseItems(t, k + 1).value;
      marks := [a] + rest;
      ItemsJoined(t, a, r.value, items, rest);
    } else {
      marks := [a, k];
      OneItem(t, a, r.value, k);
    }
  }

  lemma NameAccepted(t: string, a: nat)
    requires ParseString(t, Skip(t, a + 1)).Ok?
    ensures var r := ParseString(t, Skip(t, a + 1)); NameBetween(t, a, r.value, Skip(t, r.end)) && a < Skip(t, r.end)
  {
    var p := Skip(t, a + 1);
    var r := ParseString(t, p);
    SkipBlanks(t, a + 1, p);
    SkipBlanks(t, r.end, Skip(t, r.end));
    hide Skip, Blanks, ParseString;
    assert Blanks(t, a + 1, p) && ParseString(t, p) == Ok(r.value, r.end) && Blanks(t, r.end, Skip(t, r.end));
  }

  lemma MarkIn(t: string, a: nat, k: nat)
    requires a < k && (At(t, k) == ',' || At(t, k) == ':')
    ensures Left(t, k) < Left(t, a) && k < |t|
  {}

  lemma MemberMade(t: string, a: nat, m: Member, c: nat, b: nat)
    requires At(t, c) == ':' && NameBetween(t, a, m.name, c) && ItemBetween(t, c, m.value, b)
    ensures MemberBetween(t, a, m, b)
  {
    hide At, NameBetween, ItemBetween;
  }

  lemma {:induction false} MemberAccepted(t: string, a: nat)
    requires ParseMember(t, a + 1).Ok? && a < |t|
    ensures var r := ParseMember(t, a + 1); MemberBetween(t, a, r.value, Skip(t, r.end))
    decreases Left(t, a), 1
  {
    hide *;
    MemberUnfold(t, a + 1);
    var name := ParseString(t, Skip(t, a + 1));
    var c := Skip(t, name.end);
    NameAccepted(t, a);
    MarkIn(t, a, c);
    ItemAccepted(t, c);
    MemberMade(t, a, ParseMember(t, a + 1).value, c, Skip(t, ParseMember(t, a + 1).end));
  }

  lemma OneMember(t: string, a: nat, m: Member, b: nat)
    requires MemberBetween(t, a, m, b)
    ensures MembersBetween(t, [m], [a, b]) && Commas(t, [a, b])
  {
    hide MemberBetween;
  }

  lemma MembersJoined(t: string, a: nat, m: Member, ms: seq<Member>, marks: seq<nat>)
    requires |marks| == |ms| + 1 && ms != [] && At(t, marks[0]) == ',' && MemberBetween(t, a, m, marks[0])
    requires MembersBetween(t, ms, marks) && Commas(t, marks)
    ensures MembersBetween(t, [m] + ms, [a] + marks) && Commas(t, [a] + marks)
  {
    hide MemberBetween, At;
    var vs, ks := [m] + ms, [a] + marks;
    forall n | 0 <= n < |vs| ensures MemberBetween(t, ks[n], vs[n], ks[n + 1]) {
      if n > 0 { assert MemberBetween(t, marks[n - 1], ms[n - 1], marks[n - 1 + 1]); }
    }
    forall n | 0 < n < |ks| - 1 ensures At(t, ks[n]) == ',' { assert ks[n] == marks[n - 1]; }
  }

  lemma {:induction false} MembersAccepted(t: string, a: nat) returns (marks: seq<nat>)
    requires ParseMembers(t, a + 1).Ok? && a < |t|
    ensures var r := ParseMembers(t, a + 1);
      && r.value != [] && |marks| == |r.value| + 1 && marks[0] == a
      && marks[|marks| - 1] + 1 == r.end && At(t, r.end - 1) == '}'
      && Commas(t, marks) && MembersBetween(t, r.value, marks)
    decreases Left(t, a), 2
  {
    hide *;
    MembersUnfold(t, a + 1);
    var r := ParseMember(t, a + 1);
    var k := Skip(t, r.end);
    MemberAccepted(t, a);
    if At(t, k) == ',' {
      MarkIn(t, a, k);
      var rest := MembersAccepted(t, k);
      var ms := ParseMembers(t, k + 1).value;
      marks := [a] + rest;
      MembersJoined(t, a, r.value, ms, rest);
    } else {
      marks := [a, k];
      OneMember(t, a, r.value, k);
    }
  }

  // ---------- what is a value is accepted ----------

  lemma {:induction false} ValueIsRead(t: string, i: nat, v: Json, j: nat)
    requires IsValue(t, i, v, j)
    ensures ParseValue(t, i) == Ok(v, j)
    decreases v, 0
  {
    hide StartsWith, ParseNumber, ParseItems, ParseMembers, ItemsBetween, MembersBetween;
    Keywords(t, i);
    match v
    case Null =>
    case False =>
    case True =>
    case Number(_, _) =>
    case Str(_) =>
    case Array(items) =>
      var marks :| Marked(t, i, '[', marks, |items|, ']', j) && ItemsBetween(t, items, marks);
      ArrayIsRead(t, i, items, marks, j);
    case Object(ms) =>
      var marks :| Marked(t, i, '{', marks, |ms|, '}', j) && MembersBetween(t, ms, marks);
      ObjectIsRead(t, i, ms, marks, j);
  }

  lemma {:induction false} ArrayIsRead(t: string, i: nat, items: seq<Json>, marks: seq<nat>, j: nat)
    requires Marked(t, i, '[', marks, |items|, ']', j) && ItemsBetween(t, items, marks)
    ensures ParseValue(t, i) == Ok(Array(items), j)
    decreases items, 2
  {
    hide StartsWith, ParseItems, ItemsBetween;
    Keywords(t, i);
    if items == [] {
      SkipBlanks(t, i + 1, j - 1);
    } else {
      var s := Skip(t, i + 1);
      ItemsAreRead(t, items, marks, 0, j);
      assert items[0..] == items;
      SkipTwice(t, i + 1);
      ItemsAfterSkip(t, i + 1, s);
      ItemsStartWith(t, s);
    }
  }

  lemma ItemsStartWith(t: string, j: nat)
    requires ParseItems(t, j).Ok? && Skip(t, j) == j
    ensures At(t, j) != ']'
  {
    ValueStarts(t, j);
  }

  // An item between two marks is read, up to the second.
  lemma {:induction false} ItemIsRead(t: string, a: nat, v: Json, b: nat)
    requires ItemBetween(t, a, v, b) && !IsBlank(At(t, b))
    ensures var r := ParseValue(t, Skip(t, a + 1)); r.Ok? && r.value == v && Skip(t, r.end) == b
    decreases v, 1
  {
    var p: nat, q: nat :| Blanks(t, a + 1, p) && IsValue(t, p, v, q) && Blanks(t, q, b);
    ValueIsRead(t, p, v, q);
    ValueStarts(t, p);
    hide IsValue, ParseValue;
    SkipBlanks(t, a + 1, p);
    SkipBlanks(t, q, b);
  }

  lemma ItemBetweenMarks(t: string, items: seq<Json>, marks: seq<nat>, k: nat)
    requires k < |items| && |marks| == |items| + 1 && ItemsBetween(t, items, marks) && Commas(t, marks)
    ensures ItemBetween(t, marks[k], items[k], marks[k + 1])
    ensures k + 1 < |items| ==> At(t, marks[k + 1]) == ','
  {
    hide ItemBetween, At;
  }

  // One step of the loop over the items.
  lemma ItemsFrom(t: string, items: seq<Json>, k: nat, a: nat, b: nat, j: nat)
    requires k < |items|
    requires var r := ParseValue(t, Skip(t, a + 1)); r.Ok? && r.value == items[k] && Skip(t, r.end) == b
    requires if k + 1 < |items| then At(t, b) == ',' && ParseItems(t, b + 1) == Ok(items[k + 1..], j) else At(t, b) == ']' && b + 1 == j
    ensures ParseItems(t, a + 1) == Ok(items[k..], j)
  {
    hide *;
    ItemsUnfold(t, a + 1);
    assert items[k..] == [items[k]] + items[k + 1..];
    if k + 1 == |items| { assert items[k..] == [items[k]]; }
  }

  lemma {:induction false} ItemsAreRead(t: string, items: seq<Json>, marks: seq<nat>, k: nat, j: nat)
    requires k < |items| && |marks| == |items| + 1 && ItemsBetween(t, items, marks)
    requires marks[|items|] + 1 == j && At(t, j - 1) == ']' && Commas(t, marks)
    ensures ParseItems(t, marks[k] + 1) == Ok(items[k..], j)
    decreases items, 1, |items| - k
  {
    hide *;
    ItemBetweenMarks(t, items, marks, k);
    MarkIs(t, if k + 1 < |items| then marks[k + 1] else j - 1);
    ItemIsRead(t, marks[k], items[k], marks[k + 1]);
    if k + 1 < |items| { ItemsAreRead(t, items, marks, k + 1, j); }
    ItemsFrom(t, items, k, marks[k], marks[k + 1], j);
  }

  lemma {:induction false} ObjectIsRead(t: string, i: nat, ms: seq<Member>, marks: seq<nat>, j: nat)
    requires Marked(t, i, '{', marks, |ms|, '}', j) && MembersBetween(t, ms, marks)
    ensures ParseValue(t, i) == Ok(Object(ms), j)
    decreases ms, 3
  {
    hide StartsWith, ParseMembers, MembersBetween;
    Keywords(t, i);
    if ms == [] {
      SkipBlanks(t, i + 1, j - 1);
    } else {
      var s := Skip(t, i + 1);
      MembersAreRead(t, ms, marks, 0, j);
      assert ms[0..] == ms;
      SkipTwice(t, i + 1);
      MembersAfterSkip(t, i + 1, s);
      MembersStart(t, s);
    }
  }

  lemma MarkIs(t: string, c: nat)
    requires At(t, c) == ':' || At(t, c) == ',' || At(t, c) == ']' || At(t, c) == '}'
    ensures !IsBlank(At(t, c))
  {}

  lemma {:induction false} MemberIsRead(t: string, a: nat, m: Member, b: nat)
    requires MemberBetween(t, a, m, b) && !IsBlank(At(t, b))
    ensures var r := ParseMember(t, a + 1); r.Ok? && r.value == m && Skip(t, r.end) == b
    decreases m, 2
  {
    var c: nat :| At(t, c) == ':' && NameBetween(t, a, m.name, c) && ItemBetween(t, c, m.value, b);
    ItemIsRead(t, c, m.value, b);
    PartsAreRead(t, a, m, c, b);
  }

  lemma PartsAreRead(t: string, a: nat, m: Member, c: nat, b: nat)
    requires At(t, c) == ':' && NameBetween(t, a, m.name, c)
    requires var r := ParseValue(t, Skip(t, c + 1)); r.Ok? && r.value == m.value && Skip(t, r.end) == b
    ensures var r := ParseMember(t, a + 1); r.Ok? && r.value == m && Skip(t, r.end) == b
  {
    hide *;
    MarkIs(t, c);
    NameIsRead(t, a, m.name, c);
    MemberUnfold(t, a + 1);
  }

  lemma NameIsRead(t: string, a: nat, name: string, c: nat)
    requires NameBetween(t, a, name, c) && !IsBlank(At(t, c))
    ensures var r := ParseString(t, Skip(t, a + 1)); r.Ok? && r.value == name && Skip(t, r.end) == c
  {
    var p: nat, q: nat :| Blanks(t, a + 1, p) && ParseString(t, p) == Ok(name, q) && Blanks(t, q, c);
    SkipBlanks(t, a + 1, p);
    SkipBlanks(t, q, c);
  }

  lemma MemberBetweenMarks(t: string, ms: seq<Member>, marks: seq<nat>, k: nat)
    requires k < |ms| && |marks| == |ms| + 1 && MembersBetween(t, ms, marks) && Commas(t, marks)
    ensures MemberBetween(t, marks[k], ms[k], marks[k + 1])
    ensures k + 1 < |ms| ==> At(t, marks[k + 1]) == ','
  {
    hide MemberBetween, At;
  }

  lemma MembersFrom(t: string, ms: seq<Member>, k: nat, a: nat, b: nat, j: nat)
    requires k < |ms|
    requires var r := ParseMember(t, a + 1); r.Ok? && r.value == ms[k] && Skip(t, r.end) == b
    requires if k + 1 < |ms| then At(t, b) == ',' && ParseMembers(t, b + 1) == Ok(ms[k + 1..], j) else At(t, b) == '}' && b + 1 == j
    ensures ParseMembers(t, a + 1) == Ok(ms[k..], j)
  {
    hide *;
    MembersUnfold(t, a + 1);
    assert ms[k..] == [ms[k]] + ms[k + 1..];
    if k + 1 == |ms| { assert ms[k..] == [ms[k]]; }
  }

  lemma {:induction false} MembersAreRead(t: string, ms: seq<Member>, marks: seq<nat>, k: nat, j: nat)
    requires k < |ms| && |marks| == |ms| + 1 && MembersBetween(t, ms, marks)
    requires marks[|ms|] + 1 == j && At(t, j - 1) == '}' && Commas(t, marks)
    ensures ParseMembers(t, marks[k] + 1) == Ok(ms[k..], j)
    decreases ms, 2, |ms| - k
  {
    hide *;
    MemberBetweenMarks(t, ms, marks, k);
    MarkIs(t, if k + 1 < |ms| then marks[k + 1] else j - 1);
    MemberIsRead(t, marks[k], ms[k], marks[k + 1]);
    if k + 1 < |ms| { MembersAreRead(t, ms, marks, k + 1, j); }
    MembersFrom(t, ms, k, marks[k], marks[k + 1], j);
  }

  // What stands at i is accepted as v, up to j, if and only if it is that value by the grammar; so a text
  // without a missing bracket, comma, colon or name is all that is accepted.
  lemma AcceptsExactly(t: string, i: nat, v: Json, j: nat)
    ensures ParseValue(t, i) == Ok(v, j) <==> IsValue(t, i, v, j)
  {
    if ParseValue(t, i) == Ok(v, j) { Accepted(t, i); }
    if IsValue(t, i, v, j) { ValueIsRead(t, i, v, j); }
  }

  // ---------- where it fails ----------

  lemma OneIsRead(t: string, i: nat)
    requires At(t, i) == '1' && Delimiter(At(t, i + 1))
    ensures ParseValue(t, i) == Ok(Number(1, 0), i + 1)
  {
    Keywords(t, i);
    hide StartsWith, ParseItems, ParseMembers, Unescape;
    assert DigitRun(t, i, 0) == DigitRun(t, i + 1, 1) == (1, i + 1);
  }

  lemma NothingStarts(t: string, i: nat)
    requires At(t, i) !in "nft\"-0123456789[{"
    ensures ParseValue(t, i) == Err(i)
  {
    Keywords(t, i);
  }

  lemma SkipNone(t: string, i: nat)
    requires !IsBlank(At(t, i))
    ensures Skip(t, i) == i
  {}

  lemma SkipOne(t: string, i: nat)
    requires IsBlank(At(t, i)) && !IsBlank(At(t, i + 1))
    ensures Skip(t, i) == i + 1
  {}

  // The error is reported at the character that should have been another.
  lemma ErrorPlaces()
    ensures ParseValue("[1 2]", 0) == Err(3) && ParseValue("[1,]", 0) == Err(3) && ParseValue("[1", 0) == Err(2)
  {
    hide ParseValue, ParseItems, Skip;
    var t, u, w := "[1 2]", "[1,]", "[1";
    OneIsRead(t, 1); OneIsRead(u, 1); OneIsRead(w, 1);
    SkipNone(t, 1); SkipNone(u, 1); SkipNone(w, 1);
    SkipOne(t, 2); SkipNone(u, 2); SkipNone(u, 3); SkipNone(w, 2);
    NothingStarts(u, 3);
    ItemsUnfold(t, 1); ItemsUnfold(u, 1); ItemsUnfold(u, 3); ItemsUnfold(w, 1);
    ArrayUnfold(t, 0); ArrayUnfold(u, 0); ArrayUnfold(w, 0);
  }

  lemma ArrayUnfold(t: string, i: nat)
    requires At(t, i) == '[' && At(t, Skip(t, i + 1)) != ']'
    ensures var r := ParseItems(t, Skip(t, i + 1));
      ParseValue(t, i) == if r.Err? then Err(r.ep) else Ok(Array(r.value), r.end)
  {
    Keywords(t, i);
    hide ParseItems, StartsWith, Skip;
  }

  lemma NameA(t: string, i: nat)
    requires At(t, i) == '\"' && At(t, i + 1) == 'a' && At(t, i + 2) == '\"'
    ensures ParseString(t, i) == Ok("a", i + 3)
  {
    hide Escape;
    assert Unescape(t, i + 2) == ("", i + 2);
    assert Unescape(t, i + 1) == ([t[i + 1]] + "", i + 2);
    assert [t[i + 1]] + "" == "a";
  }

  lemma ObjectUnfold(t: string, i: nat)
    requires At(t, i) == '{' && At(t, Skip(t, i + 1)) != '}'
    ensures var r := ParseMembers(t, Skip(t, i + 1));
      ParseValue(t, i) == if r.Err? then Err(r.ep) else Ok(Object(r.value), r.end)
  {
    Keywords(t, i);
    hide ParseMembers, StartsWith, Skip;
  }

  lemma ObjectErrorPlaces()
    ensures ParseValue("{1", 0) == Err(1) && ParseValue("{\"a\" 1}", 0) == Err(5) && ParseValue("{\"a\":1]", 0) == Err(6)
  {
    hide ParseValue, ParseMembers, ParseMember, Skip;
    var t, u, w := "{1", "{\"a\" 1}", "{\"a\":1]";
    SkipNone(t, 1); SkipNone(u, 1); SkipNone(w, 1);
    SkipOne(u, 4); SkipNone(w, 4); SkipNone(w, 5); SkipNone(w, 6);
    assert ParseString(t, 1) == Err(1);
    NameA(u, 1); NameA(w, 1);
    hide ParseString;
    OneIsRead(w, 5);
    MemberUnfold(t, 1); MemberUnfold(u, 1); MemberUnfold(w, 1);
    MembersUnfold(t, 1); MembersUnfold(u, 1); MembersUnfold(w, 1);
    ObjectUnfold(t, 0); ObjectUnfold(u, 0); ObjectUnfold(w, 0);
  }
}
