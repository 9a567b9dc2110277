/** The two passes of cJSON's parse_string over a string body: what the first one counts, what the second
    one writes, and when the allocation between them suffices. */
module JsonStrings {
  import opened JsonText
  import opened JsonGrammar

  function After(out: string, rest: (string, nat)): (string, nat) { (out + rest.0, rest.1) }

  lemma AfterTwice(out: string, chunk: string, rest: (string, nat))
    ensures After(out, After(chunk, rest)) == After(out + chunk, rest)
  {
    assert out + (chunk + rest.0) == out + chunk + rest.0;
  }

  lemma UnescapeUnfold(t: string, i: nat)
    ensures Unescape(t, i) ==
      if At(t, i) == '\"' || At(t, i) == NUL then ("", i)
      else if At(t, i) != '\\' then After([t[i]], Unescape(t, i + 1))
      else After(Escape(t, i + 1).0, Unescape(t, Escape(t, i + 1).1 + 1))
  {}

  // ---------- the first pass ----------

  predicate Ordinary(c: char) { c != '\"' && c != '\\' && c != NUL }

  // What the first pass over a string body counts, and where it stops: it steps over the character
  // behind every backslash, whatever that is.
  function Sizing(t: string, i: nat): (r: (nat, nat))
    decreases Left(t, i)
  {
    if At(t, i) == '\"' || At(t, i) == NUL then (0, i)
    else
      var (len, end) := Sizing(t, if At(t, i) == '\\' then i + 2 else i + 1);
      (1 + len, end)
  }

  // The four characters behind every \u met on the way, which the second pass skips unseen, are ordinary.
  predicate PlainEscapes(t: string, i: nat)
    decreases Left(t, i)
  {
    if At(t, i) == '\"' || At(t, i) == NUL then true
    else if At(t, i) != '\\' then PlainEscapes(t, i + 1)
    else (At(t, i + 1) == 'u' ==> FourOrdinary(t, i + 2)) && PlainEscapes(t, i + 2)
  }

  predicate FourOrdinary(t: string, i: nat) {
    Ordinary(At(t, i)) && Ordinary(At(t, i + 1)) && Ordinary(At(t, i + 2)) && Ordinary(At(t, i + 3))
  }

  lemma HexIsOrdinary(t: string, i: nat)
    ensures HexValue(At(t, i)) >= 0 ==> Ordinary(At(t, i))
  {}

  // ---------- when it suffices ----------

  // Where the second pass goes on behind the character at j.
  function NextRead(t: string, j: nat): (k: nat)
    ensures k > j
  {
    if At(t, j) == '\\' then Escape(t, j + 1).1 + 1 else j + 1
  }

  lemma SizingUnfold(t: string, i: nat)
    ensures At(t, i) == '\"' || At(t, i) == NUL ==> Sizing(t, i) == (0, i)
    ensures At(t, i) == '\\' ==> Sizing(t, i) == (1 + Sizing(t, i + 2).0, Sizing(t, i + 2).1)
    ensures Ordinary(At(t, i)) ==> Sizing(t, i) == (1 + Sizing(t, i + 1).0, Sizing(t, i + 1).1)
  {}

  // Unless it stops on the way, the first pass counts two at least for four characters, and three if it
  // steps over the next one too.
  lemma FourUnits(t: string, i: nat) returns (over: nat)
    requires Sizing(t, i).1 >= i + 4
    ensures over <= 1
    ensures Sizing(t, i).0 >= 2 + over + Sizing(t, i + 4 + over).0 && Sizing(t, i).1 == Sizing(t, i + 4 + over).1
    ensures FourOrdinary(t, i) ==> over == 0 && Sizing(t, i).0 == 4 + Sizing(t, i + 4).0
  {
    SizingUnfold(t, i); SizingUnfold(t, i + 1); SizingUnfold(t, i + 2); SizingUnfold(t, i + 3);
    hide Sizing;
    if At(t, i) == '\\' {
      if At(t, i + 2) == '\\' { return 0; }
      return if At(t, i + 3) == '\\' then 1 else 0;
    }
    if At(t, i + 1) == '\\' { return if At(t, i + 3) == '\\' then 1 else 0; }
    if At(t, i + 2) == '\\' { return 0; }
    return if At(t, i + 3) == '\\' then 1 else 0;
  }

  // A \u: four characters are skipped, or ten, and at most as many bytes written as were counted for them.
  lemma SkipFits(t: string, p: nat) returns (over: nat)
    requires At(t, p) == 'u' && Sizing(t, p + 1).1 >= Escape(t, p).1 + 1
    ensures over <= 1
    ensures var (chunk, last) := Escape(t, p);
      && 1 + Sizing(t, p + 1).0 >= |chunk| + over + Sizing(t, last + 1 + over).0
      && Sizing(t, p + 1).1 == Sizing(t, last + 1 + over).1
  {
    EscapeIsShort(t, p);
    EscapeNeedsHex(t, p);
    hide Sizing, Escape;
    over := FourUnits(t, p + 1);
    if Escape(t, p).1 == p + 10 {
      SizingUnfold(t, p + 5);
      over := FourUnits(t, p + 7);
    }
  }

  lemma EscapeIsShort(t: string, p: nat)
    requires At(t, p) == 'u'
    ensures |Escape(t, p).0| <= if Escape(t, p).1 == p + 4 then 3 else 4
    ensures Escape(t, p).1 != p + 4 ==> Escape(t, p).1 == p + 10 && At(t, p + 5) == '\\' && At(t, p + 6) == 'u'
  {}

  // Bytes are written only for hexadecimal digits.
  lemma EscapeNeedsHex(t: string, p: nat)
    requires At(t, p) == 'u'
    ensures Escape(t, p).0 != "" || Escape(t, p).1 == p + 10 ==> FourOrdinary(t, p + 1)
    ensures Escape(t, p).0 != "" && Escape(t, p).1 == p + 10 ==> FourOrdinary(t, p + 7)
  {
    forall i ensures HexValue(At(t, i)) >= 0 ==> Ordinary(At(t, i)) { HexIsOrdinary(t, i); }
  }

  // If the second pass ends no later than the first, what it writes fits; even when it reads one
  // character behind.
  lemma {:induction false} EndsInTime(t: string, j: nat, over: nat)
    requires over <= 1 && Unescape(t, j).1 <= Sizing(t, j + over).1
    ensures |Unescape(t, j).0| <= Sizing(t, j + over).0 + over
    decreases Left(t, j)
  {
    hide Unescape, Sizing, Escape;
    UnescapeUnfold(t, j);
    if At(t, j) == '\"' || At(t, j) == NUL {
    } else {
      var k := NextRead(t, j);
      var ahead := OneRead(t, j, over);
      EndsInTime(t, k, ahead);
    }
  }

  // One character or escape read, by a second pass that ends in time.
  lemma OneRead(t: string, j: nat, over: nat) returns (ahead: nat)
    requires over <= 1 && At(t, j) != '\"' && At(t, j) != NUL && NextRead(t, j) <= Sizing(t, j + over).1
    ensures ahead <= 1 && Sizing(t, j + over).1 == Sizing(t, NextRead(t, j) + ahead).1
    ensures var n := if At(t, j) == '\\' then |Escape(t, j + 1).0| else 1;
      Sizing(t, j + over).0 + over >= n + Sizing(t, NextRead(t, j) + ahead).0 + ahead
  {
    hide Sizing, Escape;
    SizingUnfold(t, j);
    if At(t, j) != '\\' {
      ahead := 0;
    } else if At(t, j + 1) == 'u' {
      assert over == 1 ==> Ordinary(At(t, j + 1));
      SizingUnfold(t, j + 1);
      assert Sizing(t, j + over) == (1 + Sizing(t, j + 2).0, Sizing(t, j + 2).1);
      ahead := SkipFits(t, j + 1);
    } else {
      ahead := PlainRead(t, j, over);
    }
  }

  // An escape of two characters.
  lemma PlainRead(t: string, j: nat, over: nat) returns (ahead: nat)
    requires over <= 1 && At(t, j) == '\\' && At(t, j + 1) != 'u' && j + 2 <= Sizing(t, j + over).1
    ensures ahead <= 1 && Sizing(t, j + over).1 == Sizing(t, j + 2 + ahead).1
    ensures NextRead(t, j) == j + 2 && |Escape(t, j + 1).0| == 1
    ensures Sizing(t, j + over).0 + over >= 1 + Sizing(t, j + 2 + ahead).0 + ahead
  {
    hide Sizing;
    PlainEscape(t, j + 1);
    hide Escape;
    SizingUnfold(t, j);
    SizingUnfold(t, j + 1);
    ahead := if over == 1 && At(t, j + 1) == '\\' then 1 else 0;
  }

  lemma PlainEscape(t: string, p: nat)
    requires At(t, p) != 'u'
    ensures |Escape(t, p).0| == 1 && Escape(t, p).1 == p
  {}

  // ---------- plain escapes ----------

  lemma OrdinarySteps(t: string, i: nat)
    requires FourOrdinary(t, i)
    ensures Sizing(t, i).1 == Sizing(t, i + 4).1 && PlainEscapes(t, i) == PlainEscapes(t, i + 4)
  {
    assert Sizing(t, i + 2).1 == Sizing(t, i + 4).1;
    assert PlainEscapes(t, i + 2) == PlainEscapes(t, i + 4);
  }

  lemma PlainStep(t: string, i: nat)
    requires At(t, i) == '\\' && PlainEscapes(t, i)
    ensures var k := Escape(t, i + 1).1 + 1; Sizing(t, i).1 == Sizing(t, k).1 && PlainEscapes(t, k)
  {
    hide Escape;
    if At(t, i + 1) == 'u' {
      EscapeIsShort(t, i + 1);
      OrdinarySteps(t, i + 2);
      if Escape(t, i + 1).1 == i + 11 { OrdinarySteps(t, i + 8); }
    } else {
      PlainEscape(t, i + 1);
    }
  }

  lemma {:induction false} SameEnd(t: string, i: nat)
    requires PlainEscapes(t, i)
    ensures Unescape(t, i).1 == Sizing(t, i).1
    decreases Left(t, i)
  {
    hide Escape;
    UnescapeUnfold(t, i);
    if At(t, i) == '\"' || At(t, i) == NUL {
    } else if At(t, i) != '\\' {
      SameEnd(t, i + 1);
    } else {
      PlainStep(t, i);
      SameEnd(t, Escape(t, i + 1).1 + 1);
    }
  }

  // With plain escapes the bytes written fit the bytes counted, and both passes end at the same quote.
  lemma SizingCovers(t: string, i: nat)
    requires PlainEscapes(t, i)
    ensures |Unescape(t, i).0| <= Sizing(t, i).0 && Unescape(t, i).1 == Sizing(t, i).1
  {
    SameEnd(t, i);
    EndsInTime(t, i, 0);
  }

  // ---------- the exact condition ----------

  // Two texts that are the same up to a quote at e.
  predicate SameUpTo(t: string, u: string, e: nat) {
    e < |t| && e < |u| && t[e] == '\"' && forall k :: 0 <= k <= e ==> t[k] == u[k]
  }

  lemma EscapeLocal(t: string, u: string, p: nat, e: nat)
    requires SameUpTo(t, u, e) && p <= e
    ensures Escape(t, p).1 == Escape(u, p).1
  {
    hide Utf8;
    if p + 4 < e {
      assert Hex4(t, p + 1) == Hex4(u, p + 1);
      if p + 10 >= e && At(t, p + 6) == 'u' { HexStops(t, p + 7, e); HexStops(u, p + 7, e); }
    } else {
      HexStops(t, p + 1, e);
      HexStops(u, p + 1, e);
    }
  }

  lemma HexStops(t: string, i: nat, e: nat)
    requires e < |t| && t[e] == '\"'
    ensures i <= e <= i + 3 ==> Hex4(t, i) == 0
  {
    assert HexValue('\"') == -1;
  }

  // Whether the second pass ends by then is decided there.
  lemma {:induction false} EndLocal(t: string, u: string, j: nat, e: nat)
    requires SameUpTo(t, u, e) && j <= e
    ensures Unescape(t, j).1 <= e <==> Unescape(u, j).1 <= e
    decreases e - j
  {
    hide Unescape, Escape;
    UnescapeUnfold(t, j);
    UnescapeUnfold(u, j);
    if j < e {
      if At(t, j) == '\\' { EscapeLocal(t, u, j + 1, e); }
      if NextRead(t, j) <= e { EndLocal(t, u, NextRead(t, j), e); }
    }
  }

  lemma {:induction false} SizingLocal(t: string, u: string, j: nat, e: nat)
    requires SameUpTo(t, u, e) && j <= e && Sizing(t, j).1 == e
    ensures Sizing(u, j) == Sizing(t, j)
    decreases e - j
  {
    hide Sizing;
    SizingUnfold(t, j);
    SizingUnfold(u, j);
    SizingUnfold(t, j + 1);
    if j < e && At(t, j) == '\\' {
      SizingEnd(t, j + 2);
      SizingLocal(t, u, j + 2, e);
    } else if j < e {
      SizingLocal(t, u, j + 1, e);
    }
  }

  lemma {:induction false} SizingEnd(t: string, j: nat)
    ensures Sizing(t, j).1 >= j
    decreases Left(t, j)
  {
    if At(t, j) != '\"' && At(t, j) != NUL { SizingEnd(t, if At(t, j) == '\\' then j + 2 else j + 1); }
  }

  // A second pass that misses the quote at e reads on close behind it.
  lemma {:induction false} Lands(t: string, j: nat, e: nat) returns (q: nat)
    requires j <= e < |t| && t[e] == '\"' && Unescape(t, j).1 > e
    ensures e < q <= e + 12 && |Unescape(t, j).0| >= |Unescape(t, q).0|
    decreases e - j
  {
    hide Unescape, Escape;
    UnescapeUnfold(t, j);
    q := NextRead(t, j);
    if At(t, j) == '\\' { EscapeReach(t, j + 1); }
    if q <= e { q := Lands(t, q, e); }
  }

  lemma EscapeReach(t: string, p: nat)
    ensures p <= Escape(t, p).1 <= p + 10
  {}

  // A guard on the text: read from j on, some escape that begins before e reaches over e. It is the branch
  // that fails, a \u whose skip takes in the quote at e, or a backslash right before it.
  predicate StepsOver(t: string, j: nat, e: nat)
    decreases Left(t, j)
  {
    j < e && At(t, j) != '\"' && At(t, j) != NUL &&
    ((At(t, j) == '\\' && e <= Escape(t, j + 1).1) || StepsOver(t, NextRead(t, j), e))
  }

  lemma {:induction false} StepsOverExactly(t: string, j: nat, e: nat)
    requires j <= e < |t| && t[e] == '\"'
    ensures StepsOver(t, j, e) <==> Unescape(t, j).1 > e
    decreases e - j
  {
    hide Unescape, Escape;
    UnescapeUnfold(t, j);
    if j < e && At(t, j) != '\"' && At(t, j) != NUL && NextRead(t, j) <= e {
      StepsOverExactly(t, NextRead(t, j), e);
    }
  }

  lemma SameFits(t: string, u: string, i: nat)
    requires SameUpTo(t, u, Sizing(t, i).1)
    ensures Sizing(u, i) == Sizing(t, i)
    ensures Unescape(t, i).1 <= Sizing(t, i).1 ==> |Unescape(u, i).0| <= Sizing(t, i).0
  {
    hide Unescape, Sizing, SameUpTo;
    var e := Sizing(t, i).1;
    SizingEnd(t, i);
    SizingLocal(t, u, i, e);
    EndLocal(t, u, i, e);
    if Unescape(t, i).1 <= e { EndsInTime(u, i, 0); }
  }

  lemma TooLong(t: string, i: nat) returns (u: string)
    requires var e := Sizing(t, i).1; e < |t| && t[e] == '\"' && Unescape(t, i).1 > e
    ensures SameUpTo(t, u, Sizing(t, i).1) && |Unescape(u, i).0| > Sizing(t, i).0
  {
    hide Unescape, Sizing;
    var (len, e) := Sizing(t, i);
    SizingEnd(t, i);
    u := t[..e + 1] + seq(len + 12, _ => 'a');
    EndLocal(t, u, i, e);
    var q := Lands(u, i, e);
    AllOrdinary(u, q);
  }

  // A text whose body ends at e by the first pass: the allocation suffices for every text that is the same
  // up to e, exactly if no escape reaches over e.
  lemma FitsExactly(t: string, i: nat)
    requires var e := Sizing(t, i).1; e < |t| && t[e] == '\"'
    ensures var (len, e) := Sizing(t, i);
      && (forall u :: SameUpTo(t, u, e) ==> Sizing(u, i) == (len, e))
      && ((forall u :: SameUpTo(t, u, e) ==> |Unescape(u, i).0| <= len) <==> !StepsOver(t, i, e))
  {
    hide Unescape, Sizing, SameUpTo, StepsOver;
    SizingEnd(t, i);
    StepsOverExactly(t, i, Sizing(t, i).1);
    forall u | SameUpTo(t, u, Sizing(t, i).1)
      ensures Sizing(u, i) == Sizing(t, i)
      ensures Unescape(t, i).1 <= Sizing(t, i).1 ==> |Unescape(u, i).0| <= Sizing(t, i).0
    {
      SameFits(t, u, i);
    }
    if Unescape(t, i).1 > Sizing(t, i).1 { var u := TooLong(t, i); }
  }

  lemma AllOrdinary(u: string, q: nat)
    requires q <= |u| && forall k :: q <= k < |u| ==> Ordinary(u[k])
    ensures |Unescape(u, q).0| == |u| - q
  {
    OrdinaryRun(u, q, |u|);
  }

  // A \u right before a quote: the first pass counts one byte and stops there, the second one skips the
  // quote and writes all up to the next.
  lemma QuoteSkipped(t: string, i: nat, end: nat)
    requires i + 6 <= end < |t| && t[i] == '\\' && t[i + 1] == 'u' && t[i + 2] == '\"' && t[end] == '\"'
    requires forall k :: i + 6 <= k < end ==> Ordinary(t[k])
    ensures Sizing(t, i) == (1, i + 2) && Unescape(t, i) == (t[i + 6..end], end) && !PlainEscapes(t, i)
  {
    assert Escape(t, i + 1) == ("", i + 5) by { assert HexValue(t[i + 2]) == -1; }
    OrdinaryRun(t, i + 6, end);
    hide Escape, Unescape;
    UnescapeUnfold(t, i);
    UnescapeUnfold(t, end);
    AfterEnd(t[i + 6..end], end);
    AfterNothing((t[i + 6..end], end));
  }

  // So nothing bounds what goes past the allocation, as in this body.
  lemma EightForOne()
    ensures var t := "\\u\"aaaabbbbbbb\""; Sizing(t, 0).0 == 1 && |Unescape(t, 0).0| == 8
  {
    QuoteSkipped("\\u\"aaaabbbbbbb\"", 0, 14);
  }

  // Both passes take ordinary characters one by one.
  lemma {:induction false} OrdinaryRun(t: string, i: nat, j: nat)
    requires i <= j <= |t| && forall k :: i <= k < j ==> Ordinary(t[k])
    ensures Sizing(t, i) == (j - i + Sizing(t, j).0, Sizing(t, j).1)
    ensures PlainEscapes(t, i) == PlainEscapes(t, j)
    ensures Unescape(t, i) == After(t[i..j], Unescape(t, j))
    decreases j - i
  {
    hide Escape, Unescape;
    if i == j {
      assert t[i..j] == "";
      AfterNothing(Unescape(t, j));
    } else {
      UnescapeUnfold(t, i);
      OrdinaryRun(t, i + 1, j);
      assert [t[i]] + t[i + 1..j] == t[i..j];
      AfterTwice([t[i]], t[i + 1..j], Unescape(t, j));
    }
  }

  lemma AfterNothing(rest: (string, nat))
    ensures After("", rest) == rest
  {
    assert "" + rest.0 == rest.0;
  }

  lemma AfterEnd(out: string, end: nat)
    ensures After(out, ("", end)) == (out, end)
  {
    assert out + "" == out;
  }
}
