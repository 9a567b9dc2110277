/** The topic matcher of iotx_mqtt_client.c: two indices over filter and name, against a relation on
    levels and against section 4.7.1 of MQTT 3.1.1. */
module TopicMatch {
  const SLASH := '/'
  const PLUS := '+'
  const HASH := '#'

  // ---------- levels ----------

  // A topic cut at its slashes; there is always at least one level.
  function Levels(s: string): (r: seq<string>)
    ensures r != [] && |r| <= |s| + 1
    ensures SLASH !in r[0]
  {
    if s == "" then [""]
    else if s[0] == SLASH then [""] + Levels(s[1..])
    else var rest := Levels(s[1..]); [[s[0]] + rest[0]] + rest[1..]
  }

  // Every wildcard fills a whole level.
  predicate WholeWildcards(levels: seq<string>) {
    forall k :: 0 <= k < |levels| ==> levels[k] == [PLUS] || levels[k] == [HASH] || Plain(levels[k])
  }

  predicate Plain(level: string) { PLUS !in level && HASH !in level }

  // Level by level: + takes one non-empty level, a final # takes what is left if that begins with a
  // non-empty level, and a # that is not last takes nothing.
  predicate Matches(filter: seq<string>, name: seq<string>) {
    if filter == [] || name == [] then filter == name
    else if filter[0] == [HASH] then |filter| == 1 && name[0] != ""
    else if filter[0] == [PLUS] then name[0] != "" && Matches(filter[1..], name[1..])
    else filter[0] == name[0] && Matches(filter[1..], name[1..])
  }

  // Section 4.7.1 of MQTT 3.1.1: # also takes nothing and empty levels, + also an empty level.
  predicate Standard(filter: seq<string>, name: seq<string>) {
    if filter == [] then name == []
    else if filter[0] == [HASH] then |filter| == 1
    else name != [] && (filter[0] == [PLUS] || filter[0] == name[0]) && Standard(filter[1..], name[1..])
  }

  // The code is strict: what it matches the standard matches.
  lemma {:induction false} MatchesIsStandard(filter: seq<string>, name: seq<string>)
    requires Matches(filter, name)
    ensures Standard(filter, name)
    decreases |filter|
  {
    if filter != [] && filter[0] != [HASH] { MatchesIsStandard(filter[1..], name[1..]); }
  }

  // Every wildcard stands over a level of the name that is there and not empty.
  predicate WildcardsFilled(filter: seq<string>, name: seq<string>) {
    forall k :: 0 <= k < |filter| && (filter[k] == [PLUS] || filter[k] == [HASH]) ==> k < |name| && name[k] != ""
  }

  lemma FilledStep(filter: seq<string>, name: seq<string>)
    requires filter != [] && name != []
    ensures WildcardsFilled(filter, name) <==>
      (filter[0] == [PLUS] || filter[0] == [HASH] ==> name[0] != "") && WildcardsFilled(filter[1..], name[1..])
  {
    assert forall k :: 0 < k < |filter| ==> filter[k] == filter[1..][k - 1];
    assert forall k :: 0 < k < |name| ==> name[k] == name[1..][k - 1];
    if WildcardsFilled(filter, name) {
      forall k | 0 <= k < |filter[1..]| && (filter[1..][k] == [PLUS] || filter[1..][k] == [HASH])
        ensures k < |name[1..]| && name[1..][k] != ""
      {
        assert filter[k + 1] == filter[1..][k];
      }
    }
  }

  // For every filter and every name, empty levels included: the code matches exactly where the
  // standard does and no wildcard stands for nothing or for an empty level.
  lemma {:induction false} MatchesExactly(filter: seq<string>, name: seq<string>)
    ensures Matches(filter, name) <==> Standard(filter, name) && WildcardsFilled(filter, name)
    decreases |filter|
  {
    if filter != [] && name != [] {
      hide WildcardsFilled;
      FilledStep(filter, name);
      if filter[0] == [HASH] {
        if |filter| == 1 { NoWildcards(name[1..]); assert filter[1..] == []; }
      } else {
        MatchesExactly(filter[1..], name[1..]);
      }
    } else if filter != [] {
      assert filter[0] == [HASH] && |filter| == 1 ==> !WildcardsFilled(filter, name);
    }
  }

  lemma NoWildcards(name: seq<string>)
    ensures WildcardsFilled([], name)
  {}

  // ---------- characters ----------

  // The name after its first level.
  function AfterLevel(n: string): (r: string)
    ensures |r| <= |n| && (r != "" ==> r[0] == SLASH)
  {
    if n == "" || n[0] == SLASH then n else AfterLevel(n[1..])
  }

  // The matcher character by character.
  predicate Chars(f: string, n: string)
    decreases |f|
  {
    if f == "" || n == "" then f == n
    else if n[0] == SLASH && f[0] != SLASH then false
    else if f[0] == PLUS then Chars(f[1..], AfterLevel(n))
    else if f[0] == HASH then Chars(f[1..], "")
    else f[0] == n[0] && Chars(f[1..], n[1..])
  }

  lemma LevelsUnfold(s: string)
    ensures s == "" ==> Levels(s) == [""]
    ensures s != "" && s[0] == SLASH ==> Levels(s) == [""] + Levels(s[1..])
    ensures s != "" && s[0] != SLASH ==> Levels(s) == [[s[0]] + Levels(s[1..])[0]] + Levels(s[1..])[1..]
  {}

  lemma {:induction false} AfterLevelIs(n: string)
    ensures Levels(n)[1..] == if AfterLevel(n) == "" then [] else Levels(AfterLevel(n)[1..])
    decreases |n|
  {
    if n != "" && n[0] != SLASH { AfterLevelIs(n[1..]); }
  }

  lemma {:induction false} NoneIsEmpty(name: string)
    ensures (Levels(name) == [""] <==> name == "") && (Levels(name)[0] == "" <==> name == "" || name[0] == SLASH)
  {}

  // A wildcard that fills a level is followed by a slash or by nothing.
  lemma WildcardEnds(f: string)
    requires f != "" && (f[0] == PLUS || f[0] == HASH) && WholeWildcards(Levels(f))
    ensures Levels(f)[0] == [f[0]] && (f[1..] == "" || f[1] == SLASH)
    ensures Levels(f)[1..] == if f[1..] == "" then [] else Levels(f[2..])
  {
    LevelsUnfold(f);
    assert f[0] in Levels(f)[0];
    assert Levels(f)[0] == [f[0]];
    NoneIsEmpty(f[1..]);
    if f[1..] != "" { LevelsUnfold(f[1..]); assert f[1..][1..] == f[2..]; }
  }

  // What a plain first character leaves is still a filter with whole wildcards.
  lemma TailWhole(f: string)
    requires f != "" && f[0] != PLUS && f[0] != HASH && WholeWildcards(Levels(f))
    ensures WholeWildcards(Levels(f[1..]))
    ensures f[0] != SLASH ==> Plain(Levels(f[1..])[0]) && Plain(Levels(f)[0])
  {
    hide Levels;
    LevelsUnfold(f);
    var rest := Levels(f[1..]);
    if f[0] == SLASH {
      assert forall k :: 0 <= k < |rest| ==> rest[k] == Levels(f)[k + 1];
    } else {
      assert Levels(f)[0][0] == f[0];
      assert Plain(Levels(f)[0]);
      assert forall c :: c in rest[0] ==> c in Levels(f)[0];
      assert forall k :: 0 < k < |rest| ==> rest[k] == Levels(f)[k];
    }
  }

  lemma PlainStep(f: string, n: string)
    requires f != "" && n != "" && f[0] == n[0] && f[0] != PLUS && f[0] != HASH && WholeWildcards(Levels(f))
    ensures Matches(Levels(f), Levels(n)) <==> Matches(Levels(f[1..]), Levels(n[1..]))
  {
    hide Levels;
    LevelsUnfold(f);
    LevelsUnfold(n);
    TailWhole(f);
    if f[0] != SLASH {
      assert Levels(f)[0] == Levels(n)[0] <==> Levels(f[1..])[0] == Levels(n[1..])[0] by {
        assert Levels(f)[0][1..] == Levels(f[1..])[0] && Levels(n)[0][1..] == Levels(n[1..])[0];
      }
      assert Levels(f)[1..] == Levels(f[1..])[1..] && Levels(n)[1..] == Levels(n[1..])[1..];
    } else {
      assert Levels(f)[1..] == Levels(f[1..]) && Levels(n)[1..] == Levels(n[1..]);
    }
  }

  lemma PlainDiffers(f: string, n: string)
    requires f != "" && n != "" && f[0] != n[0] && f[0] != PLUS && f[0] != HASH && WholeWildcards(Levels(f))
    ensures !Matches(Levels(f), Levels(n))
  {
    hide Levels;
    LevelsUnfold(f);
    LevelsUnfold(n);
    TailWhole(f);
    NoneIsEmpty(f);
    NoneIsEmpty(n);
    if f[0] != SLASH && n[0] != SLASH {
      assert Levels(f)[0][0] == f[0] && Levels(n)[0][0] == n[0];
    }
    assert Levels(f)[0] != Levels(n)[0];
  }

  lemma EmptySide(f: string, n: string)
    requires (f == "" || n == "") && WholeWildcards(Levels(f))
    ensures Matches(Levels(f), Levels(n)) <==> f == n
  {
    hide Levels;
    NoneIsEmpty(f);
    NoneIsEmpty(n);
    LevelsUnfold("");
    if n == "" && f != "" { LevelsUnfold(f); }
  }

  // On filters whose wildcards fill whole levels, the matcher is the relation on levels.
  lemma {:induction false} CharsMatchLevels(f: string, n: string)
    requires WholeWildcards(Levels(f))
    ensures Chars(f, n) <==> Matches(Levels(f), Levels(n))
    decreases |f|
  {
    hide Levels, AfterLevel;
    if f == "" || n == "" {
      EmptySide(f, n);
    } else if f[0] == PLUS || f[0] == HASH {
      var rest := AfterLevel(n);
      WildcardEnds(f);
      NoneIsEmpty(n);
      AfterLevelIs(n);
      if f[0] == PLUS && n[0] != SLASH && f[1..] != "" && rest != "" {
        assert forall k :: 0 <= k < |Levels(f[2..])| ==> Levels(f[2..])[k] == Levels(f)[k + 1];
        assert f[1..][1..] == f[2..];
        CharsMatchLevels(f[2..], rest[1..]);
      }
    } else if f[0] == n[0] {
      TailWhole(f);
      CharsMatchLevels(f[1..], n[1..]);
      PlainStep(f, n);
    } else {
      PlainDiffers(f, n);
    }
  }

  // ---------- the two indices ----------

  lemma CharsUnfold(f: string, n: string)
    requires f != "" && n != ""
    ensures Chars(f, n) <==>
      if n[0] == SLASH && f[0] != SLASH then false
      else if f[0] == PLUS then Chars(f[1..], AfterLevel(n))
      else if f[0] == HASH then Chars(f[1..], "")
      else f[0] == n[0] && Chars(f[1..], n[1..])
  {}

  lemma AfterLevelUnfold(n: string)
    ensures AfterLevel(n) == if n == "" || n[0] == SLASH then n else AfterLevel(n[1..])
  {}

  // The inner loop: to the last character of the level.
  method SkipLevel(name: string, start: nat) returns (n: nat)
    requires start < |name| && name[start] != SLASH
    ensures start <= n < |name| && name[n + 1..] == AfterLevel(name[start..])
  {
    hide AfterLevel;
    n := start;
    var nextpos := n + 1;
    AfterLevelUnfold(name[start..]);
    assert name[start..][1..] == name[nextpos..];
    while nextpos < |name| && name[nextpos] != SLASH
      invariant start <= n < |name| && nextpos == n + 1
      invariant AfterLevel(name[nextpos..]) == AfterLevel(name[start..])
    {
      AfterLevelUnfold(name[nextpos..]);
      assert name[nextpos..][1..] == name[nextpos + 1..];
      n := n + 1;
      nextpos := n + 1;
    }
    AfterLevelUnfold(name[nextpos..]);
  }

  // iotx_mc_is_topic_matched
  method IsTopicMatched(filter: string, name: string) returns (matched: bool)
    ensures matched == Chars(filter, name)
    ensures WholeWildcards(Levels(filter)) ==> matched == Matches(Levels(filter), Levels(name))
  {
    hide Chars, AfterLevel, Levels;
    if WholeWildcards(Levels(filter)) { CharsMatchLevels(filter, name); }
    var f: nat, n: nat := 0, 0;
    assert filter[0..] == filter && name[0..] == name;
    while f < |filter| && n < |name|
      invariant f <= |filter| && n <= |name| && Chars(filter, name) == Chars(filter[f..], name[n..])
      decreases |filter| - f
    {
      CharsUnfold(filter[f..], name[n..]);
      assert filter[f..][1..] == filter[f + 1..] && name[n..][1..] == name[n + 1..];
      if name[n] == SLASH && filter[f] != SLASH { return false; }
      if filter[f] != PLUS && filter[f] != HASH && filter[f] != name[n] { return false; }
      if filter[f] == PLUS {
        n := SkipLevel(name, n);
      } else if filter[f] == HASH {
        n := |name| - 1;
        assert name[n + 1..] == "";
      }
      f, n := f + 1, n + 1;
    }
    matched := n == |name| && f == |filter|;
    CharsEnd(filter[f..], name[n..]);
  }

  lemma CharsEnd(f: string, n: string)
    requires f == "" || n == ""
    ensures Chars(f, n) <==> f == "" && n == ""
  {}

  // ---------- against the standard ----------

  // The matcher on texts: exactly the standard's matches in which every wildcard is filled.
  lemma CharsExactly(f: string, n: string)
    requires WholeWildcards(Levels(f))
    ensures Chars(f, n) <==> Standard(Levels(f), Levels(n)) && WildcardsFilled(Levels(f), Levels(n))
  {
    hide Chars, Levels, Standard, WildcardsFilled, Matches, WholeWildcards;
    CharsMatchLevels(f, n);
    MatchesExactly(Levels(f), Levels(n));
  }

  // Three topics that the standard matches and the code does not: + over an empty level, # over an
  // empty level, # over nothing.
  lemma EmptyLevelsMissed()
    ensures Standard(Levels("a/+"), Levels("a/")) && !Chars("a/+", "a/")
    ensures Standard(Levels("a/#"), Levels("a//b")) && !Chars("a/#", "a//b")
    ensures Standard(Levels("a/#"), Levels("a")) && !Chars("a/#", "a")
  {
    LevelsOfSamples();
    CharsExactly("a/+", "a/");
    CharsExactly("a/#", "a//b");
    CharsExactly("a/#", "a");
    hide Chars, Levels;
    assert Levels("a/+")[1] == [PLUS] && Levels("a/#")[1] == [HASH];
  }

  lemma LevelsOfSamples()
    ensures Levels("a/+") == ["a", "+"] && Levels("a/#") == ["a", "#"] && Levels("a") == ["a"]
    ensures Levels("a/") == ["a", ""] && Levels("a//b") == ["a", "", "b"]
  {
    hide Levels;
    LevelsUnfold("");
    Letter('+', "");
    Letter('#', "");
    Letter('b', "");
    Letter('a', "");
    Slash("+");
    Slash("#");
    Slash("");
    Slash("b");
    Slash("/b");
    Letter('a', "/+");
    Letter('a', "/#");
    Letter('a', "/");
    Letter('a', "//b");
    assert ['a'] + "/+" == "a/+" && ['a'] + "/#" == "a/#" && ['a'] + "/" == "a/" && ['a'] + "//b" == "a//b";
    assert [SLASH] + "+" == "/+" && [SLASH] + "#" == "/#" && [SLASH] + "" == "/";
    assert [SLASH] + "b" == "/b" && [SLASH] + "/b" == "//b";
    assert ['a'] + "" == "a" && "+" == ['+'] && "#" == ['#'];
    assert Levels("+") == ["+"] && Levels("#") == ["#"];
    assert Levels("/+") == ["", "+"] && Levels("/#") == ["", "#"];
    assert Levels("a/+") == ["a"] + ["+"] && Levels("a/#") == ["a"] + ["#"];
  }

  lemma Letter(c: char, rest: string)
    requires c != SLASH
    ensures Levels([c] + rest) == [[c] + Levels(rest)[0]] + Levels(rest)[1..]
    ensures rest == "" ==> Levels([c]) == [[c]]
  {
    assert ([c] + rest)[1..] == rest && [c] + "" == [c];
    LevelsUnfold(rest);
  }

  lemma Slash(rest: string)
    ensures Levels([SLASH] + rest) == [""] + Levels(rest)
  {
    assert ([SLASH] + rest)[1..] == rest;
  }
}
