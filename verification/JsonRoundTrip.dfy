/** Parsing undoes printing: for every printable tree, depth and format. */
module JsonRoundTrip {
  import opened Bytes
  import opened JsonText
  import opened JsonGrammar

  // ---------- texts and positions ----------

  lemma CharAt(t: string, i: nat, w: string, k: nat)
    requires StartsWith(t, i, w) && k < |w|
    ensures At(t, i + k) == w[k]
  {
    ItemAt(t, i, w, k);
  }

  ghost predicate White(w: string) { forall c :: c in w ==> c != NUL && c <= ' ' }

  lemma {:induction false} SkipWhite(t: string, i: nat, w: string)
    requires StartsWith(t, i, w) && White(w)
    ensures Skip(t, i) == Skip(t, i + |w|)
    decreases |w|
  {
    hide StartsWith;
    if w != "" {
      CharAt(t, i, w, 0);
      assert w == w[..1] + w[1..];
      Split(t, i, w[..1], w[1..]);
      assert w[0] in w;
      assert forall c :: c in w[1..] ==> c in w;
      SkipWhite(t, i + 1, w[1..]);
    }
  }

  lemma SkipStays(t: string, i: nat)
    requires At(t, i) > ' '
    ensures Skip(t, i) == i
  {}

  // A number printed before such a character ends there.
  predicate Delimiter(c: char) { !IsDigit(c) && c != '.' && c != 'e' && c != 'E' }

  // ---------- strings ----------

  lemma EscapeInverts(t: string, i: nat, c: char)
    requires c != NUL && StartsWith(t, i, EscapeChar(c)) && EscapeChar(c)[0] == '\\'
    ensures Escape(t, i + 1) == ([c], i + |EscapeChar(c)| - 1)
  {
    var w := EscapeChar(c);
    CharAt(t, i, w, 1);
    if |w| == 6 {
      CharAt(t, i, w, 2); CharAt(t, i, w, 3); CharAt(t, i, w, 4); CharAt(t, i, w, 5);
      hide StartsWith, At;
      DigitsOfCode(c);
      assert Hex4(t, i + 2) == c as int;
      hide Hex4, HexValue, EscapeChar;
      assert UnicodeEscape(t, i + 1) == (Utf8(c as int), i + 5) && Utf8(c as int) == [c];
    }
  }

  lemma DigitsOfCode(c: char)
    requires c < 32 as char
    ensures HexValue('0') == 0 && HexValue(HexDigit(c as int / 16)) * 16 + HexValue(HexDigit(c as int % 16)) == c as int
    ensures HexValue(HexDigit(c as int / 16)) >= 0 && HexValue(HexDigit(c as int % 16)) >= 0
  {}

  lemma UnescapeStep(t: string, i: nat, c: char)
    requires c != NUL && StartsWith(t, i, EscapeChar(c))
    ensures var (rest, e) := Unescape(t, i + |EscapeChar(c)|); Unescape(t, i) == ([c] + rest, e)
  {
    hide StartsWith, Escape;
    var w := EscapeChar(c);
    CharAt(t, i, w, 0);
    if w[0] == '\\' { EscapeInverts(t, i, c); }
  }

  lemma {:induction false} UnescapeInverts(t: string, i: nat, s: string)
    requires NUL !in s
    requires StartsWith(t, i, EscapeText(s)) && At(t, i + |EscapeText(s)|) == '\"'
    ensures Unescape(t, i) == (s, i + |EscapeText(s)|)
    decreases |s|
  {
    hide StartsWith, EscapeChar, Escape;
    if s != "" {
      hide Unescape;
      Split(t, i, EscapeChar(s[0]), EscapeText(s[1..]));
      UnescapeStep(t, i, s[0]);
      UnescapeInverts(t, i + |EscapeChar(s[0])|, s[1..]);
      assert [s[0]] + s[1..] == s;
    }
  }

  lemma StringInverts(t: string, i: nat, s: string)
    requires NUL !in s && StartsWith(t, i, Quoted(s))
    ensures ParseString(t, i) == Ok(s, i + |Quoted(s)|)
  {
    hide StartsWith, EscapeText, Unescape;
    Split(t, i, "\"" + EscapeText(s), "\"");
    Split(t, i, "\"", EscapeText(s));
    CharAt(t, i, "\"", 0);
    CharAt(t, i + 1 + |EscapeText(s)|, "\"", 0);
    UnescapeInverts(t, i + 1, s);
  }

  // ---------- numbers ----------

  function Fold(w: string, acc: nat): nat
    requires forall c :: c in w ==> IsDigit(c)
  {
    if w == "" then acc else Fold(w[1..], acc * 10 + DigitValue(w[0]))
  }

  lemma {:induction false} FoldSnoc(w: string, c: char, acc: nat)
    requires forall x :: x in w + [c] ==> IsDigit(x)
    ensures forall x :: x in w ==> IsDigit(x)
    ensures IsDigit(c) && Fold(w + [c], acc) == Fold(w, acc) * 10 + DigitValue(c)
    decreases |w|
  {
    assert forall x :: x in w ==> x in w + [c];
    assert c in w + [c];
    if w == "" {
      assert Fold([c], acc) == Fold([c][1..], acc * 10 + DigitValue(c));
    } else {
      assert (w + [c])[1..] == w[1..] + [c];
      FoldSnoc(w[1..], c, acc * 10 + DigitValue(w[0]));
    }
  }

  lemma {:induction false} FoldDigits(n: nat)
    ensures Fold(Digits(n), 0) == n
    decreases n
  {
    if n < 10 {
      assert Digits(n) == "" + [DigitChar(n)];
      FoldSnoc("", DigitChar(n), 0);
    } else {
      FoldSnoc(Digits(n / 10), DigitChar(n % 10), 0);
      FoldDigits(n / 10);
    }
  }

  lemma {:induction false} NoLeadingZero(n: nat)
    ensures if n == 0 then Digits(n) == "0" else '1' <= Digits(n)[0] <= '9'
    decreases n
  {
    if n >= 10 { NoLeadingZero(n / 10); }
  }

  lemma {:induction false} DigitRunReads(t: string, i: nat, w: string, acc: nat)
    requires forall c :: c in w ==> IsDigit(c)
    requires StartsWith(t, i, w) && !IsDigit(At(t, i + |w|))
    ensures DigitRun(t, i, acc) == (Fold(w, acc), i + |w|)
    decreases |w|
  {
    hide StartsWith;
    if w != "" {
      CharAt(t, i, w, 0);
      assert w == w[..1] + w[1..];
      Split(t, i, w[..1], w[1..]);
      DigitRunReads(t, i + 1, w[1..], acc * 10 + DigitValue(w[0]));
    }
  }

  lemma NumberInverts(t: string, i: nat, n: int)
    requires StartsWith(t, i, Decimal(n)) && Delimiter(At(t, i + |Decimal(n)|))
    ensures ParseNumber(t, i) == Ok(Number(n, 0), i + |Decimal(n)|)
    ensures At(t, i) == '-' || IsDigit(At(t, i))
  {
    hide StartsWith, IntegerPart, Digits;
    var m := if n < 0 then -n else n;
    if n < 0 {
      Split(t, i, "-", Digits(m));
      CharAt(t, i, "-", 0);
    } else {
      NoLeadingZero(n);
      CharAt(t, i, Digits(n), 0);
    }
    DigitsInvert(t, SignEnd(t, i), m);
    IntegerEnds(t, i, m, i + |Decimal(n)|);
  }

  // A number that ends behind its integer part.
  lemma IntegerEnds(t: string, i: nat, m: nat, e: nat)
    requires IntegerPart(t, SignEnd(t, i)) == (m, e) && Delimiter(At(t, e))
    ensures ParseNumber(t, i) == Ok(Number(Signed(At(t, i) == '-', m), 0), e)
  {
    hide IntegerPart;
  }

  lemma DigitsInvert(t: string, j: nat, m: nat)
    requires StartsWith(t, j, Digits(m)) && Delimiter(At(t, j + |Digits(m)|))
    ensures IntegerPart(t, j) == (m, j + |Digits(m)|)
  {
    hide StartsWith;
    NoLeadingZero(m);
    CharAt(t, j, Digits(m), 0);
    if m != 0 {
      FoldDigits(m);
      DigitRunReads(t, j, Digits(m), 0);
    }
  }

  // ---------- values ----------

  lemma TextStarts(v: Json, depth: nat, fmt: bool)
    requires Printable(v)
    ensures var w := Text(v, depth, fmt); w != "" && w[0] > ' ' && w[0] != ']' && w[0] != '}'
  {
    if v.Number? {
      assert v.mantissa >= 0 ==> Decimal(v.mantissa)[0] in Digits(v.mantissa);
    }
  }

  lemma Keywords(t: string, i: nat)
    ensures StartsWith(t, i, "null") ==> At(t, i) == 'n'
    ensures StartsWith(t, i, "false") ==> At(t, i) == 'f'
    ensures StartsWith(t, i, "true") ==> At(t, i) == 't'
  {
    if StartsWith(t, i, "null") { CharAt(t, i, "null", 0); }
    if StartsWith(t, i, "false") { CharAt(t, i, "false", 0); }
    if StartsWith(t, i, "true") { CharAt(t, i, "true", 0); }
  }

  // The main theorem: printed text, wherever it stands, parses back to the tree it was printed
  // from, and the parser stops exactly at its end.
  lemma {:induction false} ValueInverts(t: string, i: nat, v: Json, depth: nat, fmt: bool)
    requires Printable(v)
    requires StartsWith(t, i, Text(v, depth, fmt))
    requires Delimiter(At(t, i + |Text(v, depth, fmt)|))
    ensures ParseValue(t, i) == Ok(v, i + |Text(v, depth, fmt)|)
    decreases v, 0
  {
    hide StartsWith;
    var w := Text(v, depth, fmt);
    TextStarts(v, depth, fmt);
    CharAt(t, i, w, 0);
    Keywords(t, i);
    match v
    case Null =>
    case False =>
    case True =>
    case Number(m, _) => NumberInverts(t, i, m);
    case Str(s) => StringInverts(t, i, s);
    case Array(items) => ArrayInverts(t, i, items, depth, fmt);
    case Object(ms) => ObjectInverts(t, i, ms, depth, fmt);
  }

  lemma {:induction false} ArrayInverts(t: string, i: nat, items: seq<Json>, depth: nat, fmt: bool)
    requires forall k :: 0 <= k < |items| ==> Printable(items[k])
    requires StartsWith(t, i, Text(Array(items), depth, fmt))
    ensures ParseValue(t, i) == Ok(Array(items), i + |Text(Array(items), depth, fmt)|)
    decreases items, 2
  {
    hide StartsWith, ItemsText;
    Keywords(t, i);
    if items == [] {
      CharAt(t, i, "[]", 0);
      CharAt(t, i, "[]", 1);
    } else {
      var w := ItemsText(items, depth + 1, fmt);
      assert Text(Array(items), depth, fmt) == "[" + (w + "]");
      Split(t, i, "[", w + "]");
      CharAt(t, i, "[", 0);
      ItemsStart(items, depth + 1, fmt);
      CharAt(t, i + 1, w + "]", 0);
      ItemsInvert(t, i + 1, items, depth + 1, fmt);
    }
  }

  lemma ItemsStart(items: seq<Json>, depth: nat, fmt: bool)
    requires items != [] && forall k :: 0 <= k < |items| ==> Printable(items[k])
    ensures var w := ItemsText(items, depth, fmt); w != "" && w[0] > ' ' && w[0] != ']'
  {
    TextStarts(items[0], depth, fmt);
  }

  lemma {:induction false} ItemsInvert(t: string, j: nat, items: seq<Json>, depth: nat, fmt: bool)
    requires items != [] && forall k :: 0 <= k < |items| ==> Printable(items[k])
    requires StartsWith(t, j, ItemsText(items, depth, fmt) + "]")
    ensures ParseItems(t, j) == Ok(items, j + |ItemsText(items, depth, fmt)| + 1)
    decreases items, 1
  {
    hide StartsWith, Text, ParseValue, ParseItems, ItemsText;
    var first := Text(items[0], depth, fmt);
    var e := j + |first|;
    TextStarts(items[0], depth, fmt);
    ItemsUnfold(items, depth, fmt);
    if |items| == 1 {
      Split(t, j, first, "]");
      CharAt(t, j, first, 0);
      CharAt(t, e, "]", 0);
      ValueInverts(t, j, items[0], depth, fmt);
      LastItem(t, j, items[0], e);
      assert [items[0]] == items;
    } else {
      var space := if fmt then " " else "";
      var rest := ItemsText(items[1..], depth, fmt) + "]";
      Split(t, j, first, "," + (space + rest));
      Split(t, e, ",", space + rest);
      Split(t, e + 1, space, rest);
      CharAt(t, j, first, 0);
      CharAt(t, e, ",", 0);
      ValueInverts(t, j, items[0], depth, fmt);
      SkipWhite(t, e + 1, space);
      ItemsInvert(t, e + 1 + |space|, items[1..], depth, fmt);
      NextItem(t, j, items[0], e, e + 1 + |space|);
      assert [items[0]] + items[1..] == items;
    }
  }

  lemma ItemsUnfold(items: seq<Json>, depth: nat, fmt: bool)
    requires items != []
    ensures var first := Text(items[0], depth, fmt);
      ItemsText(items, depth, fmt) + "]" ==
        if |items| == 1 then first + "]"
        else first + ("," + ((if fmt then " " else "") + (ItemsText(items[1..], depth, fmt) + "]")))
  {
    hide Text;
  }

  lemma LastItem(t: string, j: nat, v: Json, e: nat)
    requires Skip(t, j) == j && ParseValue(t, j) == Ok(v, e) && At(t, e) == ']'
    ensures ParseItems(t, j) == Ok([v], e + 1)
  {
    hide ParseValue;
  }

  lemma NextItem(t: string, j: nat, v: Json, e: nat, k: nat)
    requires Skip(t, j) == j && ParseValue(t, j) == Ok(v, e) && At(t, e) == ','
    requires Skip(t, e + 1) == Skip(t, k) && ParseItems(t, k).Ok?
    ensures ParseItems(t, j) == Ok([v] + ParseItems(t, k).value, ParseItems(t, k).end)
  {
    hide ParseValue;
    ItemsAfterSkip(t, e + 1, k);
  }

  lemma {:induction false} ItemsAfterSkip(t: string, j: nat, k: nat)
    requires Skip(t, j) == Skip(t, k)
    ensures ParseItems(t, j) == ParseItems(t, k)
  {
    hide ParseValue;
  }

  lemma {:induction false} MemberAfterSkip(t: string, j: nat, k: nat)
    requires Skip(t, j) == Skip(t, k)
    ensures ParseMember(t, j) == ParseMember(t, k)
  {
    hide ParseValue, ParseString;
  }

  lemma {:induction false} MembersAfterSkip(t: string, j: nat, k: nat)
    requires Skip(t, j) == Skip(t, k)
    ensures ParseMembers(t, j) == ParseMembers(t, k)
  {
    hide ParseMember;
    MemberAfterSkip(t, j, k);
  }

  function Indent(depth: nat, fmt: bool): (w: string)
    ensures White(w)
  {
    if fmt then Tabs(depth) else ""
  }

  function NewLine(fmt: bool): (w: string)
    ensures White(w)
  {
    if fmt then "\n" else ""
  }

  lemma {:induction false} ObjectInverts(t: string, i: nat, ms: seq<Member>, depth: nat, fmt: bool)
    requires forall k :: 0 <= k < |ms| ==> NUL !in ms[k].name && Printable(ms[k].value)
    requires StartsWith(t, i, Text(Object(ms), depth, fmt))
    ensures ParseValue(t, i) == Ok(Object(ms), i + |Text(Object(ms), depth, fmt)|)
    decreases ms, 2
  {
    hide StartsWith, Text, MembersText, ParseValue, ParseMembers, NewLine, Indent, Tabs;
    ObjectUnfold(ms, depth, fmt);
    if ms == [] {
      var open := NewLine(fmt) + Indent(if depth == 0 then 0 else depth - 1, fmt);
      Split(t, i, "{", open + "}");
      Split(t, i + 1, open, "}");
      CharAt(t, i, "{", 0);
      CharAt(t, i + 1 + |open|, "}", 0);
      SkipWhite(t, i + 1, open);
      EmptyObject(t, i);
    } else {
      var body := MembersText(ms, depth + 1, fmt) + (Indent(depth, fmt) + "}");
      var j := i + 1 + |NewLine(fmt)|;
      Split(t, i, "{", NewLine(fmt) + body);
      Split(t, i + 1, NewLine(fmt), body);
      CharAt(t, i, "{", 0);
      SkipWhite(t, i + 1, NewLine(fmt));
      MembersInvert(t, j, ms, depth + 1, fmt, Indent(depth, fmt));
      FilledObject(t, i, j);
    }
  }

  lemma EmptyObject(t: string, i: nat)
    requires At(t, i) == '{' && At(t, Skip(t, i + 1)) == '}'
    ensures ParseValue(t, i) == Ok(Object([]), Skip(t, i + 1) + 1)
  {
    Keywords(t, i);
  }

  lemma FilledObject(t: string, i: nat, j: nat)
    requires At(t, i) == '{' && Skip(t, i + 1) == Skip(t, j) && ParseMembers(t, j).Ok?
    ensures ParseValue(t, i) == Ok(Object(ParseMembers(t, j).value), ParseMembers(t, j).end)
  {
    Keywords(t, i);
    MembersStart(t, j);
    MembersAfterSkip(t, j, Skip(t, i + 1));
  }

  lemma ObjectUnfold(ms: seq<Member>, depth: nat, fmt: bool)
    ensures Text(Object(ms), depth, fmt) ==
      if ms == [] then "{" + (NewLine(fmt) + Indent(if depth == 0 then 0 else depth - 1, fmt) + "}")
      else "{" + (NewLine(fmt) + (MembersText(ms, depth + 1, fmt) + (Indent(depth, fmt) + "}")))
  {
    hide MembersText;
  }

  lemma MembersStart(t: string, j: nat)
    requires ParseMembers(t, j).Ok?
    ensures At(t, Skip(t, j)) == '\"'
  {}

  lemma MemberParts(m: Member, depth: nat, fmt: bool)
    ensures MemberText(m, depth, fmt) == Indent(depth, fmt) +
      (Quoted(m.name) + (":" + ((if fmt then "\t" else "") + Text(m.value, depth, fmt))))
  {
    hide Text, Quoted, Tabs;
  }

  lemma {:induction false} MemberInverts(t: string, j: nat, m: Member, depth: nat, fmt: bool)
    requires NUL !in m.name && Printable(m.value)
    requires StartsWith(t, j, MemberText(m, depth, fmt))
    requires Delimiter(At(t, j + |MemberText(m, depth, fmt)|))
    ensures ParseMember(t, j) == Ok(m, j + |MemberText(m, depth, fmt)|)
    decreases m, 1
  {
    var tab := if fmt then "\t" else "";
    var name, text := Quoted(m.name), Text(m.value, depth, fmt);
    MemberParts(m, depth, fmt);
    hide StartsWith, Text, Quoted, ParseValue, ParseString, Tabs, MemberText, Indent;
    var n := j + |Indent(depth, fmt)|;
    var c := n + |name|;
    Split(t, j, Indent(depth, fmt), name + (":" + (tab + text)));
    Split(t, n, name, ":" + (tab + text));
    Split(t, c, ":", tab + text);
    Split(t, c + 1, tab, text);
    SkipWhite(t, j, Indent(depth, fmt));
    QuotedStarts(t, n, m.name);
    StringInverts(t, n, m.name);
    CharAt(t, c, ":", 0);
    SkipWhite(t, c + 1, tab);
    TextStarts(m.value, depth, fmt);
    CharAt(t, c + 1 + |tab|, text, 0);
    ValueInverts(t, c + 1 + |tab|, m.value, depth, fmt);
  }

  lemma QuotedStarts(t: string, n: nat, s: string)
    requires StartsWith(t, n, Quoted(s))
    ensures At(t, n) == '\"'
  {
    CharAt(t, n, Quoted(s), 0);
  }

  lemma {:induction false} MembersInvert(t: string, j: nat, ms: seq<Member>, depth: nat, fmt: bool, close: string)
    requires ms != [] && forall k :: 0 <= k < |ms| ==> NUL !in ms[k].name && Printable(ms[k].value)
    requires White(close) && StartsWith(t, j, MembersText(ms, depth, fmt) + (close + "}"))
    ensures ParseMembers(t, j) == Ok(ms, j + |MembersText(ms, depth, fmt)| + |close| + 1)
    decreases ms, 1
  {
    hide StartsWith, MemberText, ParseMember, ParseMembers, MembersText, NewLine, Skip, Printable;
    var first := MemberText(ms[0], depth, fmt);
    var e := j + |first|;
    MembersUnfold(ms, depth, fmt, close + "}");
    if |ms| == 1 {
      Split(t, j, first, NewLine(fmt) + (close + "}"));
      var tail := NewLine(fmt) + close;
      Regroup(NewLine(fmt), close, "}");
      WhiteToBrace(t, e, NewLine(fmt), close);
      MemberInverts(t, j, ms[0], depth, fmt);
      LastMember(t, j, ms[0], e);
      assert [ms[0]] == ms;
    } else {
      var rest := MembersText(ms[1..], depth, fmt) + (close + "}");
      var k := e + 1 + |NewLine(fmt)|;
      Split(t, j, first, "," + (NewLine(fmt) + rest));
      Split(t, e, ",", NewLine(fmt) + rest);
      Split(t, e + 1, NewLine(fmt), rest);
      CharAt(t, e, ",", 0);
      SkipWhite(t, e + 1, NewLine(fmt));
      MemberInverts(t, j, ms[0], depth, fmt);
      MembersInvert(t, k, ms[1..], depth, fmt, close);
      NextMember(t, j, ms[0], e, k);
      assert [ms[0]] + ms[1..] == ms;
    }
  }

  // White space before a closing brace.
  lemma WhiteToBrace(t: string, e: nat, a: string, b: string)
    requires StartsWith(t, e, a + b + "}") && White(a) && White(b)
    ensures Skip(t, e) == e + |a| + |b| && At(t, e + |a| + |b|) == '}'
    ensures At(t, e) <= ' ' || At(t, e) == '}'
  {
    hide StartsWith, Skip;
    var tail := a + b;
    Split(t, e, tail, "}");
    CharAt(t, e, tail + "}", 0);
    CharAt(t, e + |tail|, "}", 0);
    SkipStays(t, e + |tail|);
    assert White(tail) && (tail != "" ==> tail[0] in tail);
    SkipWhite(t, e, tail);
  }

  lemma MembersUnfold(ms: seq<Member>, depth: nat, fmt: bool, tail: string)
    requires ms != []
    ensures var first := MemberText(ms[0], depth, fmt);
      MembersText(ms, depth, fmt) + tail ==
        if |ms| == 1 then first + (NewLine(fmt) + tail)
        else first + ("," + (NewLine(fmt) + (MembersText(ms[1..], depth, fmt) + tail)))
  {
    hide MemberText;
  }

  lemma LastMember(t: string, j: nat, m: Member, e: nat)
    requires ParseMember(t, j) == Ok(m, e) && At(t, Skip(t, e)) == '}'
    ensures ParseMembers(t, j) == Ok([m], Skip(t, e) + 1)
  {
    hide ParseMember;
  }

  lemma NextMember(t: string, j: nat, m: Member, e: nat, k: nat)
    requires ParseMember(t, j) == Ok(m, e) && At(t, e) == ','
    requires Skip(t, e + 1) == Skip(t, k) && ParseMembers(t, k).Ok?
    ensures ParseMembers(t, j) == Ok([m] + ParseMembers(t, k).value, ParseMembers(t, k).end)
  {
    hide ParseMember;
    MembersAfterSkip(t, e + 1, k);
  }

  // cJSON_Parse of cJSON_Print or cJSON_PrintUnformatted: the same tree, nothing left over.
  lemma PrintThenParse(v: Json, fmt: bool)
    requires Printable(v)
    ensures ParseValue(Text(v, 0, fmt), Skip(Text(v, 0, fmt), 0)) == Ok(v, |Text(v, 0, fmt)|)
  {
    TextStarts(v, 0, fmt);
    ValueInverts(Text(v, 0, fmt), 0, v, 0, fmt);
  }
}
