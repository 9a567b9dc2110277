/** cJSON's printers: each one computes a size, allocates it, and fills it in place. That every
    write stays inside the allocation is the bounds check of each array update below. */
module JsonPrinter {
  import opened Bytes
  import opened JsonText

  // A C string in a buffer: the text, its terminator, then anything.
  ghost predicate Holds(out: array<char>, w: string)
    reads out
  {
    |w| < out.Length && out[..|w|] == w && out[|w|] == NUL && NUL !in w
  }

  // strlen: the length of the text a buffer holds.
  method StrLen(out: array<char>, ghost w: string) returns (n: nat)
    requires Holds(out, w)
    ensures n == |w|
  {
    n := 0;
    while out[n] != NUL
      invariant n <= |w|
      decreases |w| - n
    {
      n := n + 1;
    }
    assert forall k :: 0 <= k < |w| ==> out[..|w|][k] == w[k] && w[k] in w;
  }

  // strcpy of w to out + at, terminator included.
  method StrCpy(out: array<char>, at: nat, w: string)
    requires at + |w| < out.Length
    modifies out
    ensures out[..at + |w|] == old(out[..at]) + w && out[at + |w|] == NUL
  {
    var end := Copy(out, at, w);
    out[end] := NUL;
  }

  method PutTabs(out: array<char>, at: nat, n: nat)
    requires at + n <= out.Length
    modifies out
    ensures out[..at + n] == old(out[..at]) + Tabs(n)
  {
    for i := 0 to n
      invariant out[..at + i] == old(out[..at]) + Tabs(i)
    {
      out[at + i] := '\t';
      assert out[..at + i + 1] == out[..at + i] + "\t";
      TabsSnoc(i);
    }
  }

  lemma {:induction false} TabsSnoc(n: nat)
    ensures Tabs(n + 1) == Tabs(n) + "\t"
  {
    if n > 0 { TabsSnoc(n - 1); }
  }

  // ---------- strings ----------

  lemma {:induction false} EscapeSnoc(s: string, c: char)
    ensures EscapeText(s + [c]) == EscapeText(s) + EscapeChar(c)
  {
    if s != "" {
      assert (s + [c])[1..] == s[1..] + [c];
      EscapeSnoc(s[1..], c);
    }
  }

  lemma EscapeNothing()
    ensures EscapeText("") == ""
  {}

  lemma EscapeTake(s: string, i: nat)
    requires i < |s|
    ensures EscapeText(s[..i + 1]) == EscapeText(s[..i]) + EscapeChar(s[i])
  {
    assert s[..i + 1] == s[..i] + [s[i]];
    EscapeSnoc(s[..i], s[i]);
  }

  lemma {:induction false} EscapeGrows(s: string, i: nat)
    requires i <= |s|
    ensures |EscapeText(s[..i])| <= |EscapeText(s)|
    decreases |s| - i
  {
    if i < |s| {
      EscapeTake(s, i);
      EscapeGrows(s, i + 1);
    } else {
      assert s[..i] == s;
    }
  }

  predicate IsShortEscape(c: char) {
    c == '\"' || c == '\\' || c == 8 as char || c == 12 as char || c == '\n' || c == '\r' || c == '\t'
  }

  // print_string_ptr: one pass for the length, one to write; it fills exactly len + 3 bytes.
  method PrintString(str: string) returns (out: array<char>)
    requires NUL !in str
    ensures fresh(out) && out[..] == Quoted(str) + [NUL]
  {
    hide EscapeText;
    assert EscapeText(str[..0]) == "" by { EscapeNothing(); }
    var len := 0;
    for i := 0 to |str|
      invariant len == |EscapeText(str[..i])|
    {
      EscapeTake(str, i);
      len := len + 1;
      if IsShortEscape(str[i]) {
        len := len + 1;
      } else if str[i] < 32 as char {
        len := len + 5;
      }
    }
    assert str[..|str|] == str;
    out := new char[len + 3];
    out[0] := '\"';
    var ptr := 1;
    for i := 0 to |str|
      invariant ptr == 1 + |EscapeText(str[..i])| <= len + 1
      invariant out[..ptr] == "\"" + EscapeText(str[..i])
    {
      hide EscapeChar;
      EscapeTake(str, i);
      EscapeGrows(str, i + 1);
      ptr := PutEscaped(out, ptr, str[i]);
    }
    out[ptr] := '\"';
    out[ptr + 1] := NUL;
    assert out[..] == out[..ptr] + "\"" + [NUL];
  }

  // The body of the writing loop: one character or its escape.
  method PutEscaped(out: array<char>, ptr: nat, c: char) returns (end: nat)
    requires ptr + |EscapeChar(c)| < out.Length
    modifies out
    ensures end == ptr + |EscapeChar(c)| && out[..end] == old(out[..ptr]) + EscapeChar(c)
  {
    ghost var was := out[..ptr];
    if c > 31 as char && c != '\"' && c != '\\' {
      end := Copy(out, ptr, [c]);
    } else {
      end := Copy(out, ptr, "\\");
      ghost var rest := EscapeChar(c)[1..];
      if c == '\\' { end := Copy(out, end, "\\"); }
      else if c == '\"' { end := Copy(out, end, "\""); }
      else if c == 8 as char { end := Copy(out, end, "b"); }
      else if c == 12 as char { end := Copy(out, end, "f"); }
      else if c == '\n' { end := Copy(out, end, "n"); }
      else if c == '\r' { end := Copy(out, end, "r"); }
      else if c == '\t' { end := Copy(out, end, "t"); }
      else {
        var code := ['u', '0', '0', HexDigit(c as int / 16), HexDigit(c as int % 16)];
        StrCpy(out, end, code);
        end := end + 5;
      }
      assert EscapeChar(c) == "\\" + rest;
      Regroup(was, "\\", rest);
    }
  }

  // ---------- numbers ----------

  lemma {:induction false} DigitsLength(n: nat, bound: nat, k: nat)
    requires n < bound && bound == Pow10(k) && k >= 1
    ensures |Digits(n)| <= k
    decreases k
  {
    if n >= 10 { DigitsLength(n / 10, bound / 10, k - 1); }
  }

  function Pow10(k: nat): nat { if k == 0 then 1 else 10 * Pow10(k - 1) }

  method PrintNumber(n: int) returns (out: array<char>)
    requires IsInt32(n)
    ensures fresh(out) && Holds(out, Decimal(n))
  {
    out := new char[21];
    assert Pow10(10) == 10000000000 by { assert Pow10(5) == 100000; }
    DigitsLength(if n < 0 then -n else n, 10000000000, 10);
    StrCpy(out, 0, Decimal(n));
    assert Digits(if n < 0 then -n else n) != "";
    assert out[..|Decimal(n)|] == Decimal(n);
  }

  // ---------- values ----------

  lemma QuotedHasNoNul(str: string)
    requires NUL !in str
    ensures NUL !in Quoted(str)
  {
    EscapeHasNoNul(str);
  }

  lemma {:induction false} EscapeHasNoNul(str: string)
    requires NUL !in str
    ensures NUL !in EscapeText(str)
  {
    if str != "" {
      assert str[0] in str;
      assert forall c :: c in str[1..] ==> c in str;
      EscapeHasNoNul(str[1..]);
    }
  }

  // print_value: every allocation below is filled with the text of the value and a terminator.
  method PrintValue(v: Json, depth: nat, fmt: bool) returns (out: array<char>)
    requires Printable(v)
    ensures fresh(out) && Holds(out, Text(v, depth, fmt))
    decreases v, 0
  {
    match v
    case Null =>
      out := new char[5];
      StrCpy(out, 0, "null");
    case False =>
      out := new char[6];
      StrCpy(out, 0, "false");
    case True =>
      out := new char[5];
      StrCpy(out, 0, "true");
    case Number(m, _) => out := PrintNumber(m);
    case Str(s) =>
      out := PrintString(s);
      QuotedHasNoNul(s);
      StringHolds(out, Quoted(s));
    case Array(items) => out := PrintArray(items, depth, fmt);
    case Object(ms) => out := PrintObject(ms, depth, fmt);
  }

  // What the entries of an array add to the computed length.
  function Room(entries: seq<string>, fmt: bool): nat {
    if entries == [] then 0 else |entries[0]| + 2 + (if fmt then 1 else 0) + Room(entries[1..], fmt)
  }

  lemma {:induction false} RoomSnoc(entries: seq<string>, e: string, fmt: bool)
    ensures Room(entries + [e], fmt) == Room(entries, fmt) + |e| + 2 + (if fmt then 1 else 0)
  {
    if entries != [] {
      assert (entries + [e])[1..] == entries[1..] + [e];
      RoomSnoc(entries[1..], e, fmt);
    }
  }

  function Joined(entries: seq<string>, fmt: bool): string
    requires entries != []
  {
    if |entries| == 1 then entries[0]
    else entries[0] + (if fmt then ", " else ",") + Joined(entries[1..], fmt)
  }

  lemma {:induction false} JoinedItems(items: seq<Json>, entries: seq<string>, depth: nat, fmt: bool)
    requires items != [] && |entries| == |items|
    requires forall k :: 0 <= k < |items| ==> entries[k] == Text(items[k], depth, fmt) && NUL !in entries[k]
    ensures Joined(entries, fmt) == ItemsText(items, depth, fmt) && NUL !in Joined(entries, fmt)
    decreases |items|
  {
    hide Text;
    if |items| > 1 {
      JoinedItems(items[1..], entries[1..], depth, fmt);
    }
  }

  // print_array
  method PrintArray(items: seq<Json>, depth: nat, fmt: bool) returns (out: array<char>)
    requires forall k :: 0 <= k < |items| ==> Printable(items[k])
    ensures fresh(out) && Holds(out, Text(Array(items), depth, fmt))
    decreases items, 1
  {
    if |items| == 0 {
      out := new char[3];
      StrCpy(out, 0, "[]");
      return;
    }
    hide Room, Text, Joined, Printable;
    var entries: seq<string> := [];
    var len := 5;
    RoomNothing(fmt);
    for i := 0 to |items|
      invariant |entries| == i && len == 5 + Room(entries, fmt)
      invariant forall k :: 0 <= k < i ==> entries[k] == Text(items[k], depth + 1, fmt) && NUL !in entries[k]
    {
      var ret := PrintValue(items[i], depth + 1, fmt);
      var n := StrLen(ret, Text(items[i], depth + 1, fmt));
      RoomSnoc(entries, ret[..n], fmt);
      entries := entries + [ret[..n]];
      len := len + n + 2 + if fmt then 1 else 0;
    }
    JoinedItems(items, entries, depth + 1, fmt);
    out := Compose(entries, len, fmt);
    ArrayText(items, depth, fmt);
  }

  lemma RoomNothing(fmt: bool)
    ensures Room([], fmt) == 0
  {}

  lemma ObjectText(ms: seq<Member>, depth: nat, fmt: bool)
    requires ms != []
    ensures Text(Object(ms), depth, fmt) ==
      (if fmt then "{\n" else "{") + MembersText(ms, depth + 1, fmt) + (if fmt then Tabs(depth) else "") + "}"
  {
    hide MembersText, Tabs;
  }

  lemma ArrayText(items: seq<Json>, depth: nat, fmt: bool)
    requires items != []
    ensures Text(Array(items), depth, fmt) == "[" + ItemsText(items, depth + 1, fmt) + "]"
  {}

  function Separator(last: bool, fmt: bool): string {
    if last then "" else if fmt then ", " else ","
  }

  lemma Unfold(entries: seq<string>, i: nat, fmt: bool)
    requires i < |entries|
    ensures Room(entries[i..], fmt) == |entries[i]| + 2 + (if fmt then 1 else 0) + Room(entries[i + 1..], fmt)
    ensures Joined(entries[i..], fmt) ==
      entries[i] + Separator(i == |entries| - 1, fmt) + (if i == |entries| - 1 then "" else Joined(entries[i + 1..], fmt))
  {
    assert entries[i..][1..] == entries[i + 1..];
  }

  function Tail(entries: seq<string>, i: nat, fmt: bool): string {
    if i < |entries| then Joined(entries[i..], fmt) else ""
  }

  lemma NextEntry(before: string, entries: seq<string>, i: nat, fmt: bool)
    requires i < |entries|
    ensures var e := entries[i] + Separator(i == |entries| - 1, fmt);
      && before + Tail(entries, i, fmt) == before + e + Tail(entries, i + 1, fmt)
      && |e| + Room(entries[i + 1..], fmt) <= Room(entries[i..], fmt)
      && |entries[i]| + 2 + (if fmt then 1 else 0) <= Room(entries[i..], fmt)
  {
    hide Joined, Room;
    Unfold(entries, i, fmt);
    var e := entries[i] + Separator(i == |entries| - 1, fmt);
    assert Tail(entries, i, fmt) == e + Tail(entries, i + 1, fmt);
  }

  // The composing loop of print_array, in a buffer of the computed length.
  method Compose(entries: seq<string>, len: nat, fmt: bool) returns (out: array<char>)
    requires entries != [] && len == 5 + Room(entries, fmt)
    requires NUL !in Joined(entries, fmt)
    ensures fresh(out) && Holds(out, "[" + Joined(entries, fmt) + "]")
  {
    hide Joined, Room, Separator;
    out := new char[len];
    out[0] := '[';
    var ptr := 1;
    out[1] := NUL;
    ghost var w := "[" + Joined(entries, fmt);
    assert entries[0..] == entries && out[..1] == "[";
    for i := 0 to |entries|
      invariant 1 <= ptr && ptr + Room(entries[i..], fmt) + 2 <= out.Length
      invariant out[..ptr] + Tail(entries, i, fmt) == w
    {
      NextEntry(out[..ptr], entries, i, fmt);
      ptr := PutEntry(out, ptr, entries[i], i == |entries| - 1, fmt);
    }
    out[ptr] := ']';
    out[ptr + 1] := NUL;
    assert out[..ptr + 1] == w + "]";
  }

  // The body of that loop: an entry and what separates it from the next.
  method PutEntry(out: array<char>, ptr: nat, e: string, last: bool, fmt: bool) returns (end: nat)
    requires ptr + |e| + 2 + (if fmt then 1 else 0) < out.Length
    modifies out
    ensures end == ptr + |e| + |Separator(last, fmt)|
    ensures out[..end] == old(out[..ptr]) + (e + Separator(last, fmt))
  {
    StrCpy(out, ptr, e);
    end := ptr + |e|;
    if !last {
      end := Copy(out, end, ",");
      if fmt { end := Copy(out, end, " "); }
      out[end] := NUL;
    }
    assert out[..end] == old(out[..ptr]) + (e + Separator(last, fmt));
  }

  // ---------- objects ----------

  // What a member adds to the computed length.
  function PairRoom(pairs: seq<(string, string)>, depth: nat, fmt: bool): nat {
    if pairs == [] then 0
    else |pairs[0].0| + |pairs[0].1| + 2 + (if fmt then 2 + depth else 0) + PairRoom(pairs[1..], depth, fmt)
  }

  lemma {:induction false} PairRoomSnoc(pairs: seq<(string, string)>, p: (string, string), depth: nat, fmt: bool)
    ensures PairRoom(pairs + [p], depth, fmt) ==
      PairRoom(pairs, depth, fmt) + |p.0| + |p.1| + 2 + (if fmt then 2 + depth else 0)
  {
    if pairs != [] {
      assert (pairs + [p])[1..] == pairs[1..] + [p];
      PairRoomSnoc(pairs[1..], p, depth, fmt);
    }
  }

  function PairText(p: (string, string), last: bool, depth: nat, fmt: bool): string {
    (if fmt then Tabs(depth) else "") + p.0 + (if fmt then ":\t" else ":") + p.1
    + (if last then "" else ",") + (if fmt then "\n" else "")
  }

  function JoinedPairs(pairs: seq<(string, string)>, depth: nat, fmt: bool): string {
    if pairs == [] then ""
    else PairText(pairs[0], |pairs| == 1, depth, fmt) + JoinedPairs(pairs[1..], depth, fmt)
  }

  lemma {:induction false} JoinedMembers(ms: seq<Member>, pairs: seq<(string, string)>, depth: nat, fmt: bool)
    requires ms != [] && |pairs| == |ms|
    requires forall k :: 0 <= k < |ms| ==>
      pairs[k] == (Quoted(ms[k].name), Text(ms[k].value, depth, fmt)) && NUL !in pairs[k].0 && NUL !in pairs[k].1
    ensures JoinedPairs(pairs, depth, fmt) == MembersText(ms, depth, fmt) && NUL !in JoinedPairs(pairs, depth, fmt)
    decreases |ms|
  {
    hide Text, Quoted, JoinedPairs, MembersText, PairText, MemberText;
    PairsUnfold(pairs, depth, fmt);
    MembersBegin(ms, depth, fmt);
    PairIsMember(pairs[0], ms[0], |pairs| == 1, depth, fmt);
    if |ms| > 1 {
      JoinedMembers(ms[1..], pairs[1..], depth, fmt);
      Without(PairText(pairs[0], false, depth, fmt), JoinedPairs(pairs[1..], depth, fmt));
    }
  }

  lemma PairsUnfold(pairs: seq<(string, string)>, depth: nat, fmt: bool)
    requires pairs != []
    ensures JoinedPairs(pairs, depth, fmt) ==
      if |pairs| == 1 then PairText(pairs[0], true, depth, fmt)
      else PairText(pairs[0], false, depth, fmt) + JoinedPairs(pairs[1..], depth, fmt)
  {
    hide PairText;
    if |pairs| == 1 { assert JoinedPairs(pairs[1..], depth, fmt) == ""; }
  }

  // How the text of a member ends.
  function MemberEnd(last: bool, fmt: bool): string {
    (if last then "" else ",") + (if fmt then "\n" else "")
  }

  lemma MembersBegin(ms: seq<Member>, depth: nat, fmt: bool)
    requires ms != []
    ensures MembersText(ms, depth, fmt) == MemberText(ms[0], depth, fmt) + MemberEnd(|ms| == 1, fmt) +
      if |ms| == 1 then "" else MembersText(ms[1..], depth, fmt)
  {
    hide MemberText;
  }

  lemma PairIsMember(p: (string, string), m: Member, last: bool, depth: nat, fmt: bool)
    requires p == (Quoted(m.name), Text(m.value, depth, fmt)) && NUL !in p.0 && NUL !in p.1
    ensures PairText(p, last, depth, fmt) == MemberText(m, depth, fmt) + MemberEnd(last, fmt)
    ensures NUL !in PairText(p, last, depth, fmt)
  {
    hide Text, Quoted;
  }

  lemma Without(a: string, b: string)
    requires NUL !in a && NUL !in b
    ensures NUL !in a + b
  {}

  // print_object
  method PrintObject(ms: seq<Member>, depth: nat, fmt: bool) returns (out: array<char>)
    requires forall k :: 0 <= k < |ms| ==> NUL !in ms[k].name && Printable(ms[k].value)
    ensures fresh(out) && Holds(out, Text(Object(ms), depth, fmt))
    decreases ms, 1
  {
    if |ms| == 0 {
      out := PrintEmptyObject(depth, fmt);
      return;
    }
    hide Text, Quoted, JoinedPairs, MembersText, Printable, Tabs, PairRoom, Holds;
    ObjectText(ms, depth, fmt);
    var pairs, len := Collect(ms, depth + 1, fmt);
    JoinedMembers(ms, pairs, depth + 1, fmt);
    out := ComposeObject(pairs, len, depth, fmt);
  }

  // The collecting loop of print_object: the texts and the length they need.
  method Collect(ms: seq<Member>, depth: nat, fmt: bool) returns (pairs: seq<(string, string)>, len: nat)
    requires forall k :: 0 <= k < |ms| ==> NUL !in ms[k].name && Printable(ms[k].value)
    ensures |pairs| == |ms| && len == 7 + (if fmt then depth else 0) + PairRoom(pairs, depth, fmt)
    ensures forall k :: 0 <= k < |ms| ==>
      pairs[k] == (Quoted(ms[k].name), Text(ms[k].value, depth, fmt)) && NUL !in pairs[k].0 && NUL !in pairs[k].1
    decreases ms, 0
  {
    hide Text, Quoted;
    pairs := [];
    len := 7 + if fmt then depth else 0;
    for i := 0 to |ms|
      invariant |pairs| == i && len == 7 + (if fmt then depth else 0) + PairRoom(pairs, depth, fmt)
      invariant forall k :: 0 <= k < i ==>
        pairs[k] == (Quoted(ms[k].name), Text(ms[k].value, depth, fmt)) && NUL !in pairs[k].0 && NUL !in pairs[k].1
    {
      hide PairRoom;
      var pair := PrintPair(ms[i], depth, fmt);
      PairRoomSnoc(pairs, pair, depth, fmt);
      pairs := pairs + [pair];
      len := len + |pair.1| + |pair.0| + 2 + if fmt then 2 + depth else 0;
    }
  }

  // The texts of a member's name and value.
  method PrintPair(m: Member, depth: nat, fmt: bool) returns (pair: (string, string))
    requires NUL !in m.name && Printable(m.value)
    ensures pair == (Quoted(m.name), Text(m.value, depth, fmt)) && NUL !in pair.0 && NUL !in pair.1
    decreases m, 0
  {
    hide Quoted, Text, Printable;
    var str := PrintString(m.name);
    QuotedHasNoNul(m.name);
    StringHolds(str, Quoted(m.name));
    var n := StrLen(str, Quoted(m.name));
    var ret := PrintValue(m.value, depth, fmt);
    var r := StrLen(ret, Text(m.value, depth, fmt));
    pair := (str[..n], ret[..r]);
  }

  lemma StringHolds(out: array<char>, w: string)
    requires NUL !in w && out[..] == w + [NUL]
    ensures Holds(out, w)
  {
    assert out[..|w|] == out[..][..|w|];
    assert out[|w|] == out[..][|w|];
  }

  method PrintEmptyObject(depth: nat, fmt: bool) returns (out: array<char>)
    ensures fresh(out) && Holds(out, Text(Object([]), depth, fmt))
  {
    out := new char[if fmt then depth + 4 else 3];
    out[0] := '{';
    var ptr := 1;
    if fmt {
      out[1] := '\n';
      var n := if depth == 0 then 0 else depth - 1;
      PutTabs(out, 2, n);
      ptr := 2 + n;
    }
    out[ptr] := '}';
    out[ptr + 1] := NUL;
    assert out[..ptr + 1] == Text(Object([]), depth, fmt);
  }

  lemma UnfoldPair(pairs: seq<(string, string)>, i: nat, depth: nat, fmt: bool)
    requires i < |pairs|
    ensures PairRoom(pairs[i..], depth, fmt) == |pairs[i].0| + |pairs[i].1| + 2
      + (if fmt then 2 + depth else 0) + PairRoom(pairs[i + 1..], depth, fmt)
    ensures JoinedPairs(pairs[i..], depth, fmt) ==
      PairText(pairs[i], i == |pairs| - 1, depth, fmt) + JoinedPairs(pairs[i + 1..], depth, fmt)
  {
    assert pairs[i..][1..] == pairs[i + 1..];
  }

  // The composing loop of print_object.
  method ComposeObject(pairs: seq<(string, string)>, len: nat, depth: nat, fmt: bool) returns (out: array<char>)
    requires len == 7 + (if fmt then depth + 1 else 0) + PairRoom(pairs, depth + 1, fmt)
    requires NUL !in JoinedPairs(pairs, depth + 1, fmt)
    ensures fresh(out)
    ensures Holds(out, (if fmt then "{\n" else "{") + JoinedPairs(pairs, depth + 1, fmt)
                       + (if fmt then Tabs(depth) else "") + "}")
  {
    hide JoinedPairs, PairRoom, PairText;
    out := new char[len];
    var ptr: nat := Copy(out, 0, "{");
    if fmt { ptr := Copy(out, ptr, "\n"); }
    out[ptr] := NUL;
    ghost var w := (if fmt then "{\n" else "{") + JoinedPairs(pairs, depth + 1, fmt);
    assert out[..ptr] == if fmt then "{\n" else "{";
    assert pairs[0..] == pairs;
    for i := 0 to |pairs|
      invariant ptr + PairRoom(pairs[i..], depth + 1, fmt) + (if fmt then depth else 0) + 4 <= out.Length
      invariant out[..ptr] + JoinedPairs(pairs[i..], depth + 1, fmt) == w
    {
      UnfoldPair(pairs, i, depth + 1, fmt);
      ptr := PutPair(out, ptr, pairs[i], i == |pairs| - 1, depth + 1, fmt);
    }
    NoPairs(depth + 1, fmt);
    assert pairs[|pairs|..] == [];
    FinishObject(out, ptr, w, depth, fmt);
  }

  // The closing tabs and brace of print_object.
  method FinishObject(out: array<char>, ptr: nat, ghost w: string, depth: nat, fmt: bool)
    requires ptr + (if fmt then depth else 0) + 1 < out.Length
    requires out[..ptr] == w && NUL !in w
    modifies out
    ensures Holds(out, w + (if fmt then Tabs(depth) else "") + "}")
  {
    var end := ptr;
    if fmt {
      PutTabs(out, ptr, depth);
      end := end + depth;
    }
    end := Copy(out, end, "}");
    out[end] := NUL;
    assert out[..end] == w + (if fmt then Tabs(depth) else "") + "}";
  }

  lemma NoPairs(depth: nat, fmt: bool)
    ensures JoinedPairs([], depth, fmt) == ""
  {}

  // The body of that loop: one "name : value" pair.
  method PutPair(out: array<char>, ptr: nat, p: (string, string), last: bool, depth: nat, fmt: bool)
    returns (end: nat)
    requires ptr + |p.0| + |p.1| + 2 + (if fmt then 2 + depth else 0) < out.Length
    modifies out
    ensures end == ptr + |PairText(p, last, depth, fmt)|
    ensures end <= ptr + |p.0| + |p.1| + 2 + (if fmt then 2 + depth else 0)
    ensures out[..end] == old(out[..ptr]) + PairText(p, last, depth, fmt)
  {
    PairTextParts(p, last, depth, fmt);
    hide PairText, NameText;
    ghost var was, name := out[..ptr], NameText(p.0, depth, fmt);
    ghost var comma, line := if last then "" else ",", if fmt then "\n" else "";
    end := PutName(out, ptr, p.0, depth, fmt);
    StrCpy(out, end, p.1);
    end := end + |p.1|;
    if !last { end := Copy(out, end, ","); }
    assert out[..end] == was + name + p.1 + comma;
    if fmt { end := Copy(out, end, "\n"); }
    assert out[..end] == was + name + p.1 + comma + line;
    out[end] := NUL;
    RegroupFive(was, name, p.1, comma, line);
  }

  function NameText(name: string, depth: nat, fmt: bool): (r: string)
    ensures |r| == |name| + 1 + if fmt then 1 + depth else 0
  {
    (if fmt then Tabs(depth) else "") + name + (if fmt then ":\t" else ":")
  }

  lemma RegroupFive(a: string, b: string, c: string, d: string, e: string)
    ensures a + b + c + d + e == a + (b + (c + d + e))
  {}

  lemma PairTextParts(p: (string, string), last: bool, depth: nat, fmt: bool)
    ensures PairText(p, last, depth, fmt)
      == NameText(p.0, depth, fmt) + (p.1 + (if last then "" else ",") + (if fmt then "\n" else ""))
  {}

  method PutName(out: array<char>, ptr: nat, name: string, depth: nat, fmt: bool) returns (end: nat)
    requires ptr + |NameText(name, depth, fmt)| < out.Length
    modifies out
    ensures end == ptr + |NameText(name, depth, fmt)|
    ensures out[..end] == old(out[..ptr]) + NameText(name, depth, fmt)
  {
    hide Tabs;
    ghost var before := out[..ptr];
    if fmt {
      PutTabs(out, ptr, depth);
      StrCpy(out, ptr + depth, name);
      end := Copy(out, ptr + depth + |name|, ":");
      end := Copy(out, end, "\t");
      assert out[..end] == before + (Tabs(depth) + name + ":\t");
    } else {
      StrCpy(out, ptr, name);
      end := Copy(out, ptr + |name|, ":");
      assert out[..end] == before + (name + ":");
    }
    NameTextIs(name, depth, fmt);
  }

  lemma NameTextIs(name: string, depth: nat, fmt: bool)
    ensures NameText(name, depth, fmt) == if fmt then Tabs(depth) + name + ":\t" else name + ":"
  {}
}
