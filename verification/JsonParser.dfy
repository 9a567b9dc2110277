/** cJSON's recursive parser: loops that move a position over the text and fill in items. */
module JsonParser {
  import opened Bytes
  import opened JsonText
  import opened JsonGrammar
  import opened JsonStrings

  method SkipSpace(t: string, i: nat) returns (j: nat)
    ensures j == Skip(t, i)
  {
    j := i;
    while At(t, j) != NUL && At(t, j) <= ' '
      invariant i <= j && Skip(t, j) == Skip(t, i)
      decreases Left(t, j)
    {
      j := j + 1;
    }
  }

  // The digit loops of parse_number.
  method ReadDigits(t: string, i: nat, acc: nat) returns (n: nat, end: nat)
    ensures (n, end) == DigitRun(t, i, acc)
  {
    n, end := acc, i;
    while '0' <= At(t, end) <= '9'
      invariant i <= end && DigitRun(t, end, n) == DigitRun(t, i, acc)
      decreases Left(t, end)
    {
      n := n * 10 + (t[end] - '0') as int;
      end := end + 1;
    }
  }

  // parse_number; the value is kept as mantissa and power of ten.
  method ReadNumber(t: string, i: nat) returns (r: ParseResult<Json>)
    ensures r == ParseNumber(t, i)
  {
    hide DigitRun, At;
    var num: nat, n: nat := i, 0;
    var sign: int, scale: int := 1, 0;
    if At(t, num) == '-' { sign := -1; num := num + 1; }
    if At(t, num) == '0' { num := num + 1; }
    if '1' <= At(t, num) <= '9' { n, num := ReadDigits(t, num, 0); }
    assert (n, num) == IntegerPart(t, SignEnd(t, i));
    ghost var whole, j := n, num;
    if At(t, num) == '.' && '0' <= At(t, num + 1) <= '9' {
      var start := num + 1;
      n, num := ReadDigits(t, start, n);
      scale := start - num;
    }
    assert (n, num) == Fraction(t, j, whole);
    var exponent: int;
    exponent, num := ReadExponent(t, num);
    r := Ok(Number(sign * n, scale + exponent), num);
  }

  method ReadExponent(t: string, i: nat) returns (exponent: int, num: nat)
    ensures (exponent, num) == Exponent(t, i)
  {
    var subscale: nat, signsubscale: int := 0, 1;
    num := i;
    if At(t, num) == 'e' || At(t, num) == 'E' {
      num := num + 1;
      if At(t, num) == '+' { num := num + 1; }
      else if At(t, num) == '-' { signsubscale := -1; num := num + 1; }
      subscale, num := ReadDigits(t, num, 0);
    }
    exponent := subscale * signsubscale;
  }

  // parse_string: the counting loop.
  method MeasureString(t: string, i: nat) returns (len: nat)
    ensures len == Sizing(t, i).0
  {
    len := 0;
    var ptr := i;
    while At(t, ptr) != '\"' && At(t, ptr) != NUL
      invariant Sizing(t, i).0 == len + Sizing(t, ptr).0
      decreases Left(t, ptr)
    {
      len := len + 1;
      if At(t, ptr) == '\\' { ptr := ptr + 1; }
      ptr := ptr + 1;
    }
  }

  // parse_string: the unescaping loop.
  method ReadBody(t: string, i: nat) returns (out: string, ptr: nat)
    ensures (out, ptr) == Unescape(t, i)
  {
    hide Unescape, After, Escape;
    ptr, out := i, "";
    assert After("", Unescape(t, ptr)) == Unescape(t, ptr) by { AfterNothing(Unescape(t, ptr)); }
    while At(t, ptr) != '\"' && At(t, ptr) != NUL
      invariant i <= ptr && Unescape(t, i) == After(out, Unescape(t, ptr))
      decreases Left(t, ptr)
    {
      UnescapeUnfold(t, ptr);
      var chunk: string;
      if At(t, ptr) != '\\' {
        chunk := [t[ptr]];
      } else {
        ptr := ptr + 1;
        chunk, ptr := ReadEscape(t, ptr);
      }
      ptr := ptr + 1;
      AfterTwice(out, chunk, Unescape(t, ptr));
      out := out + chunk;
    }
    UnescapeUnfold(t, ptr);
    assert After(out, ("", ptr)) == (out, ptr) by { AfterEnd(out, ptr); }
  }

  // parse_string. If the second pass ends by where the first one did, the text and its terminator fit the size allocated.
  method ReadString(t: string, i: nat) returns (r: ParseResult<string>, size: nat)
    ensures r == ParseString(t, i)
    ensures r.Ok? ==> size == Sizing(t, i + 1).0 + 1
    ensures r.Ok? && Unescape(t, i + 1).1 <= Sizing(t, i + 1).1 ==> |r.value| + 1 <= size
  {
    hide Unescape, Sizing;
    if At(t, i) != '\"' { return Err(i), 0; }
    var len := MeasureString(t, i + 1);
    size := len + 1;
    var out, ptr := ReadBody(t, i + 1);
    if ptr <= Sizing(t, i + 1).1 { EndsInTime(t, i + 1, 0); }
    if At(t, ptr) == '\"' { ptr := ptr + 1; }
    r := Ok(out, ptr);
  }

  // The switch of parse_string on the letter after a backslash.
  method ReadEscape(t: string, p: nat) returns (chunk: string, end: nat)
    ensures (chunk, end) == Escape(t, p)
  {
    chunk, end := "", p;
    match At(t, p)
    case 'b' => chunk := [8 as char];
    case 'f' => chunk := [12 as char];
    case 'n' => chunk := "\n";
    case 'r' => chunk := "\r";
    case 't' => chunk := "\t";
    case 'u' =>
      var uc := Hex4(t, end + 1);
      end := end + 4;
      if (uc >= 0xDC00 && uc <= 0xDFFF) || uc == 0 { return; }
      if uc >= 0xD800 && uc <= 0xDBFF {
        if At(t, end + 1) != '\\' || At(t, end + 2) != 'u' { return; }
        var uc2 := Hex4(t, end + 3);
        end := end + 6;
        if uc2 < 0xDC00 || uc2 > 0xDFFF { return; }
        uc := 0x10000 + uc % 0x400 * 0x400 + uc2 % 0x400;
      }
      chunk := EncodeUtf8(uc);
    case c => chunk := [c];
  }

  // The transcoding switch: the bytes are written last one first, six bits at a time.
  method EncodeUtf8(code: nat) returns (out: string)
    requires 0 < code < 0x110000
    ensures out == Utf8(code)
  {
    var uc := code;
    var len := if uc < 0x80 then 1 else if uc < 0x800 then 2 else if uc < 0x10000 then 3 else 4;
    var bytes := new char[len];
    Sixths(code);
    if len >= 4 { bytes[3] := (0x80 + uc % 0x40) as char; uc := uc / 0x40; }
    if len >= 3 { bytes[2] := (0x80 + uc % 0x40) as char; uc := uc / 0x40; }
    if len >= 2 { bytes[1] := (0x80 + uc % 0x40) as char; uc := uc / 0x40; }
    var mark := if len == 1 then 0 else if len == 2 then 0xC0 else if len == 3 then 0xE0 else 0xF0;
    bytes[0] := (mark + uc) as char;
    out := bytes[..];
  }

  lemma Sixths(code: nat)
    requires code < 0x110000
    ensures code / 0x40 / 0x40 == code / 0x1000 && code / 0x40 / 0x40 / 0x40 == code / 0x40000 < 8
  {}

  // parse_value
  method ReadValue(t: string, i: nat) returns (r: ParseResult<Json>)
    ensures r == ParseValue(t, i)
    decreases Left(t, i), 1
  {
    if StartsWith(t, i, "null") { r := Ok(Null, i + 4); }
    else if StartsWith(t, i, "false") { r := Ok(False, i + 5); }
    else if StartsWith(t, i, "true") { r := Ok(True, i + 4); }
    else if At(t, i) == '\"' {
      var s, _ := ReadString(t, i);
      r := Ok(Str(s.value), s.end);
    }
    else if At(t, i) == '-' || '0' <= At(t, i) <= '9' { r := ReadNumber(t, i); }
    else if At(t, i) == '[' { r := ReadArray(t, i); }
    else if At(t, i) == '{' { r := ReadObject(t, i); }
    else { r := Err(i); }
  }

  // ---------- arrays ----------

  function Prepend<T>(done: seq<T>, rest: ParseResult<seq<T>>): ParseResult<seq<T>> {
    match rest
    case Ok(more, end) => Ok(done + more, end)
    case Err(ep) => Err(ep)
  }

  // What is left to read after an element, at k.
  function ItemsTail(t: string, k: nat): ParseResult<seq<Json>> {
    if At(t, k) == ',' then ParseItems(t, k + 1)
    else if At(t, k) == ']' then Ok([], k + 1)
    else Err(k)
  }

  lemma ItemsByTail(t: string, j: nat)
    ensures ParseItems(t, j) ==
      match ParseValue(t, Skip(t, j))
      case Err(ep) => Err(ep)
      case Ok(v, e) => Prepend([v], ItemsTail(t, Skip(t, e)))
  {
    hide ParseValue;
    var v := ParseValue(t, Skip(t, j));
    if v.Ok? { assert [v.value] + [] == [v.value]; }
  }

  lemma NoKeyword(t: string, i: nat)
    requires At(t, i) == '[' || At(t, i) == '{'
    ensures !StartsWith(t, i, "null") && !StartsWith(t, i, "false") && !StartsWith(t, i, "true")
  {
    assert forall w :: StartsWith(t, i, w) && w != "" ==> w[0] == t[i..i + |w|][0];
  }

  lemma ArrayValue(t: string, i: nat)
    requires At(t, i) == '['
    ensures var j := Skip(t, i + 1);
      ParseValue(t, i) ==
        if At(t, j) == ']' then Ok(Array([]), j + 1)
        else match ParseItems(t, j) case Err(ep) => Err(ep) case Ok(items, e) => Ok(Array(items), e)
  {
    hide ParseItems;
    NoKeyword(t, i);
  }

  // parse_array
  method ReadArray(t: string, i: nat) returns (r: ParseResult<Json>)
    requires At(t, i) == '['
    ensures r == ParseValue(t, i)
    decreases Left(t, i), 0
  {
    ArrayValue(t, i);
    hide ParseItems, ParseValue;
    var value := SkipSpace(t, i + 1);
    if At(t, value) == ']' { return Ok(Array([]), value + 1); }
    var items := ReadItems(t, value);
    r := if items.Err? then Err(items.ep) else Ok(Array(items.value), items.end);
  }

  // The elements of a non-empty array, and the closing bracket.
  method ReadItems(t: string, start: nat) returns (r: ParseResult<seq<Json>>)
    ensures r == ParseItems(t, start)
    decreases Left(t, start), 2
  {
    hide ParseItems, ItemsTail, ParseValue, Skip;
    ItemsByTail(t, start);
    var value := SkipSpace(t, start);
    var child := ReadValue(t, value);
    if child.Err? { return Err(child.ep); }
    var items: seq<Json> := [child.value];
    value := SkipSpace(t, child.end);
    while At(t, value) == ','
      invariant start < value && ParseItems(t, start) == Prepend(items, ItemsTail(t, value))
      decreases Left(t, value)
    {
      TailUnfold(t, value);
      ItemsByTail(t, value + 1);
      value := SkipSpace(t, value + 1);
      child := ReadValue(t, value);
      if child.Err? { return Err(child.ep); }
      PrependTwice(items, child.value, ItemsTail(t, Skip(t, child.end)));
      items := items + [child.value];
      value := SkipSpace(t, child.end);
    }
    TailUnfold(t, value);
    assert items + [] == items;
    r := if At(t, value) == ']' then Ok(items, value + 1) else Err(value);
  }

  lemma PrependTwice<T>(done: seq<T>, x: T, rest: ParseResult<seq<T>>)
    ensures Prepend(done, Prepend([x], rest)) == Prepend(done + [x], rest)
  {
    if rest.Ok? { assert done + ([x] + rest.value) == done + [x] + rest.value; }
  }

  lemma TailUnfold(t: string, k: nat)
    ensures ItemsTail(t, k) ==
      if At(t, k) == ',' then ParseItems(t, k + 1)
      else if At(t, k) == ']' then Ok([], k + 1) else Err(k)
  {}

  // ---------- objects ----------

  function MembersTail(t: string, k: nat): ParseResult<seq<Member>> {
    if At(t, k) == ',' then ParseMembers(t, k + 1)
    else if At(t, k) == '}' then Ok([], k + 1)
    else Err(k)
  }

  lemma MembersByTail(t: string, j: nat)
    ensures ParseMembers(t, j) ==
      match ParseMember(t, j)
      case Err(ep) => Err(ep)
      case Ok(m, e) => Prepend([m], MembersTail(t, Skip(t, e)))
  {
    hide ParseMember;
    var m := ParseMember(t, j);
    if m.Ok? { assert [m.value] + [] == [m.value]; }
  }

  lemma MembersTailUnfold(t: string, k: nat)
    ensures MembersTail(t, k) ==
      if At(t, k) == ',' then ParseMembers(t, k + 1)
      else if At(t, k) == '}' then Ok([], k + 1) else Err(k)
  {}

  // The name, colon and value that parse_object reads for the first and for each later member.
  method ReadMember(t: string, j: nat) returns (r: ParseResult<Member>)
    ensures r == ParseMember(t, j)
    decreases Left(t, j), 2
  {
    hide ParseString, ParseValue, Skip, Sizing, Unescape;
    var value := SkipSpace(t, j);
    var name, _ := ReadString(t, value);
    if name.Err? { return Err(name.ep); }
    value := SkipSpace(t, name.end);
    if At(t, value) != ':' { return Err(value); }
    value := SkipSpace(t, value + 1);
    var child := ReadValue(t, value);
    if child.Err? { return Err(child.ep); }
    r := Ok(Member(name.value, child.value), child.end);
  }

  lemma ObjectValue(t: string, i: nat)
    requires At(t, i) == '{'
    ensures var j := Skip(t, i + 1);
      ParseValue(t, i) ==
        if At(t, j) == '}' then Ok(Object([]), j + 1)
        else match ParseMembers(t, j) case Err(ep) => Err(ep) case Ok(ms, e) => Ok(Object(ms), e)
  {
    hide ParseMembers;
    NoKeyword(t, i);
  }

  // parse_object
  method ReadObject(t: string, i: nat) returns (r: ParseResult<Json>)
    requires At(t, i) == '{'
    ensures r == ParseValue(t, i)
    decreases Left(t, i), 0
  {
    ObjectValue(t, i);
    hide ParseMembers, ParseValue;
    var value := SkipSpace(t, i + 1);
    if At(t, value) == '}' { return Ok(Object([]), value + 1); }
    var members := ReadMembers(t, value);
    r := if members.Err? then Err(members.ep) else Ok(Object(members.value), members.end);
  }

  // The members of a non-empty object, and the closing brace.
  method ReadMembers(t: string, start: nat) returns (r: ParseResult<seq<Member>>)
    ensures r == ParseMembers(t, start)
    decreases Left(t, start), 3
  {
    hide ParseMembers, MembersTail, ParseMember, Skip;
    MembersByTail(t, start);
    var member := ReadMember(t, start);
    if member.Err? { return Err(member.ep); }
    var members: seq<Member> := [member.value];
    var value := SkipSpace(t, member.end);
    while At(t, value) == ','
      invariant start < value && ParseMembers(t, start) == Prepend(members, MembersTail(t, value))
      decreases Left(t, value)
    {
      MembersTailUnfold(t, value);
      MembersByTail(t, value + 1);
      member := ReadMember(t, value + 1);
      if member.Err? { return Err(member.ep); }
      PrependTwice(members, member.value, MembersTail(t, Skip(t, member.end)));
      members := members + [member.value];
      value := SkipSpace(t, member.end);
    }
    MembersTailUnfold(t, value);
    assert members + [] == members;
    r := if At(t, value) == '}' then Ok(members, value + 1) else Err(value);
  }

  // cJSON_ParseWithOpts: the item and where it ends, or nothing.
  method Parse(t: string, requireTerminator: bool) returns (r: ParseResult<Json>)
    ensures var p := ParseValue(t, Skip(t, 0));
      if p.Ok? && requireTerminator then
        var end := Skip(t, p.end);
        r == if At(t, end) == NUL then Ok(p.value, end) else Err(end)
      else r == p
  {
    hide ParseValue;
    var start := SkipSpace(t, 0);
    r := ReadValue(t, start);
    if r.Ok? && requireTerminator {
      var end := SkipSpace(t, r.end);
      r := if At(t, end) != NUL then Err(end) else Ok(r.value, end);
    }
  }
}
