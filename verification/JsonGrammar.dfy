/** What cJSON's parser accepts, as functions of a text and a position. */
module JsonGrammar {
  import opened Bytes
  import opened JsonText

  datatype ParseResult<+T> =
    | Ok(value: T, end: nat)   // the item, and where the parser stopped
    | Err(ep: nat)             // NULL; ep is the error position

  // A C string read at any position: its terminator, and whatever lies behind it, reads as NUL.
  function At(t: string, i: nat): char { if i < |t| then t[i] else NUL }

  function Left(t: string, i: nat): nat { if i < |t| then |t| - i else 0 }

  function Skip(t: string, i: nat): (j: nat)
    ensures i <= j
    decreases Left(t, i)
  {
    if At(t, i) != NUL && At(t, i) <= ' ' then Skip(t, i + 1) else i
  }

  predicate IsDigit(c: char) { '0' <= c <= '9' }

  function DigitValue(c: char): nat
    requires IsDigit(c)
  {
    (c - '0') as int
  }

  // ---------- numbers ----------

  // Reads digits from i, appending them to acc.
  function DigitRun(t: string, i: nat, acc: nat): (r: (nat, nat))
    ensures i <= r.1
    decreases Left(t, i)
  {
    if IsDigit(At(t, i)) then DigitRun(t, i + 1, acc * 10 + DigitValue(t[i])) else (acc, i)
  }

  function Signed(negative: bool, n: int): int { if negative then -n else n }

  function SignEnd(t: string, i: nat): nat { if At(t, i) == '-' then i + 1 else i }

  function IntegerPart(t: string, i: nat): (r: (nat, nat))
    ensures i <= r.1
  {
    var z := if At(t, i) == '0' then i + 1 else i;
    if '1' <= At(t, z) <= '9' then DigitRun(t, z, 0) else (0, z)
  }

  function Fraction(t: string, i: nat, n: nat): (r: (nat, nat))
    ensures i <= r.1
  {
    if At(t, i) == '.' && IsDigit(At(t, i + 1)) then DigitRun(t, i + 1, n) else (n, i)
  }

  // The exponent after 'e' or 'E': its value and where it ends.
  function Exponent(t: string, i: nat): (r: (int, nat))
    ensures i <= r.1
  {
    if At(t, i) == 'e' || At(t, i) == 'E' then
      var s := if At(t, i + 1) == '+' || At(t, i + 1) == '-' then i + 2 else i + 1;
      var (m, e) := DigitRun(t, s, 0);
      (Signed(At(t, i + 1) == '-', m), e)
    else (0, i)
  }

  function ParseNumber(t: string, i: nat): (r: ParseResult<Json>)
    ensures r.Ok? && (At(t, i) == '-' || IsDigit(At(t, i)) ==> i < r.end)
  {
    var (whole, j) := IntegerPart(t, SignEnd(t, i));
    var (n, k) := Fraction(t, j, whole);
    var scale := if k == j then 0 else j + 1 - k;   // minus the number of fraction digits
    var (sub, e) := Exponent(t, k);
    Ok(Number(Signed(At(t, i) == '-', n), scale + sub), e)
  }

  // ---------- strings ----------

  function HexValue(c: char): (v: int)
    ensures -1 <= v < 16
  {
    if '0' <= c <= '9' then (c - '0') as int
    else if 'A' <= c <= 'F' then 10 + (c - 'A') as int
    else if 'a' <= c <= 'f' then 10 + (c - 'a') as int
    else -1
  }

  // Four hexadecimal digits; 0 when one of them is not a digit.
  function Hex4(t: string, i: nat): (r: nat)
    ensures r < 0x10000
  {
    var a, b, c, d := HexValue(At(t, i)), HexValue(At(t, i + 1)), HexValue(At(t, i + 2)), HexValue(At(t, i + 3));
    if a < 0 || b < 0 || c < 0 || d < 0 then 0 else ((a * 16 + b) * 16 + c) * 16 + d
  }

  // The UTF-8 bytes of a code point.
  function Utf8(uc: nat): string
    requires uc < 0x110000
  {
    if uc < 0x80 then [uc as char]
    else if uc < 0x800 then [(0xC0 + uc / 0x40) as char, (0x80 + uc % 0x40) as char]
    else if uc < 0x10000 then
      [(0xE0 + uc / 0x1000) as char, (0x80 + uc / 0x40 % 0x40) as char, (0x80 + uc % 0x40) as char]
    else
      [(0xF0 + uc / 0x40000) as char, (0x80 + uc / 0x1000 % 0x40) as char,
       (0x80 + uc / 0x40 % 0x40) as char, (0x80 + uc % 0x40) as char]
  }

  // The escape whose letter is at p: what it stands for, and the position of its last character.
  function Escape(t: string, p: nat): (r: (string, nat))
    ensures p <= r.1
  {
    match At(t, p)
    case 'b' => ([8 as char], p)
    case 'f' => ([12 as char], p)
    case 'n' => (['\n'], p)
    case 'r' => (['\r'], p)
    case 't' => (['\t'], p)
    case 'u' => UnicodeEscape(t, p)
    case c => ([c], p)
  }

  function UnicodeEscape(t: string, p: nat): (r: (string, nat))
    ensures p <= r.1
  {
    var uc := Hex4(t, p + 1);
    if 0xDC00 <= uc <= 0xDFFF || uc == 0 then ("", p + 4)
    else if 0xD800 <= uc <= 0xDBFF then
      if At(t, p + 5) != '\\' || At(t, p + 6) != 'u' then ("", p + 4)
      else
        var uc2 := Hex4(t, p + 7);
        if uc2 < 0xDC00 || uc2 > 0xDFFF then ("", p + 10)
        else (Utf8(0x10000 + uc % 0x400 * 0x400 + uc2 % 0x400), p + 10)
    else (Utf8(uc), p + 4)
  }

  // The characters from i up to the closing quote (or the end of the text).
  function Unescape(t: string, i: nat): (r: (string, nat))
    ensures i <= r.1
    decreases Left(t, i)
  {
    if At(t, i) == '\"' || At(t, i) == NUL then ("", i)
    else if At(t, i) != '\\' then
      var (rest, e) := Unescape(t, i + 1);
      ([t[i]] + rest, e)
    else
      var (chunk, last) := Escape(t, i + 1);
      var (rest, e) := Unescape(t, last + 1);
      (chunk + rest, e)
  }

  function ParseString(t: string, i: nat): (r: ParseResult<string>)
    ensures r.Ok? ==> i < r.end
  {
    if At(t, i) != '\"' then Err(i)
    else
      var (s, e) := Unescape(t, i + 1);
      Ok(s, if At(t, e) == '\"' then e + 1 else e)
  }

  // ---------- values ----------

  function ParseValue(t: string, i: nat): (r: ParseResult<Json>)
    ensures r.Ok? ==> i < r.end
    decreases Left(t, i), 1
  {
    if StartsWith(t, i, "null") then Ok(Null, i + 4)
    else if StartsWith(t, i, "false") then Ok(False, i + 5)
    else if StartsWith(t, i, "true") then Ok(True, i + 4)
    else if At(t, i) == '\"' then
      match ParseString(t, i)
      case Err(ep) => Err(ep)
      case Ok(s, e) => Ok(Str(s), e)
    else if At(t, i) == '-' || IsDigit(At(t, i)) then ParseNumber(t, i)
    else if At(t, i) == '[' then
      var j := Skip(t, i + 1);
      if At(t, j) == ']' then Ok(Array([]), j + 1)
      else
        match ParseItems(t, j)
        case Err(ep) => Err(ep)
        case Ok(items, e) => Ok(Array(items), e)
    else if At(t, i) == '{' then
      var j := Skip(t, i + 1);
      if At(t, j) == '}' then Ok(Object([]), j + 1)
      else
        match ParseMembers(t, j)
        case Err(ep) => Err(ep)
        case Ok(ms, e) => Ok(Object(ms), e)
    else Err(i)
  }

  // The elements of a non-empty array from j on, up to and including the closing bracket.
  function ParseItems(t: string, j: nat): (r: ParseResult<seq<Json>>)
    ensures r.Ok? ==> j < r.end
    decreases Left(t, j), 2
  {
    match ParseValue(t, Skip(t, j))
    case Err(ep) => Err(ep)
    case Ok(v, e) =>
      var k := Skip(t, e);
      if At(t, k) == ',' then
        match ParseItems(t, k + 1)
        case Err(ep) => Err(ep)
        case Ok(rest, end) => Ok([v] + rest, end)
      else if At(t, k) == ']' then Ok([v], k + 1)
      else Err(k)
  }

  // One "name : value" pair.
  function ParseMember(t: string, j: nat): (r: ParseResult<Member>)
    ensures r.Ok? ==> j < r.end
    decreases Left(t, j), 2
  {
    match ParseString(t, Skip(t, j))
    case Err(ep) => Err(ep)
    case Ok(name, e) =>
      var c := Skip(t, e);
      if At(t, c) != ':' then Err(c)
      else
        match ParseValue(t, Skip(t, c + 1))
        case Err(ep) => Err(ep)
        case Ok(v, end) => Ok(Member(name, v), end)
  }

  function ParseMembers(t: string, j: nat): (r: ParseResult<seq<Member>>)
    ensures r.Ok? ==> j < r.end
    decreases Left(t, j), 3
  {
    match ParseMember(t, j)
    case Err(ep) => Err(ep)
    case Ok(m, e) =>
      var k := Skip(t, e);
      if At(t, k) == ',' then
        match ParseMembers(t, k + 1)
        case Err(ep) => Err(ep)
        case Ok(rest, end) => Ok([m] + rest, end)
      else if At(t, k) == '}' then Ok([m], k + 1)
      else Err(k)
  }
}
