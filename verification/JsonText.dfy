/** The values cJSON handles and the text its printer produces for them. */
module JsonText {

  const NUL: char := '\0'

  // A cJSON item. The child/next links of an array or object are the sequence of its
  // children. A number is held exactly, as mantissa * 10^exponent.
  datatype Json =
    | Null
    | False
    | True
    | Number(mantissa: int, exponent: int)
    | Str(chars: string)
    | Array(items: seq<Json>)
    | Object(members: seq<Member>)

  datatype Member = Member(name: string, value: Json)

  predicate IsInt32(n: int) { -0x8000_0000 <= n <= 0x7fff_ffff }

  // The trees whose printing needs no floating point: NUL-free strings, int-range integers.
  ghost predicate Printable(v: Json)
    decreases v
  {
    match v
    case Null => true
    case False => true
    case True => true
    case Number(m, e) => IsInt32(m) && e == 0
    case Str(s) => NUL !in s
    case Array(items) => forall i :: 0 <= i < |items| ==> Printable(items[i])
    case Object(ms) => forall i :: 0 <= i < |ms| ==> NUL !in ms[i].name && Printable(ms[i].value)
  }

  // ---------- strings ----------

  function HexDigit(n: nat): (c: char)
    requires n < 16
  {
    if n < 10 then '0' + n as char else 'a' + (n - 10) as char
  }

  function EscapeChar(c: char): (r: string)
  {
    if c == '\"' then "\\\""
    else if c == '\\' then "\\\\"
    else if c == 8 as char then "\\b"
    else if c == 12 as char then "\\f"
    else if c == '\n' then "\\n"
    else if c == '\r' then "\\r"
    else if c == '\t' then "\\t"
    else if c < 32 as char then ['\\', 'u', '0', '0', HexDigit(c as int / 16), HexDigit(c as int % 16)]
    else [c]
  }

  function EscapeText(s: string): string
  {
    if s == "" then "" else EscapeChar(s[0]) + EscapeText(s[1..])
  }

  function Quoted(s: string): string { "\"" + EscapeText(s) + "\"" }

  // ---------- numbers ----------

  function DigitChar(n: nat): char
    requires n < 10
  {
    '0' + n as char
  }

  function Digits(n: nat): (r: string)
    ensures r != ""
    ensures forall c :: c in r ==> '0' <= c <= '9'
  {
    if n < 10 then [DigitChar(n)] else Digits(n / 10) + [DigitChar(n % 10)]
  }

  function Decimal(n: int): string
  {
    if n < 0 then "-" + Digits(-n) else Digits(n)
  }

  // ---------- values ----------

  function Tabs(n: nat): (r: string)
    ensures |r| == n
    ensures forall c :: c in r ==> c == '\t'
  {
    if n == 0 then "" else "\t" + Tabs(n - 1)
  }

  // The text of a value at a nesting depth, formatted (fmt) or not.
  function Text(v: Json, depth: nat, fmt: bool): string
    decreases v, 0
  {
    match v
    case Null => "null"
    case False => "false"
    case True => "true"
    case Number(m, _) => Decimal(m)
    case Str(s) => Quoted(s)
    case Array(items) =>
      if items == [] then "[]" else "[" + ItemsText(items, depth + 1, fmt) + "]"
    case Object(ms) =>
      if ms == [] then
        if fmt then "{\n" + Tabs(if depth == 0 then 0 else depth - 1) + "}" else "{}"
      else if fmt then "{\n" + MembersText(ms, depth + 1, fmt) + Tabs(depth) + "}"
      else "{" + MembersText(ms, depth + 1, fmt) + "}"
  }

  function ItemsText(items: seq<Json>, depth: nat, fmt: bool): string
    requires items != []
    decreases items, 1
  {
    var first := Text(items[0], depth, fmt);
    if |items| == 1 then first
    else first + (if fmt then ", " else ",") + ItemsText(items[1..], depth, fmt)
  }

  function MemberText(m: Member, depth: nat, fmt: bool): string
    decreases m, 1
  {
    if fmt then Tabs(depth) + Quoted(m.name) + ":\t" + Text(m.value, depth, fmt)
    else Quoted(m.name) + ":" + Text(m.value, depth, fmt)
  }

  function MembersText(ms: seq<Member>, depth: nat, fmt: bool): string
    requires ms != []
    decreases ms, 1
  {
    var first := MemberText(ms[0], depth, fmt);
    if |ms| == 1 then first + (if fmt then "\n" else "")
    else first + (if fmt then ",\n" else ",") + MembersText(ms[1..], depth, fmt)
  }
}
