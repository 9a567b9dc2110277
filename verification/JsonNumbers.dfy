/** cJSON's numbers, character codes and texts against RFC 8259 and RFC 3629. */
module JsonNumbers {
  import opened Bytes
  import opened JsonText
  import opened JsonGrammar
  import opened JsonStrings
  import opened JsonRoundTrip
  import opened JsonStandard

  // ---------- section 6 of RFC 8259 ----------

  // exp is NoExponent, or e or E, a sign or none, and digits.
  datatype ExponentPart = NoExponent | ExponentPart(letter: char, sign: string, digits: string)

  datatype NumberParts = NumberParts(negative: bool, whole: string, fraction: string, exponent: ExponentPart)

  predicate AllDigits(w: string) { forall c :: c in w ==> IsDigit(c) }

  // The whole part has no leading zero; there is a fraction only with digits.
  predicate IsNumber(n: NumberParts) {
    && AllDigits(n.whole) && (n.whole == "0" || (n.whole != "" && n.whole[0] != '0')) && AllDigits(n.fraction)
    && match n.exponent
       case NoExponent => true
       case ExponentPart(letter, sign, digits) =>
         (letter == 'e' || letter == 'E') && (sign == "" || sign == "+" || sign == "-") && digits != "" && AllDigits(digits)
  }

  function MinusText(negative: bool): string { if negative then "-" else "" }

  function FractionText(fraction: string): string { if fraction == "" then "" else "." + fraction }

  function ExponentText(e: ExponentPart): string {
    match e case NoExponent => "" case ExponentPart(letter, sign, digits) => [letter] + (sign + digits)
  }

  function NumberText(n: NumberParts): string {
    MinusText(n.negative) + (n.whole + (FractionText(n.fraction) + ExponentText(n.exponent)))
  }

  function WithSign(negative: bool, n: int): int { if negative then 0 - n else n }

  // The number is mantissa times ten to the power.
  function Mantissa(n: NumberParts): int
    requires IsNumber(n)
  {
    var digits := n.whole + n.fraction;
    WithSign(n.negative, Fold(digits, 0))
  }

  function PowerOfTen(n: NumberParts): int
    requires IsNumber(n)
  {
    -|n.fraction| +
    match n.exponent
    case NoExponent => 0
    case ExponentPart(_, sign, digits) => WithSign(sign == "-", Fold(digits, 0))
  }

  lemma {:induction false} FoldAppend(a: string, b: string, acc: nat)
    requires AllDigits(a) && AllDigits(b)
    ensures AllDigits(a + b) && Fold(a + b, acc) == Fold(b, Fold(a, acc))
    decreases |a|
  {
    if a == "" {
      assert a + b == b;
    } else {
      assert (a + b)[1..] == a[1..] + b;
      FoldAppend(a[1..], b, acc * 10 + DigitValue(a[0]));
    }
  }

  lemma WholeReads(t: string, j: nat, w: string)
    requires AllDigits(w) && (w == "0" || (w != "" && w[0] != '0'))
    requires StartsWith(t, j, w) && !IsDigit(At(t, j + |w|))
    ensures IntegerPart(t, j) == (Fold(w, 0), j + |w|)
  {
    hide StartsWith;
    CharAt(t, j, w, 0);
    if w != "0" {
      assert w[0] in w;
      DigitRunReads(t, j, w, 0);
    }
  }

  lemma FractionReads(t: string, j: nat, w: string, n: nat)
    requires AllDigits(w) && StartsWith(t, j, FractionText(w))
    requires var c := At(t, j + |FractionText(w)|); !IsDigit(c) && c != '.'
    ensures Fraction(t, j, n) == (Fold(w, n), j + |FractionText(w)|)
  {
    hide StartsWith;
    if w != "" {
      CharAt(t, j, "." + w, 0);
      CharAt(t, j, "." + w, 1);
      assert w[0] in w;
      Split(t, j, ".", w);
      DigitRunReads(t, j + 1, w, n);
    }
  }

  lemma ExponentReads(t: string, j: nat, e: ExponentPart)
    requires StartsWith(t, j, ExponentText(e)) && Delimiter(At(t, j + |ExponentText(e)|))
    requires e.ExponentPart? ==>
      (e.letter == 'e' || e.letter == 'E') && (e.sign == "" || e.sign == "+" || e.sign == "-") && e.digits != "" && AllDigits(e.digits)
    ensures Exponent(t, j) ==
      (match e case NoExponent => 0 case ExponentPart(_, sign, digits) => WithSign(sign == "-", Fold(digits, 0)),
       j + |ExponentText(e)|)
  {
    hide StartsWith, DigitRun, Fold;
    if e.ExponentPart? {
      CharAt(t, j, ExponentText(e), 0);
      Split(t, j, [e.letter], e.sign + e.digits);
      Split(t, j + 1, e.sign, e.digits);
      CharAt(t, j + 1, e.sign + e.digits, 0);
      FirstIsDigit(e.digits);
      DigitRunReads(t, j + 1 + |e.sign|, e.digits, 0);
      hide AllDigits, At;
    }
  }

  lemma FirstIsDigit(w: string)
    requires AllDigits(w) && w != ""
    ensures IsDigit(w[0])
  {
    assert w[0] in w;
  }

  // What stands where the parts meet.
  lemma ExponentStarts(t: string, e: nat, x: ExponentPart)
    requires StartsWith(t, e, ExponentText(x)) && Delimiter(At(t, e + |ExponentText(x)|))
    requires x.ExponentPart? ==> x.letter == 'e' || x.letter == 'E'
    ensures !IsDigit(At(t, e)) && At(t, e) != '.'
  {
    hide StartsWith;
    if x.ExponentPart? { CharAt(t, e, ExponentText(x), 0); }
  }

  lemma FractionStarts(t: string, k: nat, fraction: string)
    requires StartsWith(t, k, FractionText(fraction)) && !IsDigit(At(t, k + |FractionText(fraction)|))
    ensures !IsDigit(At(t, k))
    ensures |FractionText(fraction)| == if fraction == "" then 0 else 1 + |fraction|
  {
    hide StartsWith;
    if fraction != "" { CharAt(t, k, FractionText(fraction), 0); }
  }

  lemma SignReads(t: string, i: nat, negative: bool, whole: string)
    requires StartsWith(t, i, MinusText(negative)) && StartsWith(t, i + |MinusText(negative)|, whole)
    requires AllDigits(whole) && whole != ""
    ensures (At(t, i) == '-' <==> negative) && SignEnd(t, i) == i + |MinusText(negative)|
  {
    hide StartsWith;
    CharAt(t, i + |MinusText(negative)|, whole, 0);
    assert whole[0] in whole;
    if negative { CharAt(t, i, "-", 0); }
  }

  lemma PartsRead(t: string, i: nat, whole: nat, j: nat, n: nat, k: nat, sub: int, e: nat)
    requires IntegerPart(t, SignEnd(t, i)) == (whole, j) && Fraction(t, j, whole) == (n, k) && Exponent(t, k) == (sub, e)
    ensures ParseNumber(t, i) ==
      Ok(Number(WithSign(At(t, i) == '-', n), (if k == j then 0 else j + 1 - k) + sub), e)
  {
    hide IntegerPart, Fraction, Exponent;
  }

  // Every number of section 6 of RFC 8259 is read as its sign, digits and power of ten, fraction and exponent
  // included, if no character that could continue it follows.
  lemma NumberReads(t: string, i: nat, n: NumberParts)
    requires IsNumber(n) && StartsWith(t, i, NumberText(n)) && Delimiter(At(t, i + |NumberText(n)|))
    ensures ParseNumber(t, i) == Ok(Number(Mantissa(n), PowerOfTen(n)), i + |NumberText(n)|)
  {
    hide StartsWith, FractionText, ExponentText, MinusText, Fold, IntegerPart, Fraction, Exponent, ParseNumber;
    var minus, fraction, exponent := MinusText(n.negative), FractionText(n.fraction), ExponentText(n.exponent);
    Split(t, i, minus, n.whole + (fraction + exponent));
    var j := i + |minus|;
    Split(t, j, n.whole, fraction + exponent);
    var k := j + |n.whole|;
    Split(t, k, fraction, exponent);
    var e := k + |fraction|;
    SignReads(t, i, n.negative, n.whole);
    ExponentStarts(t, e, n.exponent);
    FractionStarts(t, k, n.fraction);
    WholeReads(t, j, n.whole);
    FractionReads(t, k, n.fraction, Fold(n.whole, 0));
    ExponentReads(t, e, n.exponent);
    FoldAppend(n.whole, n.fraction, 0);
    PartsRead(t, i, Fold(n.whole, 0), k, Fold(n.whole + n.fraction, 0), e, Exponent(t, e).0, i + |NumberText(n)|);
  }

  // ---------- section 3 of RFC 3629 ----------

  predicate Tail(c: char) { 0x80 as char <= c <= 0xBF as char }

  // One character in UTF-8, as section 4 of RFC 3629 has it.
  predicate IsUtf8Char(s: string) {
    match |s|
    case 1 => s[0] <= 0x7F as char
    case 2 => 0xC2 as char <= s[0] <= 0xDF as char && Tail(s[1])
    case 3 =>
      && 0xE0 as char <= s[0] <= 0xEF as char && Tail(s[1]) && Tail(s[2])
      && (s[0] == 0xE0 as char ==> s[1] >= 0xA0 as char) && (s[0] == 0xED as char ==> s[1] <= 0x9F as char)
    case 4 =>
      && 0xF0 as char <= s[0] <= 0xF4 as char && Tail(s[1]) && Tail(s[2]) && Tail(s[3])
      && (s[0] == 0xF0 as char ==> s[1] >= 0x90 as char) && (s[0] == 0xF4 as char ==> s[1] <= 0x8F as char)
    case _ => false
  }

  // The scalar value of a sequence: the low bits of its bytes, six to a tail.
  function Scalar(s: string): int
    requires 1 <= |s| <= 4
  {
    var c := s[0] as int;
    match |s|
    case 1 => c
    case 2 => (c - 0xC0) * 0x40 + Low6(s[1])
    case 3 => ((c - 0xE0) * 0x40 + Low6(s[1])) * 0x40 + Low6(s[2])
    case _ => (((c - 0xF0) * 0x40 + Low6(s[1])) * 0x40 + Low6(s[2])) * 0x40 + Low6(s[3])
  }

  function Low6(c: char): int { c as int - 0x80 }

  // The bytes of a code point, surrogates aside, are one UTF-8 character, and stand for it.
  lemma Utf8Exactly(uc: nat)
    requires uc < 0x110000
    ensures 1 <= |Utf8(uc)| <= 4 && Scalar(Utf8(uc)) == uc
    ensures IsUtf8Char(Utf8(uc)) <==> !(0xD800 <= uc <= 0xDFFF)
  {
    SixBits(uc);
    if uc >= 0x10000 {
      FourBytesOf(uc);
    } else if uc >= 0x800 {
      ThreeBytesOf(uc);
    }
  }

  lemma ThreeBytesOf(uc: nat)
    requires 0x800 <= uc < 0x10000
    ensures |Utf8(uc)| == 3 && Scalar(Utf8(uc)) == uc && (IsUtf8Char(Utf8(uc)) <==> !(0xD800 <= uc <= 0xDFFF))
  {
    SixBits(uc);
    var b, c, d := uc / 0x1000, uc / 0x40 % 0x40, uc % 0x40;
    assert uc / 0x40000 == 0 && b < 16;
    assert Utf8(uc) == [(0xE0 + b) as char, (0x80 + c) as char, (0x80 + d) as char];
    hide Utf8;
    assert uc == (b * 0x40 + c) * 0x40 + d;
  }

  lemma FourBytesOf(uc: nat)
    requires 0x10000 <= uc < 0x110000
    ensures |Utf8(uc)| == 4 && Scalar(Utf8(uc)) == uc && IsUtf8Char(Utf8(uc))
  {
    SixBits(uc);
    var a, b, c, d := uc / 0x40000, uc / 0x1000 % 0x40, uc / 0x40 % 0x40, uc % 0x40;
    assert Utf8(uc) == [(0xF0 + a) as char, (0x80 + b) as char, (0x80 + c) as char, (0x80 + d) as char];
    hide Utf8;
    assert a <= 4 && uc == ((a * 0x40 + b) * 0x40 + c) * 0x40 + d;
  }

  lemma SixBits(uc: nat)
    requires uc < 0x110000
    ensures var a, b, c, d := uc / 0x40000, uc / 0x1000 % 0x40, uc / 0x40 % 0x40, uc % 0x40;
      ((a * 0x40 + b) * 0x40 + c) * 0x40 + d == uc
  {
    var v := uc / 0x40;
    var w := v / 0x40;
    assert w == uc / 0x1000 && w / 0x40 == uc / 0x40000;
  }

  // ---------- hexadecimal digits ----------

  const LOWER := "0123456789abcdef"
  const UPPER := "0123456789ABCDEF"

  // A hexadecimal digit has its place in one of these as its value, and nothing else has one.
  lemma HexValueExactly(c: char)
    ensures HexValue(c) >= 0 ==> LOWER[HexValue(c)] == c || UPPER[HexValue(c)] == c
    ensures HexValue(c) < 0 ==> c !in LOWER && c !in UPPER
  {}

  lemma DigitHasValue(c: char, n: nat)
    requires n < 16 && (c == LOWER[n] || c == UPPER[n])
    ensures HexValue(c) == n
  {}

  // Four hexadecimal digits of either case are read as the number they write, the highest first.
  lemma Hex4Exactly(t: string, i: nat, u: nat)
    requires u < 0x10000
    requires At(t, i) == LOWER[u / 0x1000] || At(t, i) == UPPER[u / 0x1000]
    requires At(t, i + 1) == LOWER[u / 0x100 % 16] || At(t, i + 1) == UPPER[u / 0x100 % 16]
    requires At(t, i + 2) == LOWER[u / 0x10 % 16] || At(t, i + 2) == UPPER[u / 0x10 % 16]
    requires At(t, i + 3) == LOWER[u % 16] || At(t, i + 3) == UPPER[u % 16]
    ensures Hex4(t, i) == u
  {
    DigitHasValue(At(t, i), u / 0x1000);
    DigitHasValue(At(t, i + 1), u / 0x100 % 16);
    DigitHasValue(At(t, i + 2), u / 0x10 % 16);
    DigitHasValue(At(t, i + 3), u % 16);
    hide HexValue;
    FourNibbles(u);
  }

  lemma FourNibbles(u: nat)
    ensures ((u / 0x1000 * 16 + u / 0x100 % 16) * 16 + u / 0x10 % 16) * 16 + u % 16 == u
  {
    var v := u / 0x10;
    var w := v / 0x10;
    assert w == u / 0x100 && w / 0x10 == u / 0x1000;
  }

  lemma NotDigit(c: char)
    requires c !in LOWER && c !in UPPER
    ensures HexValue(c) < 0
  {
    HexValueExactly(c);
    assert forall v :: 0 <= v < 16 ==> LOWER[v] in LOWER && UPPER[v] in UPPER;
  }

  // With anything else among them the number is 0.
  lemma NotHex4(t: string, i: nat, k: nat)
    requires k < 4 && At(t, i + k) !in LOWER && At(t, i + k) !in UPPER
    ensures Hex4(t, i) == 0
  {
    NotDigit(At(t, i + k));
    hide HexValue;
    assert i + k == i || i + k == i + 1 || i + k == i + 2 || i + k == i + 3;
  }

  lemma HexDigitIs(n: nat)
    requires n < 16
    ensures HexDigit(n) == LOWER[n]
  {}

  // ---------- texts ----------

  lemma ItemsBegin(x: Json, xs: seq<Json>, depth: nat, fmt: bool)
    ensures ItemsText([x] + xs, depth, fmt) ==
      Text(x, depth, fmt) + if xs == [] then "" else (if fmt then ", " else ",") + ItemsText(xs, depth, fmt)
  {
    hide Text;
    assert ([x] + xs)[1..] == xs;
  }

  lemma MembersBegin(m: Member, ms: seq<Member>, depth: nat, fmt: bool)
    ensures MembersText([m] + ms, depth, fmt) ==
      MemberText(m, depth, fmt) +
      if ms == [] then (if fmt then "\n" else "") else (if fmt then ",\n" else ",") + MembersText(ms, depth, fmt)
  {
    hide MemberText;
    assert ([m] + ms)[1..] == ms;
  }

  lemma LeafTexts(depth: nat, fmt: bool)
    ensures Text(Null, depth, fmt) == "null" && Text(True, depth, fmt) == "true" && Text(False, depth, fmt) == "false"
    ensures Text(Number(-120, 0), depth, fmt) == "-120" && Text(Number(7, 0), depth, fmt) == "7"
    ensures Text(Array([]), depth, fmt) == "[]"
  {
    SampleNumbers();
  }

  lemma ArrayIs(items: seq<Json>, fmt: bool)
    requires items != []
    ensures Text(Array(items), 0, fmt) == "[" + ItemsText(items, 1, fmt) + "]"
  {
    hide ItemsText;
  }

  // An array as it is printed.
  lemma SampleArray(fmt: bool)
    ensures Text(Array([True, Number(7, 0)]), 0, fmt) == if fmt then "[true, 7]" else "[true,7]"
  {
    hide Text, ItemsText, Decimal;
    var n := Number(7, 0);
    LeafTexts(1, fmt);
    ItemsBegin(n, [], 1, fmt);
    ItemsBegin(True, [n], 1, fmt);
    assert [n] + [] == [n] && [True] + [n] == [True, n];
    ArrayIs([True, n], fmt);
    assert ItemsText([True, n], 1, fmt) == if fmt then "true, 7" else "true,7";
  }

  lemma MemberIs(name: string, value: Json, fmt: bool)
    ensures MemberText(Member(name, value), 1, fmt) ==
      if fmt then "\t" + Quoted(name) + ":\t" + Text(value, 1, fmt) else Quoted(name) + ":" + Text(value, 1, fmt)
  {
    hide Quoted, Text;
    assert Tabs(1) == "\t" + Tabs(0) == "\t";
  }

  lemma ObjectIs(ms: seq<Member>, fmt: bool)
    requires ms != []
    ensures Text(Object(ms), 0, fmt) == (if fmt then "{\n" else "{") + MembersText(ms, 1, fmt) + "}"
  {
    hide MembersText;
    assert Tabs(0) == "";
  }

  // Objects as they are printed.
  lemma SampleObject()
    ensures Text(Object([Member("k", Number(7, 0))]), 0, true) == "{\n\t\"k\":\t7\n}"
  {
    hide Text, Quoted, MembersText, MemberText, Tabs;
    var k := Member("k", Number(7, 0));
    SampleNames();
    LeafTexts(1, true);
    MemberIs("k", Number(7, 0), true);
    assert MemberText(k, 1, true) == "\t\"k\":\t7";
    MembersBegin(k, [], 1, true);
    assert [k] + [] == [k];
    ObjectIs([k], true);
  }

  lemma SampleObjectShort()
    ensures Text(Object([Member("k", Number(7, 0)), Member("e", Array([]))]), 0, false) == "{\"k\":7,\"e\":[]}"
  {
    hide Text, Quoted, MembersText, MemberText, Tabs;
    var k, e := Member("k", Number(7, 0)), Member("e", Array([]));
    SampleNames();
    LeafTexts(1, false);
    MemberIs("k", Number(7, 0), false);
    MemberIs("e", Array([]), false);
    assert MemberText(k, 1, false) == "\"k\":7" && MemberText(e, 1, false) == "\"e\":[]";
    MembersBegin(e, [], 1, false);
    MembersBegin(k, [e], 1, false);
    assert [e] + [] == [e] && [k] + [e] == [k, e];
    ObjectIs([k, e], false);
  }

  // An object in an object, formatted: a tab for each level.
  lemma SampleNested()
    ensures Text(Object([Member("k", Object([Member("e", Number(7, 0))]))]), 0, true) ==
      "{\n\t\"k\":\t{\n\t\t\"e\":\t7\n\t}\n}"
  {
    hide Text;
    InnerText();
    OuterText(Object([Member("e", Number(7, 0))]));
  }

  // The items of an array are a level deeper than it is.
  lemma SampleObjectInArray()
    ensures Text(Array([Object([Member("e", Number(7, 0))])]), 0, true) == "[{\n\t\t\"e\":\t7\n\t}]"
  {
    hide Text, ItemsText;
    var inner := Object([Member("e", Number(7, 0))]);
    InnerText();
    ItemsBegin(inner, [], 1, true);
    assert [inner] + [] == [inner];
    ArrayIs([inner], true);
  }

  // The closing brace of an empty object stands a level less deep than that of another.
  lemma SampleEmptyObject()
    ensures Text(Object([]), 0, true) == "{\n}" && Text(Object([]), 3, true) == "{\n\t\t}" && Text(Object([]), 3, false) == "{}"
  {
    SomeTabs();
    hide Tabs;
  }

  lemma SomeTabs()
    ensures Tabs(0) == "" && Tabs(1) == "\t" && Tabs(2) == "\t\t"
  {
    assert Tabs(1) == "\t" + Tabs(0);
    assert Tabs(2) == "\t" + Tabs(1);
  }

  lemma InnerText()
    ensures Text(Object([Member("e", Number(7, 0))]), 1, true) == "{\n\t\t\"e\":\t7\n\t}"
  {
    hide Quoted, Decimal;
    SampleNames();
    SampleNumbers();
    SomeTabs();
  }

  lemma OuterText(v: Json)
    ensures Text(Object([Member("k", v)]), 0, true) == "{\n\t\"k\":\t" + Text(v, 1, true) + "\n}"
  {
    hide Text, Quoted, MembersText, MemberText, Tabs;
    var k := Member("k", v);
    SampleNames();
    MemberIs("k", v, true);
    MembersBegin(k, [], 1, true);
    assert [k] + [] == [k];
    ObjectIs([k], true);
  }

  lemma SampleNames()
    ensures Quoted("k") == "\"k\"" && Quoted("e") == "\"e\""
  {
    assert EscapeText("k"[1..]) == "" && EscapeText("e"[1..]) == "";
  }

  // Every character of a string by itself: the short escapes, the control characters, all others.
  lemma SampleEscapes()
    ensures EscapeChar('\"') == "\\\"" && EscapeChar('\\') == "\\\\" && EscapeChar('\n') == "\\n"
    ensures EscapeChar(8 as char) == "\\b" && EscapeChar(12 as char) == "\\f"
    ensures EscapeChar('\r') == "\\r" && EscapeChar('\t') == "\\t"
    ensures EscapeChar(1 as char) == "\\u0001" && EscapeChar(31 as char) == "\\u001f" && EscapeChar('/') == "/"
  {}

  lemma SampleNumbers()
    ensures Decimal(-120) == "-120" && Decimal(0) == "0" && Decimal(3456789) == "3456789" && Decimal(7) == "7"
  {
    assert Digits(12) == "12" && Digits(120) == "120";
    assert Digits(3) == "3" && Digits(34) == "34" && Digits(345) == "345" && Digits(3456) == "3456";
    assert Digits(34567) == "34567" && Digits(345678) == "345678";
  }
}
