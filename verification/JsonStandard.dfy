/** What section 7 of RFC 8259 makes of a string body, against what cJSON prints and reads. */
module JsonStandard {
  import opened Bytes
  import opened JsonText
  import opened JsonGrammar
  import opened JsonStrings
  import opened JsonRoundTrip

  // ---------- string bodies ----------

  // The characters a JSON string may hold between its quotes.
  predicate IsStringBody(w: string) {
    if w == "" then true
    else if w[0] == '\\' then
      |w| >= 2 &&
      if w[1] == 'u' then
        |w| >= 6 && (forall k :: 2 <= k < 6 ==> HexValue(w[k]) >= 0) && IsStringBody(w[6..])
      else w[1] in "\"\\/bfnrt" && IsStringBody(w[2..])
    else w[0] >= 32 as char && w[0] != '\"' && IsStringBody(w[1..])
  }

  lemma {:induction false} EscapeIsStringBody(s: string)
    ensures IsStringBody(EscapeText(s))
    decreases |s|
  {
    if s != "" {
      EscapeIsStringBody(s[1..]);
      CharIsStringBody(s[0]);
      BodyJoined(EscapeChar(s[0]), EscapeText(s[1..]));
    }
  }

  // One character, or one escape, of a string body.
  predicate IsBodyUnit(e: string) {
    match |e|
    case 1 => e[0] >= 32 as char && e[0] != '\"' && e[0] != '\\'
    case 2 => e[0] == '\\' && e[1] in "\"\\/bfnrt"
    case 6 => e[0] == '\\' && e[1] == 'u' && forall k :: 2 <= k < 6 ==> HexValue(e[k]) >= 0
    case _ => false
  }

  lemma CharIsStringBody(c: char)
    ensures IsBodyUnit(EscapeChar(c))
  {
    var e := EscapeChar(c);
    if |e| == 6 {
      assert HexValue(e[2]) == 0 && HexValue(e[3]) == 0 && HexValue(e[4]) >= 0 && HexValue(e[5]) >= 0;
    }
  }

  lemma BodyJoined(e: string, rest: string)
    requires IsBodyUnit(e) && IsStringBody(rest)
    ensures IsStringBody(e + rest)
  {
    hide HexValue;
    assert (e + rest)[|e|..] == rest;
    assert forall k :: 0 <= k < |e| ==> (e + rest)[k] == e[k];
  }

  // ---------- what a body stands for ----------

  // A byte of the text or a short escape; or the 16-bit code unit of a \u.
  datatype Unit = Byte(c: char) | Code(u: nat)

  function ShortEscape(c: char): char {
    match c
    case 'b' => 8 as char
    case 'f' => 12 as char
    case 'n' => '\n'
    case 'r' => '\r'
    case 't' => '\t'
    case _ => c
  }

  function Units(w: string): seq<Unit>
    requires IsStringBody(w)
  {
    if w == "" then []
    else if w[0] != '\\' then [Byte(w[0])] + Units(w[1..])
    else if w[1] == 'u' then [Code(Hex4(w, 2))] + Units(w[6..])
    else [Byte(ShortEscape(w[1]))] + Units(w[2..])
  }

  predicate High(x: Unit) { x.Code? && 0xD800 <= x.u <= 0xDBFF }

  predicate Low(x: Unit) { x.Code? && 0xDC00 <= x.u <= 0xDFFF }

  datatype Option<+T> = None | Some(value: T)

  // The UTF-8 text of the units. A surrogate outside a pair stands for no character.
  function Meaning(us: seq<Unit>): Option<string>
    requires Sixteen(us)
  {
    if us == [] then Some("")
    else if us[0].Byte? then Then([us[0].c], Meaning(us[1..]))
    else if High(us[0]) then
      if |us| >= 2 && Low(us[1]) then Then(Utf8(Pair(us[0].u, us[1].u)), Meaning(us[2..])) else None
    else if Low(us[0]) then None
    else Then(Utf8(us[0].u), Meaning(us[1..]))
  }

  predicate Sixteen(us: seq<Unit>) { forall k :: 0 <= k < |us| && us[k].Code? ==> us[k].u < 0x10000 }

  function Pair(high: nat, low: nat): (uc: nat)
    requires 0xD800 <= high <= 0xDBFF && 0xDC00 <= low <= 0xDFFF
    ensures uc < 0x110000
  {
    0x10000 + (high - 0xD800) * 0x400 + (low - 0xDC00)
  }

  function Then(first: string, rest: Option<string>): Option<string> {
    match rest case None => None case Some(s) => Some(first + s)
  }

  // ---------- what the reader makes of it ----------

  function Read(us: seq<Unit>): string
    requires Sixteen(us)
  {
    if us == [] then ""
    else if us[0].Byte? then [us[0].c] + Read(us[1..])
    else if Low(us[0]) || us[0].u == 0 then Read(us[1..])
    else if High(us[0]) then
      if |us| < 2 || us[1].Byte? then Read(us[1..])
      else if Low(us[1]) then Utf8(Pair(us[0].u, us[1].u)) + Read(us[2..])
      else Read(us[2..])
    else Utf8(us[0].u) + Read(us[1..])
  }

  // Are surrogates paired, each high one before its low one?
  predicate Paired(us: seq<Unit>) { forall k :: 0 <= k < |us| ==> PairedAt(us, k) }

  predicate PairedAt(us: seq<Unit>, k: nat)
    requires k < |us|
  {
    (High(us[k]) ==> k + 1 < |us| && Low(us[k + 1])) && (Low(us[k]) ==> k > 0 && High(us[k - 1]))
  }

  predicate NoZero(us: seq<Unit>) { forall k :: 0 <= k < |us| ==> us[k] != Code(0) }

  lemma SixteenRest(us: seq<Unit>, n: nat)
    requires Sixteen(us) && n <= |us|
    ensures Sixteen(us[n..])
  {}

  lemma {:induction false} PairedExactly(us: seq<Unit>)
    requires Sixteen(us)
    ensures Meaning(us).Some? <==> Paired(us)
    decreases |us|
  {
    if us != [] {
      var n := if |us| >= 2 && High(us[0]) && Low(us[1]) then 2 else 1;
      SixteenRest(us, n);
      PairedExactly(us[n..]);
      PairedStep(us, n);
      hide Paired, Utf8;
    }
  }

  lemma PairedStep(us: seq<Unit>, n: nat)
    requires us != [] && n == if |us| >= 2 && High(us[0]) && Low(us[1]) then 2 else 1
    ensures Paired(us) <==> (n == 2 || !(High(us[0]) || Low(us[0]))) && Paired(us[n..])
  {
    var r := us[n..];
    if Paired(us) {
      assert PairedAt(us, 0);
      forall k | 0 <= k < |r| ensures PairedAt(r, k) {
        assert PairedAt(us, k + n);
        PairedShift(us, n, k);
      }
    }
    if (n == 2 || !(High(us[0]) || Low(us[0]))) && Paired(r) {
      forall k | 0 <= k < |us| ensures PairedAt(us, k) {
        if k >= n {
          assert PairedAt(r, k - n);
          PairedShift(us, n, k - n);
        }
      }
    }
  }

  // Behind a unit that is not a high surrogate, pairing does not look back.
  lemma PairedShift(us: seq<Unit>, n: nat, k: nat)
    requires 0 < n && n + k < |us| && !High(us[n - 1])
    ensures PairedAt(us[n..], k) <==> PairedAt(us, n + k)
  {
    assert us[n..][k] == us[n + k];
    if k + 1 < |us[n..]| { assert us[n..][k + 1] == us[n + k + 1]; }
    if k > 0 { assert us[n..][k - 1] == us[n + k - 1]; }
  }

  function Zeros(us: seq<Unit>): nat { if us == [] then 0 else (if us[0] == Code(0) then 1 else 0) + Zeros(us[1..]) }

  lemma {:induction false} NoZeros(us: seq<Unit>)
    ensures Zeros(us) == 0 <==> NoZero(us)
    decreases |us|
  {
    if us != [] {
      NoZeros(us[1..]);
      assert forall k :: 1 <= k < |us| ==> us[k] == us[1..][k - 1];
      assert forall k :: 0 <= k < |us[1..]| ==> us[1..][k] == us[k + 1];
    }
  }

  // What has a meaning is read but for its zeros.
  lemma {:induction false} ZerosAreLost(us: seq<Unit>)
    requires Sixteen(us) && Meaning(us).Some?
    ensures |Meaning(us).value| == |Read(us)| + Zeros(us)
    ensures Zeros(us) == 0 ==> Meaning(us).value == Read(us)
    decreases |us|
  {
    if us != [] {
      var n := if High(us[0]) then 2 else 1;
      SixteenRest(us, n);
      ZerosAreLost(us[n..]);
      ZerosStep(us, n);
      hide Zeros, Utf8;
      assert |Utf8(0)| == 1 by { ZeroIsOne(); }
    }
  }

  lemma ZeroIsOne()
    ensures |Utf8(0)| == 1
  {}

  lemma ZerosStep(us: seq<Unit>, n: nat)
    requires 1 <= n <= 2 && n <= |us| && (n == 2 ==> us[1] != Code(0) && us[0] != Code(0))
    ensures Zeros(us) == (if us[0] == Code(0) then 1 else 0) + Zeros(us[n..])
  {
    if n == 2 { assert us[1..][1..] == us[2..]; }
  }

  // The units of a body are read with their meaning exactly if no \u0000 and no lone surrogate is among them.
  lemma MeaningExactly(us: seq<Unit>)
    requires Sixteen(us)
    ensures Meaning(us) == Some(Read(us)) <==> Paired(us) && NoZero(us)
  {
    hide Meaning, Read, Paired, NoZero, Zeros;
    PairedExactly(us);
    NoZeros(us);
    if Meaning(us).Some? { ZerosAreLost(us); }
  }

  lemma {:induction false} UnitsAreSixteen(w: string)
    requires IsStringBody(w)
    ensures Sixteen(Units(w))
    decreases |w|
  {
    hide Hex4;
    if w != "" { UnitsAreSixteen(w[if w[0] != '\\' then 1 else if w[1] == 'u' then 6 else 2..]); }
  }

  // ---------- the text ----------

  // The first characters of a body that stands in a text, and what is behind them.
  lemma BodyAt(t: string, i: nat, w: string, n: nat)
    requires StartsWith(t, i, w) && At(t, i + |w|) == '\"' && n <= |w|
    ensures forall k :: 0 <= k < n ==> At(t, i + k) == w[k]
    ensures StartsWith(t, i + n, w[n..]) && At(t, i + n + |w[n..]|) == '\"'
  {
    forall k | 0 <= k < n ensures At(t, i + k) == w[k] { CharAt(t, i, w, k); }
    assert w == w[..n] + w[n..];
    Split(t, i, w[..n], w[n..]);
  }

  lemma BodyBehind(t: string, i: nat, w: string, n: nat)
    requires StartsWith(t, i, w) && At(t, i + |w|) == '\"' && n <= |w|
    ensures StartsWith(t, i + n, w[n..]) && i + n + |w[n..]| == i + |w|
  {
    hide StartsWith, At;
    assert w == w[..n] + w[n..];
    Split(t, i, w[..n], w[n..]);
  }

  // How many characters the reader takes for the first units of a body, how many units, and what for.
  lemma CodeRead(t: string, i: nat, w: string) returns (n: nat, m: nat)
    requires IsStringBody(w) && Sixteen(Units(w)) && StartsWith(t, i, w) && At(t, i + |w|) == '\"'
    requires w != "" && w[0] == '\\' && w[1] == 'u'
    ensures (n == 6 && m == 1) || (n == 12 && m == 2)
    ensures n <= |w| && m <= |Units(w)| && IsStringBody(w[n..]) && Units(w[n..]) == Units(w)[m..]
    ensures At(t, i) == '\\' && Escape(t, i + 1).1 + 1 == i + n
    ensures Sixteen(Units(w)[m..]) && Read(Units(w)) == Escape(t, i + 1).0 + Read(Units(w)[m..])
  {
    hide Hex4, HexValue, Units, IsStringBody, StartsWith, Utf8, At, Read, Sixteen, Escape;
    CodeAt(t, i, w);
    var rest, us := w[6..], Units(w);
    NextAt(t, i + 6, rest);
    n, m := 6, 1;
    if High(us[0]) && |us| >= 2 && us[1].Code? {
      CodeAt(t, i + 6, rest);
      assert w[12..] == rest[6..] && us[2..] == us[1..][1..];
      n, m := 12, 2;
    }
    EscapeOfUnits(t, i + 1, us);
    ReadFirst(us, m);
  }

  // A \u at the beginning of a body, in the text and among the units.
  lemma CodeAt(t: string, i: nat, w: string)
    requires IsStringBody(w) && StartsWith(t, i, w) && At(t, i + |w|) == '\"'
    requires w != "" && w[0] == '\\' && w[1] == 'u'
    ensures |w| >= 6 && IsStringBody(w[6..]) && StartsWith(t, i + 6, w[6..]) && At(t, i + 6 + |w[6..]|) == '\"'
    ensures At(t, i) == '\\' && At(t, i + 1) == 'u'
    ensures Units(w) != [] && Units(w)[0] == Code(Hex4(t, i + 2)) && Units(w)[1..] == Units(w[6..])
  {
    CodeFirst(w);
    hide Hex4, Units, IsStringBody, StartsWith;
    BodyAt(t, i, w, 6);
    SameHex(t, i, w, 2);
  }

  lemma NextAt(t: string, j: nat, rest: string)
    requires IsStringBody(rest) && StartsWith(t, j, rest) && At(t, j + |rest|) == '\"'
    ensures (Units(rest) != [] && Units(rest)[0].Code?) <==> At(t, j) == '\\' && At(t, j + 1) == 'u'
    ensures (Units(rest) != [] && Units(rest)[0].Code?) <==> |rest| >= 2 && rest[0] == '\\' && rest[1] == 'u'
  {
    NextCode(rest);
    hide Units, IsStringBody, StartsWith;
    if rest != "" { BodyAt(t, j, rest, if |rest| >= 2 then 2 else 1); }
  }

  lemma CodeFirst(w: string)
    requires IsStringBody(w) && w != "" && w[0] == '\\' && w[1] == 'u'
    ensures |w| >= 6 && IsStringBody(w[6..])
    ensures Units(w) == [Code(Hex4(w, 2))] + Units(w[6..]) && Units(w)[1..] == Units(w[6..])
  {
    hide Hex4;
  }

  // What the reader does with a \u, by the units.
  lemma EscapeOfUnits(t: string, p: nat, us: seq<Unit>)
    requires At(t, p) == 'u' && Sixteen(us) && us != [] && us[0] == Code(Hex4(t, p + 1))
    requires |us| >= 2 && us[1].Code? <==> At(t, p + 5) == '\\' && At(t, p + 6) == 'u'
    requires High(us[0]) && |us| >= 2 && us[1].Code? ==> us[1].u == Hex4(t, p + 7)
    ensures var two := High(us[0]) && |us| >= 2 && us[1].Code?;
      Escape(t, p) == (Taken(us), if two then p + 10 else p + 4)
  {
    hide Hex4, At, Utf8;
    if High(us[0]) && |us| >= 2 && us[1].Code? { PairIs(us[0].u, us[1].u); }
  }

  // What the first unit is read as, a \u, or the first two.
  function Taken(us: seq<Unit>): string
    requires Sixteen(us) && us != [] && us[0].Code?
  {
    if Low(us[0]) || us[0].u == 0 then ""
    else if High(us[0]) then (if |us| >= 2 && Low(us[1]) then Utf8(Pair(us[0].u, us[1].u)) else "")
    else Utf8(us[0].u)
  }

  lemma ReadFirst(us: seq<Unit>, m: nat)
    requires Sixteen(us) && us != [] && us[0].Code?
    requires m == if High(us[0]) && |us| >= 2 && us[1].Code? then 2 else 1
    ensures Sixteen(us[m..]) && Read(us) == Taken(us) + Read(us[m..])
  {
    SixteenRest(us, m);
    hide Utf8, Sixteen;
  }

  lemma SameHex(t: string, i: nat, w: string, n: nat)
    requires n + 4 <= |w| && forall k :: 0 <= k < n + 4 ==> At(t, i + k) == w[k]
    ensures Hex4(t, i + n) == Hex4(w, n)
  {
    assert forall k :: n <= k < n + 4 ==> At(t, i + k) == At(w, k);
    assert At(t, i + n) == At(w, n) && At(t, i + n + 1) == At(w, n + 1);
    assert At(t, i + n + 2) == At(w, n + 2) && At(t, i + n + 3) == At(w, n + 3);
  }

  lemma NextCode(w: string)
    requires IsStringBody(w)
    ensures Units(w) != [] && Units(w)[0].Code? <==> |w| >= 2 && w[0] == '\\' && w[1] == 'u'
    ensures w != "" && w[0] == '\\' ==> |w| >= 2
  {
    hide Hex4;
  }

  lemma PairIs(high: nat, low: nat)
    ensures 0xD800 <= high <= 0xDBFF && 0xDC00 <= low <= 0xDFFF ==>
      Pair(high, low) == 0x10000 + high % 0x400 * 0x400 + low % 0x400
  {
    assert 0xD800 == 54 * 0x400 && 0xDC00 == 55 * 0x400;
  }

  lemma ByteRead(t: string, i: nat, w: string) returns (n: nat)
    requires IsStringBody(w) && Sixteen(Units(w)) && StartsWith(t, i, w) && At(t, i + |w|) == '\"'
    requires w != "" && !(w[0] == '\\' && At(w, 1) == 'u')
    ensures n == (if w[0] == '\\' then 2 else 1) <= |w| && Units(w) != [] && Units(w)[0].Byte?
    ensures IsStringBody(w[n..]) && Units(w[n..]) == Units(w)[1..]
    ensures At(t, i) == w[0] && w[0] != '\"' && w[0] != NUL && i < |t|
    ensures if n == 2 then Escape(t, i + 1) == ([Units(w)[0].c], i + 1) else t[i] == Units(w)[0].c
  {
    hide Hex4, HexValue;
    n := if w[0] == '\\' then 2 else 1;
    BodyAt(t, i, w, n);
  }

  // One step of the reader: n characters, m units.
  lemma OneStep(t: string, i: nat, w: string) returns (n: nat, m: nat, chunk: string)
    requires IsStringBody(w) && Sixteen(Units(w)) && StartsWith(t, i, w) && At(t, i + |w|) == '\"' && w != ""
    ensures 0 < n <= |w| && m <= |Units(w)| && IsStringBody(w[n..]) && Units(w[n..]) == Units(w)[m..]
    ensures Sixteen(Units(w)[m..]) && Read(Units(w)) == chunk + Read(Units(w)[m..])
    ensures Unescape(t, i) == After(chunk, Unescape(t, i + n))
  {
    hide StartsWith, Units, IsStringBody, Unescape, Escape, Sixteen, Read, Hex4;
    UnescapeUnfold(t, i);
    if w[0] == '\\' && At(w, 1) == 'u' {
      assert |w| >= 2;
      n, m := CodeRead(t, i, w);
      chunk := Escape(t, i + 1).0;
    } else {
      n := ByteRead(t, i, w);
      m, chunk := 1, [Units(w)[0].c];
      SixteenRest(Units(w), 1);
      ReadByte(Units(w));
    }
  }

  lemma ReadByte(us: seq<Unit>)
    requires Sixteen(us) && us != [] && us[0].Byte?
    ensures Sixteen(us[1..]) && Read(us) == [us[0].c] + Read(us[1..])
  {
    SixteenRest(us, 1);
  }

  lemma NothingRead(t: string, i: nat)
    requires At(t, i) == '\"'
    ensures IsStringBody("") && Sixteen(Units("")) && Unescape(t, i) == (Read(Units("")), i)
  {
    assert Units("") == [];
  }

  lemma {:induction false} ReaderReads(t: string, i: nat, w: string)
    requires IsStringBody(w) && Sixteen(Units(w)) && StartsWith(t, i, w) && At(t, i + |w|) == '\"'
    ensures Unescape(t, i) == (Read(Units(w)), i + |w|)
    decreases |w|
  {
    hide StartsWith, Units, IsStringBody, Unescape, Sixteen, Read, At;
    if w == "" {
      NothingRead(t, i);
    } else {
      var n, m, chunk := OneStep(t, i, w);
      BodyBehind(t, i, w, n);
      ReaderReads(t, i + n, w[n..]);
    }
  }

  // Section 7 of RFC 8259: between its quotes any string body is read to its end, and to what it stands for
  // exactly if it holds no \u0000 and no surrogate outside a pair.
  lemma ReadExactly(t: string, i: nat, w: string)
    requires IsStringBody(w) && StartsWith(t, i, "\"" + w + "\"")
    ensures Sixteen(Units(w)) && ParseString(t, i).Ok? && ParseString(t, i).end == i + |w| + 2
    ensures Meaning(Units(w)) == Some(ParseString(t, i).value) <==> Paired(Units(w)) && NoZero(Units(w))
  {
    hide StartsWith, Unescape, Units, Meaning, IsStringBody, Paired, NoZero, Read;
    UnitsAreSixteen(w);
    Split(t, i, "\"" + w, "\"");
    Split(t, i, "\"", w);
    CharAt(t, i, "\"", 0);
    CharAt(t, i + 1 + |w|, "\"", 0);
    ReaderReads(t, i + 1, w);
    MeaningExactly(Units(w));
  }
}
