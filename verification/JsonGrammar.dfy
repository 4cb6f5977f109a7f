/**
 The tokens of RFC 8259 written out: white space, strings and numbers, and what they mean.
 The scanners of the parser find exactly these.
 */
module JsonGrammar {
  import opened Wrappers
  import opened JsonText
  import opened JsonValue
  import opened JsonParse
  import N = JsonNumber

  // -------------------------------------------------------------- white space

  // Section 2: space, horizontal tab, line feed and carriage return.
  predicate IsBlank(c: Unit) {
    c == 0x20 || c == 0x09 || c == 0x0A || c == 0x0D
  }

  predicate Blank(t: Text) {
    forall c <- t :: IsBlank(c)
  }

  lemma {:induction false} SkipBlank(blank: Text, t: Text)
    requires Blank(blank) && (t == [] || !IsBlank(t[0]))
    ensures SkipSpace(blank + t) == t
  {
    if blank == [] {
      assert blank + t == t;
    } else {
      assert IsBlank(blank[0]) && (blank + t)[0] == blank[0];
      assert (blank + t)[1..] == blank[1..] + t;
      SkipBlank(blank[1..], t);
    }
  }

  lemma {:induction false} SkippedIsBlank(t: Text) returns (blank: Text)
    ensures Blank(blank) && t == blank + SkipSpace(t)
  {
    if t != [] && IsSpace(t[0]) {
      assert SkipSpace(t) == SkipSpace(t[1..]);
      var more := SkippedIsBlank(t[1..]);
      blank := [t[0]] + more;
      hide SkipSpace;
      assert t == [t[0]] + t[1..];
    } else {
      blank := [];
    }
  }

  // ------------------------------------------------------------------ strings

  // Section 7: a unit that stands for itself, a two-character escape, or four hexadecimal digits.
  datatype Glyph = Plain(unit: Unit) | Short(letter: Unit) | Hex(digits: Text)

  predicate IsHex(c: Unit) {
    0x30 <= c <= 0x39 || 0x41 <= c <= 0x46 || 0x61 <= c <= 0x66
  }

  predicate GlyphOk(g: Glyph) {
    match g
    case Plain(c) => 0x20 <= c && c != 0x22 && c != 0x5C
    case Short(c) =>
      || c == 0x22 || c == 0x5C || c == 0x2F || c == 0x62 || c == 0x66 || c == 0x6E || c == 0x72 || c == 0x74
    case Hex(d) => |d| == 4 && IsHex(d[0]) && IsHex(d[1]) && IsHex(d[2]) && IsHex(d[3])
  }

  function GlyphText(g: Glyph): Text {
    match g
    case Plain(c) => [c]
    case Short(c) => [0x5C, c]
    case Hex(d) => [0x5C, 0x75] + d
  }

  function HexOf(c: Unit): nat
    requires IsHex(c)
  {
    if c <= 0x39 then c - 0x30 else if c <= 0x46 then c - 0x41 + 10 else c - 0x61 + 10
  }

  function GlyphUnit(g: Glyph): Unit
    requires GlyphOk(g)
  {
    match g
    case Plain(c) => c
    case Short(c) =>
      if c == 0x62 then 0x08
      else if c == 0x66 then 0x0C
      else if c == 0x6E then 0x0A
      else if c == 0x72 then 0x0D
      else if c == 0x74 then 0x09
      else c
    case Hex(d) => ((HexOf(d[0]) * 16 + HexOf(d[1])) * 16 + HexOf(d[2])) * 16 + HexOf(d[3])
  }

  predicate GlyphsOk(gs: seq<Glyph>) {
    forall g <- gs :: GlyphOk(g)
  }

  function GlyphsText(gs: seq<Glyph>): Text {
    if gs == [] then [] else GlyphText(gs[0]) + GlyphsText(gs[1..])
  }

  function GlyphUnits(gs: seq<Glyph>): Text
    requires GlyphsOk(gs)
  {
    if gs == [] then [] else [GlyphUnit(gs[0])] + GlyphUnits(gs[1..])
  }

  lemma ScanHex(d: Text, t: Text)
    requires GlyphOk(Hex(d))
    ensures HexUnit(d) == Some(GlyphUnit(Hex(d)))
    ensures StringBody(GlyphText(Hex(d)) + t) == Prepend([GlyphUnit(Hex(d))], StringBody(t))
  {
    var whole := GlyphText(Hex(d)) + t;
    assert whole[2..6] == d && whole[6..] == t && whole[0] == 0x5C && whole[1] == 0x75;
  }

  lemma ScanGlyph(g: Glyph, t: Text)
    requires GlyphOk(g)
    ensures StringBody(GlyphText(g) + t) == Prepend([GlyphUnit(g)], StringBody(t))
  {
    match g
    case Plain(c) => ScanPlain(c, t);
    case Short(c) => assert (GlyphText(g) + t)[2..] == t;
    case Hex(d) => ScanHex(d, t);
  }

  lemma {:induction false} ScanGlyphs(gs: seq<Glyph>, rest: Text)
    requires GlyphsOk(gs)
    ensures StringBody(GlyphsText(gs) + ([QUOTE] + rest)) == Some(Scanned(GlyphUnits(gs), rest))
  {
    hide StringBody, GlyphText, GlyphUnit;
    if gs == [] {
      ScanEnd(rest);
      assert GlyphsText(gs) + ([QUOTE] + rest) == [QUOTE] + rest;
    } else {
      ScanGlyphs(gs[1..], rest);
      ScanGlyph(gs[0], GlyphsText(gs[1..]) + ([QUOTE] + rest));
      assert GlyphsText(gs) + ([QUOTE] + rest) == GlyphText(gs[0]) + (GlyphsText(gs[1..]) + ([QUOTE] + rest));
    }
  }

  // The first glyph of the contents of a string.
  lemma FirstGlyph(t: Text) returns (g: Glyph)
    requires StringBody(t).Some? && t[0] != QUOTE
    ensures GlyphOk(g) && |GlyphText(g)| <= |t| && t == GlyphText(g) + t[|GlyphText(g)|..] && GlyphText(g) != []
    ensures StringBody(t[|GlyphText(g)|..]).Some?
  {
    if t[0] != BACKSLASH {
      g := Plain(t[0]);
    } else if t[1] == 0x75 {
      g := Hex(t[2..6]);
      assert HexUnit(t[2..6]).Some?;
    } else {
      g := Short(t[1]);
    }
  }

  lemma {:induction false} ScannedIsGlyphs(t: Text) returns (gs: seq<Glyph>)
    requires StringBody(t).Some?
    ensures GlyphsOk(gs) && StringBody(t).value.value == GlyphUnits(gs)
    ensures t == GlyphsText(gs) + ([QUOTE] + StringBody(t).value.rest)
    decreases |t|
  {
    if t[0] == QUOTE {
      gs := [];
    } else {
      var g := FirstGlyph(t);
      var u := t[|GlyphText(g)|..];
      var more := ScannedIsGlyphs(u);
      ScanGlyph(g, u);
      hide StringBody, GlyphText, GlyphUnit, GlyphOk;
      gs := [g] + more;
      assert gs[1..] == more;
      var close := [QUOTE] + StringBody(u).value.rest;
      assert GlyphText(g) + (GlyphsText(more) + close) == GlyphsText(gs) + close;
    }
  }

  // ------------------------------------------------------------------ numbers

  // Section 6. `sign` is what stands before the digits of an exponent.
  datatype Exponent = Exponent(letter: Unit, sign: Text, digits: Text)

  datatype Numeral = Numeral(minus: bool, integer: Text, fraction: Option<Text>, exponent: Option<Exponent>)

  predicate Digits(t: Text) {
    t != [] && forall c <- t :: 0x30 <= c <= 0x39
  }

  predicate NumeralOk(n: Numeral) {
    && Digits(n.integer) && (|n.integer| > 1 ==> n.integer[0] != 0x30)
    && (n.fraction.Some? ==> Digits(n.fraction.value))
    && (n.exponent.Some? ==>
          var e := n.exponent.value;
          (e.letter == 0x65 || e.letter == 0x45) && (e.sign == [] || e.sign == [0x2B] || e.sign == [0x2D]) && Digits(e.digits))
  }

  function FractionText(n: Numeral): Text {
    if n.fraction.None? then [] else [0x2E] + n.fraction.value
  }

  function ExponentText(n: Numeral): Text {
    if n.exponent.None? then []
    else [n.exponent.value.letter] + n.exponent.value.sign + n.exponent.value.digits
  }

  function NumeralText(n: Numeral): Text {
    (if n.minus then [0x2D] else []) + n.integer + FractionText(n) + ExponentText(n)
  }

  lemma ExponentIsToken(n: Numeral)
    requires NumeralOk(n)
    ensures N.ExponentLen(ExponentText(n)) == Some(|ExponentText(n)|)
    ensures ExponentText(n) != [] ==>
              var e, t := n.exponent.value, ExponentText(n);
              N.SignLen(t[1..]) == |e.sign| && t[1 + |e.sign|..] == e.digits && StartsWith(t[1..], MINUS) == (e.sign == [MINUS])
  {
    if n.exponent.Some? {
      var e, t := n.exponent.value, ExponentText(n);
      assert t[1..] == e.sign + e.digits && t[1 + |e.sign|..] == e.digits;
      LeadingDigitsAppend(e.digits, []);
      assert e.digits + [] == e.digits;
      assert N.SignLen(t[1..]) == |e.sign|;
    }
  }

  lemma FractionIsToken(n: Numeral, rest: Text)
    requires NumeralOk(n) && (rest == [] || rest[0] == 0x65 || rest[0] == 0x45)
    ensures N.FractionLen(FractionText(n) + rest) == Some(|FractionText(n)|)
  {
    var t := FractionText(n) + rest;
    if n.fraction.Some? {
      assert t[1..] == n.fraction.value + rest;
      LeadingDigitsAppend(n.fraction.value, rest);
    } else {
      assert t == rest;
    }
  }

  lemma IntegerIsToken(n: Numeral, rest: Text)
    requires NumeralOk(n) && (rest == [] || rest[0] == 0x2E || rest[0] == 0x65 || rest[0] == 0x45)
    ensures N.IntegerLen(n.integer + rest) == Some(|n.integer|)
  {
    var t := n.integer + rest;
    LeadingDigitsAppend(n.integer, rest);
    if |n.integer| == 1 {
      assert t[1..] == rest;
    }
  }

  // What follows the minus sign, the integer and the fraction.
  lemma NumeralTails(n: Numeral)
    ensures var t := NumeralText(n);
            var m, i, f := if n.minus then 1 else 0, |n.integer|, |FractionText(n)|;
            && m + i + f + |ExponentText(n)| == |t|
            && t[m..] == n.integer + (FractionText(n) + ExponentText(n))
            && t[m + i..] == FractionText(n) + ExponentText(n)
            && t[m + i + f..] == ExponentText(n)
  {
    hide FractionText, ExponentText;
  }

  lemma NumeralMinus(n: Numeral)
    requires NumeralOk(n)
    ensures N.MinusLen(NumeralText(n)) == if n.minus then 1 else 0
  {
    assert n.integer[0] in n.integer;
    hide FractionText, ExponentText;
  }

  // A numeral is a number token.
  lemma NumeralIsToken(n: Numeral)
    requires NumeralOk(n)
    ensures N.IsNumber(NumeralText(n))
  {
    hide N.IntegerLen, N.FractionLen, N.ExponentLen, N.MinusLen, N.NumberLen, FractionText, ExponentText, NumeralText, NumeralOk;
    NumeralMinus(n);
    NumeralTails(n);
    ExponentStarts(n);
    IntegerIsToken(n, FractionText(n) + ExponentText(n));
    FractionIsToken(n, ExponentText(n));
    ExponentIsToken(n);
    N.NumberFromPieces(NumeralText(n), if n.minus then 1 else 0, |n.integer|, |FractionText(n)|, |ExponentText(n)|);
  }

  lemma ExponentStarts(n: Numeral)
    requires NumeralOk(n)
    ensures ExponentText(n) != [] ==> ExponentText(n)[0] == 0x65 || ExponentText(n)[0] == 0x45
    ensures FractionText(n) != [] ==> FractionText(n)[0] == 0x2E
  {
  }

  lemma Cut(t: Text, m: nat, i: nat)
    requires m + i <= |t|
    ensures t[m..][..i] == t[m..m + i] && t == t[..m] + t[m..m + i] + t[m + i..]
  {
  }

  lemma MinusPart(t: Text, m: nat)
    requires N.MinusLen(t) == m <= |t|
    ensures t[..m] == if m == 1 then [0x2D] else []
    ensures m <= 1
  {
  }

  // Every token is a numeral.
  lemma TokenIsNumeral(t: Text) returns (n: Numeral)
    requires N.IsNumber(t)
    ensures NumeralOk(n) && NumeralText(n) == t
  {
    hide N.IntegerLen, N.FractionLen, N.ExponentLen, N.MinusLen, N.IsNumber, NumeralOk, NumeralText, Digits;
    var m, i, f, e := N.PiecesOfNumber(t);
    MinusPart(t, m);
    IntegerPart(t[m..], i);
    FractionPart(t[m + i..], f);
    var x := ExponentPart(t[m + i + f..]);
    Cut(t, m, i);
    Cut(t, m + i, f);
    n := Numeral(m == 1, t[m..m + i], if f == 0 then None else Some(t[m + i..m + i + f][1..]), x);
    BuildsNumeral(n, t[..m], t[m + i..m + i + f], t[m + i + f..]);
    Regroups(t, m, i, f);
  }

  lemma Regroups(t: Text, m: nat, i: nat, f: nat)
    requires m + i + f <= |t|
    ensures t == t[..m] + t[m..m + i] + t[m + i..m + i + f] + t[m + i + f..]
  {
  }

  lemma BuildsNumeral(n: Numeral, minus: Text, fraction: Text, exponent: Text)
    requires minus == if n.minus then [0x2D] else []
    requires Digits(n.integer) && (|n.integer| > 1 ==> n.integer[0] != 0x30)
    requires if n.fraction.None? then fraction == []
             else fraction != [] && fraction[0] == 0x2E && fraction[1..] == n.fraction.value && Digits(n.fraction.value)
    requires if n.exponent.None? then exponent == []
             else
               var e := n.exponent.value;
               && (e.letter == 0x65 || e.letter == 0x45) && (e.sign == [] || e.sign == [0x2B] || e.sign == [0x2D])
               && Digits(e.digits) && exponent == [e.letter] + e.sign + e.digits
    ensures NumeralOk(n) && NumeralText(n) == minus + n.integer + fraction + exponent
  {
    hide Digits;
    assert FractionText(n) == fraction && ExponentText(n) == exponent;
  }

  lemma IntegerPart(t: Text, i: nat)
    requires N.IntegerLen(t) == Some(i)
    ensures 0 < i <= |t| && Digits(t[..i]) && (i > 1 ==> t[0] != 0x30)
  {
    N.IntegerIsDigits(t);
  }

  lemma FractionPart(t: Text, f: nat)
    requires N.FractionLen(t) == Some(f)
    ensures f <= |t| && (f > 0 ==> f > 1 && t[0] == 0x2E && Digits(t[..f][1..]))
  {
    if f > 0 {
      N.FractionIsDigits(t);
      assert t[..f][1..] == t[1..f];
    }
  }

  lemma ExponentPart(t: Text) returns (x: Option<Exponent>)
    requires N.ExponentLen(t) == Some(|t|)
    ensures x.None? <==> t == []
    ensures x.Some? ==>
              var e := x.value;
              && (e.letter == 0x65 || e.letter == 0x45) && (e.sign == [] || e.sign == [0x2B] || e.sign == [0x2D])
              && Digits(e.digits) && t == [e.letter] + e.sign + e.digits
  {
    if t == [] {
      x := None;
    } else {
      N.ExponentIsDigits(t);
      var s := N.SignLen(t[1..]);
      x := Some(Exponent(t[0], t[1..1 + s], t[1 + s..]));
    }
  }

  // What a numeral's parts are to the analysis of its value.
  lemma NumeralParts(n: Numeral)
    requires NumeralOk(n)
    ensures N.IsNumber(NumeralText(n))
    ensures N.PartsOf(NumeralText(n))
         == N.Parts(n.minus, n.integer, if n.fraction.Some? then n.fraction.value else [],
                    n.exponent.Some? && n.exponent.value.sign == [0x2D],
                    if n.exponent.Some? then n.exponent.value.digits else [])
  {
    hide N.IntegerLen, N.FractionLen, N.ExponentLen, N.MinusLen, N.IsNumber, N.SignLen, NumeralText, NumeralOk, Digits;
    var t := NumeralText(n);
    NumeralIsToken(n);
    NumeralMinus(n);
    NumeralTails(n);
    ExponentStarts(n);
    IntegerIsToken(n, FractionText(n) + ExponentText(n));
    FractionIsToken(n, ExponentText(n));
    ExponentIsToken(n);
    assert N.AfterMinus(t) == n.integer + (FractionText(n) + ExponentText(n));
    assert N.AfterInteger(t) == FractionText(n) + ExponentText(n);
    assert N.AfterFraction(t) == ExponentText(n);
  }
}
