/**
 Canonical JSON numbers: src/json-number.ts. The token grammar is that of section 6 of
 RFC 8259; the value of a token is the exact rational number it writes.
 */
module JsonNumber {
  import opened Wrappers
  import opened JsonText

  const INTEGER_DIGITS: nat := 131072
  const FRACTION_DIGITS: nat := 16383
  const TOKEN_LENGTH: nat := INTEGER_DIGITS + FRACTION_DIGITS + 16

  datatype NumberError = TokenTooLong | InvalidNumber | ExponentOutOfRange | TooManyDigits

  // ------------------------------------------------------------------ grammar

  function IntegerLen(t: Text): Option<nat> {
    if t == [] || !IsDigit(t[0]) then None
    else if t[0] != ZERO then Some(LeadingDigits(t))
    else if |t| > 1 && IsDigit(t[1]) then None
    else Some(1)
  }

  function FractionLen(t: Text): Option<nat> {
    if !StartsWith(t, DOT) then Some(0)
    else if LeadingDigits(t[1..]) == 0 then None
    else Some(1 + LeadingDigits(t[1..]))
  }

  function SignLen(t: Text): nat {
    if StartsWith(t, PLUS) || StartsWith(t, MINUS) then 1 else 0
  }

  function ExponentLen(t: Text): Option<nat> {
    if !StartsWith(t, LOWER_E) && !StartsWith(t, UPPER_E) then Some(0)
    else
      var sign := SignLen(t[1..]);
      if LeadingDigits(t[1 + sign..]) == 0 then None
      else Some(1 + sign + LeadingDigits(t[1 + sign..]))
  }

  function MinusLen(t: Text): nat {
    if StartsWith(t, MINUS) then 1 else 0
  }

  // The length of the number token that t starts with.
  function NumberLen(t: Text): (r: Option<nat>)
    ensures r.Some? ==> 0 < r.value <= |t|
  {
    var m := MinusLen(t);
    var i := IntegerLen(t[m..]);
    if i.None? then None
    else
      var f := FractionLen(t[m + i.value..]);
      if f.None? then None
      else
        var e := ExponentLen(t[m + i.value + f.value..]);
        if e.None? then None else Some(m + i.value + f.value + e.value)
  }

  predicate IsNumber(t: Text) {
    NumberLen(t) == Some(|t|)
  }

  // The length of a token from the lengths of its pieces.
  lemma NumberFromPieces(t: Text, m: nat, i: nat, f: nat, e: nat)
    requires MinusLen(t) == m <= |t| && IntegerLen(t[m..]) == Some(i) && m + i <= |t|
    requires FractionLen(t[m + i..]) == Some(f) && m + i + f <= |t|
    requires ExponentLen(t[m + i + f..]) == Some(e)
    ensures NumberLen(t) == Some(m + i + f + e)
  {
    hide IntegerLen, FractionLen, ExponentLen, MinusLen;
  }

  lemma PiecesOfNumber(t: Text) returns (m: nat, i: nat, f: nat, e: nat)
    requires IsNumber(t)
    ensures MinusLen(t) == m <= |t| && IntegerLen(t[m..]) == Some(i) && 0 < i && m + i <= |t|
    ensures FractionLen(t[m + i..]) == Some(f) && m + i + f <= |t|
    ensures ExponentLen(t[m + i + f..]) == Some(e) && m + i + f + e == |t|
  {
    m := MinusLen(t);
    i := IntegerLen(t[m..]).value;
    f := FractionLen(t[m + i..]).value;
    e := ExponentLen(t[m + i + f..]).value;
    hide IntegerLen, FractionLen, ExponentLen;
    IntegerIsDigits(t[m..]);
  }

  // The parts of a number token; `exponent` is [] when there is none.
  datatype Parts = Parts(negative: bool, integer: Text, fraction: Text, exponentNegative: bool, exponent: Text)

  function AfterMinus(t: Text): Text {
    t[MinusLen(t)..]
  }

  function AfterInteger(t: Text): Text
    requires IsNumber(t)
  {
    AfterMinus(t)[IntegerLen(AfterMinus(t)).value..]
  }

  function AfterFraction(t: Text): Text
    requires IsNumber(t)
  {
    AfterInteger(t)[FractionLen(AfterInteger(t)).value..]
  }

  function PartsOf(t: Text): Parts
    requires IsNumber(t)
  {
    var integer := AfterMinus(t)[..IntegerLen(AfterMinus(t)).value];
    var fraction := if FractionLen(AfterInteger(t)).value == 0 then []
                    else AfterInteger(t)[1..FractionLen(AfterInteger(t)).value];
    var e := AfterFraction(t);
    if e == [] then Parts(MinusLen(t) == 1, integer, fraction, false, [])
    else Parts(MinusLen(t) == 1, integer, fraction, StartsWith(e[1..], MINUS), e[1 + SignLen(e[1..])..])
  }

  lemma IntegerIsDigits(t: Text)
    requires IntegerLen(t).Some?
    ensures 0 < IntegerLen(t).value <= |t| && AllDigits(t[..IntegerLen(t).value])
  {
    LeadingDigitsExact(t);
  }

  lemma FractionIsDigits(t: Text)
    requires FractionLen(t).Some? && FractionLen(t).value > 0
    ensures FractionLen(t).value <= |t| && AllDigits(t[1..FractionLen(t).value])
  {
    LeadingDigitsExact(t[1..]);
    assert t[1..FractionLen(t).value] == t[1..][..LeadingDigits(t[1..])];
  }

  lemma ExponentIsDigits(t: Text)
    requires t != [] && ExponentLen(t) == Some(|t|)
    ensures 1 + SignLen(t[1..]) <= |t| && AllDigits(t[1 + SignLen(t[1..])..])
  {
    var d := t[1 + SignLen(t[1..])..];
    LeadingDigitsExact(d);
    assert d[..|d|] == d;
  }

  lemma PartsAreDigits(t: Text)
    requires IsNumber(t)
    ensures var p := PartsOf(t);
            AllDigits(p.integer) && AllDigits(p.fraction) && AllDigits(p.exponent) && p.integer != []
  {
    hide IntegerLen, FractionLen, LeadingDigits, ExponentLen;
    IntegerIsDigits(AfterMinus(t));
    if FractionLen(AfterInteger(t)).value > 0 {
      FractionIsDigits(AfterInteger(t));
    }
    if AfterFraction(t) != [] {
      ExponentIsDigits(AfterFraction(t));
    }
  }

  // ----------------------------------------------------------------- analysis

  datatype Analysis = Analysis(negative: bool, digits: Text, decimalPosition: int)

  function StripZeros(t: Text): Text {
    t[LeadingZeros(t)..]
  }

  lemma StripZerosDigits(t: Text)
    requires AllDigits(t)
    ensures AllDigits(StripZeros(t)) && NatOf(StripZeros(t)) == NatOf(t)
    ensures StripZeros(t) == [] || StripZeros(t)[0] != ZERO
  {
    LeadingZerosExact(t);
    NatOfLeadingZeros(LeadingZeros(t), StripZeros(t));
  }

  // parseExponent: the signed exponent, if it is within the digit limits.
  function ParseExponent(negative: bool, digits: Text): Option<int> {
    var stripped := StripZeros(digits);
    var magnitude: int := NatOf(stripped);
    if |stripped| > 6 || magnitude > INTEGER_DIGITS + FRACTION_DIGITS then None
    else Some(if negative then -magnitude else magnitude)
  }

  function IntegerCount(a: Analysis): nat {
    if a.decimalPosition <= 0 then 0 else a.decimalPosition
  }

  function FractionCount(a: Analysis): nat {
    if a.decimalPosition >= |a.digits| then 0 else |a.digits| - a.decimalPosition
  }

  function AnalyzeParts(p: Parts): Result<Analysis, NumberError> {
    var exponent := ParseExponent(p.exponentNegative, p.exponent);
    if exponent.None? then Err(ExponentOutOfRange)
    else
      var all := p.integer + p.fraction;
      var zeros := LeadingZeros(all);
      if zeros == |all| then Ok(Analysis(false, [ZERO], 1))
      else
        var a := Analysis(p.negative, all[zeros..], |p.integer| + exponent.value - zeros);
        if IntegerCount(a) > INTEGER_DIGITS || FractionCount(a) > FRACTION_DIGITS then Err(TooManyDigits)
        else Ok(a)
  }

  function Analyze(t: Text): Result<Analysis, NumberError> {
    if |t| > TOKEN_LENGTH then Err(TokenTooLong)
    else if !IsNumber(t) then Err(InvalidNumber)
    else AnalyzeParts(PartsOf(t))
  }

  function CanonicalBytes(a: Analysis): nat {
    (if a.negative then 1 else 0)
    + if IntegerCount(a) == 0 then 2 + FractionCount(a)
      else IntegerCount(a) + if FractionCount(a) > 0 then 1 + FractionCount(a) else 0
  }

  function Render(a: Analysis): Text {
    (if a.negative then [MINUS] else [])
    + if a.decimalPosition <= 0 then [ZERO, DOT] + Zeros(-a.decimalPosition) + a.digits
      else if a.decimalPosition >= |a.digits| then a.digits + Zeros(a.decimalPosition - |a.digits|)
      else a.digits[..a.decimalPosition] + [DOT] + a.digits[a.decimalPosition..]
  }

  predicate Accepted(t: Text) {
    Analyze(t).Ok?
  }

  // canonicalJsonNumber and canonicalJsonNumberBytes.
  function Canonical(t: Text): Text
    requires Accepted(t)
  {
    var a := Analyze(t).value;
    if a.digits == [ZERO] then [ZERO] else Render(a)
  }

  function CanonicalLength(t: Text): nat
    requires Accepted(t)
  {
    var a := Analyze(t).value;
    if a.digits == [ZERO] then 1 else CanonicalBytes(a)
  }

  // -------------------------------------------------------------------- value

  // m times ten to the power e.
  function Scale(m: int, e: int): real
    decreases if e < 0 then -e else e
  {
    if e == 0 then m as real
    else if e > 0 then 10.0 * Scale(m, e - 1)
    else Scale(m, e + 1) / 10.0
  }

  function Mantissa(p: Parts): int {
    var magnitude: int := NatOf(p.integer + p.fraction);
    if p.negative then -magnitude else magnitude
  }

  function ExponentOf(p: Parts): int
    requires ParseExponent(p.exponentNegative, p.exponent).Some?
  {
    ParseExponent(p.exponentNegative, p.exponent).value - |p.fraction|
  }

  // The rational number that an accepted token writes.
  function Value(t: Text): real
    requires Accepted(t)
  {
    Scale(Mantissa(PartsOf(t)), ExponentOf(PartsOf(t)))
  }

  // The number of fraction digits written out when the exponent is expanded.
  function DisplayScale(t: Text): nat
    requires Accepted(t)
  {
    if ExponentOf(PartsOf(t)) >= 0 then 0 else -ExponentOf(PartsOf(t))
  }

  // ------------------------------------------------------------- value lemmas

  lemma {:induction false} ScaleShift(m: int, e: int)
    ensures Scale(10 * m, e) == Scale(m, e + 1)
    decreases if e < 0 then -e else e
  {
    if e > 0 {
      ScaleShift(m, e - 1);
    } else if e < 0 {
      ScaleShift(m, e + 1);
    }
  }

  lemma {:induction false} ScaleInjective(m: int, n: int, e: int)
    requires Scale(m, e) == Scale(n, e)
    ensures m == n
    decreases if e < 0 then -e else e
  {
    if e > 0 {
      ScaleInjective(m, n, e - 1);
    } else if e < 0 {
      ScaleInjective(m, n, e + 1);
    }
  }

  lemma {:induction false} ScaleNegates(m: int, e: int)
    ensures Scale(-m, e) == -Scale(m, e)
    decreases if e < 0 then -e else e
  {
    if e > 0 {
      ScaleNegates(m, e - 1);
    } else if e < 0 {
      ScaleNegates(m, e + 1);
    }
  }

  lemma {:induction false} ScaleSign(m: int, e: int)
    ensures m > 0 ==> Scale(m, e) > 0.0
    ensures m == 0 ==> Scale(m, e) == 0.0
    decreases if e < 0 then -e else e
  {
    if e > 0 {
      ScaleSign(m, e - 1);
    } else if e < 0 {
      ScaleSign(m, e + 1);
    }
  }

  // Appending zeros to the digits is the same as raising the exponent.
  lemma {:induction false} ScaleTrailingZeros(t: Text, k: nat, e: int)
    requires AllDigits(t)
    ensures AllDigits(t + Zeros(k)) && Scale(NatOf(t + Zeros(k)), e) == Scale(NatOf(t), e + k)
    decreases k
  {
    if k == 0 {
      assert t + Zeros(0) == t;
    } else {
      var more := t + Zeros(k);
      assert more[..|more| - 1] == t + Zeros(k - 1);
      ScaleTrailingZeros(t, k - 1, e + 1);
      ScaleShift(NatOf(t + Zeros(k - 1)), e);
    }
  }

  // ---------------------------------------------------------------- canonical

  // A token without exponent, put together from its parts.
  function Plain(negative: bool, integer: Text, fraction: Text): Text {
    (if negative then [MINUS] else []) + integer + if fraction == [] then [] else [DOT] + fraction
  }

  predicate PlainParts(integer: Text, fraction: Text) {
    && integer != [] && AllDigits(integer) && AllDigits(fraction)
    && (integer[0] == ZERO ==> integer == [ZERO])
  }

  lemma IntegerOfPlain(integer: Text, rest: Text)
    requires PlainParts(integer, []) && (rest == [] || rest[0] == DOT)
    ensures IntegerLen(integer + rest) == Some(|integer|)
  {
    var t := integer + rest;
    assert t[0] == integer[0] && IsDigit(integer[0]);
    LeadingDigitsAppend(integer, rest);
  }

  lemma FractionOfPlain(fraction: Text)
    requires AllDigits(fraction)
    ensures var rest := if fraction == [] then [] else [DOT] + fraction;
            FractionLen(rest) == Some(|rest|)
  {
    if fraction != [] {
      assert ([DOT] + fraction)[1..] == fraction;
      LeadingDigitsAppend(fraction, []);
      assert fraction + [] == fraction;
    }
  }

  lemma NoExponent()
    ensures ExponentLen([]) == Some(0) && ParseExponent(false, []) == Some(0)
  {
  }

  // A token whose three pieces have the lengths the grammar finds.
  lemma PiecesMakeNumber(t: Text, m: nat, integer: Text, rest: Text)
    requires MinusLen(t) == m && m <= |t| && t[m..] == integer + rest
    requires IntegerLen(integer + rest) == Some(|integer|) && FractionLen(rest) == Some(|rest|)
    requires integer != []
    ensures IsNumber(t) && AfterInteger(t) == rest && AfterFraction(t) == []
    ensures AfterMinus(t)[..IntegerLen(AfterMinus(t)).value] == integer
  {
    hide IntegerLen, FractionLen, ExponentLen;
    NoExponent();
    assert t[m + |integer|..] == t[m..][|integer|..] == rest;
    assert t[m + |integer| + |rest|..] == rest[|rest|..] == [];
  }

  lemma PlainIsNumber(negative: bool, integer: Text, fraction: Text)
    requires PlainParts(integer, fraction)
    ensures IsNumber(Plain(negative, integer, fraction))
    ensures PartsOf(Plain(negative, integer, fraction)) == Parts(negative, integer, fraction, false, [])
  {
    var t := Plain(negative, integer, fraction);
    var rest := if fraction == [] then [] else [DOT] + fraction;
    var m := if negative then 1 else 0;
    assert IsDigit(integer[0]);
    assert t[m..] == integer + rest;
    IntegerOfPlain(integer, rest);
    FractionOfPlain(fraction);
    PiecesMakeNumber(t, m, integer, rest);
    hide IntegerLen, FractionLen, IsNumber;
    assert fraction != [] ==> rest[1..|rest|] == fraction;
  }

  // The digits and position of an accepted token other than zero.
  predicate Normal(a: Analysis) {
    && a.digits != [] && AllDigits(a.digits) && a.digits[0] != ZERO
    && IntegerCount(a) <= INTEGER_DIGITS && FractionCount(a) <= FRACTION_DIGITS
  }

  lemma AnalysisIsNormal(t: Text)
    requires Accepted(t)
    ensures Analyze(t).value == Analysis(false, [ZERO], 1) || Normal(Analyze(t).value)
  {
    PartsAreDigits(t);
    hide PartsOf, IsNumber, AnalyzeParts, Normal, AllDigits;
    PartsAreNormal(PartsOf(t));
  }

  lemma PartsAreNormal(p: Parts)
    requires AllDigits(p.integer) && AllDigits(p.fraction) && AnalyzeParts(p).Ok?
    ensures AnalyzeParts(p).value == Analysis(false, [ZERO], 1) || Normal(AnalyzeParts(p).value)
  {
    LeadingZerosExact(p.integer + p.fraction);
    hide ParseExponent, LeadingZeros;
  }

  function RenderInteger(a: Analysis): Text {
    if a.decimalPosition <= 0 then [ZERO]
    else if a.decimalPosition >= |a.digits| then a.digits + Zeros(a.decimalPosition - |a.digits|)
    else a.digits[..a.decimalPosition]
  }

  function RenderFraction(a: Analysis): Text {
    if a.decimalPosition <= 0 then Zeros(-a.decimalPosition) + a.digits
    else if a.decimalPosition >= |a.digits| then []
    else a.digits[a.decimalPosition..]
  }

  lemma RenderIsPlain(a: Analysis)
    requires Normal(a)
    ensures PlainParts(RenderInteger(a), RenderFraction(a))
    ensures Render(a) == Plain(a.negative, RenderInteger(a), RenderFraction(a))
    ensures |Render(a)| == CanonicalBytes(a) <= TOKEN_LENGTH
  {
    assert IsDigit(a.digits[0]);
  }

  // The analysis of a rendered token: trailing zeros of an integer become digits.
  function Rendered(a: Analysis): Analysis {
    if a.decimalPosition > |a.digits|
    then a.(digits := a.digits + Zeros(a.decimalPosition - |a.digits|)) else a
  }

  lemma LeadingZerosOfRendered(a: Analysis)
    requires Normal(a)
    ensures var all := RenderInteger(a) + RenderFraction(a);
            && all[LeadingZeros(all)..] == Rendered(a).digits
            && LeadingZeros(all) == (if a.decimalPosition <= 0 then 1 - a.decimalPosition else 0)
            && LeadingZeros(all) < |all|
  {
    var all := RenderInteger(a) + RenderFraction(a);
    var k := if a.decimalPosition <= 0 then 1 - a.decimalPosition else 0;
    assert all == Zeros(k) + Rendered(a).digits;
    LeadingZerosAppend(k, Rendered(a).digits);
  }

  lemma RenderedAgain(a: Analysis)
    requires Normal(a)
    ensures Normal(Rendered(a)) && Render(Rendered(a)) == Render(a)
  {
    assert a.decimalPosition > |a.digits| ==> Rendered(a).digits[0] == a.digits[0];
  }

  lemma AnalyzeRendered(a: Analysis)
    requires Normal(a)
    ensures Analyze(Render(a)) == Ok(Rendered(a))
    ensures Normal(Rendered(a)) && Render(Rendered(a)) == Render(a)
  {
    RenderedAgain(a);
    RenderIsPlain(a);
    hide Normal, Rendered, Render, PartsOf, IsNumber, AnalyzeParts, RenderInteger, RenderFraction, Plain;
    PlainIsNumber(a.negative, RenderInteger(a), RenderFraction(a));
    AnalyzeRenderedParts(a);
  }

  lemma AnalyzeRenderedParts(a: Analysis)
    requires Normal(a)
    ensures AnalyzeParts(Parts(a.negative, RenderInteger(a), RenderFraction(a), false, [])) == Ok(Rendered(a))
  {
    LeadingZerosOfRendered(a);
    NoExponent();
    hide ParseExponent, LeadingZeros;
  }

  const ZERO_ANALYSIS := Analysis(false, [ZERO], 1)

  lemma ZeroIsCanonical()
    ensures Analyze([ZERO]) == Ok(ZERO_ANALYSIS)
  {
    PlainIsNumber(false, [ZERO], []);
    assert Plain(false, [ZERO], []) == [ZERO];
    NoExponent();
    assert LeadingZeros([ZERO]) == 1;
    assert [ZERO] + [] == [ZERO];
    hide PartsOf, IsNumber, ParseExponent, LeadingZeros;
  }

  function AnalysisValue(a: Analysis): real {
    var magnitude: int := NatOf(a.digits);
    Scale(if a.negative then -magnitude else magnitude, a.decimalPosition - |a.digits|)
  }

  lemma AllZeros(t: Text)
    requires AllDigits(t) && LeadingZeros(t) == |t|
    ensures NatOf(t) == 0
  {
    LeadingZerosExact(t);
    NatOfLeadingZeros(|t|, []);
    assert t == Zeros(|t|) + [];
  }

  lemma ValueOfParts(p: Parts)
    requires AllDigits(p.integer) && AllDigits(p.fraction) && AnalyzeParts(p).Ok?
    ensures var a := AnalyzeParts(p).value;
            if a.digits == [ZERO] then Scale(Mantissa(p), ExponentOf(p)) == 0.0
            else && Scale(Mantissa(p), ExponentOf(p)) == AnalysisValue(a)
                 && ExponentOf(p) == a.decimalPosition - |a.digits|
  {
    var all := p.integer + p.fraction;
    LeadingZerosExact(all);
    StripZerosDigits(all);
    if LeadingZeros(all) == |all| {
      AllZeros(all);
      ScaleSign(0, ExponentOf(p));
    }
    hide ParseExponent, LeadingZeros;
  }

  lemma ValueOfAnalysis(t: Text)
    requires Accepted(t)
    ensures var a := Analyze(t).value;
            if a.digits == [ZERO] then Value(t) == 0.0
            else Value(t) == AnalysisValue(a) && DisplayScale(t) == FractionCount(a)
  {
    PartsAreDigits(t);
    hide PartsOf, IsNumber, AnalyzeParts, AnalysisValue, Scale, Mantissa;
    ValueOfParts(PartsOf(t));
  }

  lemma NormalIsNonzero(a: Analysis)
    requires Normal(a)
    ensures NatOf(a.digits) > 0 && AnalysisValue(a) != 0.0
    ensures a.negative <==> AnalysisValue(a) < 0.0
  {
    NatOfPositive(a.digits);
    ScaleSign(NatOf(a.digits), a.decimalPosition - |a.digits|);
    ScaleNegates(NatOf(a.digits), a.decimalPosition - |a.digits|);
  }

  lemma RenderedValue(a: Analysis)
    requires Normal(a)
    ensures AnalysisValue(Rendered(a)) == AnalysisValue(a)
    ensures FractionCount(Rendered(a)) == FractionCount(a)
    ensures Rendered(a).decimalPosition + FractionCount(a) == |Rendered(a).digits|
  {
    var k := a.decimalPosition - |a.digits|;
    if k > 0 {
      ScaleTrailingZeros(a.digits, k, 0);
      ScaleNegates(NatOf(a.digits), k);
      ScaleNegates(NatOf(a.digits + Zeros(k)), 0);
    }
  }

  // The analysis of the canonical form, for zero and for every other token.
  lemma AnalyzeCanonical(t: Text)
    requires Accepted(t)
    ensures var a := Analyze(t).value;
            if a == ZERO_ANALYSIS then Canonical(t) == [ZERO] && Analyze(Canonical(t)) == Ok(ZERO_ANALYSIS)
            else Normal(a) && Canonical(t) == Render(a) && Analyze(Canonical(t)) == Ok(Rendered(a))
  {
    AnalysisIsNormal(t);
    ZeroIsCanonical();
    if Analyze(t).value != ZERO_ANALYSIS {
      AnalyzeRendered(Analyze(t).value);
    }
  }

  // ------------------------------------------------------------- main results

  // The canonical form is an accepted token without exponent, of exactly the announced
  // length and within the token limit, and it is its own canonical form.
  lemma CanonicalShape(t: Text)
    requires Accepted(t)
    ensures Accepted(Canonical(t)) && Canonical(Canonical(t)) == Canonical(t)
    ensures |Canonical(t)| == CanonicalLength(t) <= TOKEN_LENGTH
    ensures forall c <- Canonical(t) :: IsDigit(c) || c == MINUS || c == DOT
    ensures CanonicalLength(Canonical(t)) == |Canonical(t)|
  {
    AnalyzeCanonical(t);
    var a := Analyze(t).value;
    if a != ZERO_ANALYSIS {
      RenderIsPlain(a);
      AnalyzeRendered(a);
      RenderIsPlain(Rendered(a));
    }
  }

  // It writes the same number, with the same fraction digits unless the number is zero.
  lemma CanonicalValue(t: Text)
    requires Accepted(t)
    ensures Accepted(Canonical(t)) && Value(Canonical(t)) == Value(t)
    ensures Value(t) == 0.0 || DisplayScale(Canonical(t)) == DisplayScale(t)
  {
    AnalyzeCanonical(t);
    ValueOfAnalysis(t);
    ValueOfAnalysis(Canonical(t));
    var a := Analyze(t).value;
    if a != ZERO_ANALYSIS {
      RenderedValue(a);
      AnalyzeRendered(a);
    }
  }

  lemma RenderedUnique(a: Analysis, b: Analysis)
    requires Normal(a) && Normal(b)
    requires AnalysisValue(a) == AnalysisValue(b) && FractionCount(a) == FractionCount(b)
    ensures Rendered(a) == Rendered(b)
  {
    RenderedValue(a);
    RenderedValue(b);
    RenderedAgain(a);
    RenderedAgain(b);
    SameDigits(Rendered(a), Rendered(b));
    hide Rendered, Normal;
  }

  lemma SameDigits(x: Analysis, y: Analysis)
    requires Normal(x) && Normal(y) && AnalysisValue(x) == AnalysisValue(y)
    requires x.decimalPosition - |x.digits| == y.decimalPosition - |y.digits|
    ensures x == y
  {
    NormalIsNonzero(x);
    NormalIsNonzero(y);
    var m: int, n: int := NatOf(x.digits), NatOf(y.digits);
    ScaleInjective(if x.negative then -m else m, if y.negative then -n else n, x.decimalPosition - |x.digits|);
    NatOfInjective(x.digits, y.digits);
  }

  // Two tokens have the same canonical form exactly when they write the same number with
  // the same number of fraction digits, or both write zero.
  lemma CanonicalDecides(s: Text, t: Text)
    requires Accepted(s) && Accepted(t)
    ensures Canonical(s) == Canonical(t)
            <==> Value(s) == Value(t) && (Value(s) == 0.0 || DisplayScale(s) == DisplayScale(t))
  {
    CanonicalValue(s);
    CanonicalValue(t);
    AnalyzeCanonical(s);
    AnalyzeCanonical(t);
    ValueOfAnalysis(s);
    ValueOfAnalysis(t);
    var a, b := Analyze(s).value, Analyze(t).value;
    if a != ZERO_ANALYSIS {
      NormalIsNonzero(a);
    }
    if b != ZERO_ANALYSIS {
      NormalIsNonzero(b);
    }
    if a != ZERO_ANALYSIS && b != ZERO_ANALYSIS && Value(s) == Value(t) && DisplayScale(s) == DisplayScale(t) {
      RenderedUnique(a, b);
      AnalyzeRendered(a);
      AnalyzeRendered(b);
    }
  }
}
