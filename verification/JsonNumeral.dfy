/**
 Which number a numeral writes and which numerals are accepted, said of the numeral itself.
 */
module JsonNumeral {
  import opened Wrappers
  import opened JsonText
  import N = JsonNumber
  import G = JsonGrammar

  // -------------------------------------------------------------------- meaning

  function FractionOf(n: G.Numeral): Text {
    if n.fraction.Some? then n.fraction.value else []
  }

  function ExponentOf(n: G.Numeral): int {
    if n.exponent.None? then 0
    else
      var size: int := NatOf(n.exponent.value.digits);
      if n.exponent.value.sign == [0x2D] then -size else size
  }

  // The number that a numeral writes: its digits, times ten to its exponent less the number of
  // digits behind the point.
  function Written(n: G.Numeral): real {
    var size: int := NatOf(n.integer + FractionOf(n));
    N.Scale(if n.minus then -size else size, ExponentOf(n) - |FractionOf(n)|)
  }

  // Ten to the power k.
  function Power(k: nat): real {
    if k == 0 then 1.0 else 10.0 * Power(k - 1)
  }

  // What numeric of PostgreSQL can hold: 131072 digits in front of the point and 16383 behind it.
  predicate Fits(n: G.Numeral) {
    && |G.NumeralText(n)| <= 147471
    && -147455 <= ExponentOf(n) <= 147455
    && (Written(n) == 0.0
        || (|FractionOf(n)| - ExponentOf(n) <= 16383 && -Power(131072) < Written(n) < Power(131072)))
  }

  // --------------------------------------------------------------------- bounds

  function Ten(k: nat): nat {
    if k == 0 then 1 else 10 * Ten(k - 1)
  }

  lemma {:induction false} TenGrows(j: nat, k: nat)
    requires j <= k
    ensures Ten(j) <= Ten(k)
  {
    if j < k {
      TenGrows(j, k - 1);
    }
  }

  lemma {:induction false} DigitsBelow(t: Text)
    requires AllDigits(t)
    ensures NatOf(t) < Ten(|t|)
  {
    if t != [] {
      var front := t[..|t| - 1];
      assert t == front + [t[|t| - 1]] && t[|t| - 1] in t && forall c <- front :: c in t;
      DigitsBelow(front);
    }
  }

  lemma {:induction false} DigitsAbove(t: Text)
    requires AllDigits(t) && t != [] && t[0] != ZERO
    ensures NatOf(t) >= Ten(|t| - 1)
  {
    var front := t[..|t| - 1];
    assert t == front + [t[|t| - 1]] && t[|t| - 1] in t && forall c <- front :: c in t;
    if front == [] {
      assert NatOf(front) == 0;
    } else {
      DigitsAbove(front);
    }
  }

  lemma {:induction false} ScaleGrows(m: int, n: int, e: int)
    requires m < n
    ensures N.Scale(m, e) < N.Scale(n, e)
    decreases if e < 0 then -e else e
  {
    if e > 0 {
      ScaleGrows(m, n, e - 1);
    } else if e < 0 {
      ScaleGrows(m, n, e + 1);
    }
  }

  lemma {:induction false} ScaleTen(k: nat, e: int)
    ensures N.Scale(Ten(k), e) == N.Scale(1, e + k)
    decreases k
  {
    if k > 0 {
      N.ScaleShift(Ten(k - 1), e);
      ScaleTen(k - 1, e + 1);
    }
  }

  lemma {:induction false} OneGrows(d: int, e: int)
    requires d <= e
    ensures N.Scale(1, d) <= N.Scale(1, e)
    decreases e - d
  {
    if d < e {
      OneGrows(d + 1, e);
      N.ScaleShift(1, d);
      ScaleGrows(1, 10, d);
    }
  }

  lemma {:induction false} PowerIs(k: nat)
    ensures Power(k) == N.Scale(1, k)
  {
    if k > 0 {
      PowerIs(k - 1);
    }
  }

  // A number with `digits` and the point behind the first p of them has at most k digits in
  // front of the point exactly when it is less than ten to the power k.
  lemma IntegerDigits(digits: Text, p: int, k: nat)
    requires AllDigits(digits) && digits != [] && digits[0] != ZERO
    ensures p <= k <==> N.Scale(NatOf(digits), p - |digits|) < Power(k)
  {
    var e := p - |digits|;
    PowerIs(k);
    DigitsBelow(digits);
    DigitsAbove(digits);
    hide Power, Ten, NatOf, N.Scale;
    ScaleTen(|digits|, e);
    ScaleTen(|digits| - 1, e);
    ScaleGrows(NatOf(digits), Ten(|digits|), e);
    if NatOf(digits) > Ten(|digits| - 1) {
      ScaleGrows(Ten(|digits| - 1), NatOf(digits), e);
    }
    if p <= k {
      OneGrows(p, k);
    } else {
      OneGrows(k, p - 1);
    }
  }

  // ------------------------------------------------------------------- exponents

  lemma SevenDigits(t: Text)
    requires AllDigits(t) && |t| > 6 && t[0] != ZERO
    ensures NatOf(t) >= 1000000
  {
    DigitsAbove(t);
    TenGrows(6, |t| - 1);
    hide NatOf;
    assert Ten(6) == 1000 * Ten(3) && Ten(3) == 1000;
  }

  // The exponent is refused exactly when it is greater than all digits together.
  lemma ExponentExactly(negative: bool, digits: Text)
    requires AllDigits(digits)
    ensures N.ParseExponent(negative, digits)
         == (if NatOf(digits) > 147455 then None
             else var size: int := NatOf(digits); Some(if negative then -size else size))
  {
    hide NatOf, N.StripZeros, AllDigits;
    N.StripZerosDigits(digits);
    var stripped := N.StripZeros(digits);
    if |stripped| > 6 {
      SevenDigits(stripped);
    }
  }

  // ------------------------------------------------------------------- numerals

  lemma SignKeepsZero(negative: bool, m: nat, e: int)
    ensures var size: int := m;
            && (N.Scale(if negative then -size else size, e) == 0.0 <==> m == 0)
            && (N.Scale(if negative then -size else size, e)
                == if negative then -N.Scale(size, e) else N.Scale(size, e))
            && N.Scale(size, e) >= 0.0
  {
    N.ScaleSign(m, e);
    N.ScaleNegates(m, e);
  }

  lemma AnalysisFits(a: N.Analysis)
    requires AllDigits(a.digits) && a.digits != [] && a.digits[0] != ZERO
    ensures N.IntegerCount(a) <= N.INTEGER_DIGITS && N.FractionCount(a) <= N.FRACTION_DIGITS <==>
              |a.digits| - a.decimalPosition <= 16383
              && N.Scale(NatOf(a.digits), a.decimalPosition - |a.digits|) < Power(131072)
  {
    hide NatOf, Power, N.Scale, AllDigits;
    IntegerDigits(a.digits, a.decimalPosition, 131072);
  }

  lemma ZeroParts(p: N.Parts, x: int)
    requires AllDigits(p.integer + p.fraction) && LeadingZeros(p.integer + p.fraction) == |p.integer + p.fraction|
    requires N.ParseExponent(p.exponentNegative, p.exponent) == Some(x)
    ensures N.AnalyzeParts(p).Ok? && N.Scale(NatOf(p.integer + p.fraction), x - |p.fraction|) == 0.0
  {
    hide N.Scale, NatOf, AllDigits, N.ParseExponent;
    N.AllZeros(p.integer + p.fraction);
    SignKeepsZero(false, 0, x - |p.fraction|);
  }

  lemma NonzeroParts(p: N.Parts, x: int, digits: Text)
    requires LeadingZeros(p.integer + p.fraction) < |p.integer + p.fraction|
    requires digits == N.StripZeros(p.integer + p.fraction)
    requires N.ParseExponent(p.exponentNegative, p.exponent) == Some(x)
    ensures var a := N.Analysis(p.negative, digits, |digits| + x - |p.fraction|);
            N.AnalyzeParts(p).Ok? <==> N.IntegerCount(a) <= N.INTEGER_DIGITS && N.FractionCount(a) <= N.FRACTION_DIGITS
  {
    hide N.ParseExponent, LeadingZeros, N.IntegerCount, N.FractionCount;
  }

  // The digits of a token fit when the number it writes does.
  lemma PartsFit(p: N.Parts)
    requires AllDigits(p.integer) && AllDigits(p.fraction) && p.integer != []
    requires N.ParseExponent(p.exponentNegative, p.exponent).Some?
    ensures var x := N.ParseExponent(p.exponentNegative, p.exponent).value;
            var size := N.Scale(NatOf(p.integer + p.fraction), x - |p.fraction|);
            N.AnalyzeParts(p).Ok? <==> size == 0.0 || (|p.fraction| - x <= 16383 && size < Power(131072))
  {
    var all := p.integer + p.fraction;
    var x := N.ParseExponent(p.exponentNegative, p.exponent).value;
    assert AllDigits(all);
    LeadingZerosExact(all);
    N.StripZerosDigits(all);
    hide N.ParseExponent, LeadingZeros, NatOf, Power, N.Scale, AllDigits, N.AnalyzeParts, N.IntegerCount, N.FractionCount;
    if LeadingZeros(all) == |all| {
      ZeroParts(p, x);
    } else {
      var digits := N.StripZeros(all);
      NatOfPositive(digits);
      SignKeepsZero(false, NatOf(digits), x - |p.fraction|);
      NonzeroParts(p, x, digits);
      AnalysisFits(N.Analysis(p.negative, digits, |digits| + x - |p.fraction|));
    }
  }

  // What the analysis of a numeral is about.
  function PartsIn(n: G.Numeral): N.Parts {
    N.Parts(n.minus, n.integer, FractionOf(n), n.exponent.Some? && n.exponent.value.sign == [0x2D],
            if n.exponent.Some? then n.exponent.value.digits else [])
  }

  lemma PartsAreDigits(n: G.Numeral)
    requires G.NumeralOk(n)
    ensures var p := PartsIn(n); AllDigits(p.integer) && AllDigits(p.fraction) && AllDigits(p.exponent) && p.integer != []
  {
  }

  lemma ExponentIn(n: G.Numeral)
    requires AllDigits(PartsIn(n).exponent)
    ensures N.ParseExponent(PartsIn(n).exponentNegative, PartsIn(n).exponent)
         == if -147455 <= ExponentOf(n) <= 147455 then Some(ExponentOf(n)) else None
  {
    ExponentExactly(PartsIn(n).exponentNegative, PartsIn(n).exponent);
    assert NatOf([]) == 0;
    hide NatOf, N.ParseExponent, AllDigits;
  }

  lemma Unfolds(t: Text)
    requires N.IsNumber(t)
    ensures N.Accepted(t) <==> |t| <= 147471 && N.AnalyzeParts(N.PartsOf(t)).Ok?
  {
    hide N.IsNumber, N.PartsOf, N.AnalyzeParts;
  }

  lemma PartsHaveExponent(p: N.Parts)
    requires N.AnalyzeParts(p).Ok?
    ensures N.ParseExponent(p.exponentNegative, p.exponent).Some?
  {
  }

  // A number and its magnitude are within the same bound.
  lemma WithinBound(n: G.Numeral, bound: real)
    ensures var size := N.Scale(NatOf(n.integer + FractionOf(n)), ExponentOf(n) - |FractionOf(n)|);
            && (Written(n) == 0.0 <==> size == 0.0)
            && (-bound < Written(n) < bound <==> size < bound)
  {
    hide N.Scale, NatOf, ExponentOf, FractionOf;
    SignKeepsZero(n.minus, NatOf(n.integer + FractionOf(n)), ExponentOf(n) - |FractionOf(n)|);
    SignKeepsZero(false, NatOf(n.integer + FractionOf(n)), ExponentOf(n) - |FractionOf(n)|);
  }

  // The parts fit exactly when the numeral does, apart from its length.
  lemma FitExactly(n: G.Numeral)
    requires G.NumeralOk(n)
    ensures N.AnalyzeParts(PartsIn(n)).Ok? && |G.NumeralText(n)| <= 147471 <==> Fits(n)
  {
    PartsAreDigits(n);
    ExponentIn(n);
    WithinBound(n, Power(131072));
    var p := PartsIn(n);
    hide G.NumeralText, G.NumeralOk, NatOf, N.ParseExponent, Power, N.Scale, ExponentOf, FractionOf, N.AnalyzeParts, AllDigits, Written;
    if ExponentOf(n) < -147455 || ExponentOf(n) > 147455 {
      if N.AnalyzeParts(p).Ok? {
        PartsHaveExponent(p);
      }
    } else {
      PartsFit(p);
    }
  }

  lemma ValueFrom(t: Text)
    requires N.IsNumber(t) && N.Accepted(t)
    ensures var p := N.PartsOf(t);
            && N.ParseExponent(p.exponentNegative, p.exponent).Some?
            && N.Value(t) == N.Scale(N.Mantissa(p), N.ExponentOf(p))
            && N.DisplayScale(t) == Max(0, -N.ExponentOf(p))
  {
    PartsHaveExponent(N.PartsOf(t));
  }

  lemma WrittenFrom(n: G.Numeral)
    requires N.ParseExponent(PartsIn(n).exponentNegative, PartsIn(n).exponent) == Some(ExponentOf(n))
    ensures N.ExponentOf(PartsIn(n)) == ExponentOf(n) - |FractionOf(n)|
    ensures N.Scale(N.Mantissa(PartsIn(n)), N.ExponentOf(PartsIn(n))) == Written(n)
  {
    hide N.Scale, NatOf, ExponentOf, N.ParseExponent;
  }

  // A numeral is accepted exactly when it fits, and then its value is the number it writes.
  lemma NumeralExactly(n: G.Numeral)
    requires G.NumeralOk(n)
    ensures N.Accepted(G.NumeralText(n)) <==> Fits(n)
    ensures Fits(n) ==>
              && N.Value(G.NumeralText(n)) == Written(n)
              && N.DisplayScale(G.NumeralText(n)) == Max(0, |FractionOf(n)| - ExponentOf(n))
  {
    hide *;
    FitExactly(n);
    PartsAreDigits(n);
    ExponentIn(n);
    var t := G.NumeralText(n);
    PartsInText(n);
    Unfolds(t);
    if Fits(n) {
      FitsExponent(n);
      ValueFrom(t);
      WrittenFrom(n);
    }
  }

  lemma PartsInText(n: G.Numeral)
    requires G.NumeralOk(n)
    ensures N.IsNumber(G.NumeralText(n)) && N.PartsOf(G.NumeralText(n)) == PartsIn(n)
  {
    G.NumeralParts(n);
    hide N.PartsOf, G.NumeralText, N.IsNumber, G.NumeralOk;
  }

  lemma FitsExponent(n: G.Numeral)
    requires Fits(n)
    ensures -147455 <= ExponentOf(n) <= 147455
  {
    hide Power, Written, ExponentOf, G.NumeralText;
  }

  function Max(a: int, b: int): int {
    if a < b then b else a
  }

  // Main result: a token is accepted exactly when it is a numeral that fits.
  lemma AcceptedExactly(t: Text)
    ensures N.Accepted(t) <==> exists n :: G.NumeralOk(n) && G.NumeralText(n) == t && Fits(n)
  {
    hide Fits, G.NumeralOk, G.NumeralText;
    if N.Accepted(t) {
      assert N.IsNumber(t);
      hide N.Accepted, N.IsNumber;
      var n := G.TokenIsNumeral(t);
      NumeralExactly(n);
    } else {
      hide N.Accepted;
      forall n | G.NumeralOk(n) && G.NumeralText(n) == t ensures !Fits(n) {
        NumeralExactly(n);
      }
    }
  }
}
