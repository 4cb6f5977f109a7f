/**
 JavaScript text as UTF-16 code units, and the decimal digits in it.
 */
module JsonText {
  // A code unit. The definitions below make sense for every natural number.
  type Unit = nat

  type Text = seq<Unit>

  const ZERO: Unit := 0x30
  const NINE: Unit := 0x39
  const MINUS: Unit := 0x2D
  const PLUS: Unit := 0x2B
  const DOT: Unit := 0x2E
  const LOWER_E: Unit := 0x65
  const UPPER_E: Unit := 0x45

  predicate IsDigit(c: Unit) {
    ZERO <= c <= NINE
  }

  predicate AllDigits(t: Text) {
    forall c <- t :: IsDigit(c)
  }

  predicate StartsWith(t: Text, c: Unit) {
    t != [] && t[0] == c
  }

  // The number of digits that t starts with.
  function LeadingDigits(t: Text): (n: nat)
    ensures n <= |t|
  {
    if t != [] && IsDigit(t[0]) then 1 + LeadingDigits(t[1..]) else 0
  }

  function Zeros(n: nat): (t: Text)
    ensures |t| == n && forall c <- t :: c == ZERO
  {
    seq(n, _ => ZERO)
  }

  // The number of zeros that t starts with.
  function LeadingZeros(t: Text): (n: nat)
    ensures n <= |t|
  {
    if StartsWith(t, ZERO) then 1 + LeadingZeros(t[1..]) else 0
  }

  function DigitOf(c: Unit): nat {
    if IsDigit(c) then c - ZERO else 0
  }

  // The number written in decimal digits.
  function NatOf(t: Text): nat {
    if t == [] then 0 else NatOf(t[..|t| - 1]) * 10 + DigitOf(t[|t| - 1])
  }

  // Regrouping concatenations.
  lemma Regroup(a: Text, b: Text, c: Text, d: Text)
    ensures a + b + c + d == a + (b + c + d) == a + (b + (c + d))
  {
  }

  lemma {:induction false} LeadingDigitsAppend(a: Text, b: Text)
    requires AllDigits(a) && (b == [] || !IsDigit(b[0]))
    ensures LeadingDigits(a + b) == |a|
  {
    if a != [] {
      assert (a + b)[1..] == a[1..] + b;
      LeadingDigitsAppend(a[1..], b);
    } else {
      assert a + b == b;
    }
  }

  lemma {:induction false} LeadingDigitsExact(t: Text)
    ensures AllDigits(t[..LeadingDigits(t)])
    ensures LeadingDigits(t) < |t| ==> !IsDigit(t[LeadingDigits(t)])
  {
    if t != [] && IsDigit(t[0]) {
      LeadingDigitsExact(t[1..]);
      assert t[..LeadingDigits(t)] == [t[0]] + t[1..][..LeadingDigits(t[1..])];
    }
  }

  lemma {:induction false} LeadingZerosAppend(n: nat, t: Text)
    requires t == [] || t[0] != ZERO
    ensures LeadingZeros(Zeros(n) + t) == n
  {
    if n > 0 {
      assert (Zeros(n) + t)[1..] == Zeros(n - 1) + t;
      LeadingZerosAppend(n - 1, t);
    } else {
      assert Zeros(0) + t == t;
    }
  }

  lemma {:induction false} LeadingZerosExact(t: Text)
    ensures t == Zeros(LeadingZeros(t)) + t[LeadingZeros(t)..]
    ensures LeadingZeros(t) < |t| ==> t[LeadingZeros(t)] != ZERO
  {
    if StartsWith(t, ZERO) {
      LeadingZerosExact(t[1..]);
    }
  }

  lemma {:induction false} NatOfLeadingZeros(n: nat, t: Text)
    requires AllDigits(t)
    ensures AllDigits(Zeros(n) + t) && NatOf(Zeros(n) + t) == NatOf(t)
    decreases n + |t|
  {
    var whole := Zeros(n) + t;
    if t != [] {
      assert whole[..|whole| - 1] == Zeros(n) + t[..|t| - 1];
      NatOfLeadingZeros(n, t[..|t| - 1]);
    } else if n > 0 {
      assert whole[..|whole| - 1] == Zeros(n - 1) + t;
      NatOfLeadingZeros(n - 1, t);
    }
  }

  lemma {:induction false} NatOfPositive(t: Text)
    requires AllDigits(t) && t != [] && t[0] != ZERO
    ensures NatOf(t) > 0
  {
    assert IsDigit(t[0]);
    if |t| > 1 {
      NatOfPositive(t[..|t| - 1]);
    }
  }

  // Digit texts without leading zeros are determined by the number they write.
  lemma {:induction false} NatOfInjective(a: Text, b: Text)
    requires AllDigits(a) && AllDigits(b) && NatOf(a) == NatOf(b)
    requires (a == [] || a[0] != ZERO) && (b == [] || b[0] != ZERO)
    ensures a == b
    decreases |a|
  {
    if a == [] || b == [] {
      if a != [] {
        NatOfPositive(a);
      }
      if b != [] {
        NatOfPositive(b);
      }
    } else {
      var a', b' := a[..|a| - 1], b[..|b| - 1];
      assert IsDigit(a[|a| - 1]) && IsDigit(b[|b| - 1]);
      var x, y := DigitOf(a[|a| - 1]), DigitOf(b[|b| - 1]);
      assert NatOf(a) == NatOf(a') * 10 + x && NatOf(b) == NatOf(b') * 10 + y;
      assert x == y;
      NatOfInjective(a', b');
      assert a == a' + [a[|a| - 1]] && b == b' + [b[|b| - 1]];
    }
  }
}
