/** Finite decimals, their canonical forms, and the precision under which they are subtracted. */
module Decimals {

  /*
    A decimal is a coefficient and an exponent; the working precision is the one
    under which cohort differences are computed.
  */

  datatype Decimal = Decimal(coefficient: int, exponent: int)

  function Pow10(n: nat): (p: nat)
    ensures p >= 1
  {
    if n == 0 then 1 else 10 * Pow10(n - 1)
  }

  lemma {:induction false} Pow10Adds(m: nat, n: nat)
    ensures Pow10(m + n) == Pow10(m) * Pow10(n)
  {
    if m > 0 {
      Pow10Adds(m - 1, n);
      assert Pow10(m + n) == 10 * Pow10(m - 1 + n);
      assert Pow10(m) * Pow10(n) == 10 * (Pow10(m - 1) * Pow10(n));
    }
  }

  lemma {:induction false} Pow10Grows(m: nat, n: nat)
    requires m <= n
    ensures Pow10(m) <= Pow10(n)
    decreases n
  {
    if m < n {
      Pow10Grows(m, n - 1);
    }
  }

  function Abs(n: int): nat {
    if n < 0 then -n else n
  }

  /** How many digits a coefficient is written with; zero takes one. */
  function Digits(n: nat): (d: nat)
    ensures d >= 1
  {
    if n < 10 then 1 else 1 + Digits(n / 10)
  }

  lemma {:induction false} DigitsExact(n: nat)
    ensures n < Pow10(Digits(n))
    ensures n > 0 ==> Pow10(Digits(n) - 1) <= n
  {
    if n >= 10 {
      DigitsExact(n / 10);
      assert n == 10 * (n / 10) + n % 10;
    } else {
      assert Pow10(1) == 10 * Pow10(0);
    }
  }

  /** A number below a power of ten has no more digits than its exponent. */
  lemma DigitsBelow(n: nat, k: nat)
    requires k >= 1 && n < Pow10(k)
    ensures Digits(n) <= k
  {
    DigitsExact(n);
    if Digits(n) > k {
      Pow10Grows(k, Digits(n) - 1);
    }
  }

  function Max(a: int, b: int): int {
    if a < b then b else a
  }

  function Min(a: int, b: int): int {
    if a < b then a else b
  }

  /** The exponent of the leading digit. */
  function Adjusted(d: Decimal): int {
    d.exponent + Digits(Abs(d.coefficient)) - 1
  }

  /** The coefficient at a smaller exponent. */
  function Rescaled(d: Decimal, exponent: int): int
    requires exponent <= d.exponent
  {
    d.coefficient * Pow10(d.exponent - exponent)
  }

  /** Decimals denote the same number. */
  predicate SameNumber(a: Decimal, b: Decimal) {
    var e := Min(a.exponent, b.exponent);
    Rescaled(a, e) == Rescaled(b, e)
  }

  function ExactDifference(a: Decimal, b: Decimal): Decimal {
    var e := Min(a.exponent, b.exponent);
    Decimal(Rescaled(a, e) - Rescaled(b, e), e)
  }

  /** Where the larger operand begins, counted from where the finer one ends. */
  function Span(a: Decimal, b: Decimal): int {
    Max(Max(Adjusted(a), Adjusted(b)), 0) + Max(0, Max(-a.exponent, -b.exponent))
  }

  /** At least 38 digits, and a margin beyond the span. */
  function PrecisionWith(a: Decimal, b: Decimal, margin: int): (p: int)
    ensures p >= 38
  {
    Max(38, Span(a, b) + margin)
  }

  /** The precision chosen for a comparison of two decimals. */
  function Precision(a: Decimal, b: Decimal): int {
    PrecisionWith(a, b, 3)
  }

  /** Half-even rounding to a number of significant digits. */
  function Rounded(d: Decimal, precision: int): Decimal
    requires precision >= 1
  {
    var n := Digits(Abs(d.coefficient));
    if n <= precision then d else
      var unit := Pow10(n - precision);
      var q, r := Abs(d.coefficient) / unit, Abs(d.coefficient) % unit;
      var up := if 2 * r > unit || (2 * r == unit && q % 2 == 1) then q + 1 else q;
      Decimal(if d.coefficient < 0 then -up else up, d.exponent + n - precision)
  }

  function Difference(a: Decimal, b: Decimal): Decimal {
    Rounded(ExactDifference(a, b), Precision(a, b))
  }

  lemma AbsTimes(c: int, p: nat)
    ensures Abs(c * p) == Abs(c) * p
  {
    if c < 0 {
      assert c * p == -(-c * p);
      assert -c * p >= 0;
    }
  }

  lemma TimesLess(a: nat, b: nat, p: nat)
    requires a < b && p >= 1
    ensures a * p < b * p
  {
    assert (b - a) * p >= 1;
  }

  lemma RescaledBound(d: Decimal, exponent: int, top: int)
    requires exponent <= d.exponent && Adjusted(d) <= top
    ensures Abs(Rescaled(d, exponent)) < Pow10(top + 1 - exponent)
  {
    hide Pow10, Digits, Abs;
    var c, n := Abs(d.coefficient), Digits(Abs(d.coefficient));
    var shift := d.exponent - exponent;
    DigitsExact(c);
    Pow10Adds(n, shift);
    AbsTimes(d.coefficient, Pow10(shift));
    TimesLess(c, Pow10(n), Pow10(shift));
    Pow10Grows(n + shift, top + 1 - exponent);
  }

  /** The exact difference needs one digit more than the larger operand spans. */
  lemma DifferenceDigits(a: Decimal, b: Decimal)
    ensures Digits(Abs(ExactDifference(a, b).coefficient)) <= Span(a, b) + 2
  {
    var e, top := Min(a.exponent, b.exponent), Max(Adjusted(a), Adjusted(b));
    RescaledBound(a, e, top);
    RescaledBound(b, e, top);
    var k := top + 1 - e;
    assert Pow10(k + 1) == 10 * Pow10(k);
    DigitsBelow(Abs(ExactDifference(a, b).coefficient), k + 1);
  }

  /** So the difference of any two finite decimals is never rounded. */
  lemma DifferenceIsExact(a: Decimal, b: Decimal)
    ensures Difference(a, b) == ExactDifference(a, b)
  {
    DifferenceDigits(a, b);
  }

  /** No difference is rounded under a margin. */
  ghost predicate MarginSuffices(margin: int) {
    forall a, b :: SameNumber(Rounded(ExactDifference(a, b), PrecisionWith(a, b, margin)), ExactDifference(a, b))
  }

  lemma DigitsAre(n: nat, k: nat)
    requires k >= 1 && Pow10(k - 1) <= n < Pow10(k)
    ensures Digits(n) == k
  {
    DigitsBelow(n, k);
    DigitsExact(n);
    if Digits(n) < k {
      Pow10Grows(Digits(n), k - 1);
    }
  }

  /** Rounding a number that does not end in zero changes it. */
  lemma RoundingChanges(d: Decimal, precision: int)
    requires 1 <= precision < Digits(Abs(d.coefficient)) && d.coefficient % 10 != 0
    ensures !SameNumber(Rounded(d, precision), d)
  {
    hide Digits, Abs, Pow10, SameNumber;
    var r := Rounded(d, precision);
    if SameNumber(r, d) {
      assert SameNumber(d, r) by { SameSymmetric(r, d); }
      ShiftedEndsInZero(d, r);
    }
  }

  lemma SameSymmetric(a: Decimal, b: Decimal)
    requires SameNumber(a, b)
    ensures SameNumber(b, a)
  {
  }

  function Nines(k: nat): Decimal {
    Decimal(Pow10(k) - 1, 0)
  }

  function Negated(d: Decimal): Decimal {
    Decimal(-d.coefficient, d.exponent)
  }

  lemma PowersAt(k: nat)
    requires k >= 2
    ensures Pow10(k) == 10 * Pow10(k - 1) && Pow10(k + 1) == 10 * Pow10(k) && Pow10(k - 1) >= 10
  {
    assert Pow10(1) == 10 * Pow10(0);
    Pow10Grows(1, k - 1);
  }

  lemma OppositeDifference(n: int)
    ensures ExactDifference(Decimal(n, 0), Decimal(-n, 0)) == Decimal(2 * n, 0)
  {
    assert Pow10(0) == 1;
    hide Pow10;
    assert Rescaled(Decimal(n, 0), 0) == n && Rescaled(Decimal(-n, 0), 0) == -n;
  }

  /** A row of nines on either side of zero: the difference has one digit more than the row. */
  lemma NinesApart(k: nat)
    requires k >= 2
    ensures Span(Nines(k), Negated(Nines(k))) == k - 1
    ensures ExactDifference(Nines(k), Negated(Nines(k))).coefficient % 10 != 0
    ensures Digits(Abs(ExactDifference(Nines(k), Negated(Nines(k))).coefficient)) == k + 1
  {
    hide Pow10, Digits, ExactDifference;
    var n, tenth := Pow10(k) - 1, Pow10(k - 1);
    PowersAt(k);
    DigitsAre(n, k);
    DigitsAre(2 * n, k + 1);
    OppositeDifference(n);
    assert 2 * n == 10 * (2 * tenth - 1) + 8;
  }

  /** The code's margin is three; two digits beyond the span always suffice, and one does not. */
  lemma MarginIff(margin: int)
    ensures MarginSuffices(margin) <==> margin >= 2
  {
    hide Digits, Pow10, Abs, SameNumber, ExactDifference, Span, Nines;
    if margin >= 2 {
      forall a, b
        ensures SameNumber(Rounded(ExactDifference(a, b), PrecisionWith(a, b, margin)), ExactDifference(a, b))
      {
        DifferenceDigits(a, b);
        SameReflexive(ExactDifference(a, b));
      }
    } else {
      var k: nat :| k >= 38;
      var a, b := Nines(k), Negated(Nines(k));
      NinesApart(k);
      RoundingChanges(ExactDifference(a, b), PrecisionWith(a, b, margin));
    }
  }

  lemma SameReflexive(d: Decimal)
    ensures SameNumber(d, d)
  {
  }

  // ---------------------------------------------------------- one key per number

  /** Trailing zeros removed; zero has one form. */
  function Canonical(d: Decimal): Decimal
    decreases Abs(d.coefficient)
  {
    if d.coefficient == 0 then Decimal(0, 0)
    else if d.coefficient % 10 == 0 then Canonical(Decimal(d.coefficient / 10, d.exponent + 1))
    else d
  }

  predicate IsCanonical(d: Decimal) {
    if d.coefficient == 0 then d.exponent == 0 else d.coefficient % 10 != 0
  }

  lemma SameAt(a: Decimal, b: Decimal, e: int)
    requires e <= a.exponent && e <= b.exponent
    ensures SameNumber(a, b) <==> Rescaled(a, e) == Rescaled(b, e)
  {
    var m := Min(a.exponent, b.exponent);
    Pow10Adds(a.exponent - m, m - e);
    Pow10Adds(b.exponent - m, m - e);
    var x, y, p := Rescaled(a, m), Rescaled(b, m), Pow10(m - e);
    assert Rescaled(a, e) == x * p by { Associate(a.coefficient, Pow10(a.exponent - m), p); }
    assert Rescaled(b, e) == y * p by { Associate(b.coefficient, Pow10(b.exponent - m), p); }
    Cancel(x, y, p);
  }

  lemma Associate(a: int, b: int, c: int)
    ensures a * (b * c) == a * b * c
  {
  }

  lemma Cancel(x: int, y: int, p: nat)
    requires p >= 1
    ensures x * p == y * p <==> x == y
  {
    if x < y {
      assert (y - x) * p >= 1;
    } else if y < x {
      assert (x - y) * p >= 1;
    }
  }

  lemma SameTransitive(a: Decimal, b: Decimal, c: Decimal)
    requires SameNumber(a, b) && SameNumber(b, c)
    ensures SameNumber(a, c)
  {
    var e := Min(a.exponent, Min(b.exponent, c.exponent));
    SameAt(a, b, e);
    SameAt(b, c, e);
    SameAt(a, c, e);
  }

  lemma {:induction false} CanonicalSame(d: Decimal)
    ensures IsCanonical(Canonical(d)) && SameNumber(d, Canonical(d))
    decreases Abs(d.coefficient)
  {
    if d.coefficient == 0 {
    } else if d.coefficient % 10 == 0 {
      var t := Decimal(d.coefficient / 10, d.exponent + 1);
      CanonicalSame(t);
      assert Pow10(1) == 10 * Pow10(0);
      assert Rescaled(t, d.exponent) == d.coefficient;
      assert SameNumber(d, t);
      SameTransitive(d, t, Canonical(d));
    }
  }

  /** Written at a smaller exponent, a number ends in zero. */
  lemma ShiftedEndsInZero(a: Decimal, b: Decimal)
    requires SameNumber(a, b) && a.exponent < b.exponent
    ensures a.coefficient % 10 == 0 && (a.coefficient == 0 ==> b.coefficient == 0)
  {
    var k := b.exponent - a.exponent;
    assert Pow10(0) == 1;
    assert a.coefficient == b.coefficient * Pow10(k);
    assert Pow10(k) == 10 * Pow10(k - 1);
    Associate(b.coefficient, 10, Pow10(k - 1));
    TenTimes(b.coefficient, Pow10(k - 1));
  }

  lemma TenTimes(c: int, p: nat)
    requires p >= 1
    ensures c * 10 * p % 10 == 0 && (c * 10 * p == 0 ==> c == 0)
  {
    assert c * 10 * p == 10 * (c * p);
    if c > 0 {
      assert c * p >= c;
    } else if c < 0 {
      assert -c * p >= -c;
    }
  }

  lemma CanonicalForms(a: Decimal, b: Decimal)
    requires IsCanonical(a) && IsCanonical(b) && SameNumber(a, b) && a.exponent <= b.exponent
    ensures a == b
  {
    assert Pow10(0) == 1;
    if a.exponent < b.exponent {
      ShiftedEndsInZero(a, b);
    }
  }

  /** Two decimals share a canonical form exactly when they are the same number. */
  lemma CanonicalIffSame(a: Decimal, b: Decimal)
    ensures Canonical(a) == Canonical(b) <==> SameNumber(a, b)
  {
    CanonicalSame(a);
    CanonicalSame(b);
    if Canonical(a) == Canonical(b) {
      SameTransitive(a, Canonical(a), b);
    }
    if SameNumber(a, b) {
      SameTransitive(Canonical(a), a, b);
      SameTransitive(Canonical(a), b, Canonical(b));
      if Canonical(a).exponent <= Canonical(b).exponent {
        CanonicalForms(Canonical(a), Canonical(b));
      } else {
        CanonicalForms(Canonical(b), Canonical(a));
      }
    }
  }
}
