/** The column type inferred where an adapter reports none. */
module TypeInference {

  /*
    A type that holds every observed number without loss, or a refusal.
  */

  import opened Wrappers
  import opened Decimals

  /** An observed value that is not NULL; other host types are inferred elsewhere. */
  datatype Value = Truth(b: bool) | Whole(n: int) | Float | Exact(d: Decimal) | NotFinite | Other

  datatype ColumnType = Boolean | BigInt | HugeInt | Double | DecimalOf(precision: int, scale: int) | Elsewhere

  datatype Refusal = Incompatible | Unsupported

  const TWO63: int := 0x8000_0000_0000_0000
  const TWO53: int := 0x20_0000_0000_0000

  /** The largest finite double is below 2^53 doubled this often. */
  const MAX_DOUBLINGS: nat := 971

  const TWO127: int := 0x8000_0000_0000_0000_0000_0000_0000_0000

  predicate IsNumber(v: Value) {
    v.Whole? || v.Float? || v.Exact? || v.NotFinite?
  }

  predicate IsDecimal(v: Value) {
    v.Exact? || v.NotFinite?
  }

  predicate AllIn(vs: seq<Value>, lo: int, hi: int) {
    forall v | v in vs && v.Whole? :: lo <= v.n < hi
  }

  // ------------------------------------------------------------ scale and digits

  function Scale(v: Value): int {
    if v.Exact? then Max(-v.d.exponent, 0) else 0
  }

  /** Digits before the decimal point; negative for a small fraction. */
  function IntegerDigits(v: Value): int {
    match v
    case Exact(d) => Digits(Abs(d.coefficient)) + Max(d.exponent, 0) - Max(-d.exponent, 0)
    case Whole(n) => if Abs(n) >= Pow10(38) then 39 else Digits(Abs(n))
    case _ => 0
  }

  /** The largest scale of the decimals. */
  function MaxScale(vs: seq<Value>): int {
    if vs == [] then 0 else Max(MaxScale(vs[..|vs| - 1]), Scale(vs[|vs| - 1]))
  }

  function MaxExactDigits(vs: seq<Value>, base: int): int {
    if vs == [] then base else
      var v, before := vs[|vs| - 1], MaxExactDigits(vs[..|vs| - 1], base);
      if v.Exact? then Max(before, IntegerDigits(v)) else before
  }

  function MaxWholeDigits(vs: seq<Value>, base: int): int {
    if vs == [] then base else
      var v, before := vs[|vs| - 1], MaxWholeDigits(vs[..|vs| - 1], base);
      if v.Whole? then Max(before, IntegerDigits(v)) else before
  }

  function MaxDigits(vs: seq<Value>): int {
    MaxWholeDigits(vs, MaxExactDigits(vs, 0))
  }

  function PrecisionOf(vs: seq<Value>): int {
    Max(Max(MaxDigits(vs) + MaxScale(vs), MaxScale(vs)), 1)
  }

  method Measure(vs: seq<Value>) returns (scale: int, digits: int)
    ensures scale == MaxScale(vs) && digits == MaxDigits(vs)
  {
    hide IntegerDigits;
    scale, digits := 0, 0;
    for i := 0 to |vs|
      invariant scale == MaxScale(vs[..i]) && digits == MaxExactDigits(vs[..i], 0)
    {
      assert vs[..i + 1][..i] == vs[..i];
      if vs[i].Exact? {
        scale := Max(scale, Max(-vs[i].d.exponent, 0));
        digits := Max(digits, IntegerDigits(vs[i]));
      } else {
        ScalesAreNatural(vs[..i]);
      }
    }
    assert vs[..|vs|] == vs;
    for i := 0 to |vs|
      invariant digits == MaxWholeDigits(vs[..i], MaxExactDigits(vs, 0))
    {
      assert vs[..i + 1][..i] == vs[..i];
      if vs[i].Whole? {
        digits := Max(digits, IntegerDigits(vs[i]));
      }
    }
  }

  lemma {:induction false} ScalesAreNatural(vs: seq<Value>)
    ensures MaxScale(vs) >= 0
  {
    if vs != [] {
      ScalesAreNatural(vs[..|vs| - 1]);
    }
  }

  function Inferred(vs: seq<Value>): Result<ColumnType, Refusal> {
    if forall v | v in vs :: v.Truth? then Ok(Boolean)
    else if exists v | v in vs :: v.Truth? then Err(Incompatible)
    else if exists v | v in vs :: !IsNumber(v) then Ok(Elsewhere)
    else if Float in vs then (if exists v | v in vs :: IsDecimal(v) then Err(Incompatible) else Ok(Double))
    else if !exists v | v in vs :: IsDecimal(v) then
      (if AllIn(vs, -TWO63, TWO63) then Ok(BigInt) else if AllIn(vs, -TWO127, TWO127) then Ok(HugeInt) else Err(Unsupported))
    else if NotFinite in vs then (if forall v | v in vs :: v.NotFinite? then Ok(Double) else Err(Incompatible))
    else if PrecisionOf(vs) > 38 then Err(Unsupported)
    else Ok(DecimalOf(PrecisionOf(vs), MaxScale(vs)))
  }

  method Infer(vs: seq<Value>) returns (r: Result<ColumnType, Refusal>)
    ensures r == Inferred(vs)
  {
    hide PrecisionOf, MaxScale, AllIn;
    if forall v | v in vs :: v.Truth? {
      return Ok(Boolean);
    }
    if exists v | v in vs :: v.Truth? {
      return Err(Incompatible);
    }
    if exists v | v in vs :: !IsNumber(v) {
      return Ok(Elsewhere);
    }
    var hasDecimals := exists v | v in vs :: IsDecimal(v);
    if Float in vs {
      if hasDecimals {
        return Err(Incompatible);
      }
      return Ok(Double);
    }
    if !hasDecimals {
      if AllIn(vs, -TWO63, TWO63) {
        return Ok(BigInt);
      }
      if AllIn(vs, -TWO127, TWO127) {
        return Ok(HugeInt);
      }
      return Err(Unsupported);
    }
    if NotFinite in vs {
      if forall v | v in vs :: v.NotFinite? {
        return Ok(Double);
      }
      return Err(Incompatible);
    }
    var scale, digits := Measure(vs);
    var precision := Max(Max(digits + scale, scale), 1);
    assert precision == PrecisionOf(vs) by { PrecisionIs(vs); }
    if precision > 38 {
      return Err(Unsupported);
    }
    return Ok(DecimalOf(precision, scale));
  }

  lemma PrecisionIs(vs: seq<Value>)
    ensures PrecisionOf(vs) == Max(Max(MaxDigits(vs) + MaxScale(vs), MaxScale(vs)), 1)
  {
  }

  // -------------------------------------------------------------------- no loss

  /** The number as a decimal. */
  function AsDecimal(v: Value): Decimal {
    if v.Exact? then v.d else if v.Whole? then Decimal(v.n, 0) else Decimal(0, 0)
  }

  /** A DECIMAL(p, s) column holds the number: at scale s it is integral and within p digits. */
  predicate Holds(d: Decimal, precision: int, scale: int) {
    0 <= precision && -d.exponent <= scale && Abs(d.coefficient * Pow10(d.exponent + scale)) < Pow10(precision)
  }

  lemma {:induction false} DigitsBound(vs: seq<Value>, v: Value)
    requires v in vs && (v.Exact? || v.Whole?)
    ensures Scale(v) <= MaxScale(vs) && IntegerDigits(v) <= MaxDigits(vs)
  {
    hide IntegerDigits;
    ScaleBound(vs, v);
    WholeGrows(vs, MaxExactDigits(vs, 0));
    if v.Exact? {
      ExactBound(vs, v, 0);
    } else {
      WholeBound(vs, v, MaxExactDigits(vs, 0));
    }
  }

  lemma {:induction false} ScaleBound(vs: seq<Value>, v: Value)
    requires v in vs
    ensures Scale(v) <= MaxScale(vs)
  {
    if v != vs[|vs| - 1] {
      ScaleBound(vs[..|vs| - 1], v);
    }
  }

  lemma {:induction false} ExactBound(vs: seq<Value>, v: Value, base: int)
    requires v in vs && v.Exact?
    ensures IntegerDigits(v) <= MaxExactDigits(vs, base)
  {
    hide IntegerDigits;
    if v != vs[|vs| - 1] {
      ExactBound(vs[..|vs| - 1], v, base);
    }
  }

  lemma {:induction false} WholeBound(vs: seq<Value>, v: Value, base: int)
    requires v in vs && v.Whole?
    ensures IntegerDigits(v) <= MaxWholeDigits(vs, base)
  {
    hide IntegerDigits;
    if v != vs[|vs| - 1] {
      WholeBound(vs[..|vs| - 1], v, base);
    }
  }

  lemma {:induction false} WholeGrows(vs: seq<Value>, base: int)
    ensures base <= MaxWholeDigits(vs, base)
  {
    hide IntegerDigits;
    if vs != [] {
      WholeGrows(vs[..|vs| - 1], base);
    }
  }

  lemma ShiftedBound(c: int, shift: nat, precision: nat)
    requires Digits(Abs(c)) + shift <= precision
    ensures Abs(c * Pow10(shift)) < Pow10(precision)
  {
    hide Pow10, Digits, Abs;
    DigitsExact(Abs(c));
    AbsTimes(c, Pow10(shift));
    TimesLess(Abs(c), Pow10(Digits(Abs(c))), Pow10(shift));
    Pow10Adds(Digits(Abs(c)), shift);
    Pow10Grows(Digits(Abs(c)) + shift, precision);
  }

  /** Every number fits the inferred precision and scale. */
  lemma FitsPrecision(vs: seq<Value>, v: Value)
    requires v in vs && (v.Exact? || v.Whole?) && PrecisionOf(vs) <= 38
    ensures Holds(AsDecimal(v), PrecisionOf(vs), MaxScale(vs))
  {
    hide Pow10, Digits, MaxScale, MaxDigits, Abs;
    DigitsBound(vs, v);
    ScalesAreNatural(vs);
    var d, p, s := AsDecimal(v), PrecisionOf(vs), MaxScale(vs);
    ShiftedBound(d.coefficient, d.exponent + s, p);
  }

  /** A binary double holds the integer: at most 53 significant bits, doubled at most so often. */
  predicate DoubleHolds(n: int, doublings: nat)
    decreases doublings
  {
    Abs(n) < TWO53 || (doublings > 0 && n % 2 == 0 && DoubleHolds(n / 2, doublings - 1))
  }

  /** The type holds the value exactly. */
  predicate Lossless(t: ColumnType, v: Value) {
    match t
    case Boolean => v.Truth?
    case BigInt => v.Whole? && -TWO63 <= v.n < TWO63
    case HugeInt => v.Whole? && -TWO127 <= v.n < TWO127
    case DecimalOf(p, s) => (v.Exact? || v.Whole?) && Holds(AsDecimal(v), p, s)
    case Double => v.Float? || v.NotFinite? || (v.Whole? && DoubleHolds(v.n, MAX_DOUBLINGS))
    case Elsewhere => true
  }

  /**
    The inferred type holds a value exactly, unless the value is an integer
    beyond double precision in a column with a float: such a column is not
    refused.  An inferred decimal type is well formed.
  */
  lemma LosslessIff(vs: seq<Value>, v: Value)
    requires Inferred(vs).Ok? && v in vs
    ensures Lossless(Inferred(vs).value, v) <==>
            !(v.Whole? && !DoubleHolds(v.n, MAX_DOUBLINGS) && Float in vs && forall w | w in vs :: IsNumber(w))
    ensures Inferred(vs).value.DecimalOf? ==>
              1 <= Inferred(vs).value.precision <= 38 && 0 <= Inferred(vs).value.scale <= Inferred(vs).value.precision
  {
    hide PrecisionOf, MaxScale, Holds, DoubleHolds;
    var t := Inferred(vs).value;
    if t.DecimalOf? {
      FitsPrecision(vs, v);
      ScalesAreNatural(vs);
      PrecisionIs(vs);
    }
  }

  /** Twice a held integer is held with one doubling more. */
  lemma {:induction false} DoublingsHold(m: int, k: nat, doublings: nat)
    requires Abs(m) < TWO53 && k <= doublings
    ensures DoubleHolds(m * Pow2(k), doublings)
    decreases k
  {
    hide Abs;
    if k > 0 {
      assert m * Pow2(k) == 2 * (m * Pow2(k - 1));
      DoublingsHold(m, k - 1, doublings - 1);
    } else {
      assert m * Pow2(0) == m;
    }
  }

  function Pow2(n: nat): nat {
    if n == 0 then 1 else 2 * Pow2(n - 1)
  }

  /** Exactly the products of a 53-bit integer and a power of two in range are held. */
  lemma {:induction false} DoubleHoldsIff(n: int, doublings: nat)
    ensures DoubleHolds(n, doublings) <==> exists m: int, k: nat :: Abs(m) < TWO53 && k <= doublings && n == m * Pow2(k)
    decreases doublings
  {
    hide Abs;
    if Abs(n) < TWO53 {
      assert n == n * Pow2(0);
    } else if DoubleHolds(n, doublings) {
      DoubleHoldsIff(n / 2, doublings - 1);
      var m: int, k: nat :| Abs(m) < TWO53 && k <= doublings - 1 && n / 2 == m * Pow2(k);
      assert n == 2 * (n / 2) == m * Pow2(k + 1) by { assert Pow2(k + 1) == 2 * Pow2(k); }
    }
    if exists m: int, k: nat :: Abs(m) < TWO53 && k <= doublings && n == m * Pow2(k) {
      var m: int, k: nat :| Abs(m) < TWO53 && k <= doublings && n == m * Pow2(k);
      DoublingsHold(m, k, doublings);
    }
  }

  /** A float beside 2^53 + 1: the column becomes DOUBLE, which does not hold that integer. */
  lemma MixedColumnRounds()
    ensures var vs := [Float, Whole(TWO53 + 1)];
            Inferred(vs) == Ok(Double) && !Lossless(Double, Whole(TWO53 + 1))
  {
    var vs := [Float, Whole(TWO53 + 1)];
    assert vs[0] in vs && vs[1] in vs;
  }

  // ------------------------------------------------------------------- minimality

  /** Not zero, and no trailing zero after the decimal point. */
  predicate Trimmed(d: Decimal) {
    d.coefficient != 0 && (d.exponent < 0 ==> d.coefficient % 10 != 0)
  }

  /** Finite decimals and integers, at least one decimal. */
  predicate FiniteDecimals(vs: seq<Value>) {
    (forall v | v in vs :: v.Exact? || v.Whole?) && exists v :: v in vs && v.Exact?
  }

  function Trim(d: Decimal): (t: Decimal)
    ensures d.coefficient != 0 ==> Trimmed(t)
    decreases Abs(d.coefficient)
  {
    if d.exponent < 0 && d.coefficient != 0 && d.coefficient % 10 == 0 then Trim(Decimal(d.coefficient / 10, d.exponent + 1)) else d
  }

  /** What the column needs to hold: zeros fit anywhere, and trailing zeros after the point need no digit. */
  function Need(vs: seq<Value>): seq<Value> {
    if vs == [] then [] else
      var v, before := vs[|vs| - 1], Need(vs[..|vs| - 1]);
      if AsDecimal(v).coefficient == 0 then before
      else before + [if v.Exact? then Exact(Trim(v.d)) else v]
  }

  /** A number holds at every scale its value needs, whatever its written exponent. */
  ghost predicate Represents(d: Decimal, precision: int, scale: int) {
    precision >= 0 && exists k: int :: Abs(k) < Pow10(precision) && SameNumber(Decimal(k, -scale), d)
  }

  lemma EndsInZero(c: int, k: int, n: nat)
    requires n >= 1 && c == k * Pow10(n)
    ensures c % 10 == 0
  {
    assert Pow10(n) == 10 * Pow10(n - 1);
    assert c == 10 * (k * Pow10(n - 1)) by { Associate(k, 10, Pow10(n - 1)); }
  }

  /** A trimmed number needs at least its own scale. */
  lemma NeedsScale(d: Decimal, precision: int, scale: int)
    requires Trimmed(d) && scale >= 0 && Represents(d, precision, scale)
    ensures -d.exponent <= scale
  {
    hide Abs;
    if -d.exponent > scale {
      var k: int :| Abs(k) < Pow10(precision) && SameNumber(Decimal(k, -scale), d);
      assert Pow10(0) == 1;
      assert d.coefficient == k * Pow10(-scale - d.exponent);
      EndsInZero(d.coefficient, k, -scale - d.exponent);
    }
  }

  /** And at least its own integer digits beside that scale. */
  lemma NeedsDigits(d: Decimal, precision: int, scale: int)
    requires Represents(d, precision, scale) && -d.exponent <= scale && d.coefficient != 0
    ensures Digits(Abs(d.coefficient)) + d.exponent + scale <= precision
  {
    hide Abs, Digits;
    var k: int :| Abs(k) < Pow10(precision) && SameNumber(Decimal(k, -scale), d);
    var shift, n := d.exponent + scale, Digits(Abs(d.coefficient));
    assert Pow10(0) == 1;
    assert k == d.coefficient * Pow10(shift);
    AbsPositive(d.coefficient);
    DigitsExact(Abs(d.coefficient));
    AbsTimes(d.coefficient, Pow10(shift));
    Pow10Adds(n - 1, shift);
    TimesAtMost(Pow10(n - 1), Abs(d.coefficient), Pow10(shift));
    if n + shift > precision {
      Pow10Grows(precision, n - 1 + shift);
    }
  }

  lemma AbsPositive(c: int)
    requires c != 0
    ensures Abs(c) > 0
  {
  }

  lemma TimesAtMost(a: nat, b: nat, p: nat)
    requires a <= b
    ensures a * p <= b * p
  {
    assert (b - a) * p >= 0;
  }

  /** The type holds every value. */
  ghost predicate HoldsAll(vs: seq<Value>, precision: int, scale: int) {
    1 <= precision && 0 <= scale <= precision && forall v | v in vs :: Represents(AsDecimal(v), precision, scale)
  }

  lemma {:induction false} ScaleAttained(vs: seq<Value>, scale: int)
    requires scale >= 0 && forall v | v in vs :: Scale(v) <= scale
    ensures MaxScale(vs) <= scale
  {
    if vs != [] {
      ScaleAttained(vs[..|vs| - 1], scale);
    }
  }

  lemma {:induction false} ExactAttained(vs: seq<Value>, base: int, most: int)
    requires base <= most && forall v | v in vs && v.Exact? :: IntegerDigits(v) <= most
    ensures MaxExactDigits(vs, base) <= most
  {
    hide IntegerDigits;
    if vs != [] {
      ExactAttained(vs[..|vs| - 1], base, most);
    }
  }

  lemma {:induction false} WholeAttained(vs: seq<Value>, base: int, most: int)
    requires base <= most && forall v | v in vs && v.Whole? :: IntegerDigits(v) <= most
    ensures MaxWholeDigits(vs, base) <= most
  {
    hide IntegerDigits;
    if vs != [] {
      WholeAttained(vs[..|vs| - 1], base, most);
    }
  }

  lemma NeedsBoth(v: Value, precision: int, scale: int)
    requires (v.Exact? || v.Whole?) && Trimmed(AsDecimal(v)) && scale >= 0 && Represents(AsDecimal(v), precision, scale)
    ensures Scale(v) <= scale && IntegerDigits(v) + scale <= precision
  {
    hide Pow10, Digits, Represents;
    NeedsScale(AsDecimal(v), precision, scale);
    NeedsDigits(AsDecimal(v), precision, scale);
    if v.Whole? && Abs(v.n) >= Pow10(38) {
      DigitsExact(Abs(v.n));
      if Digits(Abs(v.n)) <= 38 {
        Pow10Grows(Digits(Abs(v.n)), 38);
      }
    }
  }

  lemma {:induction false} NeedElements(vs: seq<Value>)
    requires forall v | v in vs :: v.Exact? || v.Whole?
    ensures forall w | w in Need(vs) :: (w.Exact? || w.Whole?) && Trimmed(AsDecimal(w))
    ensures forall w | w in Need(vs) :: exists v | v in vs :: SameNumber(AsDecimal(v), AsDecimal(w))
    ensures forall v | v in vs && AsDecimal(v).coefficient != 0 :: exists w | w in Need(vs) :: SameNumber(AsDecimal(v), AsDecimal(w))
  {
    hide SameNumber, Trimmed;
    if vs != [] {
      var n := |vs| - 1;
      NeedElements(vs[..n]);
      NeedOf(vs[n]);
      assert vs == vs[..n] + [vs[n]];
    }
  }

  lemma NeedOf(v: Value)
    requires v.Exact? || v.Whole?
    ensures var w := if v.Exact? then Exact(Trim(v.d)) else v;
            SameNumber(AsDecimal(v), AsDecimal(w)) && (AsDecimal(v).coefficient != 0 ==> Trimmed(AsDecimal(w)))
  {
    if v.Exact? {
      TrimSame(v.d);
    }
  }

  lemma {:induction false} TrimSame(d: Decimal)
    ensures SameNumber(d, Trim(d))
    decreases Abs(d.coefficient)
  {
    if d.exponent < 0 && d.coefficient != 0 && d.coefficient % 10 == 0 {
      var t := Decimal(d.coefficient / 10, d.exponent + 1);
      TrimSame(t);
      TenIs();
      assert SameNumber(d, t);
      SameTransitive(d, t, Trim(d));
    }
  }

  /** What a type represents depends only on the number. */
  lemma SameRepresented(d: Decimal, e: Decimal, precision: int, scale: int)
    requires SameNumber(d, e) && Represents(d, precision, scale)
    ensures Represents(e, precision, scale)
  {
    hide SameNumber, Abs;
    var k: int :| Abs(k) < Pow10(precision) && SameNumber(Decimal(k, -scale), d);
    SameTransitive(Decimal(k, -scale), d, e);
  }

  lemma ZeroRepresented(d: Decimal, precision: int, scale: int)
    requires d.coefficient == 0 && precision >= 0
    ensures Represents(d, precision, scale)
  {
    assert SameNumber(Decimal(0, -scale), d);
    assert Abs(0) < Pow10(precision);
  }

  /** No type with less scale or precision than the needed digits holds the column. */
  lemma NeedIsLeast(vs: seq<Value>, precision: int, scale: int)
    requires FiniteDecimals(vs) && HoldsAll(vs, precision, scale)
    ensures MaxScale(Need(vs)) <= scale && PrecisionOf(Need(vs)) <= precision
  {
    hide IntegerDigits, Scale, Trimmed, Represents, AsDecimal, SameNumber;
    NeedElements(vs);
    forall w | w in Need(vs) ensures Scale(w) <= scale && IntegerDigits(w) <= precision - scale {
      var v :| v in vs && SameNumber(AsDecimal(v), AsDecimal(w));
      SameRepresented(AsDecimal(v), AsDecimal(w), precision, scale);
      NeedsBoth(w, precision, scale);
    }
    ScaleAttained(Need(vs), scale);
    ExactAttained(Need(vs), 0, precision - scale);
    WholeAttained(Need(vs), MaxExactDigits(Need(vs), 0), precision - scale);
  }

  /** And the type with just those holds it, as long as it has at most 38 digits. */
  lemma NeedSuffices(vs: seq<Value>)
    requires FiniteDecimals(vs) && PrecisionOf(Need(vs)) <= 38
    ensures HoldsAll(vs, PrecisionOf(Need(vs)), MaxScale(Need(vs)))
  {
    hide PrecisionOf, MaxScale, Holds, Represents, AsDecimal, SameNumber, Need;
    var p, s := PrecisionOf(Need(vs)), MaxScale(Need(vs));
    NeedElements(vs);
    ScalesAreNatural(Need(vs));
    PrecisionIs(Need(vs));
    forall v | v in vs ensures Represents(AsDecimal(v), p, s) {
      if AsDecimal(v).coefficient == 0 {
        ZeroRepresented(AsDecimal(v), p, s);
      } else {
        var w :| w in Need(vs) && SameNumber(AsDecimal(v), AsDecimal(w));
        FitsPrecision(Need(vs), w);
        HoldsRepresents(AsDecimal(w), p, s);
        SameSymmetric(AsDecimal(v), AsDecimal(w));
        SameRepresented(AsDecimal(w), AsDecimal(v), p, s);
      }
    }
  }

  /** Some decimal type of at most 38 digits holds the whole column. */
  ghost predicate Representable(vs: seq<Value>) {
    exists p: int, s: int :: p <= 38 && HoldsAll(vs, p, s)
  }

  /** Whether any decimal type would do is decided by the needed digits alone. */
  lemma RepresentableIff(vs: seq<Value>)
    requires FiniteDecimals(vs)
    ensures Representable(vs) <==> PrecisionOf(Need(vs)) <= 38
  {
    hide PrecisionOf, MaxScale, HoldsAll, Need;
    if Representable(vs) {
      var p: int, s: int :| p <= 38 && HoldsAll(vs, p, s);
      NeedIsLeast(vs, p, s);
    }
    if PrecisionOf(Need(vs)) <= 38 {
      NeedSuffices(vs);
    }
  }

  /**
    A column of decimals and integers is refused exactly when no decimal type of
    at most 38 digits holds it, unless the written digits, zeros and trailing
    zeros included, pass 38 where the needed ones do not.
  */
  lemma RefusedIffNoneHolds(vs: seq<Value>)
    requires FiniteDecimals(vs)
    ensures (Inferred(vs) == Err(Unsupported) <==> !Representable(vs)) <==> !(PrecisionOf(Need(vs)) <= 38 < PrecisionOf(vs))
  {
    hide PrecisionOf, MaxScale, Representable, Inferred, Need;
    DecimalBranch(vs);
    RepresentableIff(vs);
    if PrecisionOf(vs) <= 38 {
      InferredRepresents(vs);
      NeedIsLeast(vs, PrecisionOf(vs), MaxScale(vs));
    }
  }

  lemma InferredRepresents(vs: seq<Value>)
    requires FiniteDecimals(vs) && PrecisionOf(vs) <= 38
    ensures HoldsAll(vs, PrecisionOf(vs), MaxScale(vs))
  {
    hide PrecisionOf, MaxScale, Holds, Represents, AsDecimal;
    forall v | v in vs ensures Represents(AsDecimal(v), PrecisionOf(vs), MaxScale(vs)) {
      FitsPrecision(vs, v);
      HoldsRepresents(AsDecimal(v), PrecisionOf(vs), MaxScale(vs));
    }
    ScalesAreNatural(vs);
    PrecisionIs(vs);
  }

  /** The inferred type has the least scale and the least precision exactly when the column is written with what it needs. */
  lemma InferredIsLeastIff(vs: seq<Value>)
    requires FiniteDecimals(vs) && Inferred(vs).Ok?
    ensures (forall p: int, s: int | HoldsAll(vs, p, s) :: MaxScale(vs) <= s && PrecisionOf(vs) <= p) <==>
            MaxScale(vs) == MaxScale(Need(vs)) && PrecisionOf(vs) == PrecisionOf(Need(vs))
  {
    hide PrecisionOf, MaxScale, HoldsAll, Inferred, Need;
    DecimalBranch(vs);
    InferredRepresents(vs);
    NeedIsLeast(vs, PrecisionOf(vs), MaxScale(vs));
    NeedSuffices(vs);
    forall p: int, s: int | HoldsAll(vs, p, s) ensures MaxScale(Need(vs)) <= s && PrecisionOf(Need(vs)) <= p {
      NeedIsLeast(vs, p, s);
    }
  }

  lemma HoldsRepresents(d: Decimal, precision: int, scale: int)
    requires Holds(d, precision, scale)
    ensures Represents(d, precision, scale)
  {
    hide Pow10, Abs;
    var k := d.coefficient * Pow10(d.exponent + scale);
    assert Pow10(0) == 1 by { Pow10Zero(); }
    assert SameNumber(Decimal(k, -scale), d);
  }

  lemma Pow10Zero()
    ensures Pow10(0) == 1
  {
  }

  lemma DecimalBranch(vs: seq<Value>)
    requires FiniteDecimals(vs)
    ensures Inferred(vs) == if PrecisionOf(vs) > 38 then Err(Unsupported) else Ok(DecimalOf(PrecisionOf(vs), MaxScale(vs)))
  {
    hide PrecisionOf, MaxScale, AllIn;
    var v :| v in vs && v.Exact?;
    assert IsDecimal(v) && !v.Truth?;
  }

  /** A zero is counted as a digit of its own: zero beside 38 decimal places is refused, though DECIMAL(38, 38) holds both. */
  lemma ZeroCostsADigit()
    ensures var vs := [Whole(0), Exact(Decimal(1, -38))];
            Inferred(vs) == Err(Unsupported) && HoldsAll(vs, 38, 38)
  {
    hide Inferred, PrecisionOf, MaxScale, Represents, Pow10;
    var zero, tiny := Whole(0), Exact(Decimal(1, -38));
    var vs := [zero, tiny];
    assert zero in vs && tiny in vs;
    DecimalBranch(vs);
    ZeroAndTiny();
    Pow10Grows(1, 38);
    TenIs();
    assert Represents(AsDecimal(zero), 38, 38) by { AtScale(0, 38, AsDecimal(zero)); }
    assert Represents(AsDecimal(tiny), 38, 38) by { AtScale(1, 38, AsDecimal(tiny)); }
  }

  /** So is a trailing zero: 10 * 10^-39 alone is refused, though DECIMAL(38, 38) holds it. */
  lemma TrailingZeroCostsADigit()
    ensures var vs := [Exact(Decimal(10, -39))];
            Inferred(vs) == Err(Unsupported) && HoldsAll(vs, 38, 38)
  {
    hide Inferred, PrecisionOf, MaxScale, Represents, Pow10;
    var v := Exact(Decimal(10, -39));
    var vs := [v];
    assert v in vs;
    DecimalBranch(vs);
    LongZero();
    Pow10Grows(1, 38);
    TenIs();
    assert Represents(AsDecimal(v), 38, 38) by { AtScale(1, 38, AsDecimal(v)); }
  }

  lemma LongZero()
    ensures PrecisionOf([Exact(Decimal(10, -39))]) == 39
    ensures SameNumber(Decimal(1, -38), Decimal(10, -39))
  {
    hide Pow10;
    TenIs();
    var vs := [Exact(Decimal(10, -39))];
    assert vs[..0] == [];
    assert MaxScale([]) == 0 && MaxScale(vs) == 39;
    assert Digits(10) == 2 && IntegerDigits(vs[0]) == -37;
    assert MaxExactDigits([], 0) == 0 && MaxExactDigits(vs, 0) == 0;
    assert MaxWholeDigits([], 0) == 0 && MaxWholeDigits(vs, 0) == 0;
  }

  lemma TenIs()
    ensures Pow10(0) == 1 && Pow10(1) == 10
  {
  }

  lemma AtScale(k: int, scale: int, d: Decimal)
    requires Abs(k) < Pow10(38) && SameNumber(Decimal(k, -scale), d)
    ensures Represents(d, 38, scale)
  {
  }

  lemma ZeroAndTiny()
    ensures PrecisionOf([Whole(0), Exact(Decimal(1, -38))]) == 39
    ensures SameNumber(Decimal(0, -38), Decimal(0, 0)) && SameNumber(Decimal(1, -38), Decimal(1, -38))
  {
    hide Pow10;
    var zero, tiny := Whole(0), Exact(Decimal(1, -38));
    var vs := [zero, tiny];
    assert vs[..1] == [zero] && [zero][..0] == [];
    TenIs();
    Pow10Grows(1, 38);
    assert MaxScale([zero]) == 0 && MaxScale(vs) == 38;
    assert IntegerDigits(zero) == 1 && IntegerDigits(tiny) == -37;
    assert MaxExactDigits([zero], 0) == 0;
    assert vs[|vs| - 1] == tiny && MaxExactDigits(vs, 0) == Max(MaxExactDigits(vs[..1], 0), IntegerDigits(tiny));
    assert MaxWholeDigits([zero], 0) == 1 && MaxWholeDigits(vs, 0) == 1;
  }
}
