/** What a computed cell says. */
module CohortComparison {

  import opened Wrappers
  import opened Decimals
  import opened Cohort

  // ------------------------------------------------------------- computed cells

  /** An integer or a finite decimal. */
  predicate Exact(c: Cell) {
    c.Int? || c.Dec?
  }

  /** A number that is zero. */
  predicate Zero(c: Cell) {
    match c
    case Int(n) => n == 0
    case Dec(d) => d.coefficient == 0
    case Float(Some(d)) => d.coefficient == 0
    case _ => false
  }

  /** How often a power of ten goes into an exact number. */
  function Units(c: Cell, e: int): int
    requires Exact(c) && e <= 0 && (c.Dec? ==> e <= c.d.exponent)
  {
    if c.Int? then c.n * Pow10(-e) else c.d.coefficient * Pow10(c.d.exponent - e)
  }

  predicate Divides(e: int, c: Cell) {
    e <= 0 && (c.Dec? ==> e <= c.d.exponent)
  }

  /** Two exact numbers add up to a third, counted in any unit that is fine enough. */
  ghost predicate AddUp(a: Cell, b: Cell, total: Cell)
    requires Exact(a) && Exact(b) && Exact(total)
  {
    forall e | Divides(e, a) && Divides(e, b) && Divides(e, total) :: Units(a, e) + Units(b, e) == Units(total, e)
  }

  /** Arithmetic that rounds: a difference of which one side is a float, and every quotient. */
  predicate Rounds(op: CompareOp, l: Cell, r: Cell) {
    if op == Subtract then l.Float? || r.Float? else !Zero(r)
  }

  /** The cell for two operands, in the order left, right. */
  ghost predicate Computes(host: (CompareOp, Cell, Cell) -> Cell, op: CompareOp, l: Cell, r: Cell, out: Cell) {
    if l.Null? || r.Null? then out.Null?
    else if Rounds(op, l, r) then out == host(op, l, r)
    else
      && (out.Null? <==> op != Subtract && Zero(r))
      && (op == Subtract ==> Exact(l) && Exact(r) && Exact(out) && (out.Int? <==> l.Int? && r.Int?) && AddUp(out, r, l))
  }

  // ------------------------------------------------------------------- failures

  predicate IsNumber(c: Cell) {
    match c
    case Int(_) => true
    case Dec(_) => true
    case NotFinite => true
    case Float(_) => true
    case _ => false
  }

  const NON_NUMERIC := "cohort_comparison_non_numeric"
  const INCOMPATIBLE := "cohort_comparison_numeric_incompatible"
  const NONFINITE := "cohort_comparison_nonfinite"

  predicate NonNumeric(l: Cell, r: Cell) {
    l != Null && r != Null && !(IsNumber(l) && IsNumber(r))
  }

  /** A decimal beside a float. */
  predicate Incompatible(l: Cell, r: Cell) {
    ((l.Dec? || l.NotFinite?) && r.Float?) || (l.Float? && (r.Dec? || r.NotFinite?))
  }

  /** A decimal that is not finite, beside an integer or a decimal. */
  predicate Nonfinite(l: Cell, r: Cell) {
    (l == NotFinite && (r == NotFinite || Exact(r))) || (Exact(l) && r == NotFinite)
  }

  /** Two operands raise a failure. */
  predicate Refuses(l: Cell, r: Cell, error: string) {
    (NonNumeric(l, r) && error == NON_NUMERIC) || (Incompatible(l, r) && error == INCOMPATIBLE) || (Nonfinite(l, r) && error == NONFINITE)
  }

  lemma RefusesIff(host: (CompareOp, Cell, Cell) -> Cell, op: CompareOp, l: Cell, r: Cell, error: string)
    ensures Compare(host, op, l, r) == Err(error) <==> Refuses(l, r, error)
  {
    hide Difference, IsZero, AsDecimal;
    if NonNumeric(l, r) {
      assert Compare(host, op, l, r) == Err(NON_NUMERIC);
    } else if Incompatible(l, r) {
      assert Compare(host, op, l, r) == Err(INCOMPATIBLE);
    } else if Nonfinite(l, r) {
      assert Compare(host, op, l, r) == Err(NONFINITE);
    } else {
      assert Compare(host, op, l, r).Ok?;
    }
  }

  lemma ComputedIs(host: (CompareOp, Cell, Cell) -> Cell, op: CompareOp, l: Cell, r: Cell, out: Cell)
    requires Compare(host, op, l, r) == Ok(out)
    ensures Computes(host, op, l, r, out)
  {
    hide Difference, Pow10, AddUp;
    if !(l.Null? || r.Null?) && op == Subtract && !(l.Float? || r.Float?) {
      DifferenceAddsUp(l, r, out);
    }
  }

  lemma DifferenceAddsUp(l: Cell, r: Cell, out: Cell)
    requires Exact(l) && Exact(r)
    requires out == if l.Int? && r.Int? then Int(l.n - r.n) else Dec(Difference(AsDecimal(l), AsDecimal(r)))
    ensures AddUp(out, r, l)
  {
    hide Pow10, Difference, ExactDifference;
    forall e | Divides(e, out) && Divides(e, r) && Divides(e, l) ensures Units(out, e) + Units(r, e) == Units(l, e) {
      assert Units(l, e) == Rescaled(AsDecimal(l), e) && Units(r, e) == Rescaled(AsDecimal(r), e);
      if l.Int? && r.Int? {
        Distributes(l.n, r.n, Pow10(-e));
      } else {
        DifferenceIsExact(AsDecimal(l), AsDecimal(r));
        DifferenceUnits(AsDecimal(l), AsDecimal(r), e);
      }
    }
  }

  lemma Distributes(a: int, b: int, p: int)
    ensures (a - b) * p + b * p == a * p
  {
  }

  lemma DifferenceUnits(a: Decimal, b: Decimal, e: int)
    requires e <= a.exponent && e <= b.exponent
    ensures e <= ExactDifference(a, b).exponent
    ensures Rescaled(ExactDifference(a, b), e) + Rescaled(b, e) == Rescaled(a, e)
  {
    hide Pow10;
    var m := Min(a.exponent, b.exponent);
    RescaledFurther(a, m, e);
    RescaledFurther(b, m, e);
    Distributes(Rescaled(a, m), Rescaled(b, m), Pow10(m - e));
  }

  lemma RescaledFurther(d: Decimal, m: int, e: int)
    requires e <= m <= d.exponent
    ensures Rescaled(d, e) == Rescaled(d, m) * Pow10(m - e)
  {
    hide Pow10;
    Pow10Adds(d.exponent - m, m - e);
    Associate(d.coefficient, Pow10(d.exponent - m), Pow10(m - e));
  }
}
