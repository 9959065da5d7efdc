/** When two key cells are the same member, by the column's logical type. */
module CohortKeys {

  import opened Wrappers
  import opened Decimals
  import opened Cohort

  // ------------------------------------------------------------------- one cell

  predicate IsUuid(p: Parsers, v: Cell, u: string) {
    v == Uuid(u) || (v.Text? && p.uuid(v.s) == Some(u))
  }

  predicate IsDay(p: Parsers, v: Cell, day: int) {
    v == Day(day) || (v.Text? && p.date(v.s) == Some(day))
  }

  /** An instant with a time zone is never one without. */
  predicate IsInstant(p: Parsers, v: Cell, at: int, aware: bool) {
    v == Instant(at, aware) || (v.Text? && p.time(v.s) == Some((at, aware)))
  }

  /** Values of the logical type. */
  ghost predicate OfType(p: Parsers, v: Cell, t: KeyType) {
    match t
    case NumberType => v.Int? || v.Dec? || (v.Float? && v.written.Some?)
    case UuidType => exists u :: IsUuid(p, v, u)
    case DateType => exists day :: IsDay(p, v, day)
    case TimeType => exists at, aware :: IsInstant(p, v, at, aware)
    case BoolType => v.Truth?
    case TextType => v.Text?
    case OtherType => false
  }

  /** One value of the logical type, however it is represented. */
  ghost predicate SameValue(p: Parsers, v: Cell, w: Cell, t: KeyType) {
    match t
    case NumberType => IsFinite(v) && IsFinite(w) && SameNumber(AsDecimal(v), AsDecimal(w))
    case UuidType => exists u :: IsUuid(p, v, u) && IsUuid(p, w, u)
    case DateType => exists day :: IsDay(p, v, day) && IsDay(p, w, day)
    case TimeType => exists at, aware :: IsInstant(p, v, at, aware) && IsInstant(p, w, at, aware)
    case BoolType => v.Truth? && v == w
    case TextType => v.Text? && v == w
    case OtherType => false
  }

  lemma PartIs(p: Parsers, v: Cell, t: KeyType)
    ensures PartOf(p, v, t).Ok? <==> OfType(p, v, t)
    ensures forall u :: PartOf(p, v, t) == Ok(UuidOf(u)) <==> t.UuidType? && IsUuid(p, v, u)
    ensures forall day :: PartOf(p, v, t) == Ok(DateOf(day)) <==> t.DateType? && IsDay(p, v, day)
    ensures forall at, aware :: PartOf(p, v, t) == Ok(TimeOf(at, aware)) <==> t.TimeType? && IsInstant(p, v, at, aware)
  {
    if t.UuidType? && v.Text? && p.uuid(v.s).Some? {
      assert IsUuid(p, v, p.uuid(v.s).value);
    }
    if t.UuidType? && v.Uuid? {
      assert IsUuid(p, v, v.u);
    }
    if t.DateType? && v.Text? && p.date(v.s).Some? {
      assert IsDay(p, v, p.date(v.s).value);
    }
    if t.DateType? && v.Day? {
      assert IsDay(p, v, v.day);
    }
    if t.TimeType? && v.Text? && p.time(v.s).Some? {
      assert IsInstant(p, v, p.time(v.s).value.0, p.time(v.s).value.1);
    }
    if t.TimeType? && v.Instant? {
      assert IsInstant(p, v, v.at, v.aware);
    }
  }

  /** The failure of a cell: NULL, a number that is not finite, or not of the type. */
  lemma PartFails(p: Parsers, v: Cell, t: KeyType, error: string)
    ensures PartOf(p, v, t) == Err(error) <==>
            && !OfType(p, v, t)
            && error == if v == Null then "cohort_null_member_key"
                        else if t == NumberType && (v == NotFinite || v == Float(None)) then "cohort_nonfinite_member_key"
                        else "cohort_member_key_type_mismatch"
  {
    PartIs(p, v, t);
  }

  lemma PartsAgree(p: Parsers, v: Cell, w: Cell, t: KeyType)
    requires OfType(p, v, t) && OfType(p, w, t)
    ensures PartOf(p, v, t) == PartOf(p, w, t) <==> SameValue(p, v, w, t)
  {
    PartIs(p, v, t);
    PartIs(p, w, t);
    if t.NumberType? {
      NumberKeysAgree(p, v, w);
    }
  }

  // -------------------------------------------------------------------- whole keys

  ghost predicate AllOfType(p: Parsers, vs: seq<Cell>, ts: seq<KeyType>) {
    |vs| == |ts| && forall i | 0 <= i < |vs| :: OfType(p, vs[i], ts[i])
  }

  ghost predicate SameValues(p: Parsers, vs: seq<Cell>, ws: seq<Cell>, ts: seq<KeyType>) {
    |vs| == |ws| == |ts| && forall i | 0 <= i < |vs| :: SameValue(p, vs[i], ws[i], ts[i])
  }

  /** A key is made exactly of cells of their types, and two keys are equal exactly when all cells are the same value. */
  lemma {:induction false} KeysAgreeIff(p: Parsers, vs: seq<Cell>, ws: seq<Cell>, ts: seq<KeyType>)
    requires |vs| == |ws| == |ts|
    ensures TypedKey(p, vs, ts).Ok? <==> AllOfType(p, vs, ts)
    ensures AllOfType(p, vs, ts) && AllOfType(p, ws, ts) ==>
              TypedKey(p, ws, ts).Ok? && (TypedKey(p, vs, ts) == TypedKey(p, ws, ts) <==> SameValues(p, vs, ws, ts))
  {
    hide PartOf, OfType, SameValue;
    if vs != [] {
      var n := |vs| - 1;
      KeysAgreeIff(p, vs[..n], ws[..n], ts[..n]);
      PartIs(p, vs[n], ts[n]);
      PartIs(p, ws[n], ts[n]);
      OneMoreOfType(p, vs, ts);
      OneMoreOfType(p, ws, ts);
      if AllOfType(p, vs, ts) && AllOfType(p, ws, ts) {
        PartsAgree(p, vs[n], ws[n], ts[n]);
        OneMoreSame(p, vs, ws, ts);
        Snoc(TypedKey(p, vs[..n], ts[..n]).value, PartOf(p, vs[n], ts[n]).value, TypedKey(p, ws[..n], ts[..n]).value, PartOf(p, ws[n], ts[n]).value);
      }
    }
  }

  lemma Snoc<T>(xs: seq<T>, x: T, ys: seq<T>, y: T)
    ensures xs + [x] == ys + [y] <==> xs == ys && x == y
  {
    if xs + [x] == ys + [y] {
      assert (xs + [x])[..|xs|] == xs && (ys + [y])[..|ys|] == ys;
      assert (xs + [x])[|xs|] == x && (ys + [y])[|ys|] == y;
    }
  }

  lemma OneMoreOfType(p: Parsers, vs: seq<Cell>, ts: seq<KeyType>)
    requires |vs| == |ts| > 0
    ensures var n := |vs| - 1; AllOfType(p, vs, ts) <==> AllOfType(p, vs[..n], ts[..n]) && OfType(p, vs[n], ts[n])
  {
    hide OfType;
    var n := |vs| - 1;
    assert forall i | 0 <= i < n :: vs[..n][i] == vs[i] && ts[..n][i] == ts[i];
  }

  lemma OneMoreSame(p: Parsers, vs: seq<Cell>, ws: seq<Cell>, ts: seq<KeyType>)
    requires |vs| == |ws| == |ts| > 0
    ensures var n := |vs| - 1; SameValues(p, vs, ws, ts) <==> SameValues(p, vs[..n], ws[..n], ts[..n]) && SameValue(p, vs[n], ws[n], ts[n])
  {
    hide SameValue;
    var n := |vs| - 1;
    assert forall i | 0 <= i < n :: vs[..n][i] == vs[i] && ws[..n][i] == ws[i] && ts[..n][i] == ts[i];
  }
}
