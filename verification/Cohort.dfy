/** Cohort execution, by typed keys in dictionaries. */
module Cohort {

  /*
    A selection of members, measurements aligned to them, and comparisons between
    aligned metrics.
  */

  import opened Wrappers
  import opened Sequences
  import opened Decimals

  /** A float is known by the decimal its text writes, unless it is not finite; `NotFinite` is such a decimal. */
  datatype Cell =
    | Null | Truth(b: bool) | Int(n: int) | Dec(d: Decimal) | NotFinite | Float(written: Option<Decimal>)
    | Text(s: string) | Uuid(u: string) | Day(day: int) | Instant(at: int, aware: bool)

  datatype KeyType = NumberType | UuidType | DateType | TimeType | BoolType | TextType | OtherType

  /** One key component, equal exactly when the values are equal in their logical type. */
  datatype KeyPart =
    | NumberOf(d: Decimal) | UuidOf(u: string) | DateOf(day: int) | TimeOf(at: int, aware: bool) | BoolOf(b: bool) | TextOf(s: string)

  type Key = seq<KeyPart>

  /** Readers of identifiers, dates and timestamps written as text. */
  datatype Parsers = Parsers(uuid: string -> Option<string>, date: string -> Option<int>, time: string -> Option<(int, bool)>)

  datatype Table = Table(columns: seq<string>, rows: seq<seq<Cell>>)

  datatype Stage = Stage(
    name: string, columns: seq<string>, keys: seq<string>, types: seq<KeyType>, attributes: seq<string>, metrics: seq<string>)

  predicate Declared(names: seq<string>, columns: seq<string>) {
    forall i | 0 <= i < |names| :: names[i] in columns
  }

  /** The shape the preflight demands of a stage. */
  predicate WellShaped(s: Stage) {
    |s.keys| == |s.types| && Declared(s.keys, s.columns) && Declared(s.attributes, s.columns) && Declared(s.metrics, s.columns)
  }

  predicate Wide(rows: seq<seq<Cell>>, width: nat) {
    forall i | 0 <= i < |rows| :: |rows[i]| == width
  }

  function Pick(row: seq<Cell>, columns: seq<string>, names: seq<string>): (cells: seq<Cell>)
    requires |row| == |columns| && Declared(names, columns)
    ensures |cells| == |names|
  {
    seq(|names|, i requires 0 <= i < |names| => row[IndexOf(columns, names[i])])
  }

  // ------------------------------------------------------------------ typed keys

  const MISMATCH := "cohort_member_key_type_mismatch"

  function Parsed<T>(value: Option<T>, make: T -> KeyPart): Result<KeyPart, string> {
    match value case None => Err(MISMATCH) case Some(v) => Ok(make(v))
  }

  predicate Numeric(c: Cell) {
    c.Int? || c.Dec? || c.NotFinite? || c.Float?
  }

  predicate IsFinite(c: Cell) {
    c.Int? || c.Dec? || (c.Float? && c.written.Some?)
  }

  function AsDecimal(c: Cell): Decimal
    requires IsFinite(c)
  {
    if c.Int? then Decimal(c.n, 0) else if c.Dec? then c.d else c.written.value
  }

  function PartOf(p: Parsers, v: Cell, t: KeyType): Result<KeyPart, string> {
    if v.Null? then Err("cohort_null_member_key") else
      match t
      case NumberType =>
        if IsFinite(v) then Ok(NumberOf(Canonical(AsDecimal(v)))) else Err(if Numeric(v) then "cohort_nonfinite_member_key" else MISMATCH)
      case UuidType => if v.Uuid? then Ok(UuidOf(v.u)) else if v.Text? then Parsed(p.uuid(v.s), u => UuidOf(u)) else Err(MISMATCH)
      case DateType => if v.Day? then Ok(DateOf(v.day)) else if v.Text? then Parsed(p.date(v.s), d => DateOf(d)) else Err(MISMATCH)
      case TimeType =>
        if v.Instant? then Ok(TimeOf(v.at, v.aware))
        else if v.Text? then Parsed(p.time(v.s), (i: (int, bool)) => TimeOf(i.0, i.1)) else Err(MISMATCH)
      case BoolType => if v.Truth? then Ok(BoolOf(v.b)) else Err(MISMATCH)
      case TextType => if v.Text? then Ok(TextOf(v.s)) else Err(MISMATCH)
      case OtherType => Err(MISMATCH)
  }

  /** Components left to right; the first failure wins. */
  function TypedKey(p: Parsers, vs: seq<Cell>, ts: seq<KeyType>): Result<Key, string>
    requires |vs| == |ts|
  {
    if vs == [] then Ok([]) else
      var n := |vs| - 1;
      var before :- TypedKey(p, vs[..n], ts[..n]);
      var part :- PartOf(p, vs[n], ts[n]);
      Ok(before + [part])
  }

  method NormalizeKey(p: Parsers, vs: seq<Cell>, ts: seq<KeyType>) returns (r: Result<Key, string>)
    requires |vs| == |ts|
    ensures r == TypedKey(p, vs, ts)
  {
    var normalized: Key := [];
    for i := 0 to |vs|
      invariant TypedKey(p, vs[..i], ts[..i]) == Ok(normalized)
    {
      assert vs[..i + 1][..i] == vs[..i] && ts[..i + 1][..i] == ts[..i];
      var part := PartOf(p, vs[i], ts[i]);
      if part.Err? {
        KeyFails(p, vs, ts, i + 1, part.error);
        return Err(part.error);
      }
      normalized := normalized + [part.value];
    }
    assert vs[..|vs|] == vs && ts[..|vs|] == ts;
    return Ok(normalized);
  }

  lemma {:induction false} KeyFails(p: Parsers, vs: seq<Cell>, ts: seq<KeyType>, i: nat, error: string)
    requires |vs| == |ts| && i <= |vs| && TypedKey(p, vs[..i], ts[..i]) == Err(error)
    ensures TypedKey(p, vs, ts) == Err(error)
    decreases |vs|
  {
    hide PartOf;
    if i == |vs| {
      assert vs[..i] == vs && ts[..i] == ts;
    } else {
      var n := |vs| - 1;
      assert vs[..n][..i] == vs[..i] && ts[..n][..i] == ts[..i];
      KeyFails(p, vs[..n], ts[..n], i, error);
    }
  }

  /** A row's typed key; a NULL component is reported before any type. */
  function KeyOf(p: Parsers, s: Stage, row: seq<Cell>, whenNull: string): Result<Key, string>
    requires WellShaped(s) && |row| == |s.columns|
  {
    var values := Pick(row, s.columns, s.keys);
    if Null in values then Err(whenNull) else TypedKey(p, values, s.types)
  }

  /** Number keys agree exactly when the numbers do, whatever their type or scale. */
  lemma NumberKeysAgree(p: Parsers, a: Cell, b: Cell)
    requires IsFinite(a) && IsFinite(b)
    ensures PartOf(p, a, NumberType) == PartOf(p, b, NumberType) <==> SameNumber(AsDecimal(a), AsDecimal(b))
  {
    CanonicalIffSame(AsDecimal(a), AsDecimal(b));
  }

  // ------------------------------------------------------------------ selection

  datatype Member = Member(key: Key, values: seq<Cell>, attributes: seq<Cell>)

  function Keys(ms: seq<Member>): set<Key> {
    set m | m in ms :: m.key
  }

  const NULL_MEMBER := "cohort_null_member_key"

  function MemberOf(s: Stage, row: seq<Cell>, key: Key): Member
    requires WellShaped(s) && |row| == |s.columns|
  {
    Member(key, Pick(row, s.columns, s.keys), Pick(row, s.columns, s.attributes))
  }

  /** The selected members in selection order; the first failing row wins. */
  function MembersOf(p: Parsers, s: Stage, rows: seq<seq<Cell>>): Result<seq<Member>, string>
    requires WellShaped(s) && Wide(rows, |s.columns|)
  {
    if rows == [] then Ok([]) else
      var n := |rows| - 1;
      var before :- MembersOf(p, s, rows[..n]);
      var key :- KeyOf(p, s, rows[n], NULL_MEMBER);
      if key in Keys(before) then Err("cohort_duplicate_member_key") else Ok(before + [MemberOf(s, rows[n], key)])
  }

  lemma {:induction false} MembersFail(p: Parsers, s: Stage, rows: seq<seq<Cell>>, i: nat, error: string)
    requires WellShaped(s) && Wide(rows, |s.columns|) && i <= |rows| && MembersOf(p, s, rows[..i]) == Err(error)
    ensures MembersOf(p, s, rows) == Err(error)
    decreases |rows|
  {
    hide KeyOf, Keys;
    if i == |rows| {
      assert rows[..i] == rows;
    } else {
      assert rows[..|rows| - 1][..i] == rows[..i];
      MembersFail(p, s, rows[..|rows| - 1], i, error);
    }
  }

  method SelectMembers(p: Parsers, s: Stage, rows: seq<seq<Cell>>) returns (r: Result<seq<Member>, string>)
    requires WellShaped(s) && Wide(rows, |s.columns|)
    ensures r == MembersOf(p, s, rows)
  {
    hide KeyOf, TypedKey, WellShaped;
    var seen: set<Key> := {};
    var members: seq<Member> := [];
    for i := 0 to |rows|
      invariant MembersOf(p, s, rows[..i]) == Ok(members) && seen == Keys(members)
    {
      assert rows[..i + 1][..i] == rows[..i];
      var key := ReadKey(p, s, rows[i], NULL_MEMBER);
      if key.Err? {
        MembersFail(p, s, rows, i + 1, key.error);
        return Err(key.error);
      }
      if key.value in seen {
        MembersFail(p, s, rows, i + 1, "cohort_duplicate_member_key");
        return Err("cohort_duplicate_member_key");
      }
      members := members + [MemberOf(s, rows[i], key.value)];
      seen := seen + {key.value};
    }
    assert rows[..|rows|] == rows;
    return Ok(members);
  }

  method ReadKey(p: Parsers, s: Stage, row: seq<Cell>, whenNull: string) returns (r: Result<Key, string>)
    requires WellShaped(s) && |row| == |s.columns|
    ensures r == KeyOf(p, s, row, whenNull)
  {
    hide TypedKey;
    var values := Pick(row, s.columns, s.keys);
    if Null in values {
      return Err(whenNull);
    }
    r := NormalizeKey(p, values, s.types);
  }

  // ------------------------------------------------------------------ alignment

  const NULL_MEASURE := "cohort_null_measurement_key"

  type Aligned = map<Key, seq<Cell>>

  function Payload(s: Stage, row: seq<Cell>): seq<Cell>
    requires WellShaped(s) && |row| == |s.columns|
  {
    Pick(row, s.columns, s.attributes) + Pick(row, s.columns, s.metrics)
  }

  function Width(s: Stage): nat {
    |s.attributes| + |s.metrics|
  }

  /** The measurement's payloads by key; each key must be a member's and new. */
  function AlignedOf(p: Parsers, s: Stage, keys: set<Key>, rows: seq<seq<Cell>>): Result<Aligned, string>
    requires WellShaped(s) && Wide(rows, |s.columns|)
  {
    if rows == [] then Ok(map[]) else
      var n := |rows| - 1;
      var before :- AlignedOf(p, s, keys, rows[..n]);
      var key :- KeyOf(p, s, rows[n], NULL_MEASURE);
      if key !in keys then Err("cohort_unexpected_measurement_key")
      else if key in before then Err("cohort_duplicate_measurement_key")
      else Ok(before[key := Payload(s, rows[n])])
  }

  lemma {:induction false} AlignedFails(p: Parsers, s: Stage, keys: set<Key>, rows: seq<seq<Cell>>, i: nat, error: string)
    requires WellShaped(s) && Wide(rows, |s.columns|) && i <= |rows| && AlignedOf(p, s, keys, rows[..i]) == Err(error)
    ensures AlignedOf(p, s, keys, rows) == Err(error)
    decreases |rows|
  {
    hide KeyOf;
    if i == |rows| {
      assert rows[..i] == rows;
    } else {
      assert rows[..|rows| - 1][..i] == rows[..i];
      AlignedFails(p, s, keys, rows[..|rows| - 1], i, error);
    }
  }

  method AlignRows(p: Parsers, s: Stage, keys: set<Key>, rows: seq<seq<Cell>>) returns (r: Result<Aligned, string>)
    requires WellShaped(s) && Wide(rows, |s.columns|)
    ensures r == AlignedOf(p, s, keys, rows)
  {
    hide KeyOf, WellShaped;
    var aligned: Aligned := map[];
    for i := 0 to |rows|
      invariant AlignedOf(p, s, keys, rows[..i]) == Ok(aligned)
    {
      assert rows[..i + 1][..i] == rows[..i];
      var key := ReadKey(p, s, rows[i], NULL_MEASURE);
      if key.Err? {
        AlignedFails(p, s, keys, rows, i + 1, key.error);
        return Err(key.error);
      }
      if key.value !in keys {
        AlignedFails(p, s, keys, rows, i + 1, "cohort_unexpected_measurement_key");
        return Err("cohort_unexpected_measurement_key");
      }
      if key.value in aligned {
        AlignedFails(p, s, keys, rows, i + 1, "cohort_duplicate_measurement_key");
        return Err("cohort_duplicate_measurement_key");
      }
      aligned := aligned[key.value := Payload(s, rows[i])];
    }
    assert rows[..|rows|] == rows;
    return Ok(aligned);
  }

  /** One measurement: shape, size, then alignment. */
  function MeasuredOf(p: Parsers, s: Stage, members: seq<Member>, t: Table): Result<Aligned, string>
    requires WellShaped(s)
  {
    if t.columns != s.columns then Err("cohort_columns_mismatch")
    else if !Wide(t.rows, |s.columns|) then Err("cohort_row_width_mismatch")
    else if |t.rows| > |members| then Err("cohort_measurement_overflow")
    else AlignedOf(p, s, Keys(members), t.rows)
  }

  function MeasureAll(p: Parsers, stages: seq<Stage>, members: seq<Member>, results: seq<Table>): (r: Result<seq<Aligned>, string>)
    requires |stages| == |results| && forall s | s in stages :: WellShaped(s)
    ensures r.Ok? ==> |r.value| == |stages|
  {
    if stages == [] then Ok([]) else
      var n := |stages| - 1;
      var before :- MeasureAll(p, stages[..n], members, results[..n]);
      var aligned :- MeasuredOf(p, stages[n], members, results[n]);
      Ok(before + [aligned])
  }

  lemma {:induction false} MeasureFails(p: Parsers, stages: seq<Stage>, members: seq<Member>, results: seq<Table>, i: nat, error: string)
    requires |stages| == |results| && (forall s | s in stages :: WellShaped(s)) && i <= |stages|
    requires MeasureAll(p, stages[..i], members, results[..i]) == Err(error)
    ensures MeasureAll(p, stages, members, results) == Err(error)
    decreases |stages|
  {
    hide MeasuredOf, WellShaped;
    if i == |stages| {
      assert stages[..i] == stages && results[..i] == results;
    } else {
      var n := |stages| - 1;
      assert stages[..n][..i] == stages[..i] && results[..n][..i] == results[..i];
      MeasureFails(p, stages[..n], members, results[..n], i, error);
    }
  }

  // ---------------------------------------------------------------- comparisons

  datatype CompareOp = Subtract | Ratio | Percent

  datatype Metric = Metric(measurement: string, column: string)

  datatype Comparison = Comparison(name: string, op: CompareOp, left: Metric, right: Metric)

  predicate IsZero(c: Cell) {
    IsFinite(c) && AsDecimal(c).coefficient == 0
  }

  predicate IsDecimal(c: Cell) {
    c.Dec? || c.NotFinite?
  }

  /** NULL operands and zero divisors give NULL, differences of decimals and integers are exact; `host` is arithmetic that rounds. */
  function Compare(host: (CompareOp, Cell, Cell) -> Cell, op: CompareOp, l: Cell, r: Cell): Result<Cell, string> {
    if l.Null? || r.Null? then Ok(Null)
    else if !Numeric(l) || !Numeric(r) then Err("cohort_comparison_non_numeric")
    else if IsDecimal(l) || IsDecimal(r) then
      if l.Float? || r.Float? then Err("cohort_comparison_numeric_incompatible")
      else if !IsFinite(l) || !IsFinite(r) then Err("cohort_comparison_nonfinite")
      else if op == Subtract then Ok(Dec(Difference(AsDecimal(l), AsDecimal(r))))
      else Ok(if IsZero(r) then Null else host(op, l, r))
    else if op == Subtract then Ok(if l.Int? && r.Int? then Int(l.n - r.n) else host(op, l, r))
    else Ok(if IsZero(r) then Null else host(op, l, r))
  }

  function StageNamed(stages: seq<Stage>, name: string): (i: nat)
    requires exists s :: s in stages && s.name == name
    ensures i < |stages| && stages[i].name == name
  {
    if stages[0].name == name then 0 else
      assert stages == [stages[0]] + stages[1..];
      1 + StageNamed(stages[1..], name)
  }

  predicate Refers(stages: seq<Stage>, m: Metric) {
    exists s :: s in stages && s.name == m.measurement
  }

  predicate HasMetric(stages: seq<Stage>, m: Metric)
    requires Refers(stages, m)
  {
    m.column in stages[StageNamed(stages, m.measurement)].metrics
  }

  /** A metric's position in its stage's payload. */
  function MetricAt(s: Stage, column: string): (i: nat)
    requires column in s.metrics
    ensures i < Width(s)
  {
    |s.attributes| + IndexOf(s.metrics, column)
  }

  /** A member's cell in one measurement, NULL when the member has no row there. */
  function CellAt(stages: seq<Stage>, aligned: seq<Aligned>, key: Key, m: Metric): Cell
    requires Refers(stages, m) && HasMetric(stages, m) && |aligned| == |stages|
  {
    var i := StageNamed(stages, m.measurement);
    var at := MetricAt(stages[i], m.column);
    if key in aligned[i] && at < |aligned[i][key]| then aligned[i][key][at] else Null
  }

  function CompareMembers(
    host: (CompareOp, Cell, Cell) -> Cell, stages: seq<Stage>, aligned: seq<Aligned>, c: Comparison, members: seq<Member>)
    : (r: Result<seq<Cell>, string>)
    requires |aligned| == |stages| && Refers(stages, c.left) && Refers(stages, c.right)
    requires HasMetric(stages, c.left) && HasMetric(stages, c.right)
    ensures r.Ok? ==> |r.value| == |members|
  {
    if members == [] then Ok([]) else
      var n := |members| - 1;
      var before :- CompareMembers(host, stages, aligned, c, members[..n]);
      var key := members[n].key;
      var cell :- Compare(host, c.op, CellAt(stages, aligned, key, c.left), CellAt(stages, aligned, key, c.right));
      Ok(before + [cell])
  }

  function CompareAll(
    host: (CompareOp, Cell, Cell) -> Cell, stages: seq<Stage>, aligned: seq<Aligned>, cs: seq<Comparison>, members: seq<Member>)
    : (r: Result<seq<seq<Cell>>, string>)
    requires |aligned| == |stages| && forall c | c in cs :: Refers(stages, c.left) && Refers(stages, c.right)
    ensures r.Ok? ==> |r.value| == |cs| && forall j | 0 <= j < |cs| :: |r.value[j]| == |members|
  {
    if cs == [] then Ok([]) else
      var n := |cs| - 1;
      var before :- CompareAll(host, stages, aligned, cs[..n], members);
      if !HasMetric(stages, cs[n].left) || !HasMetric(stages, cs[n].right) then Err("cohort_comparison_column_invalid") else
      var column :- CompareMembers(host, stages, aligned, cs[n], members);
      Ok(before + [column])
  }

  // --------------------------------------------------------------------- output

  function Nulls(n: nat): seq<Cell> {
    seq(n, _ => Null)
  }

  /** A member's payloads, measurement by measurement, padded with NULL. */
  function Payloads(stages: seq<Stage>, aligned: seq<Aligned>, key: Key): seq<Cell>
    requires |aligned| == |stages|
  {
    if stages == [] then [] else
      var n := |stages| - 1;
      Payloads(stages[..n], aligned[..n], key) + if key in aligned[n] then aligned[n][key] else Nulls(Width(stages[n]))
  }

  function Computed(columns: seq<seq<Cell>>, i: nat): (cells: seq<Cell>)
    requires forall j | 0 <= j < |columns| :: i < |columns[j]|
    ensures |cells| == |columns|
  {
    seq(|columns|, j requires 0 <= j < |columns| => columns[j][i])
  }

  function OutputRow(stages: seq<Stage>, aligned: seq<Aligned>, computed: seq<seq<Cell>>, members: seq<Member>, i: nat): seq<Cell>
    requires |aligned| == |stages| && i < |members| && forall j | 0 <= j < |computed| :: |computed[j]| == |members|
  {
    members[i].values + members[i].attributes + Payloads(stages, aligned, members[i].key) + Computed(computed, i)
  }

  function OutputRows(stages: seq<Stage>, aligned: seq<Aligned>, computed: seq<seq<Cell>>, members: seq<Member>): (rows: seq<seq<Cell>>)
    requires |aligned| == |stages| && forall j | 0 <= j < |computed| :: |computed[j]| == |members|
    ensures |rows| == |members|
    ensures forall i | 0 <= i < |rows| :: rows[i] == OutputRow(stages, aligned, computed, members, i)
  {
    seq(|members|, i requires 0 <= i < |members| => OutputRow(stages, aligned, computed, members, i))
  }

  function Present(a: Aligned, members: seq<Member>): (flags: seq<bool>)
    ensures |flags| == |members| && forall i | 0 <= i < |flags| :: flags[i] <==> members[i].key in a
  {
    seq(|members|, i requires 0 <= i < |members| => members[i].key in a)
  }

  function PresenceOf(aligned: seq<Aligned>, members: seq<Member>): (ps: seq<seq<bool>>)
    ensures |ps| == |aligned| && forall k | 0 <= k < |ps| :: ps[k] == Present(aligned[k], members)
  {
    seq(|aligned|, k requires 0 <= k < |aligned| => Present(aligned[k], members))
  }

  function CoverageOf(aligned: seq<Aligned>, members: seq<Member>): (cs: seq<(nat, nat)>)
    ensures |cs| == |aligned| && forall k | 0 <= k < |cs| :: cs[k] == (|members|, |aligned[k]|)
  {
    seq(|aligned|, k requires 0 <= k < |aligned| => (|members|, |aligned[k]|))
  }

  /** Rows in selection order; per measurement, who is present and how many of how many. */
  datatype Outcome = Outcome(rows: seq<seq<Cell>>, presence: seq<seq<bool>>, coverage: seq<(nat, nat)>)

  datatype Plan = Plan(source: Stage, measurements: seq<Stage>, comparisons: seq<Comparison>, maxMembers: nat)

  /** What a validated query and plan guarantee. */
  predicate Prepared(plan: Plan) {
    && WellShaped(plan.source) && (forall s | s in plan.measurements :: WellShaped(s))
    && forall c | c in plan.comparisons :: Refers(plan.measurements, c.left) && Refers(plan.measurements, c.right)
  }

  function SelectedOf(p: Parsers, plan: Plan, source: Table): Result<seq<Member>, string>
    requires Prepared(plan)
  {
    if source.columns != plan.source.columns then Err("cohort_columns_mismatch")
    else if !Wide(source.rows, |plan.source.columns|) then Err("cohort_row_width_mismatch")
    else if |source.rows| > plan.maxMembers then Err("cohort_member_limit_exceeded")
    else MembersOf(p, plan.source, source.rows)
  }

  /** The rest of a run, once its members are known. */
  function AlignedRun(
    p: Parsers, host: (CompareOp, Cell, Cell) -> Cell, plan: Plan, members: seq<Member>, results: seq<Table>): Result<Outcome, string>
    requires Prepared(plan) && |results| == |plan.measurements|
  {
    var aligned :- MeasureAll(p, plan.measurements, members, results);
    var computed :- CompareAll(host, plan.measurements, aligned, plan.comparisons, members);
    Ok(Outcome(OutputRows(plan.measurements, aligned, computed, members), PresenceOf(aligned, members), CoverageOf(aligned, members)))
  }

  function NoMembers(n: nat): Outcome {
    Outcome([], seq(n, _ => []), seq(n, _ => (0, 0)))
  }

  function RunOf(p: Parsers, host: (CompareOp, Cell, Cell) -> Cell, plan: Plan, source: Table, results: seq<Table>): Result<Outcome, string>
    requires Prepared(plan) && |results| == |plan.measurements|
  {
    var members :- SelectedOf(p, plan, source);
    if members == [] then Ok(NoMembers(|plan.measurements|)) else AlignedRun(p, host, plan, members, results)
  }

  // -------------------------------------------------------------------- the run

  method MeasureStages(p: Parsers, stages: seq<Stage>, members: seq<Member>, results: seq<Table>)
    returns (r: Result<seq<Aligned>, string>, presence: seq<seq<bool>>, coverage: seq<(nat, nat)>)
    requires |stages| == |results| && forall s | s in stages :: WellShaped(s)
    ensures r == MeasureAll(p, stages, members, results)
    ensures r.Ok? ==> presence == PresenceOf(r.value, members) && coverage == CoverageOf(r.value, members)
  {
    hide AlignedOf, WellShaped, MeasuredOf, Present;
    var aligned: seq<Aligned> := [];
    presence, coverage := [], [];
    for i := 0 to |stages|
      invariant MeasureAll(p, stages[..i], members, results[..i]) == Ok(aligned)
      invariant presence == PresenceOf(aligned, members) && coverage == CoverageOf(aligned, members)
    {
      assert stages[..i + 1][..i] == stages[..i] && results[..i + 1][..i] == results[..i];
      var one := Measure(p, stages[i], members, results[i]);
      if one.Err? {
        MeasureFails(p, stages, members, results, i + 1, one.error);
        return Err(one.error), [], [];
      }
      aligned := aligned + [one.value];
      presence := presence + [Present(one.value, members)];
      coverage := coverage + [(|members|, |one.value|)];
    }
    assert stages[..|stages|] == stages && results[..|stages|] == results;
    return Ok(aligned), presence, coverage;
  }

  method Measure(p: Parsers, s: Stage, members: seq<Member>, t: Table) returns (r: Result<Aligned, string>)
    requires WellShaped(s)
    ensures r == MeasuredOf(p, s, members, t)
  {
    hide AlignedOf, WellShaped;
    if t.columns != s.columns {
      return Err("cohort_columns_mismatch");
    }
    if !Wide(t.rows, |s.columns|) {
      return Err("cohort_row_width_mismatch");
    }
    if |t.rows| > |members| {
      return Err("cohort_measurement_overflow");
    }
    r := AlignRows(p, s, Keys(members), t.rows);
  }

  lemma {:induction false} CompareFails(
    host: (CompareOp, Cell, Cell) -> Cell, stages: seq<Stage>, aligned: seq<Aligned>, c: Comparison, members: seq<Member>, i: nat, error: string)
    requires |aligned| == |stages| && Refers(stages, c.left) && Refers(stages, c.right)
    requires HasMetric(stages, c.left) && HasMetric(stages, c.right)
    requires i <= |members| && CompareMembers(host, stages, aligned, c, members[..i]) == Err(error)
    ensures CompareMembers(host, stages, aligned, c, members) == Err(error)
    decreases |members|
  {
    hide Compare, CellAt, Refers, HasMetric;
    if i == |members| {
      assert members[..i] == members;
    } else {
      assert members[..|members| - 1][..i] == members[..i];
      CompareFails(host, stages, aligned, c, members[..|members| - 1], i, error);
    }
  }

  /** One comparison over all members. */
  method CompareColumn(
    host: (CompareOp, Cell, Cell) -> Cell, stages: seq<Stage>, aligned: seq<Aligned>, c: Comparison, members: seq<Member>)
    returns (r: Result<seq<Cell>, string>)
    requires |aligned| == |stages| && Refers(stages, c.left) && Refers(stages, c.right)
    requires HasMetric(stages, c.left) && HasMetric(stages, c.right)
    ensures r == CompareMembers(host, stages, aligned, c, members)
  {
    hide Compare, CellAt, Refers, HasMetric;
    var compared: seq<Cell> := [];
    for i := 0 to |members|
      invariant CompareMembers(host, stages, aligned, c, members[..i]) == Ok(compared)
    {
      assert members[..i + 1][..i] == members[..i];
      var key := members[i].key;
      var cell := Compare(host, c.op, CellAt(stages, aligned, key, c.left), CellAt(stages, aligned, key, c.right));
      if cell.Err? {
        CompareFails(host, stages, aligned, c, members, i + 1, cell.error);
        return Err(cell.error);
      }
      compared := compared + [cell.value];
    }
    assert members[..|members|] == members;
    return Ok(compared);
  }

  lemma {:induction false} ComparisonsFail(
    host: (CompareOp, Cell, Cell) -> Cell, stages: seq<Stage>, aligned: seq<Aligned>, cs: seq<Comparison>, members: seq<Member>, i: nat, error: string)
    requires |aligned| == |stages| && (forall c | c in cs :: Refers(stages, c.left) && Refers(stages, c.right)) && i <= |cs|
    requires CompareAll(host, stages, aligned, cs[..i], members) == Err(error)
    ensures CompareAll(host, stages, aligned, cs, members) == Err(error)
    decreases |cs|
  {
    hide CompareMembers, Refers, HasMetric;
    if i == |cs| {
      assert cs[..i] == cs;
    } else {
      assert cs[..|cs| - 1][..i] == cs[..i];
      ComparisonsFail(host, stages, aligned, cs[..|cs| - 1], members, i, error);
    }
  }

  method CompareStages(
    host: (CompareOp, Cell, Cell) -> Cell, stages: seq<Stage>, aligned: seq<Aligned>, cs: seq<Comparison>, members: seq<Member>)
    returns (r: Result<seq<seq<Cell>>, string>)
    requires |aligned| == |stages| && forall c | c in cs :: Refers(stages, c.left) && Refers(stages, c.right)
    ensures r == CompareAll(host, stages, aligned, cs, members)
  {
    hide CompareMembers, Refers, HasMetric;
    var columns: seq<seq<Cell>> := [];
    for i := 0 to |cs|
      invariant CompareAll(host, stages, aligned, cs[..i], members) == Ok(columns)
    {
      assert cs[..i + 1][..i] == cs[..i];
      if !HasMetric(stages, cs[i].left) || !HasMetric(stages, cs[i].right) {
        ComparisonsFail(host, stages, aligned, cs, members, i + 1, "cohort_comparison_column_invalid");
        return Err("cohort_comparison_column_invalid");
      }
      var column := CompareColumn(host, stages, aligned, cs[i], members);
      if column.Err? {
        ComparisonsFail(host, stages, aligned, cs, members, i + 1, column.error);
        return Err(column.error);
      }
      columns := columns + [column.value];
    }
    assert cs[..|cs|] == cs;
    return Ok(columns);
  }

  method EmitPayloads(stages: seq<Stage>, aligned: seq<Aligned>, key: Key) returns (cells: seq<Cell>)
    requires |aligned| == |stages|
    ensures cells == Payloads(stages, aligned, key)
  {
    cells := [];
    for i := 0 to |stages|
      invariant cells == Payloads(stages[..i], aligned[..i], key)
    {
      assert stages[..i + 1][..i] == stages[..i] && aligned[..i + 1][..i] == aligned[..i];
      cells := cells + if key in aligned[i] then aligned[i][key] else Nulls(Width(stages[i]));
    }
    assert stages[..|stages|] == stages && aligned[..|stages|] == aligned;
  }

  method EmitRows(stages: seq<Stage>, aligned: seq<Aligned>, computed: seq<seq<Cell>>, members: seq<Member>) returns (rows: seq<seq<Cell>>)
    requires |aligned| == |stages| && forall j | 0 <= j < |computed| :: |computed[j]| == |members|
    ensures rows == OutputRows(stages, aligned, computed, members)
  {
    hide Payloads;
    rows := [];
    for i := 0 to |members|
      invariant |rows| == i && forall k | 0 <= k < i :: rows[k] == OutputRow(stages, aligned, computed, members, k)
    {
      var payloads := EmitPayloads(stages, aligned, members[i].key);
      rows := rows + [members[i].values + members[i].attributes + payloads + Computed(computed, i)];
    }
  }

  /** `results` are what the engine returns for the bound measurements, one each. */
  method RunCohort(p: Parsers, host: (CompareOp, Cell, Cell) -> Cell, plan: Plan, source: Table, results: seq<Table>)
    returns (r: Result<Outcome, string>)
    requires Prepared(plan) && |results| == |plan.measurements|
    ensures r == RunOf(p, host, plan, source, results)
  {
    hide MembersOf, MeasureAll, CompareAll, OutputRows, WellShaped, PresenceOf, CoverageOf;
    if source.columns != plan.source.columns {
      return Err("cohort_columns_mismatch");
    }
    if !Wide(source.rows, |plan.source.columns|) {
      return Err("cohort_row_width_mismatch");
    }
    if |source.rows| > plan.maxMembers {
      return Err("cohort_member_limit_exceeded");
    }
    var selected := SelectMembers(p, plan.source, source.rows);
    if selected.Err? {
      return Err(selected.error);
    }
    var members := selected.value;
    if members == [] {
      return Ok(NoMembers(|plan.measurements|));
    }
    var aligned, presence, coverage := MeasureStages(p, plan.measurements, members, results);
    if aligned.Err? {
      return Err(aligned.error);
    }
    var computed := CompareStages(host, plan.measurements, aligned.value, plan.comparisons, members);
    if computed.Err? {
      return Err(computed.error);
    }
    var rows := EmitRows(plan.measurements, aligned.value, computed.value, members);
    return Ok(Outcome(rows, presence, coverage));
  }
}
