/** Which failure a cohort run raises, and when it raises none. */
module CohortFailures {

  import opened Wrappers
  import opened Cohort
  import opened CohortComparison
  import opened CohortMeaning
  import opened CohortCells

  // ---------------------------------------------------------------- selection

  /** No earlier row has the row's typed key. */
  predicate NewKey(p: Parsers, s: Stage, rows: seq<seq<Cell>>, i: nat, whenNull: string)
    requires WellShaped(s) && Wide(rows, |s.columns|) && i < |rows|
  {
    forall j | 0 <= j < i :: KeyOf(p, s, rows[j], whenNull) != KeyOf(p, s, rows[i], whenNull)
  }

  predicate GoodMember(p: Parsers, s: Stage, rows: seq<seq<Cell>>, i: nat)
    requires WellShaped(s) && Wide(rows, |s.columns|) && i < |rows|
  {
    KeyOf(p, s, rows[i], NULL_MEMBER).Ok? && NewKey(p, s, rows, i, NULL_MEMBER)
  }

  predicate BadMember(p: Parsers, s: Stage, rows: seq<seq<Cell>>, i: nat, error: string)
    requires WellShaped(s) && Wide(rows, |s.columns|) && i < |rows|
  {
    match KeyOf(p, s, rows[i], NULL_MEMBER)
    case Err(e) => e == error
    case Ok(_) => !NewKey(p, s, rows, i, NULL_MEMBER) && error == "cohort_duplicate_member_key"
  }

  predicate GoodMembers(p: Parsers, s: Stage, rows: seq<seq<Cell>>)
    requires WellShaped(s) && Wide(rows, |s.columns|)
  {
    forall i: nat | i < |rows| :: GoodMember(p, s, rows, i)
  }

  predicate FirstBadMember(p: Parsers, s: Stage, rows: seq<seq<Cell>>, error: string)
    requires WellShaped(s) && Wide(rows, |s.columns|)
  {
    exists i: nat | i < |rows| :: BadMember(p, s, rows, i, error) && forall j: nat | j < i :: GoodMember(p, s, rows, j)
  }

  lemma MemberPrefix(p: Parsers, s: Stage, rows: seq<seq<Cell>>, n: nat, i: nat, error: string)
    requires WellShaped(s) && Wide(rows, |s.columns|) && i < n <= |rows|
    ensures GoodMember(p, s, rows[..n], i) <==> GoodMember(p, s, rows, i)
    ensures BadMember(p, s, rows[..n], i, error) <==> BadMember(p, s, rows, i, error)
  {
    hide KeyOf;
    assert forall j | 0 <= j <= i :: rows[..n][j] == rows[j];
  }

  /** The selection is accepted iff all rows have different typed keys; otherwise the first row without one names the failure. */
  lemma {:induction false} MembersFailIff(p: Parsers, s: Stage, rows: seq<seq<Cell>>, error: string)
    requires WellShaped(s) && Wide(rows, |s.columns|)
    ensures MembersOf(p, s, rows).Ok? <==> GoodMembers(p, s, rows)
    ensures MembersOf(p, s, rows) == Err(error) <==> FirstBadMember(p, s, rows, error)
  {
    hide KeyOf, WellShaped, NewKey, Keys, GoodMember, BadMember;
    if rows != [] {
      var n := |rows| - 1;
      MembersFailIff(p, s, rows[..n], error);
      forall i: nat | i < n
        ensures GoodMember(p, s, rows[..n], i) <==> GoodMember(p, s, rows, i)
        ensures BadMember(p, s, rows[..n], i, error) <==> BadMember(p, s, rows, i, error)
      {
        MemberPrefix(p, s, rows, n, i, error);
      }
      LastMember(p, s, rows, error);
    }
  }

  lemma LastMember(p: Parsers, s: Stage, rows: seq<seq<Cell>>, error: string)
    requires WellShaped(s) && Wide(rows, |s.columns|) && rows != []
    ensures var n := |rows| - 1;
            var before := MembersOf(p, s, rows[..n]);
            && (before.Ok? ==> (MembersOf(p, s, rows).Ok? <==> GoodMember(p, s, rows, n)) && (MembersOf(p, s, rows) == Err(error) <==> BadMember(p, s, rows, n, error)))
            && (before.Err? ==> MembersOf(p, s, rows) == before)
            && !(GoodMember(p, s, rows, n) && BadMember(p, s, rows, n, error))
  {
    hide KeyOf, WellShaped, MemberOf;
    var n := |rows| - 1;
    if MembersOf(p, s, rows[..n]).Ok? && KeyOf(p, s, rows[n], NULL_MEMBER).Ok? {
      var before, key := MembersOf(p, s, rows[..n]).value, KeyOf(p, s, rows[n], NULL_MEMBER).value;
      MembersAreRows(p, s, rows[..n]);
      assert key in Keys(before) <==> !NewKey(p, s, rows, n, NULL_MEMBER) by {
        forall j | 0 <= j < n ensures KeyOf(p, s, rows[j], NULL_MEMBER) == Ok(before[j].key) {
          assert rows[..n][j] == rows[j];
        }
      }
    }
  }

  // ---------------------------------------------------------------- alignment

  predicate GoodRow(p: Parsers, s: Stage, keys: set<Key>, rows: seq<seq<Cell>>, i: nat)
    requires WellShaped(s) && Wide(rows, |s.columns|) && i < |rows|
  {
    Expected(p, s, keys, rows[i]) && NewKey(p, s, rows, i, NULL_MEASURE)
  }

  predicate BadRow(p: Parsers, s: Stage, keys: set<Key>, rows: seq<seq<Cell>>, i: nat, error: string)
    requires WellShaped(s) && Wide(rows, |s.columns|) && i < |rows|
  {
    match KeyOf(p, s, rows[i], NULL_MEASURE)
    case Err(e) => e == error
    case Ok(key) =>
      if key !in keys then error == "cohort_unexpected_measurement_key"
      else !NewKey(p, s, rows, i, NULL_MEASURE) && error == "cohort_duplicate_measurement_key"
  }

  predicate GoodRows(p: Parsers, s: Stage, keys: set<Key>, rows: seq<seq<Cell>>)
    requires WellShaped(s) && Wide(rows, |s.columns|)
  {
    forall i: nat | i < |rows| :: GoodRow(p, s, keys, rows, i)
  }

  predicate FirstBadRow(p: Parsers, s: Stage, keys: set<Key>, rows: seq<seq<Cell>>, error: string)
    requires WellShaped(s) && Wide(rows, |s.columns|)
  {
    exists i: nat | i < |rows| :: BadRow(p, s, keys, rows, i, error) && forall j: nat | j < i :: GoodRow(p, s, keys, rows, j)
  }

  lemma RowPrefixes(p: Parsers, s: Stage, keys: set<Key>, rows: seq<seq<Cell>>, n: nat, i: nat, error: string)
    requires WellShaped(s) && Wide(rows, |s.columns|) && i < n <= |rows|
    ensures GoodRow(p, s, keys, rows[..n], i) <==> GoodRow(p, s, keys, rows, i)
    ensures BadRow(p, s, keys, rows[..n], i, error) <==> BadRow(p, s, keys, rows, i, error)
  {
    hide KeyOf;
    assert forall j | 0 <= j <= i :: rows[..n][j] == rows[j];
  }

  /** A measurement is accepted iff all rows have different typed keys of members; otherwise the first other row names the failure. */
  lemma {:induction false} AlignedFailsIff(p: Parsers, s: Stage, keys: set<Key>, rows: seq<seq<Cell>>, error: string)
    requires WellShaped(s) && Wide(rows, |s.columns|)
    ensures AlignedOf(p, s, keys, rows).Ok? <==> GoodRows(p, s, keys, rows)
    ensures AlignedOf(p, s, keys, rows) == Err(error) <==> FirstBadRow(p, s, keys, rows, error)
  {
    hide KeyOf, WellShaped, NewKey, GoodRow, BadRow, Payload;
    if rows != [] {
      var n := |rows| - 1;
      AlignedFailsIff(p, s, keys, rows[..n], error);
      forall i: nat | i < n
        ensures GoodRow(p, s, keys, rows[..n], i) <==> GoodRow(p, s, keys, rows, i)
        ensures BadRow(p, s, keys, rows[..n], i, error) <==> BadRow(p, s, keys, rows, i, error)
      {
        RowPrefixes(p, s, keys, rows, n, i, error);
      }
      LastRow(p, s, keys, rows, error);
    }
  }

  lemma LastRow(p: Parsers, s: Stage, keys: set<Key>, rows: seq<seq<Cell>>, error: string)
    requires WellShaped(s) && Wide(rows, |s.columns|) && rows != []
    ensures var n := |rows| - 1;
            var before := AlignedOf(p, s, keys, rows[..n]);
            && (before.Ok? ==> (AlignedOf(p, s, keys, rows).Ok? <==> GoodRow(p, s, keys, rows, n)) && (AlignedOf(p, s, keys, rows) == Err(error) <==> BadRow(p, s, keys, rows, n, error)))
            && (before.Err? ==> AlignedOf(p, s, keys, rows) == before)
            && !(GoodRow(p, s, keys, rows, n) && BadRow(p, s, keys, rows, n, error))
  {
    hide KeyOf, WellShaped, Payload;
    var n := |rows| - 1;
    if AlignedOf(p, s, keys, rows[..n]).Ok? && KeyOf(p, s, rows[n], NULL_MEASURE).Ok? {
      var before, key := AlignedOf(p, s, keys, rows[..n]).value, KeyOf(p, s, rows[n], NULL_MEASURE).value;
      AlignedRows(p, s, keys, rows[..n], key);
      assert forall j | 0 <= j < n :: rows[..n][j] == rows[j];
      assert key in before <==> !NewKey(p, s, rows, n, NULL_MEASURE);
    }
  }

  // -------------------------------------------------------------- comparisons

  /** The two cells of a comparison for one key. */
  ghost predicate Operands(p: Parsers, stages: seq<Stage>, results: seq<Table>, key: Key, c: Comparison, l: Cell, r: Cell)
    requires ResultsFit(stages, results)
  {
    MetricCell(p, stages, results, key, c.left, l) && MetricCell(p, stages, results, key, c.right, r)
  }

  ghost predicate Raises(p: Parsers, stages: seq<Stage>, results: seq<Table>, key: Key, c: Comparison, error: string)
    requires ResultsFit(stages, results)
  {
    exists l, r :: Operands(p, stages, results, key, c, l, r) && Refuses(l, r, error)
  }

  ghost predicate Succeeds(p: Parsers, stages: seq<Stage>, results: seq<Table>, key: Key, c: Comparison)
    requires ResultsFit(stages, results)
  {
    exists l, r :: Operands(p, stages, results, key, c, l, r) && !NonNumeric(l, r) && !Incompatible(l, r) && !Nonfinite(l, r)
  }

  /** Both columns are metrics of the first measurement of their name. */
  predicate IsMetric(stages: seq<Stage>, m: Metric) {
    exists k :: 0 <= k < |stages| && stages[k].name == m.measurement && m.column in stages[k].metrics &&
                forall i | 0 <= i < k :: stages[i].name != m.measurement
  }

  predicate NamesMetrics(stages: seq<Stage>, c: Comparison) {
    IsMetric(stages, c.left) && IsMetric(stages, c.right)
  }

  lemma MetricIs(stages: seq<Stage>, m: Metric)
    requires Refers(stages, m)
    ensures IsMetric(stages, m) <==> HasMetric(stages, m)
  {
    FirstStage(stages, m.measurement);
    var k := StageNamed(stages, m.measurement);
    if IsMetric(stages, m) {
      var i :| 0 <= i < |stages| && stages[i].name == m.measurement && m.column in stages[i].metrics &&
               forall j | 0 <= j < i :: stages[j].name != m.measurement;
      assert i == k;
    }
  }

  /** The comparison fails for the i-th member, and for none before. */
  ghost predicate FailsAt(p: Parsers, stages: seq<Stage>, results: seq<Table>, members: seq<Member>, c: Comparison, i: nat, error: string)
    requires ResultsFit(stages, results) && i < |members|
  {
    Raises(p, stages, results, members[i].key, c, error) && forall k | 0 <= k < i :: Succeeds(p, stages, results, members[k].key, c)
  }

  ghost predicate ColumnFails(p: Parsers, stages: seq<Stage>, results: seq<Table>, members: seq<Member>, c: Comparison, error: string)
    requires ResultsFit(stages, results)
  {
    if !NamesMetrics(stages, c) then error == "cohort_comparison_column_invalid"
    else exists i: nat | i < |members| :: FailsAt(p, stages, results, members, c, i, error)
  }

  ghost predicate ColumnSucceeds(p: Parsers, stages: seq<Stage>, results: seq<Table>, members: seq<Member>, c: Comparison)
    requires ResultsFit(stages, results)
  {
    NamesMetrics(stages, c) && forall k | 0 <= k < |members| :: Succeeds(p, stages, results, members[k].key, c)
  }

  /** The first comparison that fails. */
  ghost predicate ComparisonFails(p: Parsers, stages: seq<Stage>, results: seq<Table>, members: seq<Member>, cs: seq<Comparison>, error: string)
    requires ResultsFit(stages, results)
  {
    exists j: nat | j < |cs| :: ColumnFails(p, stages, results, members, cs[j], error) &&
                                forall k | 0 <= k < j :: ColumnSucceeds(p, stages, results, members, cs[k])
  }

  lemma {:induction false} SameMeasured(p: Parsers, s: Stage, keys: set<Key>, rows: seq<seq<Cell>>, key: Key, name: string, a: Cell, b: Cell)
    requires WellShaped(s) && Wide(rows, |s.columns|) && AlignedOf(p, s, keys, rows).Ok?
    requires MeasuredCell(p, s, rows, key, name, a) && MeasuredCell(p, s, rows, key, name, b)
    ensures a == b
  {
    hide KeyOf, WellShaped, AlignedOf, BadRow, FirstBadRow, ColumnCell;
    AlignedFailsIff(p, s, keys, rows, "");
    if HasRow(p, s, rows, key) {
      var t :| 0 <= t < |rows| && KeyOf(p, s, rows[t], NULL_MEASURE) == Ok(key) && ColumnCell(s.columns, rows[t], name, a);
      var u :| 0 <= u < |rows| && KeyOf(p, s, rows[u], NULL_MEASURE) == Ok(key) && ColumnCell(s.columns, rows[u], name, b);
      assert GoodRow(p, s, keys, rows, t) && GoodRow(p, s, keys, rows, u);
      assert t == u;
      SameColumn(s.columns, rows[t], name, a, b);
    }
  }

  lemma SameColumn(columns: seq<string>, row: seq<Cell>, name: string, a: Cell, b: Cell)
    requires ColumnCell(columns, row, name, a) && ColumnCell(columns, row, name, b)
    ensures a == b
  {
    var x :| 0 <= x < |columns| && x < |row| && columns[x] == name && row[x] == a && name !in columns[..x];
    var y :| 0 <= y < |columns| && y < |row| && columns[y] == name && row[y] == b && name !in columns[..y];
    assert !(x < y) && !(y < x);
  }

  lemma SameMetric(p: Parsers, stages: seq<Stage>, keys: set<Key>, results: seq<Table>, aligned: seq<Aligned>, key: Key, m: Metric, a: Cell, b: Cell)
    requires AllAligned(p, stages, keys, results, aligned)
    requires MetricCell(p, stages, results, key, m, a) && MetricCell(p, stages, results, key, m, b)
    ensures a == b
  {
    hide KeyOf, WellShaped, Wide, AlignedOf, MeasuredCell;
    var k :| 0 <= k < |stages| && stages[k].name == m.measurement && (forall i | 0 <= i < k :: stages[i].name != m.measurement) &&
             m.column in stages[k].metrics && MeasuredCell(p, stages[k], results[k].rows, key, m.column, a);
    var n :| 0 <= n < |stages| && stages[n].name == m.measurement && (forall i | 0 <= i < n :: stages[i].name != m.measurement) &&
             m.column in stages[n].metrics && MeasuredCell(p, stages[n], results[n].rows, key, m.column, b);
    assert k == n;
    SameMeasured(p, stages[k], keys, results[k].rows, key, m.column, a, b);
  }

  /** One comparison of one member: what it raises, by the two cells it reads. */
  lemma MemberRaises(
    p: Parsers, host: (CompareOp, Cell, Cell) -> Cell, stages: seq<Stage>, keys: set<Key>, results: seq<Table>, aligned: seq<Aligned>, key: Key,
    c: Comparison, error: string)
    requires AllAligned(p, stages, keys, results, aligned) && Refers(stages, c.left) && Refers(stages, c.right)
    requires HasMetric(stages, c.left) && HasMetric(stages, c.right)
    ensures var r := Compare(host, c.op, CellAt(stages, aligned, key, c.left), CellAt(stages, aligned, key, c.right));
            && (r == Err(error) <==> Raises(p, stages, results, key, c, error))
            && (r.Ok? <==> Succeeds(p, stages, results, key, c))
  {
    hide AllAligned, MetricCell, CellAt, Compare, Refers, HasMetric, NonNumeric, Incompatible, Nonfinite, Refuses, ResultsFit;
    AlignedFit(p, stages, keys, results, aligned);
    var l, r := CellAt(stages, aligned, key, c.left), CellAt(stages, aligned, key, c.right);
    ComparedIs(p, stages, keys, results, aligned, key, c.left);
    ComparedIs(p, stages, keys, results, aligned, key, c.right);
    RefusesIff(host, c.op, l, r, error);
    SucceedsIff(host, c.op, l, r);
    assert Operands(p, stages, results, key, c, l, r);
    forall l', r' | Operands(p, stages, results, key, c, l', r') ensures l' == l && r' == r {
      SameMetric(p, stages, keys, results, aligned, key, c.left, l', l);
      SameMetric(p, stages, keys, results, aligned, key, c.right, r', r);
    }
  }

  lemma AlignedFit(p: Parsers, stages: seq<Stage>, keys: set<Key>, results: seq<Table>, aligned: seq<Aligned>)
    requires AllAligned(p, stages, keys, results, aligned)
    ensures ResultsFit(stages, results) && |aligned| == |stages|
  {
  }

  lemma SucceedsIff(host: (CompareOp, Cell, Cell) -> Cell, op: CompareOp, l: Cell, r: Cell)
    ensures Compare(host, op, l, r).Ok? <==> !NonNumeric(l, r) && !Incompatible(l, r) && !Nonfinite(l, r)
  {
    hide Compare;
    match Compare(host, op, l, r)
    case Err(error) => RefusesIff(host, op, l, r, error);
    case Ok(_) =>
      RefusesIff(host, op, l, r, NON_NUMERIC);
      RefusesIff(host, op, l, r, INCOMPATIBLE);
      RefusesIff(host, op, l, r, NONFINITE);
  }

  lemma {:induction false} ColumnFailsIff(
    p: Parsers, host: (CompareOp, Cell, Cell) -> Cell, stages: seq<Stage>, keys: set<Key>, results: seq<Table>, aligned: seq<Aligned>,
    members: seq<Member>, c: Comparison, error: string)
    requires AllAligned(p, stages, keys, results, aligned) && Refers(stages, c.left) && Refers(stages, c.right)
    requires HasMetric(stages, c.left) && HasMetric(stages, c.right)
    ensures var r := CompareMembers(host, stages, aligned, c, members);
            && (r == Err(error) <==> exists i: nat | i < |members| :: FailsAt(p, stages, results, members, c, i, error))
            && (r.Ok? <==> forall k | 0 <= k < |members| :: Succeeds(p, stages, results, members[k].key, c))
  {
    hide AlignedOf, WellShaped, Wide, CellAt, Compare, Refers, HasMetric, Raises, Succeeds;
    if members != [] {
      var n := |members| - 1;
      ColumnFailsIff(p, host, stages, keys, results, aligned, members[..n], c, error);
      MemberRaises(p, host, stages, keys, results, aligned, members[n].key, c, error);
      forall i: nat | i < n
        ensures FailsAt(p, stages, results, members[..n], c, i, error) <==> FailsAt(p, stages, results, members, c, i, error)
      {
        assert forall k | 0 <= k <= i :: members[..n][k] == members[k];
      }
      assert FailsAt(p, stages, results, members, c, n, error) <==>
             Raises(p, stages, results, members[n].key, c, error) && CompareMembers(host, stages, aligned, c, members[..n]).Ok?;
      hide FailsAt;
      if i: nat :| i < |members| && FailsAt(p, stages, results, members, c, i, error) && i < n {
        assert FailsAt(p, stages, results, members[..n], c, i, error);
      }
    }
  }

  lemma {:induction false} ComparisonFailsIff(
    p: Parsers, host: (CompareOp, Cell, Cell) -> Cell, stages: seq<Stage>, keys: set<Key>, results: seq<Table>, aligned: seq<Aligned>,
    members: seq<Member>, cs: seq<Comparison>, error: string)
    requires AllAligned(p, stages, keys, results, aligned) && forall c | c in cs :: Refers(stages, c.left) && Refers(stages, c.right)
    ensures var r := CompareAll(host, stages, aligned, cs, members);
            && (r == Err(error) <==> ComparisonFails(p, stages, results, members, cs, error))
            && (r.Ok? <==> forall k | 0 <= k < |cs| :: ColumnSucceeds(p, stages, results, members, cs[k]))
  {
    hide AlignedOf, WellShaped, Wide, Refers, HasMetric, IsMetric, Raises, Succeeds, FailsAt, CompareMembers;
    if cs != [] {
      var n := |cs| - 1;
      ComparisonFailsIff(p, host, stages, keys, results, aligned, members, cs[..n], error);
      MetricIs(stages, cs[n].left);
      MetricIs(stages, cs[n].right);
      if HasMetric(stages, cs[n].left) && HasMetric(stages, cs[n].right) {
        ColumnFailsIff(p, host, stages, keys, results, aligned, members, cs[n], error);
      }
    }
  }

  /** Once selection and measurements are accepted, a run fails iff some comparison does, with the failure of the first one. */
  lemma RunFailsIff(
    p: Parsers, host: (CompareOp, Cell, Cell) -> Cell, plan: Plan, source: Table, results: seq<Table>, members: seq<Member>, aligned: seq<Aligned>,
    error: string)
    requires Prepared(plan) && |results| == |plan.measurements| && SelectedOf(p, plan, source) == Ok(members) && members != []
    requires MeasureAll(p, plan.measurements, members, results) == Ok(aligned)
    ensures ResultsFit(plan.measurements, results)
    ensures RunOf(p, host, plan, source, results) == Err(error) <==>
            ComparisonFails(p, plan.measurements, results, members, plan.comparisons, error)
    ensures RunOf(p, host, plan, source, results).Ok? <==>
            forall j | 0 <= j < |plan.comparisons| :: ColumnSucceeds(p, plan.measurements, results, members, plan.comparisons[j])
  {
    hide AlignedOf, WellShaped, Wide, Refers, SelectedOf, MeasureAll, CompareAll, ColumnSucceeds, ComparisonFails, JoinAll, JoinedSoFar;
    MeasuredJoins(p, plan.measurements, members, results);
    ComparisonFailsIff(p, host, plan.measurements, Keys(members), results, aligned, members, plan.comparisons, error);
  }

  /** An accepted selection of no rows ends the run: no rows, nobody present and nothing counted in any measurement, whatever they return. */
  lemma NobodySelected(p: Parsers, host: (CompareOp, Cell, Cell) -> Cell, plan: Plan, source: Table, results: seq<Table>)
    requires Prepared(plan) && |results| == |plan.measurements| && source.columns == plan.source.columns && source.rows == []
    ensures RunOf(p, host, plan, source, results).Ok?
    ensures var o := RunOf(p, host, plan, source, results).value;
            o.rows == [] && |o.presence| == |o.coverage| == |results| && forall k | 0 <= k < |results| :: o.presence[k] == [] && o.coverage[k] == (0, 0)
  {
    hide WellShaped;
  }
}
