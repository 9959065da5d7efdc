/** What every output cell is. */
module CohortCells {

  import opened Wrappers
  import opened Sequences
  import opened Cohort
  import opened CohortComparison
  import opened CohortMeaning

  // ------------------------------------------------------- cells of the results

  /** A row's cell in the first column of a name. */
  ghost predicate ColumnCell(columns: seq<string>, row: seq<Cell>, name: string, cell: Cell) {
    exists x :: 0 <= x < |columns| && x < |row| && columns[x] == name && row[x] == cell && name !in columns[..x]
  }

  /** The cell of the measurement row with a typed key, NULL when there is none. */
  ghost predicate MeasuredCell(p: Parsers, s: Stage, rows: seq<seq<Cell>>, key: Key, name: string, cell: Cell)
    requires WellShaped(s) && Wide(rows, |s.columns|)
  {
    if HasRow(p, s, rows, key) then
      exists t :: 0 <= t < |rows| && KeyOf(p, s, rows[t], NULL_MEASURE) == Ok(key) && ColumnCell(s.columns, rows[t], name, cell)
    else cell == Null
  }

  ghost predicate HasRow(p: Parsers, s: Stage, rows: seq<seq<Cell>>, key: Key)
    requires WellShaped(s) && Wide(rows, |s.columns|)
  {
    exists t :: 0 <= t < |rows| && KeyOf(p, s, rows[t], NULL_MEASURE) == Ok(key)
  }

  /** A metric's cell in the measurement of its name. */
  ghost predicate MetricCell(p: Parsers, stages: seq<Stage>, results: seq<Table>, key: Key, m: Metric, cell: Cell)
    requires ResultsFit(stages, results)
  {
    exists k :: 0 <= k < |stages| && stages[k].name == m.measurement && (forall i | 0 <= i < k :: stages[i].name != m.measurement) &&
                m.column in stages[k].metrics && MeasuredCell(p, stages[k], results[k].rows, key, m.column, cell)
  }

  lemma PickedCell(row: seq<Cell>, columns: seq<string>, names: seq<string>, i: nat)
    requires |row| == |columns| && Declared(names, columns) && i < |names|
    ensures ColumnCell(columns, row, names[i], Pick(row, columns, names)[i])
  {
    var x := IndexOf(columns, names[i]);
    assert names[i] in columns;
    assert names[i] !in columns[..x];
  }

  /** The column at a position of a measurement's payload. */
  function ColumnAt(s: Stage, at: nat): string
    requires at < Width(s)
  {
    (s.attributes + s.metrics)[at]
  }

  lemma PayloadCell(s: Stage, row: seq<Cell>, at: nat)
    requires WellShaped(s) && |row| == |s.columns| && at < Width(s)
    ensures at < |Payload(s, row)| && ColumnCell(s.columns, row, ColumnAt(s, at), Payload(s, row)[at])
  {
    hide ColumnCell, Pick;
    if at < |s.attributes| {
      PickedCell(row, s.columns, s.attributes, at);
    } else {
      PickedCell(row, s.columns, s.metrics, at - |s.attributes|);
    }
  }

  lemma {:induction false} AlignedRows(p: Parsers, s: Stage, keys: set<Key>, rows: seq<seq<Cell>>, key: Key)
    requires WellShaped(s) && Wide(rows, |s.columns|) && AlignedOf(p, s, keys, rows).Ok?
    ensures key in AlignedOf(p, s, keys, rows).value ==>
              exists t :: 0 <= t < |rows| && KeyOf(p, s, rows[t], NULL_MEASURE) == Ok(key) &&
                          AlignedOf(p, s, keys, rows).value[key] == Payload(s, rows[t])
    ensures key !in AlignedOf(p, s, keys, rows).value ==> !HasRow(p, s, rows, key)
  {
    hide KeyOf, WellShaped, Payload;
    if rows != [] {
      var n := |rows| - 1;
      AlignedRows(p, s, keys, rows[..n], key);
      if key in AlignedOf(p, s, keys, rows[..n]).value {
        var t :| 0 <= t < n && KeyOf(p, s, rows[..n][t], NULL_MEASURE) == Ok(key) &&
                 AlignedOf(p, s, keys, rows[..n]).value[key] == Payload(s, rows[..n][t]);
        assert rows[t] == rows[..n][t];
      } else {
        forall t | 0 <= t < n ensures KeyOf(p, s, rows[t], NULL_MEASURE) != Ok(key) {
          assert rows[..n][t] == rows[t];
        }
      }
    }
  }

  lemma AlignedCell(p: Parsers, s: Stage, keys: set<Key>, rows: seq<seq<Cell>>, key: Key, at: nat)
    requires WellShaped(s) && Wide(rows, |s.columns|) && AlignedOf(p, s, keys, rows).Ok? && at < Width(s)
    ensures var a := AlignedOf(p, s, keys, rows).value;
            if key in a then at < |a[key]| && MeasuredCell(p, s, rows, key, ColumnAt(s, at), a[key][at])
            else MeasuredCell(p, s, rows, key, ColumnAt(s, at), Null)
  {
    hide KeyOf, WellShaped, Payload, AlignedOf, Width, ColumnAt, ColumnCell;
    AlignedRows(p, s, keys, rows, key);
    var a := AlignedOf(p, s, keys, rows).value;
    if key in a {
      var t :| 0 <= t < |rows| && KeyOf(p, s, rows[t], NULL_MEASURE) == Ok(key) && a[key] == Payload(s, rows[t]);
      PayloadCell(s, rows[t], at);
    }
  }

  lemma {:induction false} FirstStage(stages: seq<Stage>, name: string)
    requires exists s :: s in stages && s.name == name
    ensures forall i | 0 <= i < StageNamed(stages, name) :: stages[i].name != name
  {
    if stages[0].name != name {
      assert stages == [stages[0]] + stages[1..];
      FirstStage(stages[1..], name);
      assert forall i | 1 <= i < StageNamed(stages, name) :: stages[i] == stages[1..][i - 1];
    }
  }

  /** The measurements were aligned. */
  predicate AllAligned(p: Parsers, stages: seq<Stage>, keys: set<Key>, results: seq<Table>, aligned: seq<Aligned>) {
    ResultsFit(stages, results) && |aligned| == |stages| &&
    forall k | 0 <= k < |stages| :: AlignedOf(p, stages[k], keys, results[k].rows) == Ok(aligned[k])
  }

  lemma ComparedIs(p: Parsers, stages: seq<Stage>, keys: set<Key>, results: seq<Table>, aligned: seq<Aligned>, key: Key, m: Metric)
    requires AllAligned(p, stages, keys, results, aligned) && Refers(stages, m) && HasMetric(stages, m)
    ensures MetricCell(p, stages, results, key, m, CellAt(stages, aligned, key, m))
  {
    hide AlignedOf, WellShaped, Wide, MeasuredCell;
    var k := StageNamed(stages, m.measurement);
    var at := MetricAt(stages[k], m.column);
    FirstStage(stages, m.measurement);
    AlignedCell(p, stages[k], keys, results[k].rows, key, at);
  }

  // ------------------------------------------------------------- the computed cells

  /** Accepted runs, down to the aligned rows. */
  lemma RunAligned(p: Parsers, host: (CompareOp, Cell, Cell) -> Cell, plan: Plan, source: Table, results: seq<Table>)
    returns (members: seq<Member>, aligned: seq<Aligned>)
    requires Prepared(plan) && |results| == |plan.measurements| && RunOf(p, host, plan, source, results).Ok? && source.rows != []
    ensures SelectedOf(p, plan, source) == Ok(members) && |members| == |source.rows| && (forall i | 0 <= i < |members| :: MemberFits(plan, members[i]))
    ensures AllAligned(p, plan.measurements, Keys(members), results, aligned) && Uniform(plan.measurements, aligned)
    ensures CompareAll(host, plan.measurements, aligned, plan.comparisons, members).Ok?
    ensures RunOf(p, host, plan, source, results).value.rows ==
            OutputRows(plan.measurements, aligned, CompareAll(host, plan.measurements, aligned, plan.comparisons, members).value, members)
  {
    hide MeasureAll, CompareAll, SelectedOf, WellShaped, OutputRow, AlignedOf, JoinAll, JoinedSoFar;
    members := SelectedOf(p, plan, source).value;
    SelectedFits(p, plan, source);
    aligned := MeasureAll(p, plan.measurements, members, results).value;
    MeasuredJoins(p, plan.measurements, members, results);
    MeasuredUniform(p, plan.measurements, members, results);
  }

  /** A computed cell of a member: the two metrics it names, in the order left, right. */
  ghost predicate ComputedCell(
    p: Parsers, host: (CompareOp, Cell, Cell) -> Cell, stages: seq<Stage>, results: seq<Table>, key: Key, c: Comparison, out: Cell)
    requires ResultsFit(stages, results)
  {
    exists l, r :: MetricCell(p, stages, results, key, c.left, l) && MetricCell(p, stages, results, key, c.right, r) &&
                   Computes(host, c.op, l, r, out)
  }

  /** The last cells of an output row are its comparisons. */
  lemma ComputedCells(p: Parsers, host: (CompareOp, Cell, Cell) -> Cell, plan: Plan, source: Table, results: seq<Table>, i: nat, j: nat)
    requires Prepared(plan) && |results| == |plan.measurements| && RunOf(p, host, plan, source, results).Ok?
    requires i < |source.rows| && j < |plan.comparisons|
    ensures ResultsFit(plan.measurements, results) && WellShaped(plan.source) && |source.rows[i]| == |plan.source.columns|
    ensures var o, n := RunOf(p, host, plan, source, results).value, |plan.comparisons|;
            i < |o.rows| && |o.rows[i]| >= n &&
            exists key :: KeyOf(p, plan.source, source.rows[i], NULL_MEMBER) == Ok(key) &&
                          ComputedCell(p, host, plan.measurements, results, key, plan.comparisons[j], o.rows[i][|o.rows[i]| - n + j])
  {
    hide WellShaped, OutputRow, AlignedOf, CompareAll, CellAt, Computes, MetricCell, Compare, KeyOf, ComputedCell, Refers, HasMetric;
    var members, aligned := RunAligned(p, host, plan, source, results);
    SourceKeys(p, plan, source, i);
    var computed := CompareAll(host, plan.measurements, aligned, plan.comparisons, members).value;
    ComparedColumns(host, plan.measurements, aligned, plan.comparisons, members);
    var c, key := plan.comparisons[j], members[i].key;
    assert Refers(plan.measurements, c.left) && Refers(plan.measurements, c.right);
    ComparedIs(p, plan.measurements, Keys(members), results, aligned, key, c.left);
    ComparedIs(p, plan.measurements, Keys(members), results, aligned, key, c.right);
    var l, r := CellAt(plan.measurements, aligned, key, c.left), CellAt(plan.measurements, aligned, key, c.right);
    ComputedIs(host, c.op, l, r, computed[j][i]);
    assert ComputedCell(p, host, plan.measurements, results, key, c, computed[j][i]) by { CellComputed(p, host, plan.measurements, results, key, c, l, r, computed[j][i]); }
    LastCells(plan.measurements, aligned, computed, members, i, j);
  }

  lemma CellComputed(
    p: Parsers, host: (CompareOp, Cell, Cell) -> Cell, stages: seq<Stage>, results: seq<Table>, key: Key, c: Comparison, l: Cell, r: Cell, out: Cell)
    requires ResultsFit(stages, results)
    requires MetricCell(p, stages, results, key, c.left, l) && MetricCell(p, stages, results, key, c.right, r) && Computes(host, c.op, l, r, out)
    ensures ComputedCell(p, host, stages, results, key, c, out)
  {
  }

  lemma LastCells(stages: seq<Stage>, aligned: seq<Aligned>, computed: seq<seq<Cell>>, members: seq<Member>, i: nat, j: nat)
    requires |aligned| == |stages| && i < |members| && (forall k | 0 <= k < |computed| :: |computed[k]| == |members|) && j < |computed|
    ensures var row := OutputRow(stages, aligned, computed, members, i);
            |row| >= |computed| && row[|row| - |computed| + j] == computed[j][i]
  {
  }

  lemma SourceKeys(p: Parsers, plan: Plan, source: Table, i: nat)
    requires Prepared(plan) && SelectedOf(p, plan, source).Ok? && i < |source.rows|
    ensures WellShaped(plan.source) && |source.rows[i]| == |plan.source.columns|
    ensures var ms := SelectedOf(p, plan, source).value;
            i < |ms| && KeyOf(p, plan.source, source.rows[i], NULL_MEMBER) == Ok(ms[i].key) && ms[i] == MemberOf(plan.source, source.rows[i], ms[i].key)
  {
    hide KeyOf, WellShaped, MemberOf, MembersOf;
    MembersAreRows(p, plan.source, source.rows);
  }

  // ---------------------------------------------------------- the copied cells

  /** The first cells are the keys and attributes of the selected row. */
  ghost predicate CopiesSelected(s: Stage, selected: seq<Cell>, row: seq<Cell>) {
    var names := s.keys + s.attributes;
    |row| >= |names| && forall x | 0 <= x < |names| :: ColumnCell(s.columns, selected, names[x], row[x])
  }

  /** A measurement's columns, from a position of the output row. */
  ghost predicate CopiesMeasured(p: Parsers, s: Stage, rows: seq<seq<Cell>>, key: Key, row: seq<Cell>, from: nat)
    requires WellShaped(s) && Wide(rows, |s.columns|)
  {
    |row| >= from + Width(s) && forall x | 0 <= x < Width(s) :: MeasuredCell(p, s, rows, key, ColumnAt(s, x), row[from + x])
  }

  /** The cells before the comparisons: keys and attributes of the selected row, then each measurement's columns. */
  ghost predicate CopiesCells(p: Parsers, plan: Plan, selected: seq<Cell>, results: seq<Table>, key: Key, row: seq<Cell>)
    requires ResultsFit(plan.measurements, results)
  {
    && |row| == Computing(plan) + |plan.comparisons| && CopiesSelected(plan.source, selected, row)
    && forall k | 0 <= k < |plan.measurements| ::
         CopiesMeasured(p, plan.measurements[k], results[k].rows, key, row,
                        |plan.source.keys| + |plan.source.attributes| + Before(plan.measurements, k))
  }

  lemma CopiedCells(p: Parsers, host: (CompareOp, Cell, Cell) -> Cell, plan: Plan, source: Table, results: seq<Table>, i: nat)
    requires Prepared(plan) && |results| == |plan.measurements| && RunOf(p, host, plan, source, results).Ok? && i < |source.rows|
    ensures ResultsFit(plan.measurements, results) && WellShaped(plan.source) && |source.rows[i]| == |plan.source.columns|
    ensures var o := RunOf(p, host, plan, source, results).value;
            i < |o.rows| &&
            exists key :: KeyOf(p, plan.source, source.rows[i], NULL_MEMBER) == Ok(key) &&
                          CopiesCells(p, plan, source.rows[i], results, key, o.rows[i])
  {
    hide WellShaped, OutputRow, AlignedOf, CompareAll, KeyOf, CopiesCells, Pick, MemberFits;
    var members, aligned := RunAligned(p, host, plan, source, results);
    SourceKeys(p, plan, source, i);
    var computed := CompareAll(host, plan.measurements, aligned, plan.comparisons, members).value;
    RowCopies(p, plan, source.rows[i], members, results, aligned, computed, i);
  }

  lemma RowCopies(
    p: Parsers, plan: Plan, selected: seq<Cell>, members: seq<Member>, results: seq<Table>, aligned: seq<Aligned>, computed: seq<seq<Cell>>, i: nat)
    requires Prepared(plan) && AllAligned(p, plan.measurements, Keys(members), results, aligned) && Uniform(plan.measurements, aligned)
    requires |computed| == |plan.comparisons| && (forall j | 0 <= j < |computed| :: |computed[j]| == |members|)
    requires i < |members| && MemberFits(plan, members[i])
    requires WellShaped(plan.source) && |selected| == |plan.source.columns| && members[i] == MemberOf(plan.source, selected, members[i].key)
    ensures CopiesCells(p, plan, selected, results, members[i].key, OutputRow(plan.measurements, aligned, computed, members, i))
  {
    hide AlignedOf, Payloads, Uniform, CopiesMeasured, CopiesSelected, Wide, Width, KeyOf, WellShaped, MemberOf, Computing;
    var key, row := members[i].key, OutputRow(plan.measurements, aligned, computed, members, i);
    RowLength(plan, aligned, members[i], Computed(computed, i));
    SelectedCopied(plan.source, selected, members[i], row);
    forall k | 0 <= k < |plan.measurements|
      ensures CopiesMeasured(p, plan.measurements[k], results[k].rows, key, row,
                             |plan.source.keys| + |plan.source.attributes| + Before(plan.measurements, k))
    {
      MeasurementCopied(p, plan, members, results, aligned, members[i], row, k);
    }
  }

  lemma SelectedCopied(s: Stage, selected: seq<Cell>, m: Member, row: seq<Cell>)
    requires WellShaped(s) && |selected| == |s.columns| && m == MemberOf(s, selected, m.key) && m.values + m.attributes <= row
    ensures CopiesSelected(s, selected, row)
  {
    hide ColumnCell, Pick;
    forall x | 0 <= x < |s.keys + s.attributes| ensures ColumnCell(s.columns, selected, (s.keys + s.attributes)[x], row[x]) {
      SelectedCell(s, selected, m.key, x);
    }
  }

  lemma MeasurementCopied(
    p: Parsers, plan: Plan, members: seq<Member>, results: seq<Table>, aligned: seq<Aligned>, m: Member, row: seq<Cell>, k: nat)
    requires AllAligned(p, plan.measurements, Keys(members), results, aligned) && Uniform(plan.measurements, aligned)
    requires k < |plan.measurements| && MemberFits(plan, m)
    requires m.values + m.attributes + Payloads(plan.measurements, aligned, m.key) <= row
    ensures CopiesMeasured(p, plan.measurements[k], results[k].rows, m.key, row,
                           |plan.source.keys| + |plan.source.attributes| + Before(plan.measurements, k))
  {
    hide AlignedOf, Payloads, Uniform, ColumnCell, MeasuredCell, Width, ColumnAt, KeyOf, WellShaped, Wide;
    var s, from := plan.measurements[k], |plan.source.keys| + |plan.source.attributes| + Before(plan.measurements, k);
    PayloadsWidth(plan.measurements, aligned, m.key);
    BeforeGrows(plan.measurements, k, |plan.measurements|);
    forall x | 0 <= x < Width(s) ensures MeasuredCell(p, s, results[k].rows, m.key, ColumnAt(s, x), row[from + x]) {
      PayloadsAt(plan.measurements, aligned, m.key, k, x);
      AlignedCell(p, s, Keys(members), results[k].rows, m.key, x);
    }
  }

  lemma SelectedCell(s: Stage, row: seq<Cell>, key: Key, x: nat)
    requires WellShaped(s) && |row| == |s.columns| && x < |s.keys + s.attributes|
    ensures var m := MemberOf(s, row, key); ColumnCell(s.columns, row, (s.keys + s.attributes)[x], (m.values + m.attributes)[x])
  {
    hide ColumnCell, Pick;
    if x < |s.keys| {
      PickedCell(row, s.columns, s.keys, x);
    } else {
      PickedCell(row, s.columns, s.attributes, x - |s.keys|);
    }
  }
}
