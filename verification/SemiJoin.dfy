/** Staged execution of a semi-join, against SQL's own membership. */
module SemiJoin {

  /*
    Each inner query runs first, its key column becomes a list of values, and the
    lists filter the outer query as IN and NOT IN tests.  The reference meaning is
    SQL's three-valued membership in the inner column itself.
  */

  import opened Wrappers
  import opened Spec
  import opened Sequences
  import Cnf

  type Cell = Option<Value>

  datatype Table = Table(columns: seq<string>, rows: seq<seq<Cell>>)

  /** Every row is as wide as the declared columns, and the column is one of them. */
  predicate HasColumn(t: Table, column: string) {
    column in t.columns && forall row | row in t.rows :: |row| == |t.columns|
  }

  // ------------------------------------------------------ membership in SQL

  function Same(a: Cell, b: Cell): Cnf.Kleene {
    if a.None? || b.None? then Cnf.Unknown else if a == b then Cnf.True else Cnf.False
  }

  /** `a IN (c1, ..., cn)`: the disjunction of the equalities. */
  function SqlIn(a: Cell, cells: seq<Cell>): Cnf.Kleene {
    if cells == [] then Cnf.False else Cnf.Max(Same(a, cells[0]), SqlIn(a, cells[1..]))
  }

  function SqlNotIn(a: Cell, cells: seq<Cell>): Cnf.Kleene {
    Cnf.Negate(SqlIn(a, cells))
  }

  lemma {:induction false} SqlInCases(a: Cell, cells: seq<Cell>)
    ensures SqlIn(a, cells) == Cnf.True <==> a.Some? && a in cells
    ensures SqlIn(a, cells) == Cnf.False <==> cells == [] || (a.Some? && a !in cells && None !in cells)
  {
    if cells != [] {
      SqlInCases(a, cells[1..]);
      assert cells == [cells[0]] + cells[1..];
    }
  }

  // ------------------------------------------------------- projecting a column

  /** The cells of a column, top to bottom. */
  function Column(t: Table, column: string): (cells: seq<Cell>)
    requires HasColumn(t, column)
    ensures |cells| == |t.rows|
  {
    seq(|t.rows|, i requires 0 <= i < |t.rows| => t.rows[i][IndexOf(t.columns, column)])
  }

  /** The values present, each once, in order of first appearance. */
  function Values(cells: seq<Cell>): seq<Value> {
    if cells == [] then [] else
      var n := |cells| - 1;
      var before := Values(cells[..n]);
      if cells[n].None? || cells[n].value in before then before else before + [cells[n].value]
  }

  lemma {:induction false} ValuesExact(cells: seq<Cell>)
    ensures forall v :: v in Values(cells) <==> Some(v) in cells
    ensures Distinct(Values(cells))
  {
    if cells != [] {
      var n := |cells| - 1;
      ValuesExact(cells[..n]);
      assert cells == cells[..n] + [cells[n]];
    }
  }

  method ProjectValues(result: Table, column: string) returns (out: seq<Value>)
    requires HasColumn(result, column)
    ensures out == Values(Column(result, column))
  {
    var index := IndexOf(result.columns, column);
    ghost var cells := Column(result, column);
    var seen: set<Value> := {};
    out := [];
    for i := 0 to |result.rows|
      invariant out == Values(cells[..i]) && forall v :: v in seen <==> v in out
    {
      assert cells[..i + 1][..i] == cells[..i];
      var v := result.rows[i][index];
      if v.None? || v.value in seen {
        continue;
      }
      seen := seen + {v.value};
      out := out + [v.value];
    }
    assert cells[..|result.rows|] == cells;
  }

  // ------------------------------------------------------------- the stages

  datatype Membership = Among | NotAmong

  /** Fold one inner result's column into a test on an outer dimension. */
  datatype Binding = Binding(dimension: string, op: Membership, column: string)

  function BoundFilter(b: Binding, values: seq<Value>): Filter {
    Filter(b.dimension, if b.op == Among then In else NotIn, values)
  }

  /** One inner plan's result, as the engine returned it, with its binding. */
  datatype Stage = Stage(result: Table, binding: Binding)

  predicate Fits(s: Stage) {
    HasColumn(s.result, s.binding.column)
  }

  predicate AllFit(stages: seq<Stage>) {
    forall s | s in stages :: Fits(s)
  }

  function KeyColumn(s: Stage): seq<Cell>
    requires Fits(s)
  {
    Column(s.result, s.binding.column)
  }

  /** An empty IN list ends the run, an empty NOT IN list adds no filter. */
  function Fold(before: Option<seq<Filter>>, s: Stage): Option<seq<Filter>>
    requires Fits(s)
  {
    var values := Values(KeyColumn(s));
    if before.None? || (values == [] && s.binding.op == Among) then None
    else if values == [] then before
    else Some(before.value + [BoundFilter(s.binding, values)])
  }

  /** The filters the lists become, or nothing when an IN list is empty. */
  function Bound(stages: seq<Stage>): Option<seq<Filter>>
    requires AllFit(stages)
  {
    if stages == [] then Some([]) else Fold(Bound(stages[..|stages| - 1]), stages[|stages| - 1])
  }

  /** `outer` binds the filters to the outer query and runs it. */
  method RunSemiJoin<R>(stages: seq<Stage>, outer: seq<Filter> -> seq<R>) returns (rows: seq<R>)
    requires AllFit(stages)
    ensures rows == match Bound(stages) case None => [] case Some(filters) => outer(filters)
  {
    hide HasColumn, Values, KeyColumn;
    var filters: seq<Filter> := [];
    for i := 0 to |stages|
      invariant Bound(stages[..i]) == Some(filters)
    {
      assert stages[..i + 1][..i] == stages[..i];
      var s := stages[i];
      var values := ProjectColumn(s);
      if values == [] {
        if s.binding.op == Among {
          NoneStays(stages, i + 1);
          return [];
        }
        continue;
      }
      filters := filters + [BoundFilter(s.binding, values)];
    }
    assert stages[..|stages|] == stages;
    return outer(filters);
  }

  method ProjectColumn(s: Stage) returns (values: seq<Value>)
    requires Fits(s)
    ensures values == Values(KeyColumn(s))
  {
    values := ProjectValues(s.result, s.binding.column);
  }

  /** Once a list is empty, later stages change nothing. */
  lemma {:induction false} NoneStays(stages: seq<Stage>, i: nat)
    requires AllFit(stages) && i <= |stages| && Bound(stages[..i]).None?
    ensures Bound(stages).None?
    decreases |stages|
  {
    hide Fits, Values;
    if i == |stages| {
      assert stages[..i] == stages;
    } else {
      var n := |stages| - 1;
      assert stages[..n][..i] == stages[..i];
      NoneStays(stages[..n], i);
    }
  }

  // ---------------------------------------------------------------- meaning

  /** A row of the outer fragment, by qualified reference. */
  type Row = map<string, Cell>

  function Get(row: Row, reference: string): Cell {
    if reference in row then row[reference] else None
  }

  function Cells(values: seq<Value>): (cells: seq<Cell>)
    ensures |cells| == |values| && forall i | 0 <= i < |values| :: cells[i] == Some(values[i])
  {
    seq(|values|, i requires 0 <= i < |values| => Some(values[i]))
  }

  /** A filter's truth on a row; membership is SQL's, other operators are the backend's. */
  function TruthOf(eval: (Filter, Row) -> Cnf.Kleene, f: Filter, row: Row): Cnf.Kleene {
    match f.op
    case In => SqlIn(Get(row, f.dimension), Cells(f.values))
    case NotIn => SqlNotIn(Get(row, f.dimension), Cells(f.values))
    case _ => eval(f, row)
  }

  predicate AllTrue(eval: (Filter, Row) -> Cnf.Kleene, fs: seq<Filter>, row: Row) {
    forall f | f in fs :: TruthOf(eval, f, row) == Cnf.True
  }

  /** WHERE: the rows on which every filter is true, in order. */
  function Kept(eval: (Filter, Row) -> Cnf.Kleene, fs: seq<Filter>, rows: seq<Row>): seq<Row> {
    if rows == [] then []
    else if AllTrue(eval, fs, rows[0]) then [rows[0]] + Kept(eval, fs, rows[1..])
    else Kept(eval, fs, rows[1..])
  }

  /** What a bound list keeps: IN needs a matching cell; NOT IN none, and a value of its own unless the list is empty. */
  predicate Passes(cell: Cell, op: Membership, column: seq<Cell>) {
    match op
    case Among => cell.Some? && cell in column
    case NotAmong => (forall c | c in column :: c.None?) || (cell.Some? && cell !in column)
  }

  predicate PassesStage(row: Row, s: Stage)
    requires Fits(s)
  {
    Passes(Get(row, s.binding.dimension), s.binding.op, KeyColumn(s))
  }

  predicate PassesAll(row: Row, stages: seq<Stage>)
    requires AllFit(stages)
  {
    forall s | s in stages :: PassesStage(row, s)
  }

  lemma CellsHold(values: seq<Value>, cell: Cell)
    ensures None !in Cells(values)
    ensures cell in Cells(values) <==> cell.Some? && cell.value in values
  {
    if cell.Some? && cell.value in values {
      var i :| 0 <= i < |values| && values[i] == cell.value;
      assert Cells(values)[i] == cell;
    }
  }

  /** A non-empty list tests exactly what it should; an empty one needs its own rule. */
  lemma BoundFilterExact(eval: (Filter, Row) -> Cnf.Kleene, b: Binding, column: seq<Cell>, row: Row)
    ensures Values(column) != [] ==>
              (TruthOf(eval, BoundFilter(b, Values(column)), row) == Cnf.True <==> Passes(Get(row, b.dimension), b.op, column))
    ensures Values(column) == [] ==> (Passes(Get(row, b.dimension), b.op, column) <==> b.op == NotAmong)
  {
    var cell, values := Get(row, b.dimension), Values(column);
    ValuesExact(column);
    assert forall c | c in column :: c.Some? ==> c.value in values;
    CellsHold(values, cell);
    SqlInCases(cell, Cells(values));
    if values != [] {
      assert Some(values[0]) in column;
    }
  }

  lemma StageExact(eval: (Filter, Row) -> Cnf.Kleene, before: seq<Filter>, s: Stage, row: Row)
    requires Fits(s)
    ensures Fold(Some(before), s).None? ==> !PassesStage(row, s)
    ensures Fold(Some(before), s).Some? ==>
              (AllTrue(eval, Fold(Some(before), s).value, row) <==> AllTrue(eval, before, row) && PassesStage(row, s))
  {
    hide Passes, Values, TruthOf, AllTrue, HasColumn, Column;
    BoundFilterExact(eval, s.binding, KeyColumn(s), row);
    var f := BoundFilter(s.binding, Values(KeyColumn(s)));
    AllTrueAppend(eval, before, [f], row);
    assert AllTrue(eval, [f], row) <==> TruthOf(eval, f, row) == Cnf.True by { AllTrueOne(eval, f, row); }
  }

  lemma AllTrueOne(eval: (Filter, Row) -> Cnf.Kleene, f: Filter, row: Row)
    ensures AllTrue(eval, [f], row) <==> TruthOf(eval, f, row) == Cnf.True
  {
    hide TruthOf;
    assert f in [f];
  }

  /** The staged run keeps a row exactly when it passes every inner column. */
  lemma {:induction false} BoundExact(eval: (Filter, Row) -> Cnf.Kleene, stages: seq<Stage>, row: Row)
    requires AllFit(stages)
    ensures Bound(stages).None? ==> !PassesAll(row, stages)
    ensures Bound(stages).Some? ==> (AllTrue(eval, Bound(stages).value, row) <==> PassesAll(row, stages))
  {
    hide PassesStage, Fits, TruthOf, Fold;
    if stages != [] {
      var n := |stages| - 1;
      BoundExact(eval, stages[..n], row);
      assert PassesAll(row, stages) <==> PassesAll(row, stages[..n]) && PassesStage(row, stages[n]) by {
        assert stages == stages[..n] + [stages[n]];
      }
      if Bound(stages[..n]).Some? {
        StageExact(eval, Bound(stages[..n]).value, stages[n], row);
      } else {
        assert Bound(stages).None? by { FoldNone(stages[n]); }
      }
    }
  }

  lemma FoldNone(s: Stage)
    requires Fits(s)
    ensures Fold(None, s) == None
  {
  }

  /** The rows that satisfy the residual filters and pass every inner column. */
  function Surviving(eval: (Filter, Row) -> Cnf.Kleene, residual: seq<Filter>, stages: seq<Stage>, rows: seq<Row>): seq<Row>
    requires AllFit(stages)
  {
    if rows == [] then [] else
      var rest := Surviving(eval, residual, stages, rows[1..]);
      if AllTrue(eval, residual, rows[0]) && PassesAll(rows[0], stages) then [rows[0]] + rest else rest
  }

  lemma {:induction false} KeptIsSurviving(eval: (Filter, Row) -> Cnf.Kleene, residual: seq<Filter>, stages: seq<Stage>, rows: seq<Row>)
    requires AllFit(stages)
    ensures Surviving(eval, residual, stages, rows) ==
            match Bound(stages) case None => [] case Some(fs) => Kept(eval, residual + fs, rows)
  {
    hide AllTrue, PassesAll, Bound;
    if rows != [] {
      KeptIsSurviving(eval, residual, stages, rows[1..]);
      BoundExact(eval, stages, rows[0]);
      if Bound(stages).Some? {
        AllTrueAppend(eval, residual, Bound(stages).value, rows[0]);
      }
    }
  }

  lemma AllTrueAppend(eval: (Filter, Row) -> Cnf.Kleene, fs: seq<Filter>, gs: seq<Filter>, row: Row)
    ensures AllTrue(eval, fs + gs, row) <==> AllTrue(eval, fs, row) && AllTrue(eval, gs, row)
  {
    hide TruthOf;
    if AllTrue(eval, fs + gs, row) {
      forall f | f in fs ensures TruthOf(eval, f, row) == Cnf.True {
        assert f in fs + gs;
      }
      forall g | g in gs ensures TruthOf(eval, g, row) == Cnf.True {
        assert g in fs + gs;
      }
    }
  }

  /** An IN list is empty: its column has no value. */
  predicate Starved(stages: seq<Stage>)
    requires AllFit(stages)
  {
    exists s | s in stages :: s.binding.op == Among && forall c | c in KeyColumn(s) :: c.None?
  }

  lemma {:induction false} BoundNoneIff(stages: seq<Stage>)
    requires AllFit(stages)
    ensures Bound(stages).None? <==> Starved(stages)
  {
    hide Fits, Values, Column, HasColumn;
    if stages != [] {
      var n := |stages| - 1;
      BoundNoneIff(stages[..n]);
      assert stages == stages[..n] + [stages[n]];
      NoValuesIff(KeyColumn(stages[n]));
    }
  }

  lemma NoValuesIff(column: seq<Cell>)
    ensures Values(column) == [] <==> forall c | c in column :: c.None?
  {
    ValuesExact(column);
    if Values(column) != [] {
      assert Values(column)[0] in Values(column);
    }
  }

  /**
    A staged run delivers what the query delivers on exactly the surviving
    rows, unless an IN list is empty and the query, like a scalar aggregate,
    has something to deliver on no rows: then it delivers nothing.
  */
  method RunStages<R>(eval: (Filter, Row) -> Cnf.Kleene, residual: seq<Filter>, stages: seq<Stage>, rows: seq<Row>,
                      deliver: seq<Row> -> seq<R>) returns (out: seq<R>)
    requires AllFit(stages)
    ensures out == if Starved(stages) then [] else deliver(Surviving(eval, residual, stages, rows))
    ensures out == deliver(Surviving(eval, residual, stages, rows)) <==> !Starved(stages) || deliver([]) == []
  {
    hide Starved;
    KeptIsSurviving(eval, residual, stages, rows);
    BoundNoneIff(stages);
    out := RunSemiJoin(stages, filters => deliver(Kept(eval, residual + filters, rows)));
  }

  // -------------------------------------------------------- NULLs in the column

  /** IN keeps what SQL's IN over the inner column keeps, NULLs and empty columns included. */
  lemma InMatchesSql(cell: Cell, column: seq<Cell>)
    ensures Passes(cell, Among, column) <==> SqlIn(cell, column) == Cnf.True
  {
    SqlInCases(cell, column);
  }

  /** A text longer than every text of the column. */
  function Outsider(column: seq<Cell>): Value {
    Text(seq(LongestText(column) + 1, _ => 'x'))
  }

  function LongestText(column: seq<Cell>): (n: nat)
    ensures forall c | c in column && c.Some? && c.value.Text? :: |c.value.text| <= n
  {
    if column == [] then 0 else
      var rest := LongestText(column[1..]);
      assert column == [column[0]] + column[1..];
      if column[0].Some? && column[0].value.Text? && |column[0].value.text| > rest then |column[0].value.text| else rest
  }

  /**
    NOT IN keeps what SQL's NOT IN over the inner column keeps, for every cell,
    exactly when the column holds no NULL: the list drops NULLs, SQL does not.
  */
  lemma NotInMatchesSqlIff(column: seq<Cell>)
    ensures (forall cell :: Passes(cell, NotAmong, column) <==> SqlNotIn(cell, column) == Cnf.True) <==> None !in column
  {
    forall cell ensures SqlNotIn(cell, column) == Cnf.True <==> column == [] || (cell.Some? && cell !in column && None !in column) {
      SqlInCases(cell, column);
    }
    if None !in column {
      assert (forall c | c in column :: c.None?) ==> column == [] by {
        if column != [] {
          assert column[0] in column;
        }
      }
    } else {
      var cell := Some(Outsider(column));
      assert cell !in column;
      assert Passes(cell, NotAmong, column) && SqlNotIn(cell, column) != Cnf.True;
    }
  }
}
