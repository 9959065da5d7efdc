/** The bridge merge. */
module BridgeMerge {

  /*
    The other way to answer a query that filters cubes of another backend: every
    backend runs a fragment, and the fragments are joined on their bridge keys.
    By default fragments are grouped and totals are added up after the join; in
    raw-rows mode fragments are plain rows.
  */

  import opened Sequences
  import opened Wrappers
  import opened Spec
  import opened AutoPlan
  import opened SemiJoin
  import opened AutoPlanMeaning
  import opened MergeJoins
  import opened MergePlanned
  import Cnf

  /** What a row adds to a total; NULL adds nothing. */
  type Term = Row -> Option<int>

  /** The measures a merge can add up. */
  datatype Measure = Sum(term: Term) | Count(counted: Row -> bool) | Average(term: Term)

  /** A count adds one or zero for every row. */
  function CountTerm(counted: Row -> bool): Term {
    row => Some(if counted(row) then 1 else 0)
  }

  function Present(term: Term): Row -> bool {
    row => term(row).Some?
  }

  // ------------------------------------------------------------------ fragments

  function KeyList(j: SemiJoinSpec, rows: seq<Row>): seq<Cell> {
    if rows == [] then [] else [Get(rows[0], j.select)] + KeyList(j, rows[1..])
  }

  /** The rows a foreign fragment streams in raw-rows mode, by key. */
  function RawFragment(eval: Eval, j: SemiJoinSpec, table: seq<Row>): seq<Cell> {
    KeyList(j, Kept(eval, j.source, table))
  }

  /** By default the fragment is grouped by its only dimension, the key. */
  function Fragment(eval: Eval, j: SemiJoinSpec, table: seq<Row>): seq<Cell> {
    Dedup(RawFragment(eval, j, table))
  }

  function Fragments(eval: Eval, joins: seq<SemiJoinSpec>, tables: seq<seq<Row>>): (fs: seq<seq<Cell>>)
    requires |joins| == |tables|
    ensures |fs| == |joins| && forall i | 0 <= i < |fs| :: fs[i] == Fragment(eval, joins[i], tables[i])
  {
    seq(|joins|, i requires 0 <= i < |joins| => Fragment(eval, joins[i], tables[i]))
  }

  function RawFragments(eval: Eval, joins: seq<SemiJoinSpec>, tables: seq<seq<Row>>): (fs: seq<seq<Cell>>)
    requires |joins| == |tables|
    ensures |fs| == |joins| && forall i | 0 <= i < |fs| :: fs[i] == RawFragment(eval, joins[i], tables[i])
  {
    seq(|joins|, i requires 0 <= i < |joins| => RawFragment(eval, joins[i], tables[i]))
  }

  function CellsAt(references: seq<string>, row: Row): (cells: seq<Cell>)
    ensures |cells| == |references| && forall i | 0 <= i < |cells| :: cells[i] == Get(row, references[i])
  {
    seq(|references|, i requires 0 <= i < |references| => Get(row, references[i]))
  }

  function BridgeKeys(joins: seq<SemiJoinSpec>, row: Row): (keys: seq<Cell>)
    ensures |keys| == |joins| && forall i | 0 <= i < |keys| :: keys[i] == Get(row, joins[i].dimension)
  {
    seq(|joins|, i requires 0 <= i < |joins| => Get(row, joins[i].dimension))
  }

  /** The primary fragment groups by the output dimensions and the bridge keys. */
  datatype Group = Group(dimensions: seq<Cell>, keys: seq<Cell>)

  datatype Shape = Shape(dimensions: seq<string>, joins: seq<SemiJoinSpec>)

  function GroupOf(sh: Shape, row: Row): Group {
    Group(CellsAt(sh.dimensions, row), BridgeKeys(sh.joins, row))
  }

  function GroupsOf(sh: Shape, rows: seq<Row>): seq<Group> {
    if rows == [] then [] else [GroupOf(sh, rows[0])] + GroupsOf(sh, rows[1..])
  }

  // --------------------------------------------------------------------- totals

  /** SUM: NULLs are skipped, and nothing at all sums to NULL. */
  function Add(a: Option<int>, b: Option<int>): Option<int> {
    if a.None? then b else if b.None? then a else Some(a.value + b.value)
  }

  /** The same total joined several times. */
  function Times(a: Option<int>, n: nat): Option<int> {
    if a.None? || n == 0 then None else Some(a.value * n)
  }

  /** A primary fragment's total for one of its groups. */
  function PartialTotal(sh: Shape, term: Term, rows: seq<Row>, g: Group): Option<int> {
    if rows == [] then None else
      var rest := PartialTotal(sh, term, rows[1..], g);
      if GroupOf(sh, rows[0]) == g then Add(term(rows[0]), rest) else rest
  }

  /** The total over all rows with the given output cells. */
  function DirectTotal(sh: Shape, term: Term, rows: seq<Row>, cells: seq<Cell>): Option<int> {
    if rows == [] then None else
      var rest := DirectTotal(sh, term, rows[1..], cells);
      if CellsAt(sh.dimensions, rows[0]) == cells then Add(term(rows[0]), rest) else rest
  }

  // ---------------------------------------------------------------- inner joins

  /** How often one key row is joined with the fragments from the k-th on. */
  function JoinTimes(keys: seq<Cell>, fragments: seq<seq<Cell>>, k: nat): nat
    requires k <= |keys| == |fragments|
    decreases |keys| - k, 0
  {
    if k == |keys| then 1 else JoinEach(keys, fragments, k, fragments[k])
  }

  function JoinEach(keys: seq<Cell>, fragments: seq<seq<Cell>>, k: nat, candidates: seq<Cell>): nat
    requires k < |keys| == |fragments|
    decreases |keys| - k - 1, 1 + |candidates|
  {
    if candidates == [] then 0 else
      (if Same(keys[k], candidates[0]) == Cnf.True then JoinTimes(keys, fragments, k + 1) else 0) +
      JoinEach(keys, fragments, k, candidates[1..])
  }

  // ------------------------------------------------------------- the two answers

  predicate Fitting(groups: seq<Group>, fragments: seq<seq<Cell>>) {
    forall g | g in groups :: |g.keys| == |fragments|
  }

  /** After the join, partial totals with the same output cells are added up. */
  function MergedTotal(sh: Shape, term: Term, rows: seq<Row>, groups: seq<Group>, fragments: seq<seq<Cell>>, cells: seq<Cell>): Option<int>
    requires Fitting(groups, fragments)
  {
    if groups == [] then None else
      var g, rest := groups[0], MergedTotal(sh, term, rows, groups[1..], fragments, cells);
      if g.dimensions == cells then Add(Times(PartialTotal(sh, term, rows, g), JoinTimes(g.keys, fragments, 0)), rest) else rest
  }

  function AsReal(total: Option<int>): Option<real> {
    if total.None? then None else Some(total.value as real)
  }

  /** A quotient of totals; NULL when nothing was counted. */
  function Divide(total: Option<int>, count: Option<int>): Option<real> {
    if total.None? || count.None? || count.value == 0 then None else Some(total.value as real / count.value as real)
  }

  /** The merge sums partial sums and partial counts; of no rows a sum is NULL. */
  function MergedValue(sh: Shape, m: Measure, rows: seq<Row>, groups: seq<Group>, fragments: seq<seq<Cell>>, cells: seq<Cell>): Option<real>
    requires Fitting(groups, fragments)
  {
    match m
    case Sum(t) => AsReal(MergedTotal(sh, t, rows, groups, fragments, cells))
    case Count(c) => AsReal(MergedTotal(sh, CountTerm(c), rows, groups, fragments, cells))
    case Average(t) => Divide(MergedTotal(sh, t, rows, groups, fragments, cells), MergedTotal(sh, CountTerm(Present(t)), rows, groups, fragments, cells))
  }

  /** The backend's own aggregate; of no rows a count is zero. */
  function DirectValue(sh: Shape, m: Measure, rows: seq<Row>, cells: seq<Cell>): Option<real> {
    match m
    case Sum(t) => AsReal(DirectTotal(sh, t, rows, cells))
    case Count(c) => AsReal(Add(Some(0), DirectTotal(sh, CountTerm(c), rows, cells)))
    case Average(t) => Divide(DirectTotal(sh, t, rows, cells), DirectTotal(sh, CountTerm(Present(t)), rows, cells))
  }

  /**
    What the merge answers for some output cells, if it has a row for them:
    one per group, and without dimensions, where nothing is grouped, always one.
  */
  function MergedAt(sh: Shape, m: Measure, rows: seq<Row>, groups: seq<Group>, fragments: seq<seq<Cell>>, cells: seq<Cell>): Option<Option<real>>
    requires Fitting(groups, fragments)
  {
    if (sh.dimensions == [] && cells == []) || exists g | g in groups :: g.dimensions == cells && JoinTimes(g.keys, fragments, 0) > 0
    then Some(MergedValue(sh, m, rows, groups, fragments, cells)) else None
  }

  /**
    What the staged rewrite answers on the surviving rows; a run that an empty
    list has ended answers nothing at all.
  */
  function StagedAt(sh: Shape, m: Measure, survivors: seq<Row>, starved: bool, cells: seq<Cell>): Option<Option<real>> {
    if !starved && ((sh.dimensions == [] && cells == []) || exists row | row in survivors :: CellsAt(sh.dimensions, row) == cells)
    then Some(DirectValue(sh, m, survivors, cells)) else None
  }

  // ------------------------------------------------------------- counts and averages

  /** The rows with some output cells that are counted. */
  function Chosen(sh: Shape, counted: Row -> bool, rows: seq<Row>, cells: seq<Cell>): seq<Row> {
    if rows == [] then []
    else if CellsAt(sh.dimensions, rows[0]) == cells && counted(rows[0]) then [rows[0]] + Chosen(sh, counted, rows[1..], cells)
    else Chosen(sh, counted, rows[1..], cells)
  }

  lemma {:induction false} CountedIsChosen(sh: Shape, counted: Row -> bool, rows: seq<Row>, cells: seq<Cell>)
    ensures var total := DirectTotal(sh, CountTerm(counted), rows, cells);
            (if total.None? then 0 else total.value) == |Chosen(sh, counted, rows, cells)|
  {
    hide CellsAt;
    if rows != [] {
      CountedIsChosen(sh, counted, rows[1..], cells);
    }
  }

  lemma {:induction false} TotalOfNone(sh: Shape, term: Term, rows: seq<Row>, cells: seq<Cell>)
    ensures DirectTotal(sh, term, rows, cells).None? <==> Chosen(sh, Present(term), rows, cells) == []
  {
    hide CellsAt;
    if rows != [] {
      TotalOfNone(sh, term, rows[1..], cells);
    }
  }

  /** A count is the number of its rows; an average times the number of rows that have a term is their sum, and NULL when none has. */
  lemma DirectValueIs(sh: Shape, counted: Row -> bool, term: Term, rows: seq<Row>, cells: seq<Cell>)
    ensures DirectValue(sh, Count(counted), rows, cells) == Some(|Chosen(sh, counted, rows, cells)| as real)
    ensures var n, average, sum := |Chosen(sh, Present(term), rows, cells)|, DirectValue(sh, Average(term), rows, cells), DirectValue(sh, Sum(term), rows, cells);
            (average.None? <==> n == 0) && (sum.None? <==> n == 0) && (average.Some? ==> average.value * n as real == sum.value)
  {
    hide DirectTotal, Chosen, CountTerm, Present;
    CountedIsChosen(sh, counted, rows, cells);
    CountedIsChosen(sh, Present(term), rows, cells);
    TotalOfNone(sh, term, rows, cells);
  }

  // --------------------------------------------------- grouped fragments join once

  lemma RawCons(eval: Eval, j: SemiJoinSpec, table: seq<Row>)
    requires table != []
    ensures RawFragment(eval, j, table) ==
            (if AllTrue(eval, j.source, table[0]) then [Get(table[0], j.select)] else []) + RawFragment(eval, j, table[1..])
  {
    hide AllTrue;
    if AllTrue(eval, j.source, table[0]) {
      assert Kept(eval, j.source, table)[1..] == Kept(eval, j.source, table[1..]);
    }
  }

  lemma RawNothing(eval: Eval, j: SemiJoinSpec)
    ensures RawFragment(eval, j, []) == []
  {
  }

  lemma {:induction false} RawElements(eval: Eval, j: SemiJoinSpec, table: seq<Row>)
    ensures forall c :: c in RawFragment(eval, j, table) <==> exists row | row in table :: AllTrue(eval, j.source, row) && Get(row, j.select) == c
  {
    hide AllTrue, RawFragment;
    if table == [] {
      assert RawFragment(eval, j, table) == [] by { RawNothing(eval, j); }
    } else {
      RawElements(eval, j, table[1..]);
      RawCons(eval, j, table);
      assert table == [table[0]] + table[1..];
      if AllTrue(eval, j.source, table[0]) {
        var rest := RawFragment(eval, j, table[1..]);
        forall c ensures c in RawFragment(eval, j, table) <==> c == Get(table[0], j.select) || c in rest {
        }
      }
    }
  }

  /** A grouped fragment holds the key of every row its filters keep, once: its merge key is unique. */
  lemma FragmentIs(eval: Eval, j: SemiJoinSpec, table: seq<Row>)
    ensures Distinct(Fragment(eval, j, table))
    ensures forall c :: c in Fragment(eval, j, table) <==> exists row | row in table :: AllTrue(eval, j.source, row) && Get(row, j.select) == c
  {
    hide AllTrue, RawFragment;
    RawElements(eval, j, table);
    DedupIs(RawFragment(eval, j, table));
  }

  /** Every key finds a partner in every fragment. */
  predicate Partnered(keys: seq<Cell>, fragments: seq<seq<Cell>>, k: nat)
    requires k <= |keys| == |fragments|
  {
    forall i | k <= i < |keys| :: keys[i].Some? && keys[i] in fragments[i]
  }

  lemma {:induction false} JoinsAtMostOnce(keys: seq<Cell>, fragments: seq<seq<Cell>>, k: nat)
    requires k <= |keys| == |fragments| && forall f | f in fragments :: Distinct(f)
    ensures JoinTimes(keys, fragments, k) == if Partnered(keys, fragments, k) then 1 else 0
    decreases |keys| - k, 0
  {
    if k < |keys| {
      JoinsAtMostOnce(keys, fragments, k + 1);
      EachAtMostOnce(keys, fragments, k, fragments[k]);
    }
  }

  lemma {:induction false} EachAtMostOnce(keys: seq<Cell>, fragments: seq<seq<Cell>>, k: nat, candidates: seq<Cell>)
    requires k < |keys| == |fragments| && Distinct(candidates)
    ensures JoinEach(keys, fragments, k, candidates) ==
            if keys[k].Some? && keys[k] in candidates then JoinTimes(keys, fragments, k + 1) else 0
    decreases |candidates|
  {
    hide JoinTimes;
    if candidates != [] {
      EachAtMostOnce(keys, fragments, k, candidates[1..]);
      DistinctCons(candidates[0], candidates[1..]);
      assert candidates == [candidates[0]] + candidates[1..];
    }
  }

  /** A row joins all the grouped fragments, once, exactly when it matches in every cube. */
  lemma RowJoins(eval: Eval, row: Row, joins: seq<SemiJoinSpec>, tables: seq<seq<Row>>)
    requires |joins| == |tables|
    ensures var n := JoinTimes(BridgeKeys(joins, row), Fragments(eval, joins, tables), 0);
            n <= 1 && (n == 1 <==> forall i | 0 <= i < |joins| :: Matches(eval, row, joins[i], tables[i]))
  {
    hide AllTrue, Fragment, JoinTimes, Matches;
    var fragments := Fragments(eval, joins, tables);
    forall i | 0 <= i < |joins|
      ensures Distinct(fragments[i]) && (Matches(eval, row, joins[i], tables[i]) <==> BridgeKeys(joins, row)[i].Some? && BridgeKeys(joins, row)[i] in fragments[i])
    {
      FragmentIs(eval, joins[i], tables[i]);
      MatchIsKey(eval, row, joins[i], tables[i]);
    }
    JoinsAtMostOnce(BridgeKeys(joins, row), fragments, 0);
  }

  lemma MatchIsKey(eval: Eval, row: Row, j: SemiJoinSpec, table: seq<Row>)
    ensures Matches(eval, row, j, table) <==>
            Get(row, j.dimension).Some? && exists s | s in table :: AllTrue(eval, j.source, s) && Get(s, j.select) == Get(row, j.dimension)
  {
    hide AllTrue;
  }

  // ------------------------------------------------------ totals of totals

  lemma AddLaws(a: Option<int>, b: Option<int>, c: Option<int>)
    ensures Add(a, Add(b, c)) == Add(b, Add(a, c)) && Add(Add(a, b), c) == Add(a, Add(b, c)) && Add(a, None) == a
  {
  }

  /** A further row adds to the one group it is in, if that group joins. */
  lemma {:induction false} RowAdds(sh: Shape, term: Term, row: Row, rows: seq<Row>, groups: seq<Group>, fragments: seq<seq<Cell>>, cells: seq<Cell>)
    requires Fitting(groups, fragments) && Distinct(groups)
    requires forall g | g in groups :: JoinTimes(g.keys, fragments, 0) <= 1
    ensures var g := GroupOf(sh, row);
            MergedTotal(sh, term, [row] + rows, groups, fragments, cells) ==
            if g in groups && g.dimensions == cells && JoinTimes(g.keys, fragments, 0) == 1
            then Add(term(row), MergedTotal(sh, term, rows, groups, fragments, cells))
            else MergedTotal(sh, term, rows, groups, fragments, cells)
  {
    hide JoinTimes, GroupOf, Add;
    if groups != [] {
      var g, tail := groups[0], MergedTotal(sh, term, rows, groups[1..], fragments, cells);
      assert groups == [g] + groups[1..];
      DistinctCons(g, groups[1..]);
      RowAdds(sh, term, row, rows, groups[1..], fragments, cells);
      assert ([row] + rows)[1..] == rows;
      var part := PartialTotal(sh, term, rows, g);
      assert PartialTotal(sh, term, [row] + rows, g) == if GroupOf(sh, row) == g then Add(term(row), part) else part;
      TimesOnce(part, JoinTimes(g.keys, fragments, 0));
      TimesOnce(Add(term(row), part), JoinTimes(g.keys, fragments, 0));
      AddLaws(term(row), part, tail);
      AddLaws(Times(part, JoinTimes(g.keys, fragments, 0)), term(row), tail);
    }
  }

  lemma TimesOnce(a: Option<int>, n: nat)
    requires n <= 1
    ensures Times(a, n) == if n == 1 then a else None
  {
  }

  lemma {:induction false} NothingMerged(sh: Shape, term: Term, groups: seq<Group>, fragments: seq<seq<Cell>>, cells: seq<Cell>)
    requires Fitting(groups, fragments)
    ensures MergedTotal(sh, term, [], groups, fragments, cells) == None
  {
    hide JoinTimes;
    if groups != [] {
      NothingMerged(sh, term, groups[1..], fragments, cells);
    }
  }

  lemma {:induction false} GroupsElements(sh: Shape, rows: seq<Row>)
    ensures forall g :: g in GroupsOf(sh, rows) <==> exists row | row in rows :: GroupOf(sh, row) == g
  {
    hide GroupOf;
    if rows != [] {
      GroupsElements(sh, rows[1..]);
      assert rows == [rows[0]] + rows[1..];
    }
  }

  /** Adding up the joined partial totals gives the total over the rows that survive. */
  lemma {:induction false} TotalsAgree(
    eval: Eval, residual: seq<Filter>, sh: Shape, term: Term, rows: seq<Row>, tables: seq<seq<Row>>, groups: seq<Group>, cells: seq<Cell>)
    requires |sh.joins| == |tables| && Distinct(groups) && Fitting(groups, Fragments(eval, sh.joins, tables))
    requires forall g | g in groups :: JoinTimes(g.keys, Fragments(eval, sh.joins, tables), 0) <= 1
    requires forall row | row in Kept(eval, residual, rows) :: GroupOf(sh, row) in groups
    ensures MergedTotal(sh, term, Kept(eval, residual, rows), groups, Fragments(eval, sh.joins, tables), cells) ==
            DirectTotal(sh, term, Survivors(eval, residual, rows, sh.joins, tables), cells)
  {
    hide AllTrue, JoinTimes, Fragments, MergedTotal, Matches, Add;
    var fragments := Fragments(eval, sh.joins, tables);
    if rows == [] {
      NothingMerged(sh, term, groups, fragments, cells);
    } else {
      var rest := Kept(eval, residual, rows[1..]);
      if AllTrue(eval, residual, rows[0]) {
        assert Kept(eval, residual, rows) == [rows[0]] + rest;
        assert rows[0] in Kept(eval, residual, rows);
        TotalsAgree(eval, residual, sh, term, rows[1..], tables, groups, cells);
        RowAdds(sh, term, rows[0], rest, groups, fragments, cells);
        RowJoins(eval, rows[0], sh.joins, tables);
        DirectCons(sh, term, rows[0], Survivors(eval, residual, rows[1..], sh.joins, tables), cells);
      } else {
        TotalsAgree(eval, residual, sh, term, rows[1..], tables, groups, cells);
      }
    }
  }

  lemma DirectCons(sh: Shape, term: Term, row: Row, rows: seq<Row>, cells: seq<Cell>)
    ensures DirectTotal(sh, term, [row] + rows, cells) ==
            if CellsAt(sh.dimensions, row) == cells then Add(term(row), DirectTotal(sh, term, rows, cells)) else DirectTotal(sh, term, rows, cells)
  {
    assert ([row] + rows)[1..] == rows;
  }

  lemma {:induction false} SurvivorsAre(eval: Eval, residual: seq<Filter>, rows: seq<Row>, joins: seq<SemiJoinSpec>, tables: seq<seq<Row>>)
    requires |joins| == |tables|
    ensures forall row :: row in Survivors(eval, residual, rows, joins, tables) <==>
                          row in Kept(eval, residual, rows) && forall i | 0 <= i < |joins| :: Matches(eval, row, joins[i], tables[i])
  {
    hide AllTrue, Matches;
    if rows != [] {
      SurvivorsAre(eval, residual, rows[1..], joins, tables);
    }
  }

  /** Over at least one row a count is a number. */
  lemma {:induction false} CountIsTotal(sh: Shape, counted: Row -> bool, rows: seq<Row>, cells: seq<Cell>)
    ensures DirectTotal(sh, CountTerm(counted), rows, cells).Some? <==> exists row | row in rows :: CellsAt(sh.dimensions, row) == cells
  {
    hide CellsAt;
    if rows != [] {
      CountIsTotal(sh, counted, rows[1..], cells);
      assert rows == [rows[0]] + rows[1..];
    }
  }

  /** The groups of the primary fragment: its own filters, then GROUP BY. */
  function PrimaryGroups(eval: Eval, residual: seq<Filter>, sh: Shape, rows: seq<Row>): seq<Group> {
    Dedup(GroupsOf(sh, Kept(eval, residual, rows)))
  }

  /** Each group of the primary fragment joins once or not at all, and joins exactly when a surviving row is in it. */
  lemma GroupsJoin(eval: Eval, residual: seq<Filter>, sh: Shape, rows: seq<Row>, tables: seq<seq<Row>>)
    requires |sh.joins| == |tables|
    ensures var groups, fragments := PrimaryGroups(eval, residual, sh, rows), Fragments(eval, sh.joins, tables);
            && Fitting(groups, fragments) && Distinct(groups)
            && (forall row | row in Kept(eval, residual, rows) :: GroupOf(sh, row) in groups)
            && forall g | g in groups :: JoinTimes(g.keys, fragments, 0) <= 1 &&
                 (JoinTimes(g.keys, fragments, 0) > 0 <==> exists row | row in Survivors(eval, residual, rows, sh.joins, tables) :: GroupOf(sh, row) == g)
  {
    hide AllTrue, JoinTimes, Fragments, Matches, Kept, Survivors;
    var kept, groups, fragments := Kept(eval, residual, rows), PrimaryGroups(eval, residual, sh, rows), Fragments(eval, sh.joins, tables);
    GroupsElements(sh, kept);
    DedupIs(GroupsOf(sh, kept));
    SurvivorsAre(eval, residual, rows, sh.joins, tables);
    assert |fragments| == |sh.joins|;
    forall g | g in groups
      ensures |g.keys| == |fragments| && JoinTimes(g.keys, fragments, 0) <= 1
      ensures JoinTimes(g.keys, fragments, 0) > 0 <==> exists row | row in Survivors(eval, residual, rows, sh.joins, tables) :: GroupOf(sh, row) == g
    {
      var row :| row in kept && GroupOf(sh, row) == g;
      RowJoins(eval, row, sh.joins, tables);
      forall other | other in Survivors(eval, residual, rows, sh.joins, tables) && GroupOf(sh, other) == g
        ensures JoinTimes(g.keys, fragments, 0) > 0
      {
        RowJoins(eval, other, sh.joins, tables);
      }
    }
  }

  /** The merge has a row for exactly the output cells of surviving rows, and one more when nothing is grouped. */
  lemma MergedRows(eval: Eval, residual: seq<Filter>, sh: Shape, rows: seq<Row>, tables: seq<seq<Row>>, cells: seq<Cell>)
    requires |sh.joins| == |tables|
    ensures (exists g | g in PrimaryGroups(eval, residual, sh, rows) :: g.dimensions == cells && |g.keys| == |tables| && JoinTimes(g.keys, Fragments(eval, sh.joins, tables), 0) > 0) <==>
            exists row | row in Survivors(eval, residual, rows, sh.joins, tables) :: CellsAt(sh.dimensions, row) == cells
  {
    hide JoinTimes, Fragments, Survivors, PrimaryGroups, Kept, CellsAt, BridgeKeys;
    GroupsJoin(eval, residual, sh, rows, tables);
    var groups, survivors := PrimaryGroups(eval, residual, sh, rows), Survivors(eval, residual, rows, sh.joins, tables);
    SurvivorsKept(eval, residual, rows, sh.joins, tables);
    if row :| row in survivors && CellsAt(sh.dimensions, row) == cells {
      assert GroupOf(sh, row) in groups;
    }
  }

  lemma SurvivorsKept(eval: Eval, residual: seq<Filter>, rows: seq<Row>, joins: seq<SemiJoinSpec>, tables: seq<seq<Row>>)
    requires |joins| == |tables|
    ensures forall row | row in Survivors(eval, residual, rows, joins, tables) :: row in Kept(eval, residual, rows)
  {
    SurvivorsAre(eval, residual, rows, joins, tables);
  }

  /** The values agree, except that a count of nothing is zero before the merge and NULL after it. */
  lemma ValuesAgree(eval: Eval, residual: seq<Filter>, sh: Shape, m: Measure, rows: seq<Row>, tables: seq<seq<Row>>, cells: seq<Cell>)
    requires |sh.joins| == |tables|
    ensures Fitting(PrimaryGroups(eval, residual, sh, rows), Fragments(eval, sh.joins, tables))
    ensures var survivors := Survivors(eval, residual, rows, sh.joins, tables);
            MergedValue(sh, m, Kept(eval, residual, rows), PrimaryGroups(eval, residual, sh, rows), Fragments(eval, sh.joins, tables), cells) ==
            DirectValue(sh, m, survivors, cells) <==>
            !m.Count? || exists row | row in survivors :: CellsAt(sh.dimensions, row) == cells
  {
    hide AllTrue, JoinTimes, Fragments, MergedTotal, DirectTotal, Survivors, Kept, PrimaryGroups, CellsAt, Matches;
    GroupsJoin(eval, residual, sh, rows, tables);
    var groups, survivors := PrimaryGroups(eval, residual, sh, rows), Survivors(eval, residual, rows, sh.joins, tables);
    match m {
      case Sum(t) => TotalsAgree(eval, residual, sh, t, rows, tables, groups, cells);
      case Count(c) =>
        TotalsAgree(eval, residual, sh, CountTerm(c), rows, tables, groups, cells);
        CountIsTotal(sh, c, survivors, cells);
      case Average(t) =>
        TotalsAgree(eval, residual, sh, t, rows, tables, groups, cells);
        TotalsAgree(eval, residual, sh, CountTerm(Present(t)), rows, tables, groups, cells);
    }
  }

  /**
    Bridge merge and staged rewrite.  With output dimensions they give one
    answer, whatever the tables hold: for all output cells both have a row or
    neither has, with the same value of every measure.  Without, they do exactly
    when some row survives, or no list was empty and the measure is no count.
  */
  lemma MergeIsStaged(
    eval: Eval, residual: seq<Filter>, sh: Shape, m: Measure, rows: seq<Row>, tables: seq<seq<Row>>, starved: bool, cells: seq<Cell>)
    requires |sh.joins| == |tables| && (starved ==> Survivors(eval, residual, rows, sh.joins, tables) == []) && |cells| == |sh.dimensions|
    ensures Fitting(PrimaryGroups(eval, residual, sh, rows), Fragments(eval, sh.joins, tables))
    ensures var survivors := Survivors(eval, residual, rows, sh.joins, tables);
            MergedAt(sh, m, Kept(eval, residual, rows), PrimaryGroups(eval, residual, sh, rows), Fragments(eval, sh.joins, tables), cells) ==
            StagedAt(sh, m, survivors, starved, cells) <==>
            sh.dimensions != [] || survivors != [] || (!starved && !m.Count?)
  {
    hide AllTrue, JoinTimes, Fragments, MergedValue, DirectValue, Survivors, Kept, PrimaryGroups, Matches;
    ValuesAgree(eval, residual, sh, m, rows, tables, cells);
    MergedRows(eval, residual, sh, rows, tables, cells);
    var survivors := Survivors(eval, residual, rows, sh.joins, tables);
    if sh.dimensions == [] && survivors != [] {
      assert survivors[0] in survivors && CellsAt(sh.dimensions, survivors[0]) == cells;
    }
  }

  /** A run that an empty list ends keeps no row. */
  lemma {:induction false} StarvedKeepsNothing(eval: Eval, residual: seq<Filter>, stages: seq<Stage>, rows: seq<Row>)
    requires AllFit(stages) && Starved(stages)
    ensures Surviving(eval, residual, stages, rows) == []
  {
    KeptIsSurviving(eval, residual, stages, rows);
    BoundNoneIff(stages);
  }

  /** The cubes the query filters. */
  function Filtered(q: Query): set<string> {
    set f | f in q.filters :: CubeOf(f.dimension)
  }

  /** The planner rewrites the query, and `merged` are the bridges its merge would join along. */
  predicate Replaces(q: Query, catalog: Catalog, bridges: seq<Bridge>, s: Settings, merged: seq<Bridge>) {
    && RoutingOf(q, catalog, bridges, s).injected != [] && PrimaryDialect(q, catalog).Some?
    && Federates(q, catalog, bridges, PrimaryDialect(q, catalog).value, RoutingOf(q, catalog, bridges, s).pushed, merged)
  }

  lemma ReplacesMerging(q: Query, catalog: Catalog, bridges: seq<Bridge>, s: Settings, merged: seq<Bridge>)
    requires Replaces(q, catalog, bridges, s, merged)
    ensures var r, primary := RoutingOf(q, catalog, bridges, s), PrimaryDialect(q, catalog).value;
            && Merging(q, catalog, bridges, primary, r, merged) && AllPlaced(BackendsOf(catalog), merged)
            && forall c | c in r.pushed :: c in catalog && c in Filtered(q)
  {
    hide RoutingOf, PrimaryDialect, Federates, PushedBy, Named, CubeOf;
    PlanPushes(q, catalog, bridges, s);
    var r, primary := RoutingOf(q, catalog, bridges, s), PrimaryDialect(q, catalog).value;
    MergingPlaces(q, catalog, bridges, primary, r, merged);
    NamedAreFiltered(q.filters);
    forall c | c in r.pushed ensures c in Filtered(q) {
      var i :| 0 <= i < |r.pushed| && r.pushed[i] == c;
      assert c in Named(q.filters) by { NamedIfPushed(q, catalog, bridges, primary, c, r.injected[i]); }
    }
  }

  lemma NamedIfPushed(q: Query, catalog: Catalog, bridges: seq<Bridge>, primary: string, cube: string, join: SemiJoinSpec)
    requires PushedBy(q, catalog, bridges, primary, cube, join)
    ensures cube in Named(q.filters)
  {
  }

  lemma {:induction false} NamedAreFiltered(filters: seq<Filter>)
    ensures forall c | c in Named(filters) :: exists f | f in filters :: CubeOf(f.dimension) == c
  {
    hide CubeOf;
    if filters != [] {
      var n := |filters| - 1;
      NamedAreFiltered(filters[..n]);
      assert filters == filters[..n] + [filters[n]];
    }
  }

  /**
    The merge of a query the planner rewrites is planned exactly when every
    rewritten cube has a backend and a bridge of its own, and its joins are then
    exactly those of the injected semi-joins.
  */
  lemma PlannedJoins(q: Query, catalog: Catalog, bridges: seq<Bridge>, s: Settings, merged: seq<Bridge>, joins: seq<MergeJoin>, used: seq<Bridge>)
    requires Replaces(q, catalog, bridges, s, merged)
    ensures var r := RoutingOf(q, catalog, bridges, s);
            |r.injected| == |r.pushed| && AllPlaced(BackendsOf(catalog), merged) && forall c | c in r.pushed :: c in catalog
    ensures var r, primary := RoutingOf(q, catalog, bridges, s), PrimaryDialect(q, catalog).value;
            && (TreeFrom(BackendsOf(catalog), merged, primary) <==> OneBridgeEach(catalog, r.pushed, merged))
            && (IsJoinPlan(BackendsOf(catalog), merged, primary, Filtered(q), joins, used) && OneBridgeEach(catalog, r.pushed, merged) ==>
                  forall j :: j in joins <==> exists i: nat | i < |r.pushed| :: j == JoinFor(catalog, primary, r, i))
  {
    hide RoutingOf, PrimaryDialect, Federates, PushedBy, Filtered, TreeFrom, IsJoinPlan, AllPlaced;
    ReplacesMerging(q, catalog, bridges, s, merged);
    var r, primary := RoutingOf(q, catalog, bridges, s), PrimaryDialect(q, catalog).value;
    MergeIsPlannedIff(q, catalog, bridges, primary, r, merged);
    if IsJoinPlan(BackendsOf(catalog), merged, primary, Filtered(q), joins, used) && OneBridgeEach(catalog, r.pushed, merged) {
      JoinsAreInjected(q, catalog, bridges, primary, r, merged, Filtered(q), joins, used);
    }
  }

  /**
    Where that merge is planned, it answers what the rewritten query answers in
    stages: always when the query has output dimensions, and otherwise exactly
    when some row survives, or no list was empty and the measure is no count.
  */
  lemma PlannedIsMerged(
    eval: Eval, q: Query, catalog: Catalog, bridges: seq<Bridge>, s: Settings, merged: seq<Bridge>, rows: seq<Row>, tables: seq<seq<Row>>,
    stages: seq<Stage>, dimensions: seq<string>, m: Measure, cells: seq<Cell>)
    requires Replaces(q, catalog, bridges, s, merged) && |cells| == |dimensions|
    requires AllDeliver(eval, RoutingOf(q, catalog, bridges, s).injected, tables, stages)
    requires forall c | c in RoutingOf(q, catalog, bridges, s).pushed :: c in catalog
    requires OneBridgeEach(catalog, RoutingOf(q, catalog, bridges, s).pushed, merged)
    ensures var r := RoutingOf(q, catalog, bridges, s);
            var residual, sh := Rewritten(q, r).filters, Shape(dimensions, r.injected);
            AllFit(stages) && Fitting(PrimaryGroups(eval, residual, sh, rows), Fragments(eval, r.injected, tables)) &&
            (MergedAt(sh, m, Kept(eval, residual, rows), PrimaryGroups(eval, residual, sh, rows), Fragments(eval, r.injected, tables), cells) ==
             StagedAt(sh, m, Surviving(eval, residual, stages, rows), Starved(stages), cells) <==>
             dimensions != [] || Surviving(eval, residual, stages, rows) != [] || (!Starved(stages) && !m.Count?))
  {
    hide *;
    var r := RoutingOf(q, catalog, bridges, s);
    assert r.injected != [] by { hide *; Rewrites(q, catalog, bridges, s, merged); }
    assert |r.injected| == |tables| by { hide *; Delivered(eval, r.injected, tables, stages); }
    PlannedQueryMeaning(eval, q, catalog, bridges, s, rows, tables, stages);
    if Starved(stages) {
      StarvedKeepsNothing(eval, Rewritten(q, r).filters, stages, rows);
    }
    MergeIsStaged(eval, Rewritten(q, r).filters, Shape(dimensions, r.injected), m, rows, tables, Starved(stages), cells);
  }

  lemma Rewrites(q: Query, catalog: Catalog, bridges: seq<Bridge>, s: Settings, merged: seq<Bridge>)
    requires Replaces(q, catalog, bridges, s, merged)
    ensures RoutingOf(q, catalog, bridges, s).injected != []
  {
  }

  /** When nothing survives, a merge without dimensions still has a row, of NULLs. */
  lemma NothingScalar(eval: Eval, residual: seq<Filter>, sh: Shape, m: Measure, rows: seq<Row>, tables: seq<seq<Row>>)
    requires |sh.joins| == |tables| && sh.dimensions == [] && Survivors(eval, residual, rows, sh.joins, tables) == []
    ensures Fitting(PrimaryGroups(eval, residual, sh, rows), Fragments(eval, sh.joins, tables))
    ensures MergedAt(sh, m, Kept(eval, residual, rows), PrimaryGroups(eval, residual, sh, rows), Fragments(eval, sh.joins, tables), []) == Some(None)
    ensures StagedAt(sh, m, [], true, []) == None
    ensures StagedAt(sh, m, [], false, []) == Some(if m.Count? then Some(0.0) else None)
  {
    hide AllTrue, JoinTimes, Fragments, Survivors, Kept, PrimaryGroups, MergedTotal;
    GroupsJoin(eval, residual, sh, rows, tables);
    var groups := PrimaryGroups(eval, residual, sh, rows);
    match m {
      case Sum(t) => TotalsAgree(eval, residual, sh, t, rows, tables, groups, []);
      case Count(c) => TotalsAgree(eval, residual, sh, CountTerm(c), rows, tables, groups, []);
      case Average(t) =>
        TotalsAgree(eval, residual, sh, t, rows, tables, groups, []);
        TotalsAgree(eval, residual, sh, CountTerm(Present(t)), rows, tables, groups, []);
    }
  }

  // ----------------------------------------------------------- where they differ

  const DEPT := Filter("e.dept", Equal, [Text("Legal")])
  const STAFF := SemiJoinSpec("a.employee", "e.id", [DEPT])
  const ONE_SALE: Row := map["a.employee" := Some(Number(1)), "a.secs" := Some(Number(50))]
  const IN_SALES: Row := map["e.id" := Some(Number(1)), "e.dept" := Some(Text("Sales"))]
  const IN_LEGAL: Row := map["e.id" := Some(Number(2)), "e.dept" := Some(Text("Legal"))]

  function Equality(): Eval {
    (f: Filter, row: Row) => if f.values != [] && Get(row, f.dimension) == Some(f.values[0]) then Cnf.True else Cnf.False
  }

  function Seconds(): Term {
    (row: Row) => match Get(row, "a.secs") case Some(Number(n)) => Some(n) case _ => None
  }

  function Keys(ids: seq<seq<Cell>>): Stage {
    Stage(Table(["id"], ids), Binding("a.employee", Among, "id"))
  }

  /** A total over nobody's department: the merge answers NULL, the staged run has no row. */
  lemma StarvedTotal()
    ensures Delivers(Equality(), STAFF, [IN_SALES], Keys([])) && Starved([Keys([])])
    ensures var sh, m, groups := Shape([], [STAFF]), Sum(Seconds()), PrimaryGroups(Equality(), [], Shape([], [STAFF]), [ONE_SALE]);
            Fitting(groups, Fragments(Equality(), [STAFF], [[IN_SALES]])) &&
            MergedAt(sh, m, Kept(Equality(), [], [ONE_SALE]), groups, Fragments(Equality(), [STAFF], [[IN_SALES]]), []) == Some(None) &&
            StagedAt(sh, m, Surviving(Equality(), [], [Keys([])], [ONE_SALE]), true, []) == None
  {
    NobodyDelivered();
    assert !AllTrue(Equality(), STAFF.source, IN_SALES) by { assert DEPT in STAFF.source; }
    assert !Matches(Equality(), ONE_SALE, STAFF, [IN_SALES]);
    assert [ONE_SALE][1..] == [];
    var joins, tables := [STAFF], [[IN_SALES]];
    assert joins[0] == STAFF && tables[0] == [IN_SALES];
    assert Survivors(Equality(), [], [ONE_SALE], joins, tables) == [];
    NothingScalar(Equality(), [], Shape([], [STAFF]), Sum(Seconds()), [ONE_SALE], [[IN_SALES]]);
    StarvedKeepsNothing(Equality(), [], [Keys([])], [ONE_SALE]);
  }

  lemma NobodyDelivered()
    ensures Delivers(Equality(), STAFF, [IN_SALES], Keys([])) && Starved([Keys([])])
  {
    assert HasColumn(Keys([]).result, "id");
    assert KeyColumn(Keys([])) == [];
    assert !AllTrue(Equality(), STAFF.source, IN_SALES) by { assert DEPT in STAFF.source; }
    assert Keys([]) in [Keys([])];
  }

  /** A count over a department without sales: the merge answers NULL, the staged run zero. */
  lemma UncountedTotal()
    ensures var sh, m, groups := Shape([], [STAFF]), Count(Present(Seconds())), PrimaryGroups(Equality(), [], Shape([], [STAFF]), [ONE_SALE]);
            Fitting(groups, Fragments(Equality(), [STAFF], [[IN_LEGAL]])) &&
            MergedAt(sh, m, Kept(Equality(), [], [ONE_SALE]), groups, Fragments(Equality(), [STAFF], [[IN_LEGAL]]), []) == Some(None) &&
            StagedAt(sh, m, Survivors(Equality(), [], [ONE_SALE], [STAFF], [[IN_LEGAL]]), false, []) == Some(Some(0.0))
    ensures Fragment(Equality(), STAFF, [IN_LEGAL]) == [Some(Number(2))]
  {
    LegalKeys();
    NobodySurvives();
    hide Equality, Fragment, Kept, Survivors, MergedAt;
    NothingScalar(Equality(), [], Shape([], [STAFF]), Count(Present(Seconds())), [ONE_SALE], [[IN_LEGAL]]);
  }

  lemma LegalKeys()
    ensures Fragment(Equality(), STAFF, [IN_LEGAL]) == [Some(Number(2))]
  {
    assert AllTrue(Equality(), STAFF.source, IN_LEGAL);
    assert [IN_LEGAL][1..] == [];
    assert Kept(Equality(), STAFF.source, [IN_LEGAL]) == [IN_LEGAL];
    assert KeyList(STAFF, []) == [] && KeyList(STAFF, [IN_LEGAL]) == [Get(IN_LEGAL, STAFF.select)];
    DedupOfDistinct([Get(IN_LEGAL, STAFF.select)]);
  }

  lemma NobodySurvives()
    ensures Survivors(Equality(), [], [ONE_SALE], [STAFF], [[IN_LEGAL]]) == []
  {
    assert !KeyMatch(ONE_SALE, STAFF, IN_LEGAL);
    assert !Matches(Equality(), ONE_SALE, STAFF, [IN_LEGAL]);
    assert [ONE_SALE][1..] == [];
    var joins, tables := [STAFF], [[IN_LEGAL]];
    assert joins[0] == STAFF && tables[0] == [IN_LEGAL];
  }

  const CUBES: Catalog := map[
    "a" := Cube("fast", [("m", "sum")], None), "e" := Cube("slow", [], None), "f" := Cube("slow", [], None)]
  const BOTH := [Bridge("a", "e", "e", "id"), Bridge("a", "f", "f", "id")]
  const TWO := Query(["a.m"], [], None, [Filter("e.x", Equal, []), Filter("f.x", Equal, [])], [], None, None)

  /** Two filtered cubes on one backend: the planner rewrites both, the merge cannot be planned. */
  lemma OneBackendRefused()
    ensures RoutingOf(TWO, CUBES, BOTH, Settings(10000, {})).pushed == ["e", "f"]
    ensures AllPlaced(BackendsOf(CUBES), BOTH) && !TreeFrom(BackendsOf(CUBES), BOTH, "fast")
  {
    BothPushed();
    hide RoutingOf;
    TwoBackends(BackendsOf(CUBES), BOTH);
  }

  lemma TwoBackends(backends: Backends, bridges: seq<Bridge>)
    requires |bridges| == 2 && forall b | b in bridges :: b.leftCube in backends && b.rightCube in backends
    requires forall b | b in bridges :: backends[b.leftCube] == "fast" && backends[b.rightCube] == "slow"
    ensures AllPlaced(backends, bridges) && !TreeFrom(backends, bridges, "fast")
  {
    assert {"fast"} + Ends(backends, bridges) == {"fast", "slow"} by {
      assert bridges[0] in bridges;
    }
  }

  lemma TwoCubes()
    ensures CubeOf("a.m") == "a" && CubeOf("e.x") == "e" && CubeOf("f.x") == "f"
  {
    assert "a.m"[1..] == ".m" && "e.x"[1..] == ".x" && "f.x"[1..] == ".x";
  }

  lemma TwoNames()
    ensures Named(TWO.filters) == ["e", "f"] && KeptCubes(TWO) == {"a"} && PrimaryDialect(TWO, CUBES) == Some("fast")
  {
    TwoCubes();
    hide CubeOf;
    assert TWO.filters[..1] == [Filter("e.x", Equal, [])] && TWO.filters[..1][..0] == [];
    assert Named(TWO.filters[..1]) == ["e"];
    assert "a.m" in TWO.measures && TWO.measures[1..] == [] && Dialects(TWO.measures, CUBES) == ["fast"];
  }

  lemma BothForeign()
    ensures Foreign(TWO, CUBES, "fast", ["e", "f"]) == ["e", "f"] && PrimaryKept(TWO, CUBES, "fast") == {"a"}
  {
    TwoNames();
    hide KeptCubes;
    assert ["e", "f"][..1] == ["e"] && ["e"][..0] == [];
    assert Foreign(TWO, CUBES, "fast", ["e"]) == ["e"];
  }

  lemma BothPushed()
    ensures RoutingOf(TWO, CUBES, BOTH, Settings(10000, {})).pushed == ["e", "f"]
  {
    TwoNames();
    BothForeign();
    Selected("e");
    Selected("f");
    hide KeptCubes, PrimaryDialect, Named, Foreign, RouteOf, PrimaryKept;
    PushTwice(TWO, CUBES, BOTH, Settings(10000, {}), "fast", "e", "f");
  }

  lemma PushTwice(q: Query, catalog: Catalog, bridges: seq<Bridge>, s: Settings, primary: string, one: string, other: string)
    requires Pushes(RouteOf(q, catalog, bridges, s, primary, one)) && Pushes(RouteOf(q, catalog, bridges, s, primary, other))
    ensures RouteAll(q, catalog, bridges, s, primary, [one, other]).pushed == [one, other]
  {
    hide RouteOf;
    assert [one, other][..1] == [one] && [one][..0] == [];
    assert RouteAll(q, catalog, bridges, s, primary, [one]).pushed == [one];
  }

  /** Equality filters are selective, so a bridged cube is pushed whatever its size. */
  lemma Selected(cube: string)
    requires cube in ["e", "f"] && PrimaryKept(TWO, CUBES, "fast") == {"a"}
    ensures Pushes(RouteOf(TWO, CUBES, BOTH, Settings(10000, {}), "fast", cube))
  {
    hide PrimaryKept, CubeOf, AllDistributive;
    assert BOTH[1..] == [BOTH[1]];
    OnCubeMembers(TWO.filters, cube);
    forall f | f in OnCube(TWO.filters, cube) ensures IsSelective(Settings(10000, {}), f) {
      assert f in TWO.filters;
    }
  }

  lemma Delivered(eval: Eval, joins: seq<SemiJoinSpec>, tables: seq<seq<Row>>, stages: seq<Stage>)
    requires AllDeliver(eval, joins, tables, stages)
    ensures |joins| == |tables|
  {
  }

  // ---------------------------------------------------------------- raw rows

  /** Raw-rows mode: the primary's rows, each as often as it joins the ungrouped fragments. */
  function RawJoined(eval: Eval, residual: seq<Filter>, rows: seq<Row>, joins: seq<SemiJoinSpec>, tables: seq<seq<Row>>): seq<Row>
    requires |joins| == |tables|
  {
    if rows == [] then [] else
      var rest := RawJoined(eval, residual, rows[1..], joins, tables);
      if AllTrue(eval, residual, rows[0])
      then Repeat(rows[0], JoinTimes(BridgeKeys(joins, rows[0]), RawFragments(eval, joins, tables), 0)) + rest else rest
  }

  lemma {:induction false} EachIsCount(eval: Eval, row: Row, joins: seq<SemiJoinSpec>, tables: seq<seq<Row>>, k: nat, table: seq<Row>)
    requires k < |joins| == |tables|
    ensures JoinEach(BridgeKeys(joins, row), RawFragments(eval, joins, tables), k, RawFragment(eval, joins[k], table)) ==
            MatchCount(eval, row, joins[k], table) * JoinTimes(BridgeKeys(joins, row), RawFragments(eval, joins, tables), k + 1)
  {
    hide JoinTimes, AllTrue, RawFragments;
    if table != [] {
      var j := joins[k];
      EachIsCount(eval, row, joins, tables, k, table[1..]);
      Distribute(if KeyMatch(row, j, table[0]) && AllTrue(eval, j.source, table[0]) then 1 else 0,
                 MatchCount(eval, row, j, table[1..]), JoinTimes(BridgeKeys(joins, row), RawFragments(eval, joins, tables), k + 1));
      RawCons(eval, j, table);
      if AllTrue(eval, j.source, table[0]) {
        assert RawFragment(eval, j, table)[1..] == RawFragment(eval, j, table[1..]);
      }
    }
  }

  lemma {:induction false} TimesIsProduct(eval: Eval, row: Row, joins: seq<SemiJoinSpec>, tables: seq<seq<Row>>, k: nat)
    requires k <= |joins| == |tables|
    ensures JoinTimes(BridgeKeys(joins, row), RawFragments(eval, joins, tables), k) == Product(eval, row, joins, tables, k)
    decreases |joins| - k
  {
    hide RawFragment, MatchCount, JoinEach;
    if k < |joins| {
      TimesIsProduct(eval, row, joins, tables, k + 1);
      EachIsCount(eval, row, joins, tables, k, tables[k]);
    }
  }

  /** The raw-rows merge is the inner join of the tables themselves. */
  lemma {:induction false} RawIsInnerJoin(eval: Eval, filters: seq<Filter>, rows: seq<Row>, joins: seq<SemiJoinSpec>, cubes: seq<string>, tables: seq<seq<Row>>)
    requires Took(filters, joins, cubes) && |joins| == |tables|
    ensures RawJoined(eval, OffCubes(filters, Members(cubes)), rows, joins, tables) == JoinRows(eval, filters, rows, joins, tables)
  {
    hide Took, AllTrue, OffCubes, Members, Product, JoinTimes, RawFragments, JoinCount, BridgeKeys;
    if rows != [] {
      RawIsInnerJoin(eval, filters, rows[1..], joins, cubes, tables);
      JoinCountExact(eval, filters, rows[0], joins, cubes, tables);
      TimesIsProduct(eval, rows[0], joins, tables, 0);
    }
  }

  /**
    In raw-rows mode foreign rows that share a key are not collapsed: the rows
    to aggregate are the staged ones exactly when no surviving row has two
    matches in a cube.
  */
  lemma RawRowsIff(eval: Eval, filters: seq<Filter>, rows: seq<Row>, joins: seq<SemiJoinSpec>, cubes: seq<string>, tables: seq<seq<Row>>)
    requires Took(filters, joins, cubes) && |joins| == |tables|
    ensures var residual := OffCubes(filters, Members(cubes));
            RawJoined(eval, residual, rows, joins, tables) == Survivors(eval, residual, rows, joins, tables) <==>
            JoinsOnce(eval, residual, rows, joins, tables)
  {
    hide *;
    RawIsInnerJoin(eval, filters, rows, joins, cubes, tables);
    JoinIsSurvivorsIff(eval, filters, rows, joins, cubes, tables);
  }
}
