/** What the planner's rewrite means. */
module AutoPlanMeaning {

  /*
    Every filter ends in one place, and running the rewritten query in stages keeps
    the rows an inner join would, once each.
  */

  import opened Sequences
  import opened Wrappers
  import opened Spec
  import opened AutoPlan
  import opened SemiJoin
  import Cnf

  type Eval = (Filter, Row) -> Cnf.Kleene

  // ------------------------------------------------------- where filters end up

  lemma {:induction false} CubeHasNoDot(reference: string)
    ensures '.' !in CubeOf(reference)
  {
    if reference != "" && reference[0] != '.' {
      CubeHasNoDot(reference[1..]);
    }
  }

  lemma {:induction false} OnCubeMembers(filters: seq<Filter>, cube: string)
    ensures forall f :: f in OnCube(filters, cube) <==> f in filters && CubeOf(f.dimension) == cube
  {
    hide CubeOf;
    if filters != [] {
      var n := |filters| - 1;
      OnCubeMembers(filters[..n], cube);
      assert filters == filters[..n] + [filters[n]];
    }
  }

  lemma {:induction false} OffCubesMembers(filters: seq<Filter>, cubes: set<string>)
    ensures forall f :: f in OffCubes(filters, cubes) <==> f in filters && CubeOf(f.dimension) !in cubes
  {
    hide CubeOf;
    if filters != [] {
      var n := |filters| - 1;
      OffCubesMembers(filters[..n], cubes);
      assert filters == filters[..n] + [filters[n]];
    }
  }

  /** All the filters that moved, semi-join by semi-join. */
  function Moved(joins: seq<SemiJoinSpec>): seq<Filter> {
    if joins == [] then [] else Moved(joins[..|joins| - 1]) + joins[|joins| - 1].source
  }

  /** A set of semi-joins that took exactly the filters of their own, different cubes. */
  predicate Took(filters: seq<Filter>, joins: seq<SemiJoinSpec>, cubes: seq<string>) {
    && |joins| == |cubes| && Distinct(cubes)
    && forall i | 0 <= i < |joins| :: joins[i].source == OnCube(filters, cubes[i]) && CubeOf(joins[i].select) == cubes[i]
  }

  function Members(cubes: seq<string>): set<string> {
    set c | c in cubes
  }

  lemma {:induction false} SplitOff(filters: seq<Filter>, cubes: set<string>, cube: string)
    requires cube !in cubes
    ensures multiset(OffCubes(filters, cubes)) == multiset(OffCubes(filters, cubes + {cube})) + multiset(OnCube(filters, cube))
  {
    hide CubeOf;
    if filters != [] {
      SplitOff(filters[..|filters| - 1], cubes, cube);
    }
  }

  lemma {:induction false} OffNothing(filters: seq<Filter>)
    ensures OffCubes(filters, {}) == filters
  {
    if filters != [] {
      OffNothing(filters[..|filters| - 1]);
    }
  }

  /** Every occurrence of every filter stays or moves to one semi-join, never both. */
  lemma {:induction false} FiltersConserved(filters: seq<Filter>, joins: seq<SemiJoinSpec>, cubes: seq<string>)
    requires Took(filters, joins, cubes)
    ensures multiset(filters) == multiset(OffCubes(filters, Members(cubes))) + multiset(Moved(joins))
  {
    hide CubeOf, OnCube, OffCubes;
    if joins == [] {
      OffNothing(filters);
      assert Members(cubes) == {};
    } else {
      var n := |joins| - 1;
      FiltersConserved(filters, joins[..n], cubes[..n]);
      SplitOff(filters, Members(cubes[..n]), cubes[n]);
      assert Members(cubes) == Members(cubes[..n]) + {cubes[n]};
    }
  }

  lemma {:induction false} NamedDistinct(filters: seq<Filter>)
    ensures Distinct(Named(filters))
    ensures forall c | c in Named(filters) :: '.' !in c
  {
    if filters != [] {
      NamedDistinct(filters[..|filters| - 1]);
      CubeHasNoDot(filters[|filters| - 1].dimension);
    }
  }

  lemma {:induction false} ForeignDistinct(q: Query, catalog: Catalog, primary: string, names: seq<string>)
    requires Distinct(names)
    ensures Distinct(Foreign(q, catalog, primary, names))
  {
    hide IsForeign;
    if names != [] {
      ForeignDistinct(q, catalog, primary, names[..|names| - 1]);
    }
  }

  /** Each injected semi-join takes one foreign cube's filters and joins it to a kept cube. */
  predicate Injects(q: Query, catalog: Catalog, primary: string, j: SemiJoinSpec, cube: string) {
    && j.source == OnCube(q.filters, cube) && CubeOf(j.select) == cube
    && CubeOf(j.dimension) in KeptCubes(q)
  }

  lemma KeptHasNoDot(q: Query, cube: string)
    requires cube in KeptCubes(q)
    ensures '.' !in cube
  {
    forall r: string ensures '.' !in CubeOf(r) {
      CubeHasNoDot(r);
    }
  }

  lemma RouteInjects(q: Query, catalog: Catalog, bridges: seq<Bridge>, s: Settings, primary: string, cube: string)
    requires '.' !in cube && Pushes(RouteOf(q, catalog, bridges, s, primary, cube))
    ensures Injects(q, catalog, primary, RouteOf(q, catalog, bridges, s, primary, cube).join, cube)
  {
    hide KeptCubes, CubeOf, OnCube, Decide;
    var b := BridgeToKept(bridges, cube, PrimaryKept(q, catalog, primary)).value;
    var other := if b.leftCube == cube then b.rightCube else b.leftCube;
    KeptHasNoDot(q, other);
    CubeOfQualified(cube, if b.leftCube == cube then b.leftKey else b.rightKey);
    CubeOfQualified(other, if b.leftCube == cube then b.rightKey else b.leftKey);
  }

  lemma {:induction false} RoutingTakes(q: Query, catalog: Catalog, bridges: seq<Bridge>, s: Settings, primary: string, foreign: seq<string>)
    requires Distinct(foreign) && forall c | c in foreign :: '.' !in c
    ensures var r := RouteAll(q, catalog, bridges, s, primary, foreign);
            Took(q.filters, r.injected, r.pushed) && (forall c | c in r.pushed :: c in foreign) &&
            forall j | j in r.injected :: CubeOf(j.dimension) in KeptCubes(q)
  {
    hide CubeOf, KeptCubes, OnCube, RouteOf;
    if foreign != [] {
      var n := |foreign| - 1;
      RoutingTakes(q, catalog, bridges, s, primary, foreign[..n]);
      assert foreign[n] !in foreign[..n];
      if Pushes(RouteOf(q, catalog, bridges, s, primary, foreign[n])) {
        RouteInjects(q, catalog, bridges, s, primary, foreign[n]);
      }
    }
  }

  /**
    The rewrite as a whole: each injected semi-join takes all filters of one
    foreign cube and its outer key stays on a kept cube, so the filters left
    are exactly those of the other cubes.
  */
  lemma RewriteTakes(q: Query, catalog: Catalog, bridges: seq<Bridge>, s: Settings)
    ensures var r := RoutingOf(q, catalog, bridges, s);
            Took(q.filters, r.injected, r.pushed) &&
            (forall c | c in r.pushed :: c !in KeptCubes(q)) &&
            (forall j | j in r.injected :: CubeOf(j.dimension) in KeptCubes(q)) &&
            (r.injected != [] ==> q.semiJoins == [] && Rewritten(q, r).semiJoins == r.injected &&
                                  Rewritten(q, r).filters == OffCubes(q.filters, Members(r.pushed)))
  {
    hide CubeOf, KeptCubes, OnCube, RouteAll, Named, OffCubes, PrimaryDialect;
    var primary := PrimaryDialect(q, catalog);
    if !Defers(q) && primary.Some? {
      NamedDistinct(q.filters);
      ForeignDistinct(q, catalog, primary.value, Named(q.filters));
      RoutingTakes(q, catalog, bridges, s, primary.value, Foreign(q, catalog, primary.value, Named(q.filters)));
    }
  }

  /** Planning loses and duplicates no filter. */
  lemma RewriteConservesFilters(q: Query, catalog: Catalog, bridges: seq<Bridge>, s: Settings)
    ensures var r := RoutingOf(q, catalog, bridges, s);
            multiset(q.filters) == multiset(Rewritten(q, r).filters) + multiset(Moved(r.injected))
  {
    hide RoutingOf, Took;
    var r := RoutingOf(q, catalog, bridges, s);
    RewriteTakes(q, catalog, bridges, s);
    if r.injected != [] {
      FiltersConserved(q.filters, r.injected, r.pushed);
    }
  }

  // --------------------------------------------- surviving by matching a row

  predicate KeyMatch(row: Row, j: SemiJoinSpec, partner: Row) {
    Same(Get(row, j.dimension), Get(partner, j.select)) == Cnf.True
  }

  /** Some foreign row has the outer row's key and makes all of its cube's filters true. */
  predicate Matches(eval: Eval, row: Row, j: SemiJoinSpec, table: seq<Row>) {
    exists s | s in table :: KeyMatch(row, j, s) && AllTrue(eval, j.source, s)
  }

  predicate Survives(eval: Eval, residual: seq<Filter>, row: Row, joins: seq<SemiJoinSpec>, tables: seq<seq<Row>>)
    requires |joins| == |tables|
  {
    AllTrue(eval, residual, row) && forall i | 0 <= i < |joins| :: Matches(eval, row, joins[i], tables[i])
  }

  function Survivors(eval: Eval, residual: seq<Filter>, rows: seq<Row>, joins: seq<SemiJoinSpec>, tables: seq<seq<Row>>): seq<Row>
    requires |joins| == |tables|
  {
    if rows == [] then [] else
      var rest := Survivors(eval, residual, rows[1..], joins, tables);
      if Survives(eval, residual, rows[0], joins, tables) then [rows[0]] + rest else rest
  }

  /** What the engine delivers for an inner query: a column of the keys of the rows its filters keep. */
  ghost predicate Delivers(eval: Eval, j: SemiJoinSpec, table: seq<Row>, s: Stage) {
    && Fits(s) && s.binding == Binding(j.dimension, Among, s.binding.column)
    && forall c :: c in KeyColumn(s) <==> exists row :: row in table && AllTrue(eval, j.source, row) && Get(row, j.select) == c
  }

  ghost predicate AllDeliver(eval: Eval, joins: seq<SemiJoinSpec>, tables: seq<seq<Row>>, stages: seq<Stage>) {
    && |joins| == |tables| == |stages|
    && forall i | 0 <= i < |stages| :: Delivers(eval, joins[i], tables[i], stages[i])
  }

  lemma StageIsMatch(eval: Eval, row: Row, j: SemiJoinSpec, table: seq<Row>, s: Stage)
    requires Delivers(eval, j, table, s)
    ensures PassesStage(row, s) <==> Matches(eval, row, j, table)
  {
    hide AllTrue, Fits;
    var key := Get(row, j.dimension);
    if PassesStage(row, s) {
      var partner :| partner in table && AllTrue(eval, j.source, partner) && Get(partner, j.select) == key;
      assert KeyMatch(row, j, partner);
    }
    if Matches(eval, row, j, table) {
      var partner :| partner in table && KeyMatch(row, j, partner) && AllTrue(eval, j.source, partner);
      assert key in KeyColumn(s);
    }
  }

  lemma StagesFit(eval: Eval, joins: seq<SemiJoinSpec>, tables: seq<seq<Row>>, stages: seq<Stage>)
    requires AllDeliver(eval, joins, tables, stages)
    ensures AllFit(stages)
  {
    hide Fits;
  }

  /** The staged run keeps exactly the rows with a match in every rewritten cube. */
  lemma {:induction false} StagedIsSurvivors(
    eval: Eval, residual: seq<Filter>, rows: seq<Row>, joins: seq<SemiJoinSpec>, tables: seq<seq<Row>>, stages: seq<Stage>)
    requires AllDeliver(eval, joins, tables, stages) && AllFit(stages)
    ensures Surviving(eval, residual, stages, rows) == Survivors(eval, residual, rows, joins, tables)
  {
    hide AllTrue, Fits, Delivers, PassesStage, Matches;
    if rows != [] {
      StagedIsSurvivors(eval, residual, rows[1..], joins, tables, stages);
      forall i | 0 <= i < |stages| ensures PassesStage(rows[0], stages[i]) <==> Matches(eval, rows[0], joins[i], tables[i]) {
        StageIsMatch(eval, rows[0], joins[i], tables[i], stages[i]);
      }
    }
  }

  // ------------------------------------------------------ the inner join itself

  /** The row a filter tests: its cube's joined row, or the outer row. */
  function Placed(f: Filter, row: Row, joins: seq<SemiJoinSpec>, chosen: seq<Row>): Row
    requires |joins| == |chosen|
  {
    if joins == [] then row
    else if CubeOf(joins[0].select) == CubeOf(f.dimension) then chosen[0]
    else Placed(f, row, joins[1..], chosen[1..])
  }

  /** WHERE over a joined row: every filter of the original query. */
  predicate Where(eval: Eval, filters: seq<Filter>, row: Row, joins: seq<SemiJoinSpec>, chosen: seq<Row>)
    requires |joins| == |chosen|
  {
    forall f | f in filters :: TruthOf(eval, f, Placed(f, row, joins, chosen)) == Cnf.True
  }

  /** Nested loops over the foreign tables, then WHERE: how often an outer row is joined. */
  function JoinCount(eval: Eval, filters: seq<Filter>, row: Row, joins: seq<SemiJoinSpec>, tables: seq<seq<Row>>, chosen: seq<Row>): nat
    requires |chosen| <= |joins| == |tables|
    decreases |joins| - |chosen|, 1, 0
  {
    if |chosen| == |joins| then (if Where(eval, filters, row, joins, chosen) then 1 else 0)
    else JoinOver(eval, filters, row, joins, tables, chosen, tables[|chosen|])
  }

  function JoinOver(eval: Eval, filters: seq<Filter>, row: Row, joins: seq<SemiJoinSpec>, tables: seq<seq<Row>>, chosen: seq<Row>, candidates: seq<Row>): nat
    requires |chosen| < |joins| == |tables|
    decreases |joins| - |chosen|, 0, |candidates|
  {
    if candidates == [] then 0 else
      (if KeyMatch(row, joins[|chosen|], candidates[0])
       then JoinCount(eval, filters, row, joins, tables, chosen + [candidates[0]]) else 0) +
      JoinOver(eval, filters, row, joins, tables, chosen, candidates[1..])
  }

  function Repeat(row: Row, n: nat): seq<Row> {
    seq(n, _ => row)
  }

  /** The outer rows of the inner join, in order. */
  function JoinRows(eval: Eval, filters: seq<Filter>, rows: seq<Row>, joins: seq<SemiJoinSpec>, tables: seq<seq<Row>>): seq<Row>
    requires |joins| == |tables|
  {
    if rows == [] then [] else
      Repeat(rows[0], JoinCount(eval, filters, rows[0], joins, tables, [])) + JoinRows(eval, filters, rows[1..], joins, tables)
  }

  // --------------------------------------------------- counting joined rows

  function MatchCount(eval: Eval, row: Row, j: SemiJoinSpec, table: seq<Row>): nat {
    if table == [] then 0 else
      (if KeyMatch(row, j, table[0]) && AllTrue(eval, j.source, table[0]) then 1 else 0) + MatchCount(eval, row, j, table[1..])
  }

  /** The product of the matches in the tables from the k-th on. */
  function Product(eval: Eval, row: Row, joins: seq<SemiJoinSpec>, tables: seq<seq<Row>>, k: nat): nat
    requires k <= |joins| == |tables|
    decreases |joins| - k
  {
    if k == |joins| then 1 else MatchCount(eval, row, joins[k], tables[k]) * Product(eval, row, joins, tables, k + 1)
  }

  lemma {:induction false} MatchCounted(eval: Eval, row: Row, j: SemiJoinSpec, table: seq<Row>)
    ensures MatchCount(eval, row, j, table) > 0 <==> Matches(eval, row, j, table)
  {
    hide KeyMatch, AllTrue;
    if table != [] {
      MatchCounted(eval, row, j, table[1..]);
      assert table == [table[0]] + table[1..];
      assert table[0] in table;
    }
  }

  lemma {:induction false} PlacedAt(f: Filter, row: Row, joins: seq<SemiJoinSpec>, cubes: seq<string>, chosen: seq<Row>)
    requires |joins| == |chosen| == |cubes| && Distinct(cubes)
    requires forall i | 0 <= i < |joins| :: CubeOf(joins[i].select) == cubes[i]
    ensures forall i | 0 <= i < |joins| && cubes[i] == CubeOf(f.dimension) :: Placed(f, row, joins, chosen) == chosen[i]
    ensures CubeOf(f.dimension) !in cubes ==> Placed(f, row, joins, chosen) == row
  {
    hide CubeOf;
    if joins != [] {
      PlacedAt(f, row, joins[1..], cubes[1..], chosen[1..]);
      assert cubes == [cubes[0]] + cubes[1..];
      forall i | 0 <= i < |joins| && cubes[i] == CubeOf(f.dimension) ensures Placed(f, row, joins, chosen) == chosen[i] {
        if i > 0 {
          assert cubes[1..][i - 1] == CubeOf(f.dimension);
        }
      }
    }
  }

  /** WHERE splits into the filters left on the outer row and those each semi-join took. */
  lemma WhereSplits(eval: Eval, filters: seq<Filter>, row: Row, joins: seq<SemiJoinSpec>, cubes: seq<string>, chosen: seq<Row>)
    requires Took(filters, joins, cubes) && |chosen| == |joins|
    ensures Where(eval, filters, row, joins, chosen) <==>
            AllTrue(eval, OffCubes(filters, Members(cubes)), row) &&
            forall i | 0 <= i < |joins| :: AllTrue(eval, joins[i].source, chosen[i])
  {
    hide CubeOf, TruthOf, OnCube, OffCubes, Placed;
    OffCubesMembers(filters, Members(cubes));
    forall f | f in filters ensures CubeOf(f.dimension) !in cubes ==> Placed(f, row, joins, chosen) == row {
      PlacedAt(f, row, joins, cubes, chosen);
    }
    forall i, f | 0 <= i < |joins| && f in filters && CubeOf(f.dimension) == cubes[i]
      ensures Placed(f, row, joins, chosen) == chosen[i]
    {
      PlacedAt(f, row, joins, cubes, chosen);
    }
    forall i | 0 <= i < |joins| ensures forall f :: f in joins[i].source <==> f in filters && CubeOf(f.dimension) == cubes[i] {
      OnCubeMembers(filters, cubes[i]);
    }
    if Where(eval, filters, row, joins, chosen) {
      forall i | 0 <= i < |joins| ensures AllTrue(eval, joins[i].source, chosen[i]) {
      }
    } else {
      var f :| f in filters && TruthOf(eval, f, Placed(f, row, joins, chosen)) != Cnf.True;
      if CubeOf(f.dimension) in cubes {
        var i :| 0 <= i < |cubes| && cubes[i] == CubeOf(f.dimension);
        assert f in joins[i].source;
      }
    }
  }

  predicate ChosenOk(eval: Eval, joins: seq<SemiJoinSpec>, chosen: seq<Row>)
    requires |chosen| <= |joins|
  {
    forall i | 0 <= i < |chosen| :: AllTrue(eval, joins[i].source, chosen[i])
  }

  lemma {:induction false} JoinCounts(
    eval: Eval, filters: seq<Filter>, row: Row, joins: seq<SemiJoinSpec>, cubes: seq<string>, tables: seq<seq<Row>>, chosen: seq<Row>)
    requires Took(filters, joins, cubes) && |chosen| <= |joins| == |tables|
    ensures JoinCount(eval, filters, row, joins, tables, chosen) ==
            if AllTrue(eval, OffCubes(filters, Members(cubes)), row) && ChosenOk(eval, joins, chosen)
            then Product(eval, row, joins, tables, |chosen|) else 0
    decreases |joins| - |chosen|, 1, 0
  {
    hide CubeOf, AllTrue, OnCube, OffCubes, Where, Members, Took;
    if |chosen| == |joins| {
      WhereSplits(eval, filters, row, joins, cubes, chosen);
    } else {
      JoinsOver(eval, filters, row, joins, cubes, tables, chosen, tables[|chosen|]);
    }
  }

  lemma {:induction false} JoinsOver(
    eval: Eval, filters: seq<Filter>, row: Row, joins: seq<SemiJoinSpec>, cubes: seq<string>, tables: seq<seq<Row>>, chosen: seq<Row>,
    candidates: seq<Row>)
    requires Took(filters, joins, cubes) && |chosen| < |joins| == |tables|
    ensures JoinOver(eval, filters, row, joins, tables, chosen, candidates) ==
            if AllTrue(eval, OffCubes(filters, Members(cubes)), row) && ChosenOk(eval, joins, chosen)
            then MatchCount(eval, row, joins[|chosen|], candidates) * Product(eval, row, joins, tables, |chosen| + 1) else 0
    decreases |joins| - |chosen|, 0, |candidates|
  {
    hide CubeOf, AllTrue, OnCube, OffCubes, Where, Members, Took, JoinCount, Product, KeyMatch;
    if candidates != [] {
      var j, c := joins[|chosen|], candidates[0];
      JoinCounts(eval, filters, row, joins, cubes, tables, chosen + [c]);
      JoinsOver(eval, filters, row, joins, cubes, tables, chosen, candidates[1..]);
      Distribute(if KeyMatch(row, j, c) && AllTrue(eval, j.source, c) then 1 else 0,
                 MatchCount(eval, row, j, candidates[1..]), Product(eval, row, joins, tables, |chosen| + 1));
    }
  }

  lemma Distribute(a: nat, b: nat, c: nat)
    ensures (a + b) * c == a * c + b * c
  {
  }

  /** An outer row is joined once per combination of matching foreign rows. */
  lemma JoinCountExact(eval: Eval, filters: seq<Filter>, row: Row, joins: seq<SemiJoinSpec>, cubes: seq<string>, tables: seq<seq<Row>>)
    requires Took(filters, joins, cubes) && |joins| == |tables|
    ensures JoinCount(eval, filters, row, joins, tables, []) ==
            if AllTrue(eval, OffCubes(filters, Members(cubes)), row) then Product(eval, row, joins, tables, 0) else 0
  {
    hide Took, AllTrue, OffCubes, Product;
    JoinCounts(eval, filters, row, joins, cubes, tables, []);
  }

  lemma {:induction false} ProductPositive(eval: Eval, row: Row, joins: seq<SemiJoinSpec>, tables: seq<seq<Row>>, k: nat)
    requires k <= |joins| == |tables|
    ensures Product(eval, row, joins, tables, k) > 0 <==> forall i | k <= i < |joins| :: Matches(eval, row, joins[i], tables[i])
    ensures Product(eval, row, joins, tables, k) == 1 <==> forall i | k <= i < |joins| :: MatchCount(eval, row, joins[i], tables[i]) == 1
    decreases |joins| - k
  {
    hide Matches, MatchCount;
    if k < |joins| {
      ProductPositive(eval, row, joins, tables, k + 1);
      MatchCounted(eval, row, joins[k], tables[k]);
    }
  }

  /** No surviving outer row is joined more than once. */
  predicate JoinsOnce(eval: Eval, residual: seq<Filter>, rows: seq<Row>, joins: seq<SemiJoinSpec>, tables: seq<seq<Row>>)
    requires |joins| == |tables|
  {
    forall r | r in rows && Survives(eval, residual, r, joins, tables) ::
      forall i | 0 <= i < |joins| :: MatchCount(eval, r, joins[i], tables[i]) == 1
  }

  lemma {:induction false} JoinAtLeast(eval: Eval, filters: seq<Filter>, rows: seq<Row>, joins: seq<SemiJoinSpec>, cubes: seq<string>, tables: seq<seq<Row>>)
    requires Took(filters, joins, cubes) && |joins| == |tables|
    ensures var residual := OffCubes(filters, Members(cubes));
            |JoinRows(eval, filters, rows, joins, tables)| >= |Survivors(eval, residual, rows, joins, tables)| &&
            (|JoinRows(eval, filters, rows, joins, tables)| == |Survivors(eval, residual, rows, joins, tables)| ==>
               JoinsOnce(eval, residual, rows, joins, tables)) &&
            (JoinsOnce(eval, residual, rows, joins, tables) ==>
               JoinRows(eval, filters, rows, joins, tables) == Survivors(eval, residual, rows, joins, tables))
  {
    hide Took, AllTrue, OffCubes, Product, JoinCount, Matches, MatchCount, Members;
    if rows != [] {
      var residual := OffCubes(filters, Members(cubes));
      JoinAtLeast(eval, filters, rows[1..], joins, cubes, tables);
      JoinCountExact(eval, filters, rows[0], joins, cubes, tables);
      ProductPositive(eval, rows[0], joins, tables, 0);
      assert rows == [rows[0]] + rows[1..];
      var n := JoinCount(eval, filters, rows[0], joins, tables, []);
      assert n == 1 ==> Repeat(rows[0], n) == [rows[0]];
    }
  }

  /**
    The staged rewrite returns the inner join's rows, row for row, exactly when
    no surviving row has two matches in a rewritten cube.
  */
  lemma JoinIsSurvivorsIff(eval: Eval, filters: seq<Filter>, rows: seq<Row>, joins: seq<SemiJoinSpec>, cubes: seq<string>, tables: seq<seq<Row>>)
    requires Took(filters, joins, cubes) && |joins| == |tables|
    ensures var residual := OffCubes(filters, Members(cubes));
            JoinRows(eval, filters, rows, joins, tables) == Survivors(eval, residual, rows, joins, tables) <==>
            JoinsOnce(eval, residual, rows, joins, tables)
  {
    hide *;
    JoinAtLeast(eval, filters, rows, joins, cubes, tables);
  }

  /** No two rows of a table share a key that is present. */
  predicate UniqueKeys(j: SemiJoinSpec, table: seq<Row>) {
    forall i, k | 0 <= i < k < |table| :: Get(table[i], j.select) != Get(table[k], j.select) || Get(table[i], j.select) == None
  }

  lemma {:induction false} UniqueMatches(eval: Eval, row: Row, j: SemiJoinSpec, table: seq<Row>)
    requires UniqueKeys(j, table)
    ensures MatchCount(eval, row, j, table) <= 1
  {
    hide AllTrue;
    if table != [] {
      UniqueMatches(eval, row, j, table[1..]);
      MatchCounted(eval, row, j, table[1..]);
      if KeyMatch(row, j, table[0]) {
        forall s | s in table[1..] ensures !KeyMatch(row, j, s) {
          var k :| 0 <= k < |table| - 1 && table[1..][k] == s;
          assert table[k + 1] == s;
        }
      }
    }
  }

  /**
    The planned query, run in stages, against the query it was planned from: a
    row survives iff each rewritten cube has a row with its key that makes all
    of that cube's filters true, and with unique foreign keys the result is the
    inner join with every original filter, row for row.
  */
  lemma PlannedQueryMeaning(
    eval: Eval, q: Query, catalog: Catalog, bridges: seq<Bridge>, s: Settings, rows: seq<Row>, tables: seq<seq<Row>>, stages: seq<Stage>)
    requires var r := RoutingOf(q, catalog, bridges, s);
             r.injected != [] && AllDeliver(eval, r.injected, tables, stages)
    ensures AllFit(stages)
    ensures var r := RoutingOf(q, catalog, bridges, s);
            var planned := Rewritten(q, r);
            Surviving(eval, planned.filters, stages, rows) == Survivors(eval, planned.filters, rows, r.injected, tables)
    ensures var r := RoutingOf(q, catalog, bridges, s);
            (forall i | 0 <= i < |r.injected| :: UniqueKeys(r.injected[i], tables[i])) ==>
              Surviving(eval, Rewritten(q, r).filters, stages, rows) == JoinRows(eval, q.filters, rows, r.injected, tables)
  {
    hide RoutingOf, Took, OffCubes, Delivers, UniqueKeys, Survivors, JoinRows, Surviving, Fits, MatchCount, Matches, AllTrue;
    var r := RoutingOf(q, catalog, bridges, s);
    RewriteTakes(q, catalog, bridges, s);
    StagesFit(eval, r.injected, tables, stages);
    var residual := OffCubes(q.filters, Members(r.pushed));
    StagedIsSurvivors(eval, residual, rows, r.injected, tables, stages);
    JoinIsSurvivorsIff(eval, q.filters, rows, r.injected, r.pushed, tables);
    if forall i | 0 <= i < |r.injected| :: UniqueKeys(r.injected[i], tables[i]) {
      forall row, i | row in rows && Survives(eval, residual, row, r.injected, tables) && 0 <= i < |r.injected|
        ensures MatchCount(eval, row, r.injected[i], tables[i]) == 1
      {
        UniqueMatches(eval, row, r.injected[i], tables[i]);
        MatchCounted(eval, row, r.injected[i], tables[i]);
      }
      assert JoinsOnce(eval, residual, rows, r.injected, tables);
    }
  }
}
