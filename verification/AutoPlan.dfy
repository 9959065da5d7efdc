/** The automatic planner for filters on cubes of another backend. */
module AutoPlan {

  /*
    Each such cube's filters either move, all together, into the inner query of an
    injected semi-join or stay where they are.
  */

  import opened Wrappers
  import opened Spec

  datatype Cube = Cube(dialect: string, measures: seq<(string, string)>, sizeHint: Option<int>)

  type Catalog = map<string, Cube>

  /** A simple key equality between two cubes of different backends. */
  datatype Bridge = Bridge(leftCube: string, leftKey: string, rightCube: string, rightKey: string)

  /** `dimension IN (SELECT select ... WHERE source)`. */
  datatype SemiJoinSpec = SemiJoinSpec(dimension: string, select: string, source: seq<Filter>)

  datatype Query = Query(
    measures: seq<string>, dimensions: seq<string>, time: Option<string>, filters: seq<Filter>,
    semiJoins: seq<SemiJoinSpec>, where: Option<Expr>, compare: Option<string>)

  datatype Reason = NotDistributive | Selective | Broad(hint: int) | Small(known: Option<int>)

  datatype Strategy = Push | Merge

  datatype Decision = Decision(cube: string, strategy: Strategy, reason: Reason)

  datatype Plan = Plan(query: Query, decisions: seq<Decision>)

  datatype Settings = Settings(limit: int, lookups: set<string>)

  // ----------------------------------------------------------------- references

  /** The part of a reference before its first dot. */
  function CubeOf(reference: string): string {
    if reference == "" || reference[0] == '.' then "" else [reference[0]] + CubeOf(reference[1..])
  }

  /** The part after the first dot, or all of it. */
  function FieldOf(reference: string): string {
    if |CubeOf(reference)| < |reference| then AfterDot(reference) else reference
  }

  function AfterDot(reference: string): string {
    if reference == "" then "" else if reference[0] == '.' then reference[1..] else AfterDot(reference[1..])
  }

  lemma {:induction false} CubeOfQualified(cube: string, field: string)
    requires '.' !in cube
    ensures CubeOf(cube + "." + field) == cube
  {
    var whole := cube + "." + field;
    if cube != "" {
      assert whole[1..] == cube[1..] + "." + field;
      CubeOfQualified(cube[1..], field);
    }
  }

  function CubesOf(references: seq<string>): set<string> {
    set r | r in references :: CubeOf(r)
  }

  // ------------------------------------------------------------------ measures

  const DISTRIBUTIVE := {"sum", "count", "avg"}

  function Aggregate(measures: seq<(string, string)>, name: string): Option<string> {
    if measures == [] then None
    else if measures[0].0 == name then Some(measures[0].1)
    else Aggregate(measures[1..], name)
  }

  predicate IsDistributive(catalog: Catalog, reference: string) {
    CubeOf(reference) in catalog &&
    var agg := Aggregate(catalog[CubeOf(reference)].measures, FieldOf(reference));
    agg.Some? && agg.value in DISTRIBUTIVE
  }

  predicate AllDistributive(catalog: Catalog, measures: seq<string>) {
    forall m | m in measures :: IsDistributive(catalog, m)
  }

  predicate IsSelective(s: Settings, f: Filter) {
    f.op in {Equal, In} || f.dimension in s.lookups
  }

  function Decide(s: Settings, hint: Option<int>, filters: seq<Filter>, distributive: bool): (Strategy, Reason) {
    if !distributive then (Push, NotDistributive)
    else if forall f | f in filters :: IsSelective(s, f) then (Push, Selective)
    else if hint.Some? && hint.value > s.limit then (Merge, Broad(hint.value))
    else (Push, Small(hint))
  }

  // -------------------------------------------------------------------- bridges

  predicate Connects(b: Bridge, foreign: string, kept: set<string>) {
    (b.leftCube == foreign && b.rightCube != foreign && b.rightCube in kept) ||
    (b.rightCube == foreign && b.leftCube != foreign && b.leftCube in kept)
  }

  function BridgeToKept(bridges: seq<Bridge>, foreign: string, kept: set<string>): (b: Option<Bridge>)
    ensures b.Some? ==> b.value in bridges && Connects(b.value, foreign, kept)
    ensures b.None? ==> forall x | x in bridges :: !Connects(x, foreign, kept)
  {
    if bridges == [] then None
    else if Connects(bridges[0], foreign, kept) then Some(bridges[0])
    else BridgeToKept(bridges[1..], foreign, kept)
  }

  /** The outer key on the kept side and the inner key on the foreign side. */
  function Orient(b: Bridge, foreign: string): (string, string) {
    if b.leftCube == foreign then (b.rightCube + "." + b.rightKey, b.leftCube + "." + b.leftKey)
    else (b.leftCube + "." + b.leftKey, b.rightCube + "." + b.rightKey)
  }

  // ------------------------------------------------------------ filters by cube

  function OnCube(filters: seq<Filter>, cube: string): seq<Filter> {
    if filters == [] then [] else
      var n := |filters| - 1;
      OnCube(filters[..n], cube) + if CubeOf(filters[n].dimension) == cube then [filters[n]] else []
  }

  function OffCubes(filters: seq<Filter>, cubes: set<string>): seq<Filter> {
    if filters == [] then [] else
      var n := |filters| - 1;
      OffCubes(filters[..n], cubes) + if CubeOf(filters[n].dimension) in cubes then [] else [filters[n]]
  }

  /** The cubes the filters name, in order of first appearance. */
  function Named(filters: seq<Filter>): seq<string> {
    if filters == [] then [] else
      var n := |filters| - 1;
      var before := Named(filters[..n]);
      var cube := CubeOf(filters[n].dimension);
      if cube in before then before else before + [cube]
  }

  /** Positions of a cube's filters: the objects a group holds. */
  function Positions(filters: seq<Filter>, cube: string): (ps: seq<nat>)
    ensures forall i | 0 <= i < |ps| :: ps[i] < |filters|
  {
    if filters == [] then [] else
      var n := |filters| - 1;
      Positions(filters[..n], cube) + if CubeOf(filters[n].dimension) == cube then [n] else []
  }

  lemma {:induction false} PositionsExact(filters: seq<Filter>, cube: string)
    ensures forall p: nat :: p in Positions(filters, cube) <==> p < |filters| && CubeOf(filters[p].dimension) == cube
  {
    hide CubeOf;
    if filters != [] {
      PositionsExact(filters[..|filters| - 1], cube);
    }
  }

  function At(filters: seq<Filter>, positions: seq<nat>): (fs: seq<Filter>)
    requires forall i | 0 <= i < |positions| :: positions[i] < |filters|
  {
    if positions == [] then [] else
      var n := |positions| - 1;
      At(filters, positions[..n]) + [filters[positions[n]]]
  }

  lemma {:induction false} AtPrefix(filters: seq<Filter>, n: nat, positions: seq<nat>)
    requires n <= |filters| && forall i | 0 <= i < |positions| :: positions[i] < n
    ensures At(filters, positions) == At(filters[..n], positions)
  {
    if positions != [] {
      AtPrefix(filters, n, positions[..|positions| - 1]);
    }
  }

  lemma {:induction false} AtPositions(filters: seq<Filter>, cube: string)
    ensures At(filters, Positions(filters, cube)) == OnCube(filters, cube)
  {
    hide CubeOf;
    if filters != [] {
      var n := |filters| - 1;
      AtPositions(filters[..n], cube);
      var before := Positions(filters[..n], cube);
      AtPrefix(filters, n, before);
      if CubeOf(filters[n].dimension) == cube {
        assert (before + [n])[..|before|] == before;
      } else {
        assert before + [] == before;
      }
    }
  }

  function Group(groups: map<string, seq<nat>>, cube: string): seq<nat> {
    if cube in groups then groups[cube] else []
  }

  ghost predicate Grouped(filters: seq<Filter>, groups: map<string, seq<nat>>) {
    forall c :: Group(groups, c) == Positions(filters, c)
  }

  lemma GroupMore(filters: seq<Filter>, i: nat, groups: map<string, seq<nat>>)
    requires i < |filters| && Grouped(filters[..i], groups)
    ensures var cube := CubeOf(filters[i].dimension);
            Grouped(filters[..i + 1], groups[cube := Group(groups, cube) + [i]])
  {
    hide CubeOf;
    var cube := CubeOf(filters[i].dimension);
    var more := groups[cube := Group(groups, cube) + [i]];
    assert filters[..i + 1][..i] == filters[..i];
    forall c ensures Group(more, c) == Positions(filters[..i + 1], c) {
      assert Group(groups, c) == Positions(filters[..i], c);
    }
  }

  method GroupFilters(filters: seq<Filter>) returns (names: seq<string>, groups: map<string, seq<nat>>)
    ensures names == Named(filters) && groups.Keys == set c | c in names
    ensures Grouped(filters, groups)
  {
    hide CubeOf, Grouped;
    names, groups := [], map[];
    NothingGrouped();
    for i := 0 to |filters|
      invariant names == Named(filters[..i]) && groups.Keys == set c | c in names
      invariant Grouped(filters[..i], groups)
    {
      assert filters[..i + 1][..i] == filters[..i];
      GroupMore(filters, i, groups);
      var cube := CubeOf(filters[i].dimension);
      if cube !in groups {
        names := names + [cube];
      }
      groups := groups[cube := Group(groups, cube) + [i]];
    }
    assert filters[..|filters|] == filters;
  }

  lemma NothingGrouped()
    ensures Grouped([], map[])
  {
  }

  // ------------------------------------------------------------------- planning

  /** The backends of the measures' cubes, measure by measure. */
  function Dialects(measures: seq<string>, catalog: Catalog): seq<string> {
    if measures == [] then [] else
      var rest := Dialects(measures[1..], catalog);
      if CubeOf(measures[0]) in catalog then [catalog[CubeOf(measures[0])].dialect] + rest else rest
  }

  /** The one backend of the measures' cubes, if there is exactly one. */
  function PrimaryDialect(q: Query, catalog: Catalog): Option<string> {
    var all := Dialects(q.measures, catalog);
    if all != [] && forall d | d in all :: d == all[0] then Some(all[0]) else None
  }

  function KeptCubes(q: Query): set<string> {
    CubesOf(q.measures) + CubesOf(q.dimensions) + if q.time.Some? then {CubeOf(q.time.value)} else {}
  }

  function PrimaryKept(q: Query, catalog: Catalog, primary: string): set<string> {
    set c | c in KeptCubes(q) && c in catalog && catalog[c].dialect == primary
  }

  predicate IsForeign(q: Query, catalog: Catalog, primary: string, cube: string) {
    cube !in KeptCubes(q) && cube in catalog && catalog[cube].dialect != primary
  }

  function Foreign(q: Query, catalog: Catalog, primary: string, names: seq<string>): (fs: seq<string>)
    ensures forall c :: c in fs <==> c in names && IsForeign(q, catalog, primary, c)
  {
    if names == [] then [] else
      var n := |names| - 1;
      Foreign(q, catalog, primary, names[..n]) + if IsForeign(q, catalog, primary, names[n]) then [names[n]] else []
  }

  /** What becomes of one foreign cube. */
  datatype Route = Deferred | Routed(decision: Decision, join: SemiJoinSpec)

  function RouteOf(q: Query, catalog: Catalog, bridges: seq<Bridge>, s: Settings, primary: string, cube: string): Route {
    var bridge := BridgeToKept(bridges, cube, PrimaryKept(q, catalog, primary));
    if bridge.None? || cube !in catalog then Deferred else
      var filters := OnCube(q.filters, cube);
      var (strategy, reason) := Decide(s, catalog[cube].sizeHint, filters, AllDistributive(catalog, q.measures));
      var (outer, inner) := Orient(bridge.value, cube);
      Routed(Decision(cube, strategy, reason), SemiJoinSpec(outer, inner, filters))
  }

  predicate Pushes(r: Route) {
    r.Routed? && r.decision.strategy == Push
  }

  datatype Routing = Routing(decisions: seq<Decision>, injected: seq<SemiJoinSpec>, pushed: seq<string>)

  function RouteAll(q: Query, catalog: Catalog, bridges: seq<Bridge>, s: Settings, primary: string, foreign: seq<string>): Routing {
    if foreign == [] then Routing([], [], []) else
      var n := |foreign| - 1;
      var before := RouteAll(q, catalog, bridges, s, primary, foreign[..n]);
      var route := RouteOf(q, catalog, bridges, s, primary, foreign[n]);
      Routing(before.decisions + (if route.Routed? then [route.decision] else []),
              before.injected + (if Pushes(route) then [route.join] else []),
              before.pushed + (if Pushes(route) then [foreign[n]] else []))
  }

  /** Queries the planner leaves to the federated compiler untouched. */
  predicate Defers(q: Query) {
    q.semiJoins != [] || q.where.Some? || q.compare.Some? || q.measures == [] || q.filters == []
  }

  function RoutingOf(q: Query, catalog: Catalog, bridges: seq<Bridge>, s: Settings): Routing {
    var primary := PrimaryDialect(q, catalog);
    if Defers(q) || primary.None? then Routing([], [], [])
    else RouteAll(q, catalog, bridges, s, primary.value, Foreign(q, catalog, primary.value, Named(q.filters)))
  }

  function Rewritten(q: Query, r: Routing): Query {
    if r.injected == [] then q
    else q.(filters := OffCubes(q.filters, set c | c in r.pushed), semiJoins := r.injected)
  }

  /** `bridges` are those found between the kept primary cubes and the foreign ones. */
  method PlanQuery(q: Query, catalog: Catalog, bridges: seq<Bridge>, s: Settings) returns (plan: Plan)
    ensures plan == Plan(Rewritten(q, RoutingOf(q, catalog, bridges, s)), RoutingOf(q, catalog, bridges, s).decisions)
  {
    hide KeptCubes, PrimaryKept, IsForeign, RouteAll, OffCubes, Named, CubeOf, PrimaryDialect, Foreign, Positions;
    if Defers(q) {
      return Plan(q, []);
    }
    var primary := PrimaryDialect(q, catalog);
    if primary.None? {
      return Plan(q, []);
    }
    var names, groups := GroupFilters(q.filters);
    var foreign := Foreign(q, catalog, primary.value, names);
    ForeignNamed(q, catalog, primary.value, names);
    var decisions, injected, consumed := RouteForeign(q, catalog, bridges, s, primary.value, foreign, groups);
    if injected == [] {
      return Plan(q, decisions);
    }
    var remaining := Remaining(q.filters, consumed, RouteAll(q, catalog, bridges, s, primary.value, foreign).pushed);
    return Plan(q.(filters := remaining, semiJoins := injected), decisions);
  }

  method RouteForeign(q: Query, catalog: Catalog, bridges: seq<Bridge>, s: Settings, primary: string, foreign: seq<string>,
                      groups: map<string, seq<nat>>)
    returns (decisions: seq<Decision>, injected: seq<SemiJoinSpec>, consumed: set<nat>)
    requires forall c | c in foreign :: c in catalog && c in groups
    requires Grouped(q.filters, groups)
    ensures decisions == RouteAll(q, catalog, bridges, s, primary, foreign).decisions
    ensures injected == RouteAll(q, catalog, bridges, s, primary, foreign).injected
    ensures Consumes(q.filters, RouteAll(q, catalog, bridges, s, primary, foreign).pushed, consumed)
  {
    hide Positions, Consumes, RouteOf;
    injected, decisions, consumed := [], [], {};
    ghost var pushed: seq<string> := [];
    assert Consumes(q.filters, pushed, consumed) by { NothingConsumed(q.filters); }
    for i := 0 to |foreign|
      invariant RouteAll(q, catalog, bridges, s, primary, foreign[..i]) == Routing(decisions, injected, pushed)
      invariant Consumes(q.filters, pushed, consumed)
    {
      assert foreign[..i + 1][..i] == foreign[..i];
      var cube := foreign[i];
      var route := RouteCube(q, catalog, bridges, s, primary, cube, Group(groups, cube));
      if route.Routed? {
        decisions := decisions + [route.decision];
        if route.decision.strategy == Push {
          injected := injected + [route.join];
          ConsumeMore(q.filters, pushed, consumed, cube);
          consumed := consumed + set p | p in Group(groups, cube);
          pushed := pushed + [cube];
        }
      }
    }
    assert foreign[..|foreign|] == foreign;
  }

  method RouteCube(q: Query, catalog: Catalog, bridges: seq<Bridge>, s: Settings, primary: string, cube: string, group: seq<nat>)
    returns (r: Route)
    requires cube in catalog && group == Positions(q.filters, cube)
    ensures r == RouteOf(q, catalog, bridges, s, primary, cube)
  {
    AtPositions(q.filters, cube);
    var bridge := BridgeToKept(bridges, cube, PrimaryKept(q, catalog, primary));
    if bridge.None? {
      return Deferred;
    }
    var filters := At(q.filters, group);
    var (strategy, reason) := Decide(s, catalog[cube].sizeHint, filters, AllDistributive(catalog, q.measures));
    var (outer, inner) := Orient(bridge.value, cube);
    return Routed(Decision(cube, strategy, reason), SemiJoinSpec(outer, inner, filters));
  }

  lemma ForeignNamed(q: Query, catalog: Catalog, primary: string, names: seq<string>)
    ensures forall c | c in Foreign(q, catalog, primary, names) :: c in catalog && c in names
  {
  }

  lemma NothingConsumed(filters: seq<Filter>)
    ensures Consumes(filters, [], {})
  {
  }

  /** Exactly the pushed cubes' filters are consumed, by identity. */
  ghost predicate Consumes(filters: seq<Filter>, pushed: seq<string>, consumed: set<nat>) {
    forall p: nat :: p in consumed <==> p < |filters| && CubeOf(filters[p].dimension) in pushed
  }

  lemma ConsumeMore(filters: seq<Filter>, pushed: seq<string>, consumed: set<nat>, cube: string)
    requires Consumes(filters, pushed, consumed)
    ensures Consumes(filters, pushed + [cube], consumed + set p | p in Positions(filters, cube))
  {
    hide CubeOf, Positions;
    PositionsExact(filters, cube);
  }

  method Remaining(filters: seq<Filter>, consumed: set<nat>, ghost pushed: seq<string>) returns (out: seq<Filter>)
    requires Consumes(filters, pushed, consumed)
    ensures out == OffCubes(filters, set c | c in pushed)
  {
    out := [];
    for i := 0 to |filters|
      invariant out == OffCubes(filters[..i], set c | c in pushed)
    {
      assert filters[..i + 1][..i] == filters[..i];
      if i !in consumed {
        out := out + [filters[i]];
      }
    }
    assert filters[..|filters|] == filters;
  }
}
