/** Which cubes the automatic planner decides on, and how. */
module AutoPlanDecisions {

  import opened Wrappers
  import opened Spec
  import opened AutoPlan

  // ------------------------------------------------------------- references

  /** A reference is a cube and a field around its first dot; one without a dot is both. */
  predicate RefersTo(reference: string, cube: string, field: string) {
    '.' !in cube && (reference == cube + "." + field || (reference == cube == field))
  }

  ghost predicate On(reference: string, cube: string) {
    exists field :: RefersTo(reference, cube, field)
  }

  lemma {:induction false} CubeAndField(reference: string)
    ensures RefersTo(reference, CubeOf(reference), FieldOf(reference))
  {
    if reference == "" {
    } else if reference[0] == '.' {
      assert reference == "" + "." + reference[1..];
    } else {
      CubeAndField(reference[1..]);
      assert [reference[0]] + reference[1..] == reference;
      var cube := CubeOf(reference[1..]);
      if reference[1..] == cube + "." + FieldOf(reference[1..]) && |cube| < |reference[1..]| {
        assert reference == [reference[0]] + cube + "." + FieldOf(reference);
      } else {
        assert reference[1..] == cube;
      }
    }
  }

  lemma {:induction false} OneReading(reference: string, cube: string, field: string)
    requires RefersTo(reference, cube, field)
    ensures CubeOf(reference) == cube && FieldOf(reference) == field
  {
    if reference == "" {
    } else if cube == "" {
      assert reference == "." + field;
    } else {
      assert reference[0] == cube[0] && cube == [cube[0]] + cube[1..];
      if reference == cube {
        OneReading(reference[1..], cube[1..], cube[1..]);
      } else {
        assert reference[1..] == cube[1..] + "." + field;
        OneReading(reference[1..], cube[1..], field);
      }
    }
  }

  lemma OnIff(reference: string, cube: string)
    ensures On(reference, cube) <==> CubeOf(reference) == cube
  {
    hide RefersTo;
    CubeAndField(reference);
    if field :| RefersTo(reference, cube, field) {
      OneReading(reference, cube, field);
    }
  }

  // ---------------------------------------------------------------- measures

  /** The reference's measure, the first of its name, is a sum, a count or an average. */
  ghost predicate Combines(catalog: Catalog, reference: string) {
    exists cube, field, k :: RefersTo(reference, cube, field) && cube in catalog && FirstNamed(catalog[cube].measures, field, k) &&
                             catalog[cube].measures[k].1 in ["sum", "count", "avg"]
  }

  predicate FirstNamed(measures: seq<(string, string)>, name: string, k: int) {
    0 <= k < |measures| && measures[k].0 == name && forall i | 0 <= i < k :: measures[i].0 != name
  }

  lemma {:induction false} AggregateIs(measures: seq<(string, string)>, name: string)
    ensures Aggregate(measures, name).Some? ==> exists k :: FirstNamed(measures, name, k) && measures[k].1 == Aggregate(measures, name).value
    ensures forall k :: FirstNamed(measures, name, k) ==> Aggregate(measures, name) == Some(measures[k].1)
  {
    if measures != [] {
      AggregateIs(measures[1..], name);
      if measures[0].0 == name {
        assert FirstNamed(measures, name, 0);
      } else {
        if k :| FirstNamed(measures[1..], name, k) && Some(measures[1..][k].1) == Aggregate(measures[1..], name) {
          assert forall i | 0 < i < k + 1 :: measures[i] == measures[1..][i - 1];
          assert FirstNamed(measures, name, k + 1);
        }
        forall k | FirstNamed(measures, name, k) ensures Aggregate(measures, name) == Some(measures[k].1) {
          assert measures[0] != measures[k];
          FirstNamedTail(measures, name, k);
        }
      }
    }
  }

  lemma FirstNamedTail(measures: seq<(string, string)>, name: string, k: int)
    requires FirstNamed(measures, name, k) && measures[0].0 != name
    ensures k > 0 && FirstNamed(measures[1..], name, k - 1)
  {
    assert forall i | 0 <= i < k - 1 :: measures[1..][i] == measures[i + 1];
  }

  lemma CombinesIff(catalog: Catalog, reference: string)
    ensures Combines(catalog, reference) <==> IsDistributive(catalog, reference)
  {
    hide RefersTo, FirstNamed, Aggregate;
    var cube, field := CubeOf(reference), FieldOf(reference);
    CubeAndField(reference);
    if cube in catalog {
      AggregateIs(catalog[cube].measures, field);
    }
    forall c, f | RefersTo(reference, c, f) ensures c == cube && f == field {
      OneReading(reference, c, f);
    }
    if k :| cube in catalog && FirstNamed(catalog[cube].measures, field, k) {
      NamedIndex(catalog[cube].measures, field, k);
    }
    assert forall a :: a in DISTRIBUTIVE <==> a in ["sum", "count", "avg"];
  }

  lemma NamedIndex(measures: seq<(string, string)>, name: string, k: int)
    requires FirstNamed(measures, name, k)
    ensures 0 <= k < |measures|
  {
  }

  // ---------------------------------------------------------------- the decisions

  /** The measures' cubes that the catalog has are all on one backend. */
  ghost predicate Sole(q: Query, catalog: Catalog, primary: string) {
    && (exists m, c :: m in q.measures && On(m, c) && c in catalog && catalog[c].dialect == primary)
    && forall m, c | m in q.measures && On(m, c) && c in catalog :: catalog[c].dialect == primary
  }

  /** A measure, a dimension or the time column is on the cube. */
  ghost predicate Outputs(q: Query, cube: string) {
    (exists r :: r in q.measures + q.dimensions && On(r, cube)) || (q.time.Some? && On(q.time.value, cube))
  }

  ghost predicate Hosts(q: Query, catalog: Catalog, primary: string, cube: string) {
    Outputs(q, cube) && cube in catalog && catalog[cube].dialect == primary
  }

  /** A bridge whose other side is put out on the primary backend. */
  ghost predicate Links(q: Query, catalog: Catalog, primary: string, b: Bridge, cube: string) {
    (b.leftCube == cube != b.rightCube && Hosts(q, catalog, primary, b.rightCube)) ||
    (b.rightCube == cube != b.leftCube && Hosts(q, catalog, primary, b.leftCube))
  }

  /** A cube of another backend that only filters name, with a bridge to the primary one. */
  ghost predicate Considered(q: Query, catalog: Catalog, bridges: seq<Bridge>, primary: string, cube: string) {
    && !Outputs(q, cube) && cube in catalog && catalog[cube].dialect != primary
    && (exists f :: f in q.filters && On(f.dimension, cube)) && exists b :: b in bridges && Links(q, catalog, primary, b, cube)
  }

  /** Every measure can be combined, some filter of the cube is broad, and the cube is known to be larger than the limit. */
  ghost predicate Merges(q: Query, catalog: Catalog, s: Settings, cube: string) {
    && (forall m | m in q.measures :: Combines(catalog, m))
    && (exists f :: f in q.filters && On(f.dimension, cube) && Broadly(s, f))
    && exists h :: cube in catalog && catalog[cube].sizeHint == Some(h) && h > s.limit
  }

  /** Neither an equality nor a membership test, and its dimension has no lookup. */
  predicate Broadly(s: Settings, f: Filter) {
    f.op != Equal && f.op != In && f.dimension !in s.lookups
  }

  /** The reason given, in the order of the checks. */
  ghost predicate Explains(q: Query, catalog: Catalog, s: Settings, d: Decision) {
    match d.reason
    case NotDistributive => exists m :: m in q.measures && !Combines(catalog, m)
    case Selective => (forall m | m in q.measures :: Combines(catalog, m)) && forall f | f in q.filters && On(f.dimension, d.cube) :: !Broadly(s, f)
    case Broad(h) => d.cube in catalog && catalog[d.cube].sizeHint == Some(h) && d.strategy == Merge
    case Small(known) =>
      && d.strategy == Push && d.cube in catalog && catalog[d.cube].sizeHint == known && (known.Some? ==> known.value <= s.limit)
      && (forall m | m in q.measures :: Combines(catalog, m)) && exists f :: f in q.filters && On(f.dimension, d.cube) && Broadly(s, f)
  }

  /** The first bridge that links the cube carries the semi-join: the inner key on the cube, the outer key on the other side. */
  ghost predicate Carries(q: Query, catalog: Catalog, bridges: seq<Bridge>, primary: string, cube: string, j: SemiJoinSpec) {
    exists k :: 0 <= k < |bridges| && Links(q, catalog, primary, bridges[k], cube) &&
                (forall i | 0 <= i < k :: !Links(q, catalog, primary, bridges[i], cube)) && KeysOf(bridges[k], cube, j)
  }

  predicate KeysOf(b: Bridge, cube: string, j: SemiJoinSpec) {
    var (inner, outer) := (j.select, j.dimension);
    if b.leftCube == cube then inner == b.leftCube + "." + b.leftKey && outer == b.rightCube + "." + b.rightKey
    else inner == b.rightCube + "." + b.rightKey && outer == b.leftCube + "." + b.leftKey
  }

  lemma OutputsIff(q: Query, cube: string)
    ensures Outputs(q, cube) <==> cube in KeptCubes(q)
  {
    hide On, CubeOf;
    forall r ensures On(r, cube) <==> CubeOf(r) == cube { OnIff(r, cube); }
  }

  lemma {:induction false} DialectsAre(measures: seq<string>, catalog: Catalog)
    ensures forall d :: d in Dialects(measures, catalog) <==> exists m :: m in measures && CubeOf(m) in catalog && catalog[CubeOf(m)].dialect == d
  {
    hide CubeOf;
    if measures != [] {
      DialectsAre(measures[1..], catalog);
      var all, first := Dialects(measures, catalog), CubeOf(measures[0]);
      assert measures[0] in measures && forall m :: m in measures <==> m == measures[0] || m in measures[1..];
      assert first in catalog ==> all[0] == catalog[first].dialect && all[1..] == Dialects(measures[1..], catalog);
      forall d ensures d in all <==> (first in catalog && catalog[first].dialect == d) || d in Dialects(measures[1..], catalog) {
      }
    }
  }

  lemma SoleIff(q: Query, catalog: Catalog, primary: string)
    ensures Sole(q, catalog, primary) <==> PrimaryDialect(q, catalog) == Some(primary)
  {
    hide On, CubeOf, Dialects;
    forall r, c ensures On(r, c) <==> CubeOf(r) == c { OnIff(r, c); }
    DialectsAre(q.measures, catalog);
    var all := Dialects(q.measures, catalog);
    assert Sole(q, catalog, primary) <==> primary in all && forall d | d in all :: d == primary by {
      assert forall m, c :: m in q.measures && On(m, c) && c in catalog ==> catalog[c].dialect in all;
    }
    if primary in all {
      assert all[0] in all;
    }
  }

  lemma LinksIff(q: Query, catalog: Catalog, primary: string, b: Bridge, cube: string)
    ensures Links(q, catalog, primary, b, cube) <==> Connects(b, cube, PrimaryKept(q, catalog, primary))
  {
    hide KeptCubes, Outputs;
    OutputsIff(q, b.leftCube);
    OutputsIff(q, b.rightCube);
  }

  lemma {:induction false} FirstBridge(bridges: seq<Bridge>, cube: string, kept: set<string>)
    requires BridgeToKept(bridges, cube, kept).Some?
    ensures exists k :: 0 <= k < |bridges| && bridges[k] == BridgeToKept(bridges, cube, kept).value && Connects(bridges[k], cube, kept) &&
                        forall i | 0 <= i < k :: !Connects(bridges[i], cube, kept)
  {
    hide Connects;
    if !Connects(bridges[0], cube, kept) {
      FirstBridge(bridges[1..], cube, kept);
      var k :| 0 <= k < |bridges[1..]| && bridges[1..][k] == BridgeToKept(bridges[1..], cube, kept).value && Connects(bridges[1..][k], cube, kept) &&
               forall i | 0 <= i < k :: !Connects(bridges[1..][i], cube, kept);
      assert bridges[k + 1] == bridges[1..][k];
      forall i | 0 <= i < k + 1 ensures !Connects(bridges[i], cube, kept) {
        if i > 0 {
          assert bridges[i] == bridges[1..][i - 1];
        }
      }
    }
  }

  lemma {:induction false} OnCubeIs(filters: seq<Filter>, cube: string)
    ensures forall f :: f in OnCube(filters, cube) <==> f in filters && CubeOf(f.dimension) == cube
  {
    hide CubeOf;
    if filters != [] {
      OnCubeIs(filters[..|filters| - 1], cube);
      assert filters == filters[..|filters| - 1] + [filters[|filters| - 1]];
    }
  }

  lemma RouteIs(q: Query, catalog: Catalog, bridges: seq<Bridge>, s: Settings, primary: string, cube: string)
    ensures var r := RouteOf(q, catalog, bridges, s, primary, cube);
            && (r.Routed? <==> cube in catalog && exists b :: b in bridges && Links(q, catalog, primary, b, cube))
            && (r.Routed? ==> r.decision.cube == cube && Carries(q, catalog, bridges, primary, cube, r.join))
  {
    hide Connects, Links, OnCube, AllDistributive, Decide, PrimaryKept;
    var kept := PrimaryKept(q, catalog, primary);
    forall b ensures Links(q, catalog, primary, b, cube) <==> Connects(b, cube, kept) { LinksIff(q, catalog, primary, b, cube); }
    if BridgeToKept(bridges, cube, kept).Some? {
      FirstBridge(bridges, cube, kept);
      if cube in catalog {
        var k :| 0 <= k < |bridges| && bridges[k] == BridgeToKept(bridges, cube, kept).value && Connects(bridges[k], cube, kept) &&
                 forall i | 0 <= i < k :: !Connects(bridges[i], cube, kept);
        assert KeysOf(bridges[k], cube, RouteOf(q, catalog, bridges, s, primary, cube).join);
      }
    }
  }

  lemma DecidedIs(q: Query, catalog: Catalog, bridges: seq<Bridge>, s: Settings, primary: string, cube: string)
    requires RouteOf(q, catalog, bridges, s, primary, cube).Routed?
    ensures var d := RouteOf(q, catalog, bridges, s, primary, cube).decision;
            (d.strategy == Merge <==> Merges(q, catalog, s, cube)) && Explains(q, catalog, s, d)
  {
    hide On, CubeOf, Combines, IsDistributive, OnCube, BridgeToKept, PrimaryKept, Orient;
    forall r ensures On(r, cube) <==> CubeOf(r) == cube { OnIff(r, cube); }
    forall m ensures Combines(catalog, m) <==> IsDistributive(catalog, m) { CombinesIff(catalog, m); }
    OnCubeIs(q.filters, cube);
    forall f | f in OnCube(q.filters, cube) ensures IsSelective(s, f) <==> !Broadly(s, f) {
    }
  }

  lemma {:induction false} RoutedExactly(q: Query, catalog: Catalog, bridges: seq<Bridge>, s: Settings, primary: string, foreign: seq<string>)
    ensures var r := RouteAll(q, catalog, bridges, s, primary, foreign);
            && (forall d :: d in r.decisions <==> exists c :: c in foreign && Decided(RouteOf(q, catalog, bridges, s, primary, c), d))
            && (forall c :: c in r.pushed <==> c in foreign && Pushes(RouteOf(q, catalog, bridges, s, primary, c)))
            && |r.injected| == |r.pushed|
            && forall i | 0 <= i < |r.pushed| :: Pushes(RouteOf(q, catalog, bridges, s, primary, r.pushed[i])) && r.injected[i] == RouteOf(q, catalog, bridges, s, primary, r.pushed[i]).join
  {
    hide RouteOf;
    if foreign != [] {
      var n := |foreign| - 1;
      RoutedExactly(q, catalog, bridges, s, primary, foreign[..n]);
      assert foreign == foreign[..n] + [foreign[n]];
    }
  }

  predicate Decided(r: Route, d: Decision) {
    r.Routed? && r.decision == d
  }

  lemma {:induction false} NamedAre(filters: seq<Filter>)
    ensures forall c :: c in Named(filters) <==> exists f :: f in filters && CubeOf(f.dimension) == c
  {
    hide CubeOf;
    if filters != [] {
      NamedAre(filters[..|filters| - 1]);
      assert filters == filters[..|filters| - 1] + [filters[|filters| - 1]];
    }
  }

  lemma ConsideredIff(q: Query, catalog: Catalog, bridges: seq<Bridge>, s: Settings, primary: string, cube: string)
    ensures Considered(q, catalog, bridges, primary, cube) <==>
            cube in Foreign(q, catalog, primary, Named(q.filters)) && RouteOf(q, catalog, bridges, s, primary, cube).Routed?
  {
    hide On, CubeOf, Named, KeptCubes, Outputs, Links, RouteOf;
    forall r ensures On(r, cube) <==> CubeOf(r) == cube { OnIff(r, cube); }
    NamedAre(q.filters);
    OutputsIff(q, cube);
    RouteIs(q, catalog, bridges, s, primary, cube);
  }

  /** Nothing but measures and filters, and some of each. */
  predicate Flat(q: Query) {
    q.semiJoins == [] && q.where == None && q.compare == None && |q.measures| > 0 && |q.filters| > 0
  }

  /**
    The plan decides on exactly the cubes to consider, merges exactly those that are broad, large and
    combinable, says why, and pushes the others into semi-joins over the first bridge.
  */
  lemma DecisionsAre(q: Query, catalog: Catalog, bridges: seq<Bridge>, s: Settings, cube: string)
    ensures var r := RoutingOf(q, catalog, bridges, s);
            && ((exists d :: d in r.decisions && d.cube == cube) <==>
                Flat(q) && exists primary :: Sole(q, catalog, primary) && Considered(q, catalog, bridges, primary, cube))
            && (forall d | d in r.decisions :: (d.strategy == Merge <==> Merges(q, catalog, s, d.cube)) && Explains(q, catalog, s, d))
            && (cube in r.pushed <==> exists d :: d in r.decisions && d.cube == cube && d.strategy == Push)
            && |r.injected| == |r.pushed|
            && forall i | 0 <= i < |r.pushed| ::
                 exists primary :: Sole(q, catalog, primary) && Carries(q, catalog, bridges, primary, r.pushed[i], r.injected[i])
  {
    hide Sole, Considered, Merges, Explains, Carries, RouteOf, RouteAll, Foreign, Named, PrimaryDialect;
    var r := RoutingOf(q, catalog, bridges, s);
    forall p ensures Sole(q, catalog, p) <==> PrimaryDialect(q, catalog) == Some(p) { SoleIff(q, catalog, p); }
    if Flat(q) && PrimaryDialect(q, catalog).Some? {
      var primary := PrimaryDialect(q, catalog).value;
      var foreign := Foreign(q, catalog, primary, Named(q.filters));
      RoutedExactly(q, catalog, bridges, s, primary, foreign);
      assert r == RouteAll(q, catalog, bridges, s, primary, foreign);
      ConsideredIff(q, catalog, bridges, s, primary, cube);
      RouteIs(q, catalog, bridges, s, primary, cube);
      forall d, c | Decided(RouteOf(q, catalog, bridges, s, primary, c), d)
        ensures d.cube == c && (d.strategy == Merge <==> Merges(q, catalog, s, c)) && Explains(q, catalog, s, d)
      {
        RouteIs(q, catalog, bridges, s, primary, c);
        DecidedIs(q, catalog, bridges, s, primary, c);
      }
      forall i | 0 <= i < |r.pushed| ensures Carries(q, catalog, bridges, primary, r.pushed[i], r.injected[i]) {
        RouteIs(q, catalog, bridges, s, primary, r.pushed[i]);
      }
      var route := RouteOf(q, catalog, bridges, s, primary, cube);
      if cube in foreign && route.Routed? {
        assert Decided(route, route.decision);
      }
    }
  }
}
