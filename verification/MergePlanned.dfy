/** When the merge of a query the planner rewrites can be planned, and as which joins. */
module MergePlanned {

  /*
    The planner looks at one foreign cube at a time, the merge at one backend at
    a time.  They meet when every rewritten cube has a backend and a bridge of
    its own.
  */

  import opened Sequences
  import opened Wrappers
  import opened Spec
  import opened AutoPlan
  import opened AutoPlanMeaning
  import opened MergeJoins

  // ------------------------------------------------------------------- counting

  lemma {:induction false} OnceEach<T(!new)>(s: seq<T>)
    requires Distinct(s)
    ensures forall x :: multiset(s)[x] <= 1
  {
    if s != [] {
      var n := |s| - 1;
      OnceEach(s[..n]);
      assert s == s[..n] + [s[n]];
      assert s[n] !in s[..n];
    }
  }

  /** Different elements of a list are no more than it has; if as many, they are all of it. */
  lemma Pigeonhole<T(!new)>(few: seq<T>, many: seq<T>)
    requires Distinct(few) && forall x | x in few :: x in many
    ensures |few| <= |many|
    ensures |few| == |many| ==> multiset(few) == multiset(many)
  {
    OnceEach(few);
    forall x ensures multiset(few)[x] <= multiset(many)[x] {
      if x in few {
        assert x in many;
      }
    }
    assert multiset(few) <= multiset(many);
    var rest := multiset(many) - multiset(few);
    assert multiset(many) == multiset(few) + rest;
    assert |multiset(few)| == |few| && |multiset(many)| == |many|;
    if |few| == |many| {
      assert |rest| == 0;
    }
  }

  function ElementsOf<T>(s: seq<T>): set<T> {
    set x | x in s
  }

  lemma {:induction false} CountElements<T(!new)>(s: seq<T>)
    ensures |ElementsOf(s)| <= |s| && (|ElementsOf(s)| == |s| <==> Distinct(s))
  {
    if s != [] {
      var n := |s| - 1;
      CountElements(s[..n]);
      assert s == s[..n] + [s[n]];
      assert ElementsOf(s) == ElementsOf(s[..n]) + {s[n]};
      if s[n] in s[..n] {
        assert ElementsOf(s) == ElementsOf(s[..n]);
      }
    }
  }

  // ------------------------------------------------------------ the routed bridges

  function BackendsOf(catalog: Catalog): Backends {
    map c | c in catalog :: catalog[c].dialect
  }

  /** The backends of some cubes, cube by cube. */
  function DialectsOf(catalog: Catalog, cubes: seq<string>): (ds: seq<string>)
    requires forall c | c in cubes :: c in catalog
    ensures |ds| == |cubes| && forall i | 0 <= i < |ds| :: ds[i] == catalog[cubes[i]].dialect
  {
    seq(|cubes|, i requires 0 <= i < |cubes| => catalog[cubes[i]].dialect)
  }

  /** A cube the planner pushed, with the bridge it chose and the semi-join it made. */
  predicate PushedBy(q: Query, catalog: Catalog, bridges: seq<Bridge>, primary: string, cube: string, join: SemiJoinSpec) {
    && IsForeign(q, catalog, primary, cube) && cube in Named(q.filters)
    && var b := BridgeToKept(bridges, cube, PrimaryKept(q, catalog, primary));
       b.Some? && (join.dimension, join.select) == Orient(b.value, cube)
  }

  lemma {:induction false} RoutingPushes(q: Query, catalog: Catalog, bridges: seq<Bridge>, s: Settings, primary: string, foreign: seq<string>)
    requires forall c | c in foreign :: IsForeign(q, catalog, primary, c) && c in Named(q.filters)
    ensures var r := RouteAll(q, catalog, bridges, s, primary, foreign);
            |r.injected| == |r.pushed| &&
            forall i | 0 <= i < |r.pushed| :: PushedBy(q, catalog, bridges, primary, r.pushed[i], r.injected[i])
  {
    hide IsForeign, Named, PrimaryKept, OnCube, Decide, Orient, BridgeToKept, AllDistributive;
    if foreign != [] {
      RoutingPushes(q, catalog, bridges, s, primary, foreign[..|foreign| - 1]);
    }
  }

  /** What the planner pushed, cube by cube. */
  lemma PlanPushes(q: Query, catalog: Catalog, bridges: seq<Bridge>, s: Settings)
    requires RoutingOf(q, catalog, bridges, s).injected != []
    ensures var r := RoutingOf(q, catalog, bridges, s);
            PrimaryDialect(q, catalog).Some? && |r.injected| == |r.pushed| && Distinct(r.pushed) &&
            forall i | 0 <= i < |r.pushed| :: PushedBy(q, catalog, bridges, PrimaryDialect(q, catalog).value, r.pushed[i], r.injected[i])
  {
    hide PushedBy, RouteAll, Named, PrimaryDialect;
    RewriteTakes(q, catalog, bridges, s);
    var primary := PrimaryDialect(q, catalog);
    RoutingPushes(q, catalog, bridges, s, primary.value, Foreign(q, catalog, primary.value, Named(q.filters)));
  }

  /** Every cube a bridge of the merge touches is on the primary backend or pushed, and the planner's bridges are among them. */
  predicate Federates(q: Query, catalog: Catalog, bridges: seq<Bridge>, primary: string, pushed: seq<string>, merged: seq<Bridge>) {
    && (forall b | b in merged ::
          && b.leftCube in catalog && b.rightCube in catalog && catalog[b.leftCube].dialect != catalog[b.rightCube].dialect
          && (catalog[b.leftCube].dialect == primary || b.leftCube in pushed)
          && (catalog[b.rightCube].dialect == primary || b.rightCube in pushed))
    && forall c | c in pushed ::
         BridgeToKept(bridges, c, PrimaryKept(q, catalog, primary)).Some? &&
         BridgeToKept(bridges, c, PrimaryKept(q, catalog, primary)).value in merged
  }

  function RouteBridges(q: Query, catalog: Catalog, bridges: seq<Bridge>, primary: string, pushed: seq<string>): (bs: seq<Bridge>)
    requires forall c | c in pushed :: BridgeToKept(bridges, c, PrimaryKept(q, catalog, primary)).Some?
    ensures |bs| == |pushed| && forall i | 0 <= i < |bs| :: bs[i] == BridgeToKept(bridges, pushed[i], PrimaryKept(q, catalog, primary)).value
  {
    seq(|pushed|, i requires 0 <= i < |pushed| => BridgeToKept(bridges, pushed[i], PrimaryKept(q, catalog, primary)).value)
  }

  /** Different cubes are routed over different bridges. */
  lemma RouteBridgesDiffer(q: Query, catalog: Catalog, bridges: seq<Bridge>, primary: string, pushed: seq<string>)
    requires Distinct(pushed) && forall c | c in pushed :: IsForeign(q, catalog, primary, c)
    requires forall c | c in pushed :: BridgeToKept(bridges, c, PrimaryKept(q, catalog, primary)).Some?
    ensures Distinct(RouteBridges(q, catalog, bridges, primary, pushed))
  {
    hide BridgeToKept, KeptCubes;
    var bs := RouteBridges(q, catalog, bridges, primary, pushed);
    forall i, j | 0 <= i < j < |bs| ensures bs[i] != bs[j] {
      assert pushed[i] in pushed && pushed[j] in pushed && pushed[i] != pushed[j];
      assert Connects(bs[i], pushed[i], PrimaryKept(q, catalog, primary));
      assert Connects(bs[j], pushed[j], PrimaryKept(q, catalog, primary));
    }
  }

  /** What the planner's work leaves the merge to plan. */
  predicate Merging(q: Query, catalog: Catalog, bridges: seq<Bridge>, primary: string, r: Routing, merged: seq<Bridge>) {
    && |r.injected| == |r.pushed| && Distinct(r.pushed) && Federates(q, catalog, bridges, primary, r.pushed, merged)
    && forall i | 0 <= i < |r.pushed| :: PushedBy(q, catalog, bridges, primary, r.pushed[i], r.injected[i])
  }

  /** Every rewritten cube has a backend and a bridge of its own. */
  predicate OneBridgeEach(catalog: Catalog, pushed: seq<string>, merged: seq<Bridge>)
    requires forall c | c in pushed :: c in catalog
  {
    |merged| == |pushed| && Distinct(DialectsOf(catalog, pushed))
  }

  lemma MergingPlaces(q: Query, catalog: Catalog, bridges: seq<Bridge>, primary: string, r: Routing, merged: seq<Bridge>)
    requires Merging(q, catalog, bridges, primary, r, merged)
    ensures AllPlaced(BackendsOf(catalog), merged) && forall c | c in r.pushed :: c in catalog && IsForeign(q, catalog, primary, c)
  {
    hide KeptCubes, PrimaryKept, BridgeToKept, Named, Orient;
    forall c | c in r.pushed ensures IsForeign(q, catalog, primary, c) {
      var i :| 0 <= i < |r.pushed| && r.pushed[i] == c;
      assert PushedBy(q, catalog, bridges, primary, r.pushed[i], r.injected[i]);
    }
  }

  lemma RouteBridgeEnds(q: Query, catalog: Catalog, bridges: seq<Bridge>, primary: string, cube: string)
    requires IsForeign(q, catalog, primary, cube) && BridgeToKept(bridges, cube, PrimaryKept(q, catalog, primary)).Some?
    ensures var b := BridgeToKept(bridges, cube, PrimaryKept(q, catalog, primary)).value;
            b.leftCube in catalog && b.rightCube in catalog &&
            ((b.leftCube == cube && catalog[b.rightCube].dialect == primary) || (b.rightCube == cube && catalog[b.leftCube].dialect == primary))
  {
    hide BridgeToKept, KeptCubes;
    assert Connects(BridgeToKept(bridges, cube, PrimaryKept(q, catalog, primary)).value, cube, PrimaryKept(q, catalog, primary));
  }

  /** The bridges touch the primary backend and those of the pushed cubes. */
  lemma MergingEnds(q: Query, catalog: Catalog, bridges: seq<Bridge>, primary: string, r: Routing, merged: seq<Bridge>)
    requires Merging(q, catalog, bridges, primary, r, merged)
    ensures AllPlaced(BackendsOf(catalog), merged) && forall c | c in r.pushed :: c in catalog
    ensures {primary} + Ends(BackendsOf(catalog), merged) == {primary} + ElementsOf(DialectsOf(catalog, r.pushed))
    ensures primary !in DialectsOf(catalog, r.pushed) && Linked(BackendsOf(catalog), merged, primary)
  {
    hide IsForeign, BridgeToKept, PushedBy, PrimaryKept;
    MergingPlaces(q, catalog, bridges, primary, r, merged);
    var backends, ds := BackendsOf(catalog), DialectsOf(catalog, r.pushed);
    forall d | d in ds ensures d in Ends(backends, merged) {
      var i :| 0 <= i < |ds| && ds[i] == d;
      RouteBridgeEnds(q, catalog, bridges, primary, r.pushed[i]);
    }
    forall d | d in Ends(backends, merged) ensures d == primary || d in ds {
      var b :| b in merged && (backends[b.leftCube] == d || backends[b.rightCube] == d);
      var c := if backends[b.leftCube] == d then b.leftCube else b.rightCube;
      if d != primary {
        var i :| 0 <= i < |r.pushed| && r.pushed[i] == c;
        assert ds[i] == d;
      }
    }
    NotPrimary(q, catalog, primary, r.pushed);
    forall part | primary in part && Closed(backends, merged, part) ensures Ends(backends, merged) <= part {
      forall d | d in ds ensures d in part {
        var i :| 0 <= i < |ds| && ds[i] == d;
        RouteBridgeEnds(q, catalog, bridges, primary, r.pushed[i]);
        assert BridgeToKept(bridges, r.pushed[i], PrimaryKept(q, catalog, primary)).value in merged;
      }
    }
  }

  lemma NotPrimary(q: Query, catalog: Catalog, primary: string, pushed: seq<string>)
    requires forall c | c in pushed :: c in catalog && IsForeign(q, catalog, primary, c)
    ensures primary !in DialectsOf(catalog, pushed)
  {
    hide KeptCubes;
  }

  /**
    The merge of a query the planner rewrites is planned exactly when every
    rewritten cube has a backend and a bridge of its own.
  */
  lemma MergeIsPlannedIff(q: Query, catalog: Catalog, bridges: seq<Bridge>, primary: string, r: Routing, merged: seq<Bridge>)
    requires Merging(q, catalog, bridges, primary, r, merged)
    ensures AllPlaced(BackendsOf(catalog), merged) && forall c | c in r.pushed :: c in catalog
    ensures TreeFrom(BackendsOf(catalog), merged, primary) <==> OneBridgeEach(catalog, r.pushed, merged)
  {
    hide Federates, PushedBy, IsForeign, Ends, Linked;
    MergingEnds(q, catalog, bridges, primary, r, merged);
    var ds := DialectsOf(catalog, r.pushed);
    CountElements(ds);
    MergingRoutes(q, catalog, bridges, primary, r, merged);
    assert |{primary} + ElementsOf(ds)| == 1 + |ElementsOf(ds)|;
  }

  /** The routed bridges are among the merge's, so those are no fewer than the pushed cubes; if as many, they are the same. */
  lemma MergingRoutes(q: Query, catalog: Catalog, bridges: seq<Bridge>, primary: string, r: Routing, merged: seq<Bridge>)
    requires Merging(q, catalog, bridges, primary, r, merged)
    ensures |r.pushed| <= |merged| && forall c | c in r.pushed :: BridgeToKept(bridges, c, PrimaryKept(q, catalog, primary)).Some?
    ensures |r.pushed| == |merged| ==> multiset(RouteBridges(q, catalog, bridges, primary, r.pushed)) == multiset(merged)
  {
    hide IsForeign, BridgeToKept, PrimaryKept, PushedBy;
    MergingPlaces(q, catalog, bridges, primary, r, merged);
    RouteBridgesDiffer(q, catalog, bridges, primary, r.pushed);
    Pigeonhole(RouteBridges(q, catalog, bridges, primary, r.pushed), merged);
  }

  // ------------------------------------------------------------- the planned joins

  /** The join the merge makes for the i-th rewritten cube: its fragment restricts the primary one. */
  function JoinFor(catalog: Catalog, primary: string, r: Routing, i: nat): MergeJoin
    requires i < |r.pushed| == |r.injected| && r.pushed[i] in catalog
  {
    MergeJoin(primary, r.injected[i].dimension, catalog[r.pushed[i]].dialect, r.injected[i].select, true)
  }

  lemma AlongRoute(q: Query, catalog: Catalog, bridges: seq<Bridge>, primary: string, r: Routing, restricting: set<string>, i: nat, j: MergeJoin)
    requires i < |r.pushed| == |r.injected| && PushedBy(q, catalog, bridges, primary, r.pushed[i], r.injected[i])
    requires r.pushed[i] in catalog && r.pushed[i] in restricting && j.added != primary
    requires var b := BridgeToKept(bridges, r.pushed[i], PrimaryKept(q, catalog, primary)).value;
             b.leftCube in catalog && b.rightCube in catalog && Along(BackendsOf(catalog), restricting, b, j)
    ensures j == JoinFor(catalog, primary, r, i)
  {
    hide BridgeToKept, PrimaryKept, Named, IsForeign;
    RouteBridgeEnds(q, catalog, bridges, primary, r.pushed[i]);
  }

  /** The planned joins are exactly the injected semi-joins': same keys, each a restriction of the primary fragment. */
  lemma JoinsAreInjected(
    q: Query, catalog: Catalog, bridges: seq<Bridge>, primary: string, r: Routing, merged: seq<Bridge>, restricting: set<string>,
    joins: seq<MergeJoin>, used: seq<Bridge>)
    requires Merging(q, catalog, bridges, primary, r, merged) && |merged| == |r.pushed|
    requires AllPlaced(BackendsOf(catalog), merged) && IsJoinPlan(BackendsOf(catalog), merged, primary, restricting, joins, used)
    requires forall c | c in r.pushed :: c in restricting
    ensures forall c | c in r.pushed :: c in catalog
    ensures forall j :: j in joins <==> exists i: nat | i < |r.pushed| :: j == JoinFor(catalog, primary, r, i)
  {
    hide IsForeign, BridgeToKept, PrimaryKept, Along, Federates, PushedBy, AllPlaced;
    MergingPlaces(q, catalog, bridges, primary, r, merged);
    MergingRoutes(q, catalog, bridges, primary, r, merged);
    var bs := RouteBridges(q, catalog, bridges, primary, r.pushed);
    SameMembers(bs, used);
    forall k | 0 <= k < |joins| ensures exists i: nat | i < |r.pushed| :: joins[k] == JoinFor(catalog, primary, r, i) {
      assert used[k] in bs;
      var i :| 0 <= i < |bs| && bs[i] == used[k];
      JoinAt(q, catalog, bridges, primary, r, merged, restricting, joins, used, i, k);
    }
    forall i: nat | i < |r.pushed| ensures JoinFor(catalog, primary, r, i) in joins {
      assert bs[i] in used;
      var k :| 0 <= k < |used| && used[k] == bs[i];
      JoinAt(q, catalog, bridges, primary, r, merged, restricting, joins, used, i, k);
      assert joins[k] in joins;
    }
  }

  lemma JoinAt(
    q: Query, catalog: Catalog, bridges: seq<Bridge>, primary: string, r: Routing, merged: seq<Bridge>, restricting: set<string>,
    joins: seq<MergeJoin>, used: seq<Bridge>, i: nat, k: nat)
    requires Merging(q, catalog, bridges, primary, r, merged) && AllPlaced(BackendsOf(catalog), merged)
    requires IsJoinPlan(BackendsOf(catalog), merged, primary, restricting, joins, used)
    requires forall c | c in r.pushed :: c in restricting && c in catalog
    requires i < |r.pushed| && k < |joins| && used[k] == BridgeToKept(bridges, r.pushed[i], PrimaryKept(q, catalog, primary)).value
    ensures joins[k] == JoinFor(catalog, primary, r, i)
  {
    hide IsForeign, BridgeToKept, PrimaryKept, Along, Federates, PushedBy;
    assert PushedBy(q, catalog, bridges, primary, r.pushed[i], r.injected[i]);
    assert used[k] in merged;
    AlongRoute(q, catalog, bridges, primary, r, restricting, i, joins[k]);
  }
}
