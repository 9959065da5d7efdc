/** When the populations of two built analyses read the same. */
module AnalysisPopulation {

  import opened Wrappers
  import opened Spec
  import opened SemanticGraph
  import opened AnalysisDraft
  import opened GraphReader
  import opened AnalysisBuilder
  import opened AnalysisAssembly
  import opened AnalysisOutputs
  import opened AnalysisResult
  import opened AnalysisBuild
  import opened AnalysisReading
  import opened AnalysisSoundness
  import Compare
  import GraphMeaning

  // -------------------------------------------------------------- predicate trees

  predicate SameField(f: Field, g: Field) {
    Canonical(f) == Canonical(g) && f.cube == g.cube && (f.kind.TimeDimension? <==> g.kind.TimeDimension?)
  }

  /** The same operator on the same field; lists of as many values. */
  predicate SameTest(f: Filter, x: Field, g: Filter, y: Field) {
    SameField(x, y) && f.op == g.op && (f.op == In || f.op == NotIn ==> |f.values| == |g.values|)
  }

  predicate SameTree(r: Resolver, e: Expr, s: Resolver, o: Expr)
    requires Resolves(r, e) && Resolves(s, o)
  {
    match (e, o)
    case (Leaf(f), Leaf(g)) => SameTest(f, Resolve(r, f.dimension).value, g, Resolve(s, g.dimension).value)
    case (Node(op, xs), Node(other, ys)) => op == other && |xs| == |ys| && forall i | 0 <= i < |xs| :: SameTree(r, xs[i], s, ys[i])
    case _ => false
  }

  lemma {:induction false} ExprDescsAt(r: Resolver, es: seq<Expr>, i: nat)
    requires (forall e | e in es :: Resolves(r, e)) && i < |es|
    ensures ExprDescs(r, es, "where")[i] == ExprDesc(r, es[i], "where")
  {
    hide ExprDesc;
    if i > 0 {
      ExprDescsAt(r, es[1..], i - 1);
    }
  }

  lemma TestIff(f: Filter, x: Field, g: Filter, y: Field)
    ensures FilterDesc(f, x, "where") == FilterDesc(g, y, "where") <==> SameTest(f, x, g, y)
  {
    hide Canonical;
    assert OpNamed(OpName(f.op)) == f.op && OpNamed(OpName(g.op)) == g.op;
    if FilterDesc(f, x, "where") == FilterDesc(g, y, "where") {
      assert RowFieldDesc(x) == RowFieldDesc(y);
    }
  }

  /** Predicate trees read the same iff they are the same tree of the same tests. */
  lemma {:induction false} TreeIff(r: Resolver, e: Expr, s: Resolver, o: Expr)
    requires Resolves(r, e) && Resolves(s, o)
    ensures ExprDesc(r, e, "where") == ExprDesc(s, o, "where") <==> SameTree(r, e, s, o)
    decreases e
  {
    hide Resolve, FilterDesc;
    match (e, o)
    case (Leaf(f), Leaf(g)) => {
      TestIff(f, Resolve(r, f.dimension).value, g, Resolve(s, g.dimension).value);
    }
    case (Node(op, xs), Node(other, ys)) => {
      NodeResolves(r, op, xs);
      NodeResolves(s, other, ys);
      assert BoolNamed(BoolName(op)) == op && BoolNamed(BoolName(other)) == other;
      if |xs| == |ys| {
        forall i | 0 <= i < |xs| ensures ExprDescs(r, xs, "where")[i] == ExprDescs(s, ys, "where")[i] <==> SameTree(r, xs[i], s, ys[i]) {
          ExprDescsAt(r, xs, i);
          ExprDescsAt(s, ys, i);
          TreeIff(r, xs[i], s, ys[i]);
        }
      }
    }
    case (Leaf(f), Node(other, ys)) => {
      NodeResolves(s, other, ys);
      LeafIsTest(f, Resolve(r, f.dimension).value);
    }
    case (Node(op, xs), Leaf(g)) => {
      NodeResolves(r, op, xs);
      LeafIsTest(g, Resolve(s, g.dimension).value);
    }
  }

  lemma NodeResolves(r: Resolver, op: BoolOp, xs: seq<Expr>)
    requires Resolves(r, Node(op, xs))
    ensures forall x | x in xs :: Resolves(r, x)
  {
  }

  lemma LeafIsTest(f: Filter, x: Field)
    ensures FilterDesc(f, x, "where").catalogRef.Some?
  {
  }

  // ------------------------------------------------------ the other predicates

  /** Descriptors fall into classes by their aggregate; trees, segments, windows and contexts differ in it. */
  function ClassOf(d: Desc): string {
    match d
    case NodeDesc(_, _, aggregate, _, _, _, _, _, _, _) =>
      (match aggregate
       case Some(name) => if name == "segment" || name == "half_open_range" || name == "scope" then name else ""
       case None => "")
    case PopulationDesc(_, _, _, _) => ""
  }

  predicate InClass(ds: seq<Desc>, name: string) {
    forall d | d in ds :: ClassOf(d) == name
  }

  lemma RootsInClass(r: Resolver, q: Query)
    requires FiltersResolve(r, q)
    ensures InClass(RootDescs(r, q), "")
  {
    hide Resolve, Resolves;
    RootOfConjuncts(q);
    if RootExpr(q).Some? {
      RootIsExpr(r, q);
      TreeInClass(r, RootExpr(q).value);
    } else {
      assert RootDescs(r, q) == [];
    }
  }

  lemma TreeInClass(r: Resolver, e: Expr)
    requires Resolves(r, e)
    ensures ClassOf(ExprDesc(r, e, "where")) == ""
  {
    match e
    case Leaf(f) => assert OpNamed(OpName(f.op)) == f.op;
    case Node(op, _) => assert BoolNamed(BoolName(op)) == op;
  }

  lemma SegmentsAgree(xs: seq<string>, ys: seq<string>)
    ensures multiset(SegmentDescs(xs)) == multiset(SegmentDescs(ys)) <==> multiset(xs) == multiset(ys)
  {
    if multiset(SegmentDescs(xs)) == multiset(SegmentDescs(ys)) {
      var at := GraphMeaning.CountsPair(SegmentDescs(xs), SegmentDescs(ys));
      forall i | 0 <= i < |xs| ensures xs[i] == ys[at[i]] {
        assert SegmentDesc(xs[i]) == SegmentDesc(ys[at[i]]);
      }
      GraphMeaning.PairingKeepsCounts(xs, ys, at);
    }
    if multiset(xs) == multiset(ys) {
      var at := GraphMeaning.CountsPair(xs, ys);
      GraphMeaning.PairingKeepsCounts(SegmentDescs(xs), SegmentDescs(ys), at);
    }
  }

  lemma ContextsAgree(xs: seq<string>, ys: seq<string>)
    ensures multiset(ContextDescs(xs)) == multiset(ContextDescs(ys)) <==> multiset(xs) == multiset(ys)
  {
    if multiset(ContextDescs(xs)) == multiset(ContextDescs(ys)) {
      var at := GraphMeaning.CountsPair(ContextDescs(xs), ContextDescs(ys));
      forall i | 0 <= i < |xs| ensures xs[i] == ys[at[i]] {
        assert ContextDesc(xs[i]) == ContextDesc(ys[at[i]]);
      }
      GraphMeaning.PairingKeepsCounts(xs, ys, at);
    }
    if multiset(xs) == multiset(ys) {
      var at := GraphMeaning.CountsPair(xs, ys);
      GraphMeaning.PairingKeepsCounts(ContextDescs(xs), ContextDescs(ys), at);
    }
  }

  function WindowDescs(r: Resolver, q: Query): seq<Desc>
    requires q.time.Some? ==> q.time.value.dimension in r.fields
  {
    if q.time.Some? then [WindowDesc(q.time.value, r.fields[q.time.value.dimension], q.compare.Some?)] else []
  }

  /** Windows over the same field under the same name, both compared with a prior period or neither. */
  predicate SameWindow(r: Resolver, q: Query, s: Resolver, o: Query)
    requires PopulationResolves(r, q) && PopulationResolves(s, o)
  {
    && q.time.Some? == o.time.Some?
    && (q.time.Some? ==>
          && q.time.value.dimension == o.time.value.dimension && q.compare.Some? == o.compare.Some?
          && SameField(r.fields[q.time.value.dimension], s.fields[o.time.value.dimension]))
  }

  lemma OneWindow(w: Window, f: Field, comparing: bool, v: Window, g: Field, other: bool)
    ensures WindowDesc(w, f, comparing) == WindowDesc(v, g, other) <==> w.dimension == v.dimension && comparing == other && SameField(f, g)
  {
    hide Canonical;
    var b, c := OfBinding(WindowBinding("", w, comparing)), OfBinding(WindowBinding("", v, other));
    assert multiset{b} == multiset{c} ==> b == c by {
      assert multiset{b}[b] == 1;
    }
    assert "current_range"[0] != "half_open"[0];
    assert RowFieldDesc(f) == RowFieldDesc(g) <==> SameField(f, g);
    assert WindowDesc(w, f, comparing).operands == [RowFieldDesc(f)] && WindowDesc(v, g, other).operands == [RowFieldDesc(g)];
  }

  lemma WindowsAgree(r: Resolver, q: Query, s: Resolver, o: Query)
    requires PopulationResolves(r, q) && PopulationResolves(s, o)
    ensures multiset(WindowDescs(r, q)) == multiset(WindowDescs(s, o)) <==> SameWindow(r, q, s, o)
  {
    hide WindowDesc;
    var xs, ys := WindowDescs(r, q), WindowDescs(s, o);
    assert |multiset(xs)| == |xs| && |multiset(ys)| == |ys|;
    if q.time.Some? && o.time.Some? {
      OneWindow(q.time.value, r.fields[q.time.value.dimension], q.compare.Some?, o.time.value, s.fields[o.time.value.dimension], o.compare.Some?);
      OneAgrees(xs[0], ys[0]);
    }
  }

  lemma OneAgrees<T>(x: T, y: T)
    ensures multiset([x]) == multiset([y]) <==> x == y
  {
    assert multiset([x])[x] == 1;
  }

  /** Nothing is filtered on either side, or the same tree. */
  predicate SameRoot(r: Resolver, q: Query, s: Resolver, o: Query)
    requires PopulationResolves(r, q) && PopulationResolves(s, o)
  {
    match (RootExpr(q), RootExpr(o))
    case (None, None) => true
    case (Some(e), Some(f)) => Resolves(r, e) && Resolves(s, f) && SameTree(r, e, s, f)
    case _ => false
  }

  lemma RootsAgree(r: Resolver, q: Query, s: Resolver, o: Query)
    requires PopulationResolves(r, q) && PopulationResolves(s, o)
    ensures multiset(RootDescs(r, q)) == multiset(RootDescs(s, o)) <==> SameRoot(r, q, s, o)
  {
    hide Resolve, Resolves, RootDescs, Conjuncts;
    var xs, ys := RootDescs(r, q), RootDescs(s, o);
    assert |multiset(xs)| == |xs| && |multiset(ys)| == |ys|;
    RootCount(r, q);
    RootCount(s, o);
    if RootExpr(q).Some? && RootExpr(o).Some? {
      RootIsExpr(r, q);
      RootIsExpr(s, o);
      TreeIff(r, RootExpr(q).value, s, RootExpr(o).value);
      OneAgrees(xs[0], ys[0]);
    }
  }

  lemma RootCount(r: Resolver, q: Query)
    requires FiltersResolve(r, q)
    ensures RootExpr(q).None? ==> RootDescs(r, q) == []
    ensures RootExpr(q).Some? ==> |RootDescs(r, q)| == 1
  {
    hide Resolve, Resolves;
    RootOfConjuncts(q);
    if RootExpr(q).Some? {
      RootIsExpr(r, q);
    }
  }

  /** Segments, policy contexts and windows, literal by literal. */
  lemma PredicatesSay(name: string, w: Window, f: Field, comparing: bool)
    ensures SegmentDesc(name) == NodeDesc("predicate", Some(name), Some("segment"), Some("where"), [], None, multiset{}, None, multiset{}, "")
    ensures var slot := BindingDesc("policy_context", Some(name), None, Some("where"), None, None);
            ContextDesc(name) == NodeDesc("predicate", Some(name), Some("scope"), Some("where"), [], None, multiset{slot}, None, multiset{}, "")
    ensures var slot := BindingDesc("time_range", Some(w.dimension), Some(if comparing then "current_range" else "half_open"), Some("where"), Some(2), None);
            WindowDesc(w, f, comparing) ==
            NodeDesc("predicate", Some(w.dimension), Some("half_open_range"), Some("where"), [RowFieldDesc(f)], None, multiset{slot}, None, multiset{}, "")
  {
  }

  // ------------------------------------------------------------ whole populations

  /** The same tree, the same segments and contexts as often, and the same window. */
  predicate SamePopulations(r: Resolver, q: Query, plan: Plan, s: Resolver, o: Query, other: Plan)
    requires PopulationResolves(r, q) && PopulationResolves(s, o)
  {
    SameRoot(r, q, s, o) && multiset(q.segments) == multiset(o.segments) && SameWindow(r, q, s, o) && multiset(plan.contexts) == multiset(other.contexts)
  }

  lemma OtherClass(ds: seq<Desc>, name: string, d: Desc)
    requires InClass(ds, name) && ClassOf(d) != name
    ensures multiset(ds)[d] == 0
  {
    assert d !in multiset(ds);
  }

  /** Parts of different classes agree together iff each agrees. */
  lemma PartsAgree(a: seq<Desc>, b: seq<Desc>, c: seq<Desc>, e: seq<Desc>, a': seq<Desc>, b': seq<Desc>, c': seq<Desc>, e': seq<Desc>)
    requires InClass(a, "") && InClass(b, "segment") && InClass(c, "half_open_range") && InClass(e, "scope")
    requires InClass(a', "") && InClass(b', "segment") && InClass(c', "half_open_range") && InClass(e', "scope")
    ensures multiset(a + b + c + e) == multiset(a' + b' + c' + e') <==>
            multiset(a) == multiset(a') && multiset(b) == multiset(b') && multiset(c) == multiset(c') && multiset(e) == multiset(e')
  {
    hide InClass, ClassOf;
    if multiset(a + b + c + e) == multiset(a' + b' + c' + e') {
      forall d
        ensures multiset(a)[d] == multiset(a')[d] && multiset(b)[d] == multiset(b')[d] && multiset(c)[d] == multiset(c')[d] && multiset(e)[d] == multiset(e')[d]
      {
        assert multiset(a)[d] + multiset(b)[d] + multiset(c)[d] + multiset(e)[d] == multiset(a + b + c + e)[d];
        assert multiset(a')[d] + multiset(b')[d] + multiset(c')[d] + multiset(e')[d] == multiset(a' + b' + c' + e')[d];
        if ClassOf(d) != "" { OtherClass(a, "", d); OtherClass(a', "", d); }
        if ClassOf(d) != "segment" { OtherClass(b, "segment", d); OtherClass(b', "segment", d); }
        if ClassOf(d) != "half_open_range" { OtherClass(c, "half_open_range", d); OtherClass(c', "half_open_range", d); }
        if ClassOf(d) != "scope" { OtherClass(e, "scope", d); OtherClass(e', "scope", d); }
      }
    }
  }

  lemma PartsInClass(r: Resolver, q: Query, plan: Plan)
    requires PopulationResolves(r, q)
    ensures InClass(RootDescs(r, q), "") && InClass(SegmentDescs(q.segments), "segment")
    ensures InClass(WindowDescs(r, q), "half_open_range") && InClass(ContextDescs(plan.contexts), "scope")
    ensures PopulationDescs(r, q, plan) == RootDescs(r, q) + SegmentDescs(q.segments) + WindowDescs(r, q) + ContextDescs(plan.contexts)
  {
    hide RootDescs;
    RootsInClass(r, q);
  }

  /** What defines two populations agrees iff the queries filter alike. */
  lemma PopulationsAgreeIff(r: Resolver, q: Query, plan: Plan, s: Resolver, o: Query, other: Plan)
    requires PopulationResolves(r, q) && PopulationResolves(s, o)
    ensures multiset(PopulationDescs(r, q, plan)) == multiset(PopulationDescs(s, o, other)) <==> SamePopulations(r, q, plan, s, o, other)
  {
    hide RootDescs, SegmentDescs, WindowDescs, ContextDescs, PopulationDescs, InClass, SameRoot, SameWindow;
    PartsInClass(r, q, plan);
    PartsInClass(s, o, other);
    RootsAgree(r, q, s, o);
    SegmentsAgree(q.segments, o.segments);
    WindowsAgree(r, q, s, o);
    ContextsAgree(plan.contexts, other.contexts);
    PartsAgree(RootDescs(r, q), SegmentDescs(q.segments), WindowDescs(r, q), ContextDescs(plan.contexts),
               RootDescs(s, o), SegmentDescs(o.segments), WindowDescs(s, o), ContextDescs(other.contexts));
  }

  /** The population of a built artifact reads as what defines it. */
  lemma PopulationReadsAs(d: Draft, a: Analysis, q: Query, r: Resolved, plan: Plan)
    requires LinedUp(q, r) && Buildable(q, r, plan) && BuiltFrom(d, a) && Answers(d, a, q, r, plan)
    ensures var p := a.populations[0];
            Walk(Compare.TablesOf(a, None), PopulationKey("p1"), {}) ==
            Ok(PopulationDesc(p.inclusion, multiset(PopulationDescs(ResolverOf(q, r), q, plan)), multiset(p.sources), multiset(p.policies)))
  {
    hide Buildable, BuiltFrom, Answers, ResolverOf, PopulationDescs, Walk, PopulationResolves, DescribeAll;
    BuiltPopulation(d, a, q, r, plan);
    var t, p, ds := Compare.TablesOf(a, None), a.populations[0], PopulationDescs(ResolverOf(q, r), q, plan);
    var pop := PopulationKey("p1");
    forall i | 0 <= i < |p.predicates| ensures Walk(t, NodeKey(p.predicates[i]), {pop}) == Ok(ds[i]) {
      PredicatesRead(d, a, q, r, plan, i);
      assert Children(t, pop)[i] == NodeKey(p.predicates[i]);
      ChildLeads(t, pop, NodeKey(p.predicates[i]));
      MemoIsReusable(t, NodeKey(p.predicates[i]), {pop});
    }
    OperandsRead(t, p.predicates, ds, {pop});
    assert {} + {pop} == {pop};
    WalksTo(t, p, ds);
  }

  lemma ChildLeads(t: Tables, parent: Key, child: Key)
    requires child in Children(t, parent)
    ensures LeadsTo(t, parent, child)
  {
    assert IsPath(t, [parent, child]);
  }

  lemma WalksTo(t: Tables, p: Population, ds: seq<Desc>)
    requires "p1" in t.populations && t.populations["p1"] == p && |p.predicates| == |ds|
    requires WalkAll(t, NodeKeys(p.predicates), {PopulationKey("p1")}) == Ok(ds)
    ensures Walk(t, PopulationKey("p1"), {}) == Ok(PopulationDesc(p.inclusion, multiset(ds), multiset(p.sources), multiset(p.policies)))
  {
    assert {} + {PopulationKey("p1")} == {PopulationKey("p1")};
  }

  lemma BuiltPopulation(d: Draft, a: Analysis, q: Query, r: Resolved, plan: Plan)
    requires LinedUp(q, r) && Buildable(q, r, plan) && BuiltFrom(d, a) && Answers(d, a, q, r, plan)
    ensures PopulationResolves(ResolverOf(q, r), q)
    ensures var t := Compare.TablesOf(a, None);
            |a.populations| == 1 && "p1" in t.populations && t.populations["p1"] == a.populations[0] &&
            |a.populations[0].predicates| == |PopulationDescs(ResolverOf(q, r), q, plan)|
  {
    hide Inv, OutcomeOk, AllRows, Describes, RegistryOf, AllShown, HavingStands, ResultStands, NodesOfRefs, UsedBook, PopulationDescs,
         Projectable, RankResolves, GrainRefs, OutputsOf;
    var p := a.populations[0];
    assert a.populations == [p] && a.populations[..0] == [];
    assert Compare.Table(a.populations, Compare.PopulationId) == map["p1" := p];
  }

  /** The cubes a query touches, as often. */
  function Touched(r: Resolved): seq<string> {
    seq(|r.touched|, i requires 0 <= i < |r.touched| => r.touched[i].name)
  }

  /** The populations of two built artifacts read the same iff their queries filter alike over the same sources under the same policies. */
  lemma BuiltPopulationsAgreeIff(d: Draft, a: Analysis, q: Query, r: Resolved, plan: Plan, e: Draft, b: Analysis, o: Query, s: Resolved, other: Plan)
    requires LinedUp(q, r) && Buildable(q, r, plan) && BuiltFrom(d, a) && Answers(d, a, q, r, plan)
    requires LinedUp(o, s) && Buildable(o, s, other) && BuiltFrom(e, b) && Answers(e, b, o, s, other)
    ensures PopulationResolves(ResolverOf(q, r), q) && PopulationResolves(ResolverOf(o, s), o)
    ensures Walk(Compare.TablesOf(a, None), PopulationKey("p1"), {}) == Walk(Compare.TablesOf(b, None), PopulationKey("p1"), {}) <==>
            && SamePopulations(ResolverOf(q, r), q, plan, ResolverOf(o, s), o, other)
            && plan.inclusion == other.inclusion && multiset(Touched(r)) == multiset(Touched(s)) && multiset(plan.policies) == multiset(other.policies)
  {
    hide Walk, SamePopulations, PopulationDescs, BuiltFrom, ResolverOf, Answers, Buildable, PopulationResolves;
    PopulationReadsAs(d, a, q, r, plan);
    PopulationReadsAs(e, b, o, s, other);
    CarriesPlan(d, a, q, r, plan);
    CarriesPlan(e, b, o, s, other);
    PopulationsAgreeIff(ResolverOf(q, r), q, plan, ResolverOf(o, s), o, other);
  }

  lemma CarriesPlan(d: Draft, a: Analysis, q: Query, r: Resolved, plan: Plan)
    requires LinedUp(q, r) && Buildable(q, r, plan) && BuiltFrom(d, a) && Answers(d, a, q, r, plan)
    ensures PopulationResolves(ResolverOf(q, r), q)
    ensures var p := a.populations[0]; p.inclusion == plan.inclusion && p.sources == Touched(r) && p.policies == plan.policies
  {
    hide Inv, OutcomeOk, AllRows, DescribeAll, RegistryOf, AllShown, HavingStands, ResultStands, NodesOfRefs, UsedBook, PopulationDescs,
         Projectable, RankResolves, GrainRefs, OutputsOf, FiltersResolve;
  }
}
