/**
  Reading back what the builder built: the fault a reader can find in the
  graph, the meaning of the filter root, and when output identifiers clash.
*/
module AnalysisReading {
  import opened Sequences
  import opened Wrappers
  import opened Spec
  import opened SemanticGraph
  import opened Naming
  import opened AnalysisDraft
  import opened GraphReader
  import opened AnalysisBuilder
  import opened AnalysisAssembly
  import opened AnalysisNames
  import opened AnalysisOutputs
  import opened AnalysisResult
  import opened AnalysisBuild
  import opened AnalysisSoundness
  import Compare
  import CompareRenaming
  import ComparePermuting

  // ------------------------------------------------------------- faults

  /** Nothing dangles, so a failed read of the graph has met a cycle. */
  lemma {:induction false} WalkFault(d: Draft, t: Tables, key: Key, active: set<Key>)
    requires Layered(d, t) && key in KeysOf(t)
    ensures Walk(t, key, active).Err? ==> Walk(t, key, active) == Err(CyclicGraph)
    decreases KeysOf(t) - active, 0, 0
  {
    hide Layered, KeysOf, Assemble;
    if key !in active {
      forall c | c in Children(t, key) ensures c in KeysOf(t) {
        StepDown(d, t, key, c);
        DownwardStays(d.book, t, key, c);
      }
      WalkAllFault(d, t, Children(t, key), active + {key});
      var children := WalkAll(t, Children(t, key), active + {key});
      if children.Ok? {
        AssembleOk(d, t, key, children.value);
      }
    }
  }

  lemma {:induction false} WalkAllFault(d: Draft, t: Tables, keys: seq<Key>, active: set<Key>)
    requires Layered(d, t) && forall k | k in keys :: k in KeysOf(t)
    ensures WalkAll(t, keys, active).Err? ==> WalkAll(t, keys, active) == Err(CyclicGraph)
    decreases KeysOf(t) - active, 1, |keys|
  {
    hide Layered, KeysOf;
    if keys != [] {
      WalkFault(d, t, keys[0], active);
      WalkAllFault(d, t, keys[1..], active);
    }
  }

  lemma AssembleOk(d: Draft, t: Tables, key: Key, children: seq<Desc>)
    requires Layered(d, t) && key in KeysOf(t) && |children| == |Children(t, key)|
    ensures Assemble(t, key, children).Ok?
  {
    hide Layered;
    KeysPresent(d, t, key);
    if key.NodeKey? {
      BindingDescriptorsOk(t, t.nodes[key.id].bindings);
    }
  }

  lemma AllInKeys(t: Tables, ids: seq<string>)
    requires AllIn(t.nodes, ids)
    ensures forall k | k in NodeKeys(ids) :: k in KeysOf(t)
  {
    forall k | k in NodeKeys(ids) ensures k in KeysOf(t) {
      var i :| 0 <= i < |ids| && NodeKeys(ids)[i] == k;
      assert ids[i] in ids;
    }
  }

  lemma ReadsOk(t: Tables, ids: seq<string>)
    requires AllIn(t.nodes, ids) && forall key | key in KeysOf(t) :: Sound(t, key)
    ensures Compare.ReadNodes(t, ids).Ok?
  {
    hide Sound, KeysOf;
    AllInKeys(t, ids);
    forall k | k in NodeKeys(ids) ensures Walk(t, k, {}).Ok? {
      WalkSucceedsIffSound(t, k);
    }
    WalkAllAt(t, NodeKeys(ids), {});
  }

  lemma FirstsIn(t: map<string, SemanticNode>, pairs: seq<(string, string)>)
    requires AllFirstsIn(t, pairs)
    ensures AllIn(t, Compare.Firsts(pairs))
  {
    forall id | id in Compare.Firsts(pairs) ensures id in t {
      var i :| 0 <= i < |pairs| && pairs[i].0 == id;
      assert pairs[i] in pairs;
    }
  }

  lemma RankingReadsOk(d: Draft, t: Tables, r: Ranking)
    requires t.nodes == d.table && forall key | key in KeysOf(t) :: Sound(t, key)
    requires AllIn(d.table, r.partition) && AllFirstsIn(d.table, r.order) && AllIn(d.table, r.tieBreakers)
    ensures Compare.ReadRanking(t, Some(r)).Ok?
  {
    hide Sound, KeysOf, AllIn, AllFirstsIn, Compare.ReadNodes;
    FirstsIn(d.table, r.order);
    ReadsOk(t, r.partition);
    ReadsOk(t, Compare.Firsts(r.order));
    ReadsOk(t, r.tieBreakers);
  }

  lemma OutcomeReadsOk(d: Draft, t: Tables, o: Outcome)
    requires Layered(d, t) && OutcomeOk(d, o) && forall key | key in KeysOf(t) :: Sound(t, key)
    ensures Compare.ReadOutcome(t, o).Ok?
  {
    hide Sound, AllIn, AllFirstsIn, Compare.ReadNodes, Compare.ReadRanking, Inv, AllRows;
    ReadsOk(t, o.grain);
    WalkSucceedsIffSound(t, PopulationKey("p1"));
    FirstsIn(d.table, o.order);
    ReadsOk(t, Compare.Firsts(o.order));
    ReadsOk(t, o.predicates);
    if o.ranking.Some? {
      RankingReadsOk(d, t, o.ranking.value);
    } else {
      assert Compare.ReadRanking(t, None).Ok? by { NoRanking(t); }
    }
  }

  lemma NoRanking(t: Tables)
    ensures Compare.ReadRanking(t, None).Ok?
  {
  }

  lemma {:induction false} DerivationsReadOk(t: Tables, derivations: seq<seq<string>>)
    requires (forall ids | ids in derivations :: AllIn(t.nodes, ids)) && forall key | key in KeysOf(t) :: Sound(t, key)
    ensures Compare.ReadDerivations(t, derivations).Ok?
  {
    hide Sound, KeysOf, AllIn, Compare.ReadNodes;
    if derivations != [] {
      ReadsOk(t, derivations[0]);
      DerivationsReadOk(t, derivations[1..]);
    }
  }

  lemma NodeIdsIn(t: map<string, SemanticNode>, ns: seq<SemanticNode>)
    requires t == Compare.Table(ns, Compare.NodeId)
    ensures AllIn(t, Compare.Ids(ns, Compare.NodeId))
    ensures forall id | id in t :: id in Compare.Ids(ns, Compare.NodeId)
  {
    var ids := Compare.Ids(ns, Compare.NodeId);
    CompareRenaming.TableKeys(ns, Compare.NodeId);
    forall id | id in ids ensures id in t {
      var i :| 0 <= i < |ns| && ids[i] == id;
      assert Compare.NodeId(ns[i]) == id;
    }
    forall id | id in t ensures id in ids {
      var n :| n in ns && Compare.NodeId(n) == id;
      var i :| 0 <= i < |ns| && ns[i] == n;
      assert ids[i] == id;
    }
  }

  lemma OutputsRead(t: Tables, a: Analysis)
    requires (forall o | o in a.outputs :: o.node in t.nodes) && forall key | key in KeysOf(t) :: Sound(t, key)
    ensures Compare.ReadOutputs(t, a).Ok?
  {
    hide Sound, KeysOf, Compare.ReadNodes;
    var ids := Compare.OutputNodes(a.outputs);
    forall id | id in ids ensures id in t.nodes {
      var i :| 0 <= i < |ids| && ids[i] == id;
      assert a.outputs[i] in a.outputs;
    }
    ReadsOk(t, ids);
  }

  lemma PopulationsRead(d: Draft, a: Analysis)
    requires BuiltFrom(d, a)
    requires var t := Compare.TablesOf(a, None); forall key | key in KeysOf(t) :: Sound(t, key)
    ensures WalkAll(Compare.TablesOf(a, None), Compare.PopulationKeys(Compare.Ids(a.populations, Compare.PopulationId)), {}).Ok?
  {
    hide Sound;
    var t := Compare.TablesOf(a, None);
    BuiltIsLayered(d, a, None);
    var keys := Compare.PopulationKeys(Compare.Ids(a.populations, Compare.PopulationId));
    assert keys == [PopulationKey("p1")];
    WalkSucceedsIffSound(t, PopulationKey("p1"));
    WalkAllAt(t, keys, {});
  }

  /**
    A reader's complete validation of a built artifact fails on the graph only
    by meeting a cycle, and exactly when a ratio measure in use reaches itself.
    Otherwise, with known vocabulary, it fails iff two outputs have one descriptor.
  */
  lemma BuiltValidates(d: Draft, a: Analysis)
    requires BuiltFrom(d, a)
    ensures var t := Compare.TablesOf(a, None);
            if RatiosBottomOut(d.book) then
              Compare.ReadOutputs(t, a).Ok? &&
              Compare.Validate(t, a) ==
              if !Compare.KnownVocabulary(a) then Ok(false) else if Compare.NoRepeats(Compare.ReadOutputs(t, a).value) then Ok(true) else Err(DuplicateOutput)
            else Compare.Validate(t, a) == Err(CyclicGraph)
  {
    hide RatiosBottomOut, Sound, Inv, OutcomeOk, AllRows, Compare.KnownVocabulary, Compare.ReadOutputs, Compare.ReadDerivations,
         Compare.ReadOutcome, Compare.NoRepeats, WalkAll, Compare.Ids;
    var t := Compare.TablesOf(a, None);
    BuiltIsLayered(d, a, None);
    SoundIffRatiosBottomOut(d, t);
    NodeIdsIn(t.nodes, a.nodes);
    if RatiosBottomOut(d.book) {
      ReadsOk(t, Compare.Ids(a.nodes, Compare.NodeId));
      PopulationsRead(d, a);
      OutcomeReadsOk(d, t, a.outcome.value);
      DerivationsReadOk(t, a.derivations);
      OutputsRead(t, a);
    } else {
      UnsoundNodes(d, t, Compare.Ids(a.nodes, Compare.NodeId));
    }
  }

  /** With no ratio over a ratio, as compilation insists, no cycle is ever met. */
  lemma PlainBuiltValidates(d: Draft, a: Analysis)
    requires BuiltFrom(d, a) && OperandsArePlain(d.book)
    ensures var v := Compare.Validate(Compare.TablesOf(a, None), a); v.Ok? || v == Err(DuplicateOutput)
  {
    hide *;
    PlainOperandsBottomOut(d.book);
    BuiltValidates(d, a);
  }

  /** With a ratio cycle in use, reading every node meets it. */
  lemma UnsoundNodes(d: Draft, t: Tables, ids: seq<string>)
    requires Layered(d, t) && !RatiosBottomOut(d.book)
    requires AllIn(t.nodes, ids) && forall id | id in t.nodes :: id in ids
    ensures Compare.ReadNodes(t, ids) == Err(CyclicGraph)
  {
    hide Layered, Sound, RatioPath;
    var p :| RatioPath(d.book, p) && |p| >= 2 && p[0] == p[|p| - 1];
    RatioCycleIsUnsound(d, t, p);
    var id := d.ids[p[0]];
    WalkSucceedsIffSound(t, NodeKey(id));
    assert NodeKey(id) in NodeKeys(ids) by {
      var i :| 0 <= i < |ids| && ids[i] == id;
      assert NodeKeys(ids)[i] == NodeKey(id);
    }
    AllInKeys(t, ids);
    WalkAllAt(t, NodeKeys(ids), {});
    WalkAllFault(d, t, NodeKeys(ids), {});
  }

  // -------------------------------------------------------- the filter root

  lemma {:induction false} SlotsRead(t: Tables, slots: seq<string>)
    requires t.private.None? && forall s | s in slots :: s in t.bindings
    ensures BindingDescriptors(t, slots) == Ok(OfBindings(t.bindings, slots))
  {
    if slots == [] {
      assert OfBindings(t.bindings, []) == [];
    } else {
      SlotsRead(t, slots[1..]);
      assert OfBindings(t.bindings, slots) == [OfBinding(t.bindings[slots[0]])] + OfBindings(t.bindings, slots[1..]);
    }
  }

  /** A row node's operands are rows with smaller counters. */
  lemma RowBelow(d: Draft, id: string)
    requires Inv(d) && id in d.table && IsRow(d.table[id])
    ensures forall o | o in d.table[id].operands :: Counter(o) < Counter(id)
  {
    assert NodeOk(d, d.table[id]);
  }

  /** A described row node reads as its description, below any later rows. */
  lemma {:induction false} DescribedReads(d: Draft, t: Tables, id: string, desc: Desc, active: set<Key>)
    requires Inv(d) && t.nodes == d.table && t.bindings == d.slots && t.private.None?
    requires Describes(t.nodes, t.bindings, id, desc)
    requires forall k | k in active :: k.NodeKey? && Counter(k.id) > Counter(id)
    ensures Walk(t, NodeKey(id), active) == Ok(desc)
    decreases desc
  {
    hide Inv, Counter, OfBindings;
    RowBelow(d, id);
    var n := t.nodes[id];
    assert Children(t, NodeKey(id)) == NodeKeys(n.operands);
    var inner := active + {NodeKey(id)};
    forall i | 0 <= i < |n.operands| ensures Walk(t, NodeKey(n.operands[i]), inner) == Ok(desc.operands[i]) {
      assert n.operands[i] in n.operands;
      DescribedReads(d, t, n.operands[i], desc.operands[i], inner);
    }
    OperandsRead(t, n.operands, desc.operands, inner);
    SlotsRead(t, n.bindings);
    assert NodeKey(id) in KeysOf(t);
    assert desc.operands[..|n.operands|] == desc.operands;
  }

  lemma OperandsRead(t: Tables, ids: seq<string>, ds: seq<Desc>, active: set<Key>)
    requires |ids| == |ds| && forall i | 0 <= i < |ids| :: Walk(t, NodeKey(ids[i]), active) == Ok(ds[i])
    ensures WalkAll(t, NodeKeys(ids), active) == Ok(ds)
  {
    hide Walk;
    var keys := NodeKeys(ids);
    WalkAllAt(t, keys, active);
    forall k | k in keys ensures Walk(t, k, active).Ok? {
      var i :| 0 <= i < |keys| && keys[i] == k;
    }
    assert WalkAll(t, keys, active).value == ds;
  }

  /** The filters and the tree as one expression: nothing, the only one there is, or all of them under AND, the tree last. */
  function RootExpr(q: Query): Option<Expr> {
    var leaves := seq(|q.filters|, i requires 0 <= i < |q.filters| => Leaf(q.filters[i]));
    if q.where.Some? then Some(if leaves == [] then q.where.value else Node(And, leaves + [q.where.value]))
    else if |leaves| == 1 then Some(leaves[0])
    else if leaves == [] then None
    else Some(Node(And, leaves))
  }

  lemma RootOfConjuncts(q: Query)
    ensures var es := Conjuncts(q);
            RootExpr(q) == if es == [] then None else if |es| == 1 then Some(es[0]) else Some(Node(And, es))
  {
    var leaves := seq(|q.filters|, i requires 0 <= i < |q.filters| => Leaf(q.filters[i]));
    assert FilterExprs(q.filters) == leaves && leaves + [] == leaves;
    if leaves == [] && q.where.Some? {
      assert Conjuncts(q) == [q.where.value];
    }
  }

  /** What a predicate graph keeps of an expression: fields, operators and numbers of values. */
  datatype Shape = Test(reference: string, op: FilterOp, arity: nat) | Combine(junction: BoolOp, parts: seq<Shape>)

  function ShapeOf(r: Resolver, e: Expr): Shape
    requires Resolves(r, e)
    decreases e, 0
  {
    match e
    case Leaf(f) => Test(Canonical(Resolve(r, f.dimension).value), f.op, Arity(f))
    case Node(op, cs) => Combine(op, ShapesOf(r, cs))
  }

  function ShapesOf(r: Resolver, es: seq<Expr>): seq<Shape>
    requires forall e | e in es :: Resolves(r, e)
    decreases es, 1
  {
    if es == [] then [] else [ShapeOf(r, es[0])] + ShapesOf(r, es[1..])
  }

  function OpNamed(name: string): FilterOp {
    if name == "eq" then Equal else if name == "neq" then NotEqual else if name == "in" then In else if name == "not_in" then NotIn
    else if name == "gt" then Gt else if name == "lt" then Lt else if name == "gte" then Gte else if name == "lte" then Lte
    else if name == "contains" then Contains else if name == "is_null" then IsNull else NotNull
  }

  function BoolNamed(name: string): BoolOp {
    if name == "and" then And else if name == "or" then Or else Not
  }

  ghost function Bound(bindings: multiset<BindingDesc>): nat {
    if bindings == multiset{} then 0 else
      var b :| b in bindings;
      if b.arity.Some? then b.arity.value else 0
  }

  /** Read an expression's shape back from its descriptor. */
  ghost function Unfold(d: Desc): Shape
    decreases d, 0
  {
    match d
    case PopulationDesc(_, _, _, _) => Combine(And, [])
    case NodeDesc(_, reference, aggregate, _, operands, _, bindings, _, _, _) =>
      var name := if aggregate.Some? then aggregate.value else "";
      if reference.Some? then Test(reference.value, OpNamed(name), Bound(bindings))
      else Combine(BoolNamed(name), UnfoldAll(operands))
  }

  ghost function UnfoldAll(ds: seq<Desc>): seq<Shape>
    decreases ds, 1
  {
    if ds == [] then [] else [Unfold(ds[0])] + UnfoldAll(ds[1..])
  }

  lemma {:induction false} UnfoldExpr(r: Resolver, e: Expr)
    requires Resolves(r, e)
    ensures Unfold(ExprDesc(r, e, "where")) == ShapeOf(r, e)
    decreases e, 0
  {
    match e
    case Leaf(f) => {
      assert OpNamed(OpName(f.op)) == f.op;
    }
    case Node(op, cs) => {
      assert BoolNamed(BoolName(op)) == op;
      UnfoldExprs(r, cs);
    }
  }

  lemma {:induction false} UnfoldExprs(r: Resolver, es: seq<Expr>)
    requires forall e | e in es :: Resolves(r, e)
    ensures UnfoldAll(ExprDescs(r, es, "where")) == ShapesOf(r, es)
    decreases es, 1
  {
    if es != [] {
      UnfoldExpr(r, es[0]);
      UnfoldExprs(r, es[1..]);
      assert ExprDescs(r, es, "where")[1..] == ExprDescs(r, es[1..], "where");
    }
  }

  /** The query's filters AND its tree are what the first predicate of the built population unfolds to. */
  lemma RootUnfolds(d: Draft, a: Analysis, q: Query, r: Resolved, plan: Plan)
    requires LinedUp(q, r) && Buildable(q, r, plan) && BuiltFrom(d, a) && Answers(d, a, q, r, plan)
    ensures var resolver, predicates, t := ResolverOf(q, r), a.populations[0].predicates, Compare.TablesOf(a, None);
            RootExpr(q).Some? ==>
              predicates != [] && Resolves(resolver, RootExpr(q).value) && Walk(t, NodeKey(predicates[0]), {}).Ok? &&
              Unfold(Walk(t, NodeKey(predicates[0]), {}).value) == ShapeOf(resolver, RootExpr(q).value)
    ensures |a.populations[0].predicates| ==
            (if RootExpr(q).Some? then 1 else 0) + |q.segments| + (if q.time.Some? then 1 else 0) + |plan.contexts|
  {
    hide Inv, OutcomeOk, AllRows, ExprDesc, Describes, Unfold, ShapeOf, RegistryOf, RootExpr, AllShown, HavingStands, ResultStands, NodesOfRefs, UsedBook,
         Projectable, RankResolves, GrainRefs, OutputsOf;
    BuiltIsLayered(d, a, None);
    var resolver := ResolverOf(q, r);
    RootOfConjuncts(q);
    if RootExpr(q).Some? {
      var e := RootExpr(q).value;
      assert Resolves(resolver, e);
      RootIsExpr(resolver, q);
      DescribedReads(d, Compare.TablesOf(a, None), a.populations[0].predicates[0], ExprDesc(resolver, e, "where"), {});
      UnfoldExpr(resolver, e);
    }
  }

  /** Every predicate of the population reads as what defines it. */
  lemma PredicatesRead(d: Draft, a: Analysis, q: Query, r: Resolved, plan: Plan, i: nat)
    requires LinedUp(q, r) && Buildable(q, r, plan) && BuiltFrom(d, a) && Answers(d, a, q, r, plan) && i < |a.populations[0].predicates|
    ensures i < |PopulationDescs(ResolverOf(q, r), q, plan)|
    ensures Walk(Compare.TablesOf(a, None), NodeKey(a.populations[0].predicates[i]), {}) == Ok(PopulationDescs(ResolverOf(q, r), q, plan)[i])
  {
    hide Inv, OutcomeOk, AllRows, Describes, RegistryOf, AllShown, HavingStands, ResultStands, NodesOfRefs, UsedBook, PopulationDescs,
         Projectable, RankResolves, GrainRefs, OutputsOf;
    BuiltIsLayered(d, a, None);
    DescribedReads(d, Compare.TablesOf(a, None), a.populations[0].predicates[i], PopulationDescs(ResolverOf(q, r), q, plan)[i], {});
  }

  lemma RootIsExpr(r: Resolver, q: Query)
    requires FiltersResolve(r, q) && RootExpr(q).Some?
    ensures Resolves(r, RootExpr(q).value) && RootDescs(r, q) == [ExprDesc(r, RootExpr(q).value, "where")]
  {
    RootOfConjuncts(q);
    var es := Conjuncts(q);
    if |es| == 1 {
      assert es[1..] == [];
    }
  }

  // ------------------------------------------------------ output identifiers

  /** After a true flag, only true flags. */
  predicate AggregatesLast(flags: seq<bool>) {
    forall i, j | 0 <= i < j < |flags| :: flags[i] ==> flags[j]
  }

  lemma {:induction false} CompareNumbersGrow(flags: seq<bool>)
    ensures |CompareNumbers(flags)| >= |flags|
    ensures true in flags ==> |CompareNumbers(flags)| >= |flags| + 3
  {
    if flags != [] {
      var n := |flags| - 1;
      CompareNumbersGrow(flags[..n]);
      assert flags == flags[..n] + [flags[n]];
    }
  }

  lemma {:induction false} SortedNumbers(flags: seq<bool>)
    requires AggregatesLast(flags)
    ensures CompareNumbers(flags) == UpTo(|CompareNumbers(flags)|)
    ensures true !in flags ==> |CompareNumbers(flags)| == |flags|
  {
    if flags == [] {
      assert UpTo(0) == [];
    } else {
      var n := |flags| - 1;
      var k := |CompareNumbers(flags[..n])|;
      SortedNumbers(flags[..n]);
      assert flags == flags[..n] + [flags[n]];
      if flags[n] {
        assert UpTo(k) + [k + 1, k + 2, k + 3, k + 4] == UpTo(k + 4);
      } else {
        assert true !in flags[..n];
        assert UpTo(n) + [n + 1] == UpTo(n + 1);
      }
    }
  }

  /** The comparison's numbers differ exactly when no other output follows an aggregate. */
  lemma {:induction false} CompareNumbersDistinct(flags: seq<bool>)
    ensures Distinct(CompareNumbers(flags)) <==> AggregatesLast(flags)
  {
    if flags != [] {
      var n := |flags| - 1;
      var before, all := CompareNumbers(flags[..n]), CompareNumbers(flags);
      CompareNumbersDistinct(flags[..n]);
      assert all[..|before|] == before;
      if !AggregatesLast(flags[..n]) {
        var i, j :| 0 <= i < j < |before| && before[i] == before[j];
        assert all[i] == all[j];
      } else if AggregatesLast(flags) {
        SortedNumbers(flags);
      } else {
        assert flags == flags[..n] + [flags[n]];
        assert !flags[n] && true in flags[..n];
        CompareNumbersGrow(flags[..n]);
        SortedNumbers(flags[..n]);
        assert all[n] == n + 1 && all[|before|] == n + 1;
      }
    }
  }

  ghost predicate AllDiffer<T>(xs: seq<T>, id: T -> string) {
    forall i, j | 0 <= i < j < |xs| :: id(xs[i]) != id(xs[j])
  }

  lemma AllDifferAppend<T>(xs: seq<T>, x: T, id: T -> string)
    ensures AllDiffer(xs + [x], id) <==> AllDiffer(xs, id) && id(x) !in Compare.Table(xs, id)
  {
    CompareRenaming.TableKeys(xs, id);
    var all := xs + [x];
    if id(x) in Compare.Table(xs, id) {
      var y :| y in xs && id(y) == id(x);
      var i :| 0 <= i < |xs| && xs[i] == y;
      assert id(all[i]) == id(all[|xs|]);
    }
    if AllDiffer(all, id) {
      forall i, j | 0 <= i < j < |xs| ensures id(xs[i]) != id(xs[j]) {
        assert id(all[i]) != id(all[j]);
      }
    }
    if AllDiffer(xs, id) && id(x) !in Compare.Table(xs, id) {
      forall i, j | 0 <= i < j < |all| ensures id(all[i]) != id(all[j]) {
        if j == |xs| {
          assert xs[i] in xs;
        }
      }
    }
  }

  lemma {:induction false} UniqueIffDistinct<T>(xs: seq<T>, id: T -> string)
    ensures Compare.UniqueIds(xs, id) <==> AllDiffer(xs, id)
  {
    hide AllDiffer;
    if xs == [] {
      assert AllDiffer(xs, id) by { NoneDiffer(id); }
    } else {
      var n := |xs| - 1;
      var rest := xs[..n];
      UniqueIffDistinct(rest, id);
      ComparePermuting.UniqueEntries(rest, id);
      AllDifferAppend(rest, xs[n], id);
      assert xs == rest + [xs[n]];
      assert |Compare.Table(xs, id)| == |Compare.Table(rest, id)| + if id(xs[n]) in Compare.Table(rest, id) then 0 else 1;
    }
  }

  lemma NoneDiffer<T>(id: T -> string)
    ensures AllDiffer([], id)
  {
  }

  lemma NumberedKeys(d: Draft, outputs: seq<Output>, shown: seq<Shown>)
    requires AllShown(d, outputs, shown)
    ensures Compare.Keyed(outputs, Compare.OutputId) <==> Distinct(Numbers(shown))
  {
    hide Name, Denotes;
    var numbers := Numbers(shown);
    UniqueIffDistinct(outputs, Compare.OutputId);
    CompareRenaming.TableKeys(outputs, Compare.OutputId);
    forall i | 0 <= i < |numbers| ensures outputs[i].id == Name('o', numbers[i]) {
      assert ShownAs(d, outputs[i], shown[i]);
    }
    forall i, j | 0 <= i < j < |numbers| ensures outputs[i].id == outputs[j].id <==> numbers[i] == numbers[j] {
      NamesDiffer('o', numbers[i], numbers[j]);
    }
    forall x | x in outputs ensures x.id != "" {
      var i :| 0 <= i < |outputs| && outputs[i] == x;
    }
    if Compare.Keyed(outputs, Compare.OutputId) {
      forall i, j | 0 <= i < j < |numbers| ensures numbers[i] != numbers[j] {
        assert Compare.OutputId(outputs[i]) != Compare.OutputId(outputs[j]);
      }
    }
  }

  function Aliases(shown: seq<Shown>): (names: seq<string>)
    ensures |names| == |shown| && forall i | 0 <= i < |names| :: names[i] == shown[i].alias
  {
    seq(|shown|, i requires 0 <= i < |shown| => shown[i].alias)
  }

  lemma AliasedKeys(d: Draft, outputs: seq<Output>, shown: seq<Shown>)
    requires AllShown(d, outputs, shown)
    ensures Compare.UniqueIds(outputs, Compare.Alias) <==> Distinct(Aliases(shown))
  {
    hide Name, Denotes;
    UniqueIffDistinct(outputs, Compare.Alias);
    forall i | 0 <= i < |outputs| ensures Compare.Alias(outputs[i]) == Aliases(shown)[i] {
      assert ShownAs(d, outputs[i], shown[i]);
    }
    if AllDiffer(outputs, Compare.Alias) {
      forall i, j | 0 <= i < j < |outputs| ensures Aliases(shown)[i] != Aliases(shown)[j] {
        assert Compare.Alias(outputs[i]) != Compare.Alias(outputs[j]);
      }
    }
  }

  lemma PartsKeyed(d: Draft, a: Analysis)
    requires BuiltFrom(d, a)
    ensures Compare.Keyed(a.nodes, Compare.NodeId) && Compare.Keyed(a.bindings, Compare.Slot)
    ensures Compare.Keyed(a.populations, Compare.PopulationId)
    ensures !Compare.OutputsDangle(a) && !Compare.EnrichmentsDangle(a)
  {
    hide NodesOk, Booked, OutcomeOk;
    var p := a.populations[0];
    assert a.populations == [p] && a.populations[..0] == [];
    assert Compare.Table(a.populations, Compare.PopulationId) == map["p1" := p];
  }

  /** Which outputs a comparison expands, before it does. */
  function BaseFlags(book: Book, q: Query, plan: Plan): seq<bool> {
    Flags(book, BaseShown(q.aliases, plan.columns, q.derived))
  }

  lemma NumbersOf(book: Book, q: Query, plan: Plan)
    ensures Numbers(OutputsOf(book, q, plan)) ==
            if plan.comparing then CompareNumbers(BaseFlags(book, q, plan)) else UpTo(|plan.columns| + |q.derived|)
  {
    hide AliasFor, Aggregated, CompareNumbers, ComparedShown;
    BaseNumbers(q.aliases, plan.columns, q.derived);
    ComparedNumbers(book, q.aliases, BaseShown(q.aliases, plan.columns, q.derived));
  }

  /** The only structural faults a built artifact can have are in its outputs' names. */
  lemma BuiltStructure(d: Draft, a: Analysis, q: Query, r: Resolved, plan: Plan)
    requires LinedUp(q, r) && Buildable(q, r, plan) && BuiltFrom(d, a) && Answers(d, a, q, r, plan)
    ensures Compare.StructureFault(a) in {None, Some(InvalidOutputIds), Some(DuplicateAlias)}
    ensures Compare.StructureFault(a) == Some(InvalidOutputIds) <==> plan.comparing && !AggregatesLast(BaseFlags(d.book, q, plan))
    ensures Compare.StructureFault(a) == Some(DuplicateAlias) <==>
            !(plan.comparing && !AggregatesLast(BaseFlags(d.book, q, plan))) && !Distinct(Aliases(OutputsOf(d.book, q, plan)))
  {
    hide BuiltFrom, Compare.Keyed, Compare.UniqueIds, Compare.OutputsDangle, Compare.EnrichmentsDangle, AllShown, CompareNumbers,
         BaseFlags, AggregatesLast, Distinct, RegistryOf, OutputsOf, Buildable, DescribeAll, HavingStands, NodesOfRefs, ResultStands, PopulationDescs;
    PartsKeyed(d, a);
    NumberedKeys(d, a.outputs, OutputsOf(d.book, q, plan));
    AliasedKeys(d, a.outputs, OutputsOf(d.book, q, plan));
    NumbersOf(d.book, q, plan);
    if plan.comparing {
      CompareNumbersDistinct(BaseFlags(d.book, q, plan));
    } else {
      assert Distinct(UpTo(|plan.columns| + |q.derived|)) by { UpToDistinct(|plan.columns| + |q.derived|); }
    }
  }

  lemma UpToDistinct(n: nat)
    ensures Distinct(UpTo(n))
  {
  }

  /** With the plan's measures listed last, as it lists them, only inline measures can follow an aggregate. */
  lemma ClashIffInline(book: Book, q: Query, plan: Plan)
    requires AggregatesLast(Flags(book, ShownColumns(q.aliases, plan.columns)))
    ensures !AggregatesLast(BaseFlags(book, q, plan)) <==> true in Flags(book, ShownColumns(q.aliases, plan.columns)) && q.derived != []
  {
    hide Aggregated, AliasFor;
    var columns, all := Flags(book, ShownColumns(q.aliases, plan.columns)), BaseFlags(book, q, plan);
    assert all[..|columns|] == columns;
    forall i | |columns| <= i < |all| ensures !all[i] {
      assert Aggregated(book, BaseShown(q.aliases, plan.columns, q.derived)[i].meaning) == false by { InlineIsPlain(book, q, plan, i); }
    }
    if true in columns && q.derived != [] {
      var i :| 0 <= i < |columns| && columns[i];
      assert all[i] && !all[|columns|];
    }
    if q.derived == [] {
      assert all == columns;
    }
    if !AggregatesLast(all) {
      var i, j :| 0 <= i < j < |all| && all[i] && !all[j];
      assert columns[i];
    }
  }

  lemma InlineIsPlain(book: Book, q: Query, plan: Plan, i: nat)
    requires |plan.columns| <= i < |BaseShown(q.aliases, plan.columns, q.derived)|
    ensures !Aggregated(book, BaseShown(q.aliases, plan.columns, q.derived)[i].meaning)
  {
    hide AliasFor;
  }

  // ------------------------------------------------------- a query whose outputs clash

  const AMOUNT := Field("c", "m", Measure("sum", []), "")
  const AT := Field("c", "t", TimeDimension, "")

  function ClashQuery(): Query {
    Query(["c.m"], [], [Inline("twice", "sum", ["c.m", "c.m"])], [], None, [], Some(Window("c.t", None, "")), Some("previous_period"),
          [], [], [], None, false, "")
  }

  function ClashFields(): Resolved {
    Resolved([AMOUNT], [], [AMOUNT, AMOUNT], [], [], [Cube("c", [AMOUNT, AT])], Some(AT))
  }

  function ClashPlan(): Plan {
    Plan([Column("c", "m", "m", true)], true, [], "query_rows", [], [], [], None, true, false)
  }

  const CLASH_REGISTRY: Registry := map["c.m" := AMOUNT, "c.t" := AT]
  const CLASH_BOOK := Book(map["c.m" := "c.m", "c.t" := "c.t"], map["c.m" := AMOUNT, "c.t" := AT])

  /** One measure compared between periods beside one inline measure: the query is built, and two outputs are numbered 2. */
  lemma InlineClashes()
    ensures LinedUp(ClashQuery(), ClashFields()) && Buildable(ClashQuery(), ClashFields(), ClashPlan())
    ensures var book := UsedBook(ClashQuery(), ClashFields(), ClashPlan()).value;
            Numbers(OutputsOf(book, ClashQuery(), ClashPlan())) == [1, 2, 3, 4, 2] && !AggregatesLast(BaseFlags(book, ClashQuery(), ClashPlan()))
  {
    hide Buildable, UsedBook, OutputsOf, BaseFlags, CompareNumbers;
    ClashBuildable();
    NumbersOf(CLASH_BOOK, ClashQuery(), ClashPlan());
    ClashFlags();
    NumbersTwo();
    FalseAfterTrue([true, false], 0, 1);
  }

  lemma FalseAfterTrue(flags: seq<bool>, i: nat, j: nat)
    requires i < j < |flags| && flags[i] && !flags[j]
    ensures !AggregatesLast(flags)
  {
  }

  lemma ClashFlags()
    ensures BaseFlags(CLASH_BOOK, ClashQuery(), ClashPlan()) == [true, false]
  {
    assert Reference(ClashPlan().columns[0]) == "c.m";
  }

  lemma NumbersTwo()
    ensures CompareNumbers([true, false]) == [1, 2, 3, 4, 2]
  {
    assert [true, false][..1] == [true] && [true][..0] == [];
    assert CompareNumbers([]) == [] && CompareNumbers([true]) == [1, 2, 3, 4];
  }

  lemma ClashRefs()
    ensures AllRefs(ClashQuery(), ClashFields(), ClashPlan()) == ["c.m", "c.m", "c.m", "c.t"] + ["c.m", "c.m", "c.m", "c.m"]
  {
    var q, r, plan := ClashQuery(), ClashFields(), ClashPlan();
    assert q.derived[1..] == [] && OperandsOf(q.derived) == ["c.m", "c.m"];
    assert Canonical(AMOUNT) == "c.m" && Canonical(AT) == "c.t" && Reference(plan.columns[0]) == "c.m";
  }

  lemma ClashProjected()
    requires LinedUp(ClashQuery(), ClashFields())
    ensures Projectable(CLASH_BOOK, ClashQuery(), ClashFields(), ClashPlan()) && RankResolves(CLASH_BOOK, ClashQuery(), ClashPlan(), [])
  {
    hide HavingMeans, OutputsOf, RegistryOf;
    assert OperandsOf(ClashQuery().derived) == ["c.m", "c.m"] by {
      assert ClashQuery().derived[1..] == [];
    }
    assert Reference(ClashPlan().columns[0]) == "c.m";
  }

  lemma ClashBuildable()
    ensures LinedUp(ClashQuery(), ClashFields()) && UsedBook(ClashQuery(), ClashFields(), ClashPlan()) == Ok(CLASH_BOOK)
    ensures Buildable(ClashQuery(), ClashFields(), ClashPlan())
  {
    hide NoteAll, AllRefs, Projectable, RankResolves, RegistryOf;
    ClashRegistered();
    ClashRefs();
    ClashNoted();
    ClashProjected();
  }

  lemma ClashRegistered()
    ensures LinedUp(ClashQuery(), ClashFields()) && RegistryOf(ClashQuery(), ClashFields()) == CLASH_REGISTRY
  {
    var q, r := ClashQuery(), ClashFields();
    assert Canonical(AMOUNT) == "c.m" && Canonical(AT) == "c.t";
    assert q.derived[1..] == [] && OperandsOf(q.derived) == ["c.m", "c.m"];
    var m, t := ("c.m", AMOUNT), ("c.t", AT);
    var pairs: seq<(string, Field)> := [m, m, m, m, t, t];
    assert Registrations(q, r) == pairs by {
      assert r.touched[1..] == [];
    }
    RegisteredEach(map[], m, t);
  }

  lemma RegisteredEach(fields: Registry, m: (string, Field), t: (string, Field))
    requires fields == map[] && m == ("c.m", AMOUNT) && t == ("c.t", AT)
    ensures Register(fields, [m, m, m, m, t, t]) == CLASH_REGISTRY
  {
    assert Canonical(AMOUNT) == "c.m" && Canonical(AT) == "c.t";
    var one: Registry := map["c.m" := AMOUNT];
    assert RegisterOne(fields, m) == one == RegisterOne(one, m);
    assert RegisterOne(one, t) == CLASH_REGISTRY == RegisterOne(CLASH_REGISTRY, t);
    hide RegisterOne;
    var all := [m, m, m, m, t, t];
    assert all[1..] == [m, m, m, t, t] && all[1..][1..] == [m, m, t, t] && all[1..][1..][1..] == [m, t, t];
    assert [m, t, t][1..] == [t, t] && [t, t][1..] == [t] && |[t][1..]| == 0;
    assert Register(CLASH_REGISTRY, [t]) == CLASH_REGISTRY;
    assert Register(one, [t, t]) == CLASH_REGISTRY;
    assert Register(one, [m, t, t]) == CLASH_REGISTRY;
    assert Register(one, [m, m, t, t]) == CLASH_REGISTRY;
    assert Register(one, [m, m, m, t, t]) == CLASH_REGISTRY;
  }

  lemma ClashNoted()
    ensures NoteAll(CLASH_REGISTRY, EMPTY, ["c.m", "c.m", "c.m", "c.t"] + ["c.m", "c.m", "c.m", "c.m"]) == Ok(CLASH_BOOK)
  {
    assert Canonical(AMOUNT) == "c.m" && Canonical(AT) == "c.t";
    var one := Book(map["c.m" := "c.m"], map["c.m" := AMOUNT]);
    assert Noted(EMPTY, "c.m", AMOUNT) == one && Noted(one, "c.t", AT) == CLASH_BOOK;
    assert NoteAll(CLASH_REGISTRY, one, OperandRefs(AMOUNT)) == Ok(one);
    assert NoteAll(CLASH_REGISTRY, CLASH_BOOK, OperandRefs(AT)) == Ok(CLASH_BOOK);
    var first: seq<string> := ["c.m", "c.m", "c.m"];
    assert Note(CLASH_REGISTRY, EMPTY, "c.m") == Ok(one);
    assert first[1..] == ["c.m", "c.m"];
    NotedAlready(CLASH_REGISTRY, one, ["c.m", "c.m"]);
    assert NoteAll(CLASH_REGISTRY, EMPTY, first) == Ok(one);
    OneNoted(CLASH_REGISTRY, one, "c.t");
    NoteAllSplits(CLASH_REGISTRY, EMPTY, first, ["c.t"]);
    NotedAlready(CLASH_REGISTRY, CLASH_BOOK, ["c.m", "c.m", "c.m", "c.m"]);
    NoteAllSplits(CLASH_REGISTRY, EMPTY, first + ["c.t"], ["c.m", "c.m", "c.m", "c.m"]);
    assert first + ["c.t"] == ["c.m", "c.m", "c.m", "c.t"];
  }
}
