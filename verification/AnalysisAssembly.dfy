/**
  Assembling the analysis of a query: filters into one population, columns and
  derived measures into outputs, the comparison expansion, post-aggregate
  predicates, and the result's grain, order and ranking.
*/
module AnalysisAssembly {
  import opened Wrappers
  import opened Spec
  import opened SemanticGraph
  import opened Naming
  import opened AnalysisDraft
  import opened GraphReader
  import opened AnalysisBuilder

  datatype Inline = Inline(name: string, op: string, operands: seq<string>)

  datatype Window = Window(dimension: string, granularity: Option<string>, details: string)

  datatype Rank = Rank(partitionBy: seq<string>, orderBy: seq<(string, string)>, exact: bool, details: string)

  datatype Column = Column(cube: string, field: string, alias: string, isMeasure: bool)

  datatype Query = Query(
    measures: seq<string>, dimensions: seq<string>, derived: seq<Inline>, filters: seq<Filter>, where: Option<Expr>,
    segments: seq<string>, time: Option<Window>, compare: Option<string>, having: seq<Filter>,
    aliases: seq<(string, string)>, order: seq<(string, string)>, rank: Option<Rank>, ungrouped: bool, details: string)

  predicate Bucketed(q: Query) {
    q.time.Some? && q.time.value.granularity.Some?
  }

  datatype Cube = Cube(name: string, fields: seq<Field>)

  datatype Resolved = Resolved(
    measures: seq<Field>, dimensions: seq<Field>, operands: seq<Field>, filters: seq<(string, Field)>,
    leaves: seq<(string, Field)>, touched: seq<Cube>, time: Option<Field>)

  /** What the logical plan and the request contribute; `contexts` is sorted. */
  datatype Plan = Plan(
    columns: seq<Column>, comparing: bool, joins: seq<Join>, inclusion: string, policies: seq<string>, contexts: seq<string>,
    assumptions: seq<Assumption>, catalog: Option<Catalog>, complete: bool, rollup: bool)

  // ------------------------------------------------------------- registration

  function Pairs(refs: seq<string>, fs: seq<Field>): seq<(string, Field)>
    requires |refs| == |fs|
  {
    seq(|refs|, i requires 0 <= i < |refs| => (refs[i], fs[i]))
  }

  function Own(fs: seq<Field>): seq<(string, Field)> {
    seq(|fs|, i requires 0 <= i < |fs| => (Canonical(fs[i]), fs[i]))
  }

  function OfCubes(cubes: seq<Cube>): seq<(string, Field)> {
    if cubes == [] then [] else Own(cubes[0].fields) + OfCubes(cubes[1..])
  }

  function OperandsOf(derived: seq<Inline>): seq<string> {
    if derived == [] then [] else derived[0].operands + OperandsOf(derived[1..])
  }

  /** Each reference is registered with its field, and the field under its own name. */
  function Register(fields: Registry, pairs: seq<(string, Field)>): Registry
    decreases |pairs|
  {
    if pairs == [] then fields else
      Register(RegisterOne(fields, pairs[0]), pairs[1..])
  }

  function Dictionary(pairs: seq<(string, Field)>): map<string, Field> {
    if pairs == [] then map[] else Dictionary(pairs[..|pairs| - 1])[pairs[|pairs| - 1].0 := pairs[|pairs| - 1].1]
  }

  /** The lists the resolver promises to line up. */
  predicate LinedUp(q: Query, r: Resolved) {
    |q.measures| == |r.measures| && |q.dimensions| == |r.dimensions| && |OperandsOf(q.derived)| == |r.operands|
  }

  function Registrations(q: Query, r: Resolved): seq<(string, Field)>
    requires LinedUp(q, r)
  {
    Pairs(q.measures, r.measures) + Pairs(q.dimensions, r.dimensions) + Pairs(OperandsOf(q.derived), r.operands) +
    r.filters + r.leaves + OfCubes(r.touched) +
    if q.time.Some? && r.time.Some? then [(q.time.value.dimension, r.time.value)] else []
  }

  function RegistryOf(q: Query, r: Resolved): Registry
    requires LinedUp(q, r)
  {
    Register(map[], Registrations(q, r))
  }

  function RegisterOne(fields: Registry, p: (string, Field)): Registry {
    fields[p.0 := p.1][Canonical(p.1) := p.1]
  }

  predicate NamedBy(p: (string, Field), ref: string) {
    ref == p.0 || ref == Canonical(p.1)
  }

  /** The last registration under a reference or own name. */
  function LastNamed(pairs: seq<(string, Field)>, ref: string): Option<Field> {
    if pairs == [] then None
    else if NamedBy(pairs[|pairs| - 1], ref) then Some(pairs[|pairs| - 1].1)
    else LastNamed(pairs[..|pairs| - 1], ref)
  }

  lemma {:induction false} RegisterSnoc(fields: Registry, pairs: seq<(string, Field)>, p: (string, Field))
    ensures Register(fields, pairs + [p]) == RegisterOne(Register(fields, pairs), p)
    decreases |pairs|
  {
    hide RegisterOne;
    if pairs == [] {
      assert [] + [p] == [p] && [p][1..] == [];
    } else {
      assert (pairs + [p])[1..] == pairs[1..] + [p];
      RegisterSnoc(RegisterOne(fields, pairs[0]), pairs[1..], p);
    }
  }

  /** A reference means the field registered last under it, whatever was meant before. */
  lemma {:induction false} RegisteredIsLast(pairs: seq<(string, Field)>, ref: string)
    ensures ref in Register(map[], pairs) <==> LastNamed(pairs, ref).Some?
    ensures ref in Register(map[], pairs) ==> Register(map[], pairs)[ref] == LastNamed(pairs, ref).value
  {
    if pairs != [] {
      var n := |pairs| - 1;
      assert pairs == pairs[..n] + [pairs[n]];
      RegisterSnoc(map[], pairs[..n], pairs[n]);
      RegisteredIsLast(pairs[..n], ref);
    }
  }

  function ResolverOf(q: Query, r: Resolved): Resolver
    requires LinedUp(q, r)
  {
    Resolver(Dictionary(r.leaves), r.filters, RegistryOf(q, r))
  }

  // -------------------------------------------------------------- filter roots

  function FilterExprs(fs: seq<Filter>): (es: seq<Expr>)
    ensures |es| == |fs| && forall i | 0 <= i < |fs| :: es[i] == Leaf(fs[i])
  {
    seq(|fs|, i requires 0 <= i < |fs| => Leaf(fs[i]))
  }

  /** Everything the query filters on: the flat filters, then the tree. */
  function Conjuncts(q: Query): seq<Expr> {
    FilterExprs(q.filters) + (match q.where case None => [] case Some(e) => [e])
  }

  predicate FiltersResolve(r: Resolver, q: Query) {
    forall e | e in Conjuncts(q) :: Resolves(r, e)
  }

  /** The meaning of `filters` AND `where`: nothing, the one conjunct, or their conjunction. */
  function RootDescs(r: Resolver, q: Query): seq<Desc>
    requires FiltersResolve(r, q)
  {
    var ds := ExprDescs(r, Conjuncts(q), "where");
    if |ds| <= 1 then ds else [BoolDesc(And, "where", ds)]
  }

  /** One root node for all filters, or none. */
  method AddRoots(b: Builder, q: Query) returns (r: Result<seq<string>, string>)
    requires b.Valid()
    modifies b
    ensures r.Ok? <==> FiltersResolve(b.resolver, q)
    ensures r.Ok? ==> b.Valid() && Grows(old(b.Current()), b.Current())
    ensures r.Ok? ==> DescribeAll(b.table, b.slots, r.value, RootDescs(b.resolver, q))
  {
    hide Inv, Extends, Describes, Resolve, ExprDesc;
    ghost var before := b.Current();
    var roots := b.AddBools(Conjuncts(q));
    if roots.Err? {
      return Err(roots.error);
    }
    ghost var middle := b.Current();
    if |roots.value| <= 1 {
      return Ok(roots.value);
    }
    var root := b.AddJunction(And, roots.value, ExprDescs(b.resolver, Conjuncts(q), "where"));
    GrowsTrans(before, middle, b.Current());
    return Ok([root]);
  }

  // ---------------------------------------------------- the remaining predicates

  ghost predicate AllRows(t: map<string, SemanticNode>, ids: seq<string>) {
    forall id | id in ids :: id in t && IsRow(t[id])
  }

  /** A predicate of one operator on a reference. */
  function PlainDesc(aggregate: string, reference: string, operands: seq<Desc>, bound: multiset<BindingDesc>): Desc {
    NodeDesc("predicate", Some(reference), Some(aggregate), Some("where"), operands, None, bound, None, multiset{}, "")
  }

  function SegmentDesc(segment: string): Desc {
    PlainDesc("segment", segment, [], multiset{})
  }

  function ContextBinding(slot: string, context: string): Binding {
    Binding(slot, "policy_context", Some(context), None, Some("where"), None)
  }

  /** A policy context reads one private slot. */
  function ContextDesc(context: string): Desc {
    PlainDesc("scope", context, [], multiset{OfBinding(ContextBinding("", context))})
  }

  function WindowBinding(slot: string, w: Window, comparing: bool): Binding {
    Binding(slot, "time_range", Some(w.dimension), Some(if comparing then "current_range" else "half_open"), Some("where"), Some(2))
  }

  /** The half-open window reads the time dimension's row field and the slot of its two bounds. */
  function WindowDesc(w: Window, f: Field, comparing: bool): Desc {
    PlainDesc("half_open_range", w.dimension, [RowFieldDesc(f)], multiset{OfBinding(WindowBinding("", w, comparing))})
  }

  function SegmentDescs(segments: seq<string>): (ds: seq<Desc>)
    ensures |ds| == |segments| && forall i | 0 <= i < |ds| :: ds[i] == SegmentDesc(segments[i])
  {
    seq(|segments|, i requires 0 <= i < |segments| => SegmentDesc(segments[i]))
  }

  function ContextDescs(contexts: seq<string>): (ds: seq<Desc>)
    ensures |ds| == |contexts| && forall i | 0 <= i < |ds| :: ds[i] == ContextDesc(contexts[i])
  {
    seq(|contexts|, i requires 0 <= i < |contexts| => ContextDesc(contexts[i]))
  }

  predicate PopulationResolves(r: Resolver, q: Query) {
    FiltersResolve(r, q) && (q.time.Some? ==> q.time.value.dimension in r.fields)
  }

  /** What defines the population: the filter root, the segments, the time window, the policy contexts. */
  function PopulationDescs(r: Resolver, q: Query, plan: Plan): seq<Desc>
    requires PopulationResolves(r, q)
  {
    RootDescs(r, q) + SegmentDescs(q.segments) +
    (if q.time.Some? then [WindowDesc(q.time.value, r.fields[q.time.value.dimension], q.compare.Some?)] else []) +
    ContextDescs(plan.contexts)
  }

  method AddPlain(b: Builder, aggregate: string, reference: string, operands: seq<string>, names: seq<string>, ghost descs: seq<Desc>)
    returns (id: string)
    requires b.Valid() && DescribeAll(b.table, b.slots, operands, descs) && forall s | s in names :: s in b.slots
    modifies b
    ensures b.Valid() && Grows(old(b.Current()), b.Current()) && b.bindings == old(b.bindings) && forall s | s in names :: s in b.slots
    ensures Describes(b.table, b.slots, id, PlainDesc(aggregate, reference, descs, multiset(OfBindings(b.slots, names))))
  {
    hide Inv, Extends, Name, NodeOk, Describes;
    var n := PlainNode(Name('n', b.next), aggregate, reference, operands, names);
    ghost var before := b.Current();
    InvIsNumbered(before);
    PlainOk(before, n, descs);
    id := b.AddNode(n);
    DescribeAllGrows(before, b.Current(), operands, descs);
    PlainDescribed(b.Current(), aggregate, reference, operands, names, descs, id);
  }

  function PlainNode(id: string, aggregate: string, reference: string, operands: seq<string>, names: seq<string>): SemanticNode {
    SemanticNode(id, "predicate", Some(reference), Some(aggregate), Some("where"), operands, None, names, None, [], "")
  }

  lemma PlainDescribed(d: Draft, aggregate: string, reference: string, operands: seq<string>, names: seq<string>, ds: seq<Desc>, id: string)
    requires DescribeAll(d.table, d.slots, operands, ds) && id in d.table && forall s | s in names :: s in d.slots
    requires d.table[id] == PlainNode(id, aggregate, reference, operands, names)
    ensures Describes(d.table, d.slots, id, PlainDesc(aggregate, reference, ds, multiset(OfBindings(d.slots, names))))
  {
  }

  lemma PlainOk(d: Draft, n: SemanticNode, ds: seq<Desc>)
    requires Numbered(d) && n.id == Name('n', d.next) && DescribeAll(d.table, d.slots, n.operands, ds)
    requires n.population.None? && n.stage == Some("where") && forall s | s in n.bindings :: s in d.slots
    ensures NodeOk(d, n)
  {
    CounterOfName('n', d.next);
    forall o | o in n.operands ensures o in d.table && IsRow(d.table[o]) && Counter(o) < d.next {
      var i :| 0 <= i < |n.operands| && n.operands[i] == o;
      DescribesRow(d.table, d.slots, n.operands[i], ds[i]);
      assert Made(o, d.next);
    }
  }

  lemma DescribedRows(d: Draft, ids: seq<string>, ds: seq<Desc>)
    requires DescribeAll(d.table, d.slots, ids, ds)
    ensures AllRows(d.table, ids)
  {
    hide IsRow;
    forall id | id in ids ensures id in d.table && IsRow(d.table[id]) {
      var i :| 0 <= i < |ids| && ids[i] == id;
      DescribesRow(d.table, d.slots, ids[i], ds[i]);
    }
  }

  lemma DescribedAppend(t: map<string, SemanticNode>, slots: map<string, Binding>, ids: seq<string>, ds: seq<Desc>, more: seq<string>, es: seq<Desc>)
    requires DescribeAll(t, slots, ids, ds) && DescribeAll(t, slots, more, es)
    ensures DescribeAll(t, slots, ids + more, ds + es)
  {
    hide Describes;
  }

  lemma OneDescribed(t: map<string, SemanticNode>, slots: map<string, Binding>, id: string, d: Desc)
    requires Describes(t, slots, id, d)
    ensures DescribeAll(t, slots, [id], [d])
  {
    hide Describes;
  }

  lemma NothingDescribed(t: map<string, SemanticNode>, slots: map<string, Binding>)
    ensures DescribeAll(t, slots, [], [])
  {
  }

  lemma NoSlots(slots: map<string, Binding>)
    ensures multiset(OfBindings(slots, [])) == multiset{}
  {
  }

  lemma OneSlot(slots: map<string, Binding>, slot: string)
    requires slot in slots
    ensures multiset(OfBindings(slots, [slot])) == multiset{OfBinding(slots[slot])}
  {
    assert OfBindings(slots, [slot]) == [OfBinding(slots[slot])];
  }

  /** Each segment is one predicate. */
  method AddSegments(b: Builder, segments: seq<string>) returns (ids: seq<string>)
    requires b.Valid()
    modifies b
    ensures b.Valid() && Grows(old(b.Current()), b.Current())
    ensures DescribeAll(b.table, b.slots, ids, SegmentDescs(segments))
  {
    hide Inv, Extends, Describes, SegmentDesc;
    ids := [];
    ghost var before := b.Current();
    GrowsSelf(before);
    for i := 0 to |segments|
      invariant b.Valid() && Grows(before, b.Current())
      invariant DescribeAll(b.table, b.slots, ids, SegmentDescs(segments[..i]))
    {
      ghost var middle := b.Current();
      NothingDescribed(b.table, b.slots);
      var id := AddPlain(b, "segment", segments[i], [], [], []);
      NoSlots(b.slots);
      SegmentIs(segments[i]);
      GrowsTrans(before, middle, b.Current());
      DescribeAllGrows(middle, b.Current(), ids, SegmentDescs(segments[..i]));
      ids := ids + [id];
      assert SegmentDescs(segments[..i + 1]) == SegmentDescs(segments[..i]) + [SegmentDesc(segments[i])];
    }
    assert segments[..|segments|] == segments;
  }

  lemma SegmentIs(segment: string)
    ensures SegmentDesc(segment) == PlainDesc("segment", segment, [], multiset{})
  {
  }

  /** Each policy context takes a slot of its own and is one predicate that reads it. */
  method AddContexts(b: Builder, contexts: seq<string>) returns (ids: seq<string>)
    requires b.Valid()
    modifies b
    ensures b.Valid() && Grows(old(b.Current()), b.Current()) && |b.bindings| == |old(b.bindings)| + |contexts|
    ensures DescribeAll(b.table, b.slots, ids, ContextDescs(contexts))
  {
    hide Inv, Extends, Name, Describes, ContextDesc;
    ids := [];
    ghost var before := b.Current();
    GrowsSelf(before);
    for i := 0 to |contexts|
      invariant b.Valid() && Grows(before, b.Current()) && |b.bindings| == |before.bindings| + i
      invariant DescribeAll(b.table, b.slots, ids, ContextDescs(contexts[..i]))
    {
      ghost var middle := b.Current();
      var slot := Name('b', |b.bindings| + 1);
      b.AddBinding(ContextBinding(slot, contexts[i]));
      ghost var bound := b.Current();
      NothingDescribed(b.table, b.slots);
      var id := AddPlain(b, "scope", contexts[i], [], [slot], []);
      SlotKept(bound, b.Current(), slot);
      OneSlot(b.slots, slot);
      ContextIs(slot, contexts[i]);
      GrowsTrans(middle, bound, b.Current());
      GrowsTrans(before, middle, b.Current());
      DescribeAllGrows(middle, b.Current(), ids, ContextDescs(contexts[..i]));
      ids := ids + [id];
      assert ContextDescs(contexts[..i + 1]) == ContextDescs(contexts[..i]) + [ContextDesc(contexts[i])];
    }
    assert contexts[..|contexts|] == contexts;
  }

  lemma ContextIs(slot: string, context: string)
    ensures ContextDesc(context) == PlainDesc("scope", context, [], multiset{OfBinding(ContextBinding(slot, context))})
  {
  }

  /** The half-open window on the time dimension's row field, with its slot. */
  method AddWindow(b: Builder, w: Window, comparing: bool) returns (r: Result<(string, string), string>)
    requires b.Valid()
    modifies b
    ensures r.Ok? <==> w.dimension in b.resolver.fields
    ensures r.Ok? ==> b.Valid() && Grows(old(b.Current()), b.Current())
    ensures r.Ok? ==> Describes(b.table, b.slots, r.value.0, WindowDesc(w, b.resolver.fields[w.dimension], comparing))
    ensures r.Ok? ==> r.value.1 in b.slots && b.slots[r.value.1] == WindowBinding(r.value.1, w, comparing)
  {
    hide Inv, Extends, Name, Describes;
    if w.dimension !in b.resolver.fields {
      return Err(w.dimension);
    }
    var f := b.resolver.fields[w.dimension];
    ghost var before := b.Current();
    var target := b.AddPredicateField(f);
    ghost var middle := b.Current();
    var slot := Name('b', |b.bindings| + 1);
    b.AddBinding(WindowBinding(slot, w, comparing));
    ghost var bound := b.Current();
    DescribesGrows(middle, bound, target, RowFieldDesc(f));
    OneDescribed(b.table, b.slots, target, RowFieldDesc(f));
    var id := AddPlain(b, "half_open_range", w.dimension, [target], [slot], [RowFieldDesc(f)]);
    SlotKept(bound, b.Current(), slot);
    OneSlot(b.slots, slot);
    WindowIs(slot, w, f, comparing);
    GrowsTrans(before, middle, bound);
    GrowsTrans(before, bound, b.Current());
    return Ok((id, slot));
  }

  lemma WindowIs(slot: string, w: Window, f: Field, comparing: bool)
    ensures WindowDesc(w, f, comparing) ==
            PlainDesc("half_open_range", w.dimension, [RowFieldDesc(f)], multiset{OfBinding(WindowBinding(slot, w, comparing))})
  {
  }

  lemma SlotKept(d: Draft, e: Draft, slot: string)
    requires Extends(d, e) && slot in d.slots
    ensures slot in e.slots && e.slots[slot] == d.slots[slot]
  {
  }
}
