/**
  Comparison ignores local names: renaming every node, population, slot and
  output identifier and every SQL alias injectively, throughout the artifact,
  changes no outcome of the comparison.
*/
module CompareRenaming {
  import opened Wrappers
  import opened SemanticGraph
  import opened GraphReader
  import opened Compare

  /** One renaming per namespace of local identifiers. */
  datatype Renaming = Renaming(
    node: string -> string, population: string -> string, slot: string -> string,
    output: string -> string, alias: string -> string)

  ghost predicate Injective(f: string -> string) {
    forall x, y :: f(x) == f(y) ==> x == y
  }

  /** Injective, and the forbidden empty identifier stays forbidden. */
  ghost predicate Faithful(f: string -> string) {
    Injective(f) && f("") == ""
  }

  ghost predicate Proper(m: Renaming) {
    Faithful(m.node) && Faithful(m.population) && Faithful(m.slot) && Faithful(m.output) && Injective(m.alias)
  }

  function Map<A, B>(f: A -> B, xs: seq<A>): (ys: seq<B>)
    ensures |ys| == |xs| && forall i | 0 <= i < |xs| :: ys[i] == f(xs[i])
  {
    seq(|xs|, i requires 0 <= i < |xs| => f(xs[i]))
  }

  function MapOption<A, B>(f: A -> B, x: Option<A>): Option<B> {
    match x case None => None case Some(v) => Some(f(v))
  }

  function RenameNode(m: Renaming, n: SemanticNode): SemanticNode {
    n.(id := m.node(n.id), operands := Map(m.node, n.operands),
       population := MapOption(m.population, n.population), bindings := Map(m.slot, n.bindings))
  }

  function RenamePopulation(m: Renaming, p: Population): Population {
    p.(id := m.population(p.id), predicates := Map(m.node, p.predicates))
  }

  function RenameBinding(m: Renaming, b: Binding): Binding {
    b.(slot := m.slot(b.slot))
  }

  function RenameOutput(m: Renaming, o: Output): Output {
    Output(m.output(o.id), m.node(o.node), m.alias(o.alias))
  }

  function RenamePair(m: Renaming, pair: (string, string)): (string, string) {
    (m.node(pair.0), pair.1)
  }

  function RenameTime(m: Renaming, p: TimePolicy): TimePolicy {
    p.(current := MapOption(m.slot, p.current), prior := MapOption(m.slot, p.prior))
  }

  function RenameRanking(m: Renaming, r: Ranking): Ranking {
    r.(partition := Map(m.node, r.partition), order := Map(p => RenamePair(m, p), r.order),
       tieBreakers := Map(m.node, r.tieBreakers))
  }

  function RenameOutcome(m: Renaming, o: Outcome): Outcome {
    o.(grain := Map(m.node, o.grain), population := MapOption(m.population, o.population),
       order := Map(p => RenamePair(m, p), o.order), timePolicy := MapOption(p => RenameTime(m, p), o.timePolicy),
       predicates := Map(m.node, o.predicates), ranking := MapOption(r => RenameRanking(m, r), o.ranking))
  }

  function Rename(m: Renaming, a: Analysis): Analysis {
    a.(nodes := Map(n => RenameNode(m, n), a.nodes),
       outputs := Map(o => RenameOutput(m, o), a.outputs),
       populations := Map(p => RenamePopulation(m, p), a.populations),
       enrichments := Map(m.output, a.enrichments),
       bindings := Map(b => RenameBinding(m, b), a.bindings),
       outcome := MapOption(o => RenameOutcome(m, o), a.outcome),
       derivations := Map(d => Map(m.node, d), a.derivations))
  }

  /** A context's values, looked up by the renamed slots. */
  ghost predicate RenamedContext(m: Renaming, c: Option<map<string, string>>, c': Option<map<string, string>>) {
    c.Some? == c'.Some? &&
    (c.Some? ==> forall s {:trigger m.slot(s)} :: (s in c.value <==> m.slot(s) in c'.value) && (s in c.value ==> c'.value[m.slot(s)] == c.value[s]))
  }

  ghost predicate RenamedNodes(m: Renaming, t: Tables, t': Tables) {
    forall id {:trigger m.node(id)} :: (id in t.nodes <==> m.node(id) in t'.nodes) &&
                 (id in t.nodes ==> t'.nodes[m.node(id)] == RenameNode(m, t.nodes[id]))
  }

  ghost predicate RenamedPopulations(m: Renaming, t: Tables, t': Tables) {
    forall id {:trigger m.population(id)} :: (id in t.populations <==> m.population(id) in t'.populations) &&
                 (id in t.populations ==> t'.populations[m.population(id)] == RenamePopulation(m, t.populations[id]))
  }

  ghost predicate RenamedBindings(m: Renaming, t: Tables, t': Tables) {
    && (forall s {:trigger m.slot(s)} :: (s in t.bindings <==> m.slot(s) in t'.bindings) &&
                    (s in t.bindings ==> t'.bindings[m.slot(s)] == RenameBinding(m, t.bindings[s])))
    && RenamedContext(m, t.private, t'.private)
  }

  ghost predicate RenamedTables(m: Renaming, t: Tables, t': Tables) {
    RenamedNodes(m, t, t') && RenamedPopulations(m, t, t') && RenamedBindings(m, t, t')
  }

  function RenameKey(m: Renaming, k: Key): Key {
    match k case NodeKey(id) => NodeKey(m.node(id)) case PopulationKey(id) => PopulationKey(m.population(id))
  }

  function RenameKeys(m: Renaming, ks: seq<Key>): (r: seq<Key>)
    ensures |r| == |ks| && forall i | 0 <= i < |ks| :: r[i] == RenameKey(m, ks[i])
  {
    seq(|ks|, i requires 0 <= i < |ks| => RenameKey(m, ks[i]))
  }

  ghost predicate RenamedKeys(m: Renaming, s: set<Key>, s': set<Key>) {
    forall k {:trigger RenameKey(m, k)} :: k in s <==> RenameKey(m, k) in s'
  }

  // ----------------------------------------------------------------- reading

  lemma {:induction false} BindingsAgree(m: Renaming, t: Tables, t': Tables, slots: seq<string>)
    requires RenamedBindings(m, t, t')
    ensures BindingDescriptors(t', Map(m.slot, slots)) == BindingDescriptors(t, slots)
  {
    if slots != [] {
      BindingsAgree(m, t, t', slots[1..]);
      assert Map(m.slot, slots)[1..] == Map(m.slot, slots[1..]);
      BindingAgrees(m, t, t', slots[0]);
    }
  }

  lemma BindingAgrees(m: Renaming, t: Tables, t': Tables, slot: string)
    requires RenamedBindings(m, t, t')
    ensures BindingDescriptor(t', m.slot(slot)) == BindingDescriptor(t, slot)
  {
  }

  lemma NodeKeysAgree(m: Renaming, ids: seq<string>)
    ensures NodeKeys(Map(m.node, ids)) == RenameKeys(m, NodeKeys(ids))
  {
  }

  lemma RenameKeysConcat(m: Renaming, a: seq<Key>, b: seq<Key>)
    ensures RenameKeys(m, a + b) == RenameKeys(m, a) + RenameKeys(m, b)
  {
  }

  function PopulationChild(p: Option<string>): seq<Key> {
    match p case None => [] case Some(id) => [PopulationKey(id)]
  }

  lemma ChildrenAgreeNode(m: Renaming, t: Tables, t': Tables, id: string)
    requires RenamedNodes(m, t, t') && id in t.nodes
    ensures Children(t', NodeKey(m.node(id))) == RenameKeys(m, Children(t, NodeKey(id)))
  {
    var n := t.nodes[id];
    NodeKeysAgree(m, n.operands);
    RenameKeysConcat(m, NodeKeys(n.operands), PopulationChild(n.population));
    assert PopulationChild(MapOption(m.population, n.population)) == RenameKeys(m, PopulationChild(n.population));
  }

  lemma ChildrenAgree(m: Renaming, t: Tables, t': Tables, key: Key)
    requires RenamedTables(m, t, t')
    ensures Children(t', RenameKey(m, key)) == RenameKeys(m, Children(t, key))
  {
    match key
    case NodeKey(id) =>
      if id in t.nodes {
        ChildrenAgreeNode(m, t, t', id);
      }
    case PopulationKey(id) =>
      if id in t.populations {
        NodeKeysAgree(m, t.populations[id].predicates);
      }
  }

  lemma AssembleNodeAgrees(m: Renaming, t: Tables, t': Tables, id: string, children: seq<Desc>)
    requires RenamedNodes(m, t, t') && RenamedBindings(m, t, t') && id in t.nodes
    requires NodeKey(id) in KeysOf(t) && |children| == |Children(t, NodeKey(id))|
    requires NodeKey(m.node(id)) in KeysOf(t') && |children| == |Children(t', NodeKey(m.node(id)))|
    ensures Assemble(t', NodeKey(m.node(id)), children) == Assemble(t, NodeKey(id), children)
  {
    var n := t.nodes[id];
    assert t'.nodes[m.node(id)] == RenameNode(m, n);
    BindingsAgree(m, t, t', n.bindings);
  }

  lemma AssembleAgrees(m: Renaming, t: Tables, t': Tables, key: Key, children: seq<Desc>)
    requires RenamedTables(m, t, t') && key in KeysOf(t) && |children| == |Children(t, key)|
    ensures RenameKey(m, key) in KeysOf(t') && |children| == |Children(t', RenameKey(m, key))|
    ensures Assemble(t', RenameKey(m, key), children) == Assemble(t, key, children)
  {
    ChildrenAgree(m, t, t', key);
    if key.NodeKey? {
      AssembleNodeAgrees(m, t, t', key.id, children);
    }
  }

  /** The reader builds the same descriptor, or reports the same fault. */
  lemma {:induction false} WalkAgrees(m: Renaming, t: Tables, t': Tables, key: Key, active: set<Key>, active': set<Key>)
    requires Proper(m) && RenamedTables(m, t, t') && RenamedKeys(m, active, active')
    ensures Walk(t', RenameKey(m, key), active') == Walk(t, key, active)
    decreases KeysOf(t) - active, 0, 0
  {
    ChildrenAgree(m, t, t', key);
    if key !in active && key in KeysOf(t) {
      WalkAllAgrees(m, t, t', Children(t, key), active + {key}, active' + {RenameKey(m, key)});
      var r := WalkAll(t, Children(t, key), active + {key});
      if r.Ok? {
        AssembleAgrees(m, t, t', key, r.value);
      }
    }
  }

  lemma {:induction false} WalkAllAgrees(m: Renaming, t: Tables, t': Tables, keys: seq<Key>, active: set<Key>, active': set<Key>)
    requires Proper(m) && RenamedTables(m, t, t') && RenamedKeys(m, active, active')
    ensures WalkAll(t', RenameKeys(m, keys), active') == WalkAll(t, keys, active)
    decreases KeysOf(t) - active, 1, |keys|
  {
    if keys != [] {
      WalkAgrees(m, t, t', keys[0], active, active');
      WalkAllAgrees(m, t, t', keys[1..], active, active');
      assert RenameKeys(m, keys)[1..] == RenameKeys(m, keys[1..]);
    }
  }

  // -------------------------------------------------------------- dictionaries

  ghost predicate RenamedTable<T>(f: string -> string, g: T -> T, t: map<string, T>, t': map<string, T>) {
    forall k {:trigger f(k)} :: (k in t <==> f(k) in t') && (k in t ==> t'[f(k)] == g(t[k]))
  }

  /** A dictionary of renamed entries is the renamed dictionary, of the same size. */
  lemma {:induction false} TableAgrees<T(!new)>(xs: seq<T>, id: T -> string, f: string -> string, g: T -> T)
    requires Injective(f) && forall x :: id(g(x)) == f(id(x))
    ensures RenamedTable(f, g, Table(xs, id), Table(Map(g, xs), id))
    ensures |Table(Map(g, xs), id)| == |Table(xs, id)|
  {
    if xs != [] {
      var n := |xs| - 1;
      TableAgrees(xs[..n], id, f, g);
      assert Map(g, xs)[..n] == Map(g, xs[..n]);
      var t, t' := Table(xs[..n], id), Table(Map(g, xs[..n]), id);
      assert Table(xs, id) == t[id(xs[n]) := xs[n]];
      assert Table(Map(g, xs), id) == t'[f(id(xs[n])) := g(xs[n])];
    }
  }

  lemma TablesAgree(m: Renaming, a: Analysis, c: Option<map<string, string>>, c': Option<map<string, string>>)
    requires Proper(m) && RenamedContext(m, c, c')
    ensures RenamedTables(m, TablesOf(a, c), TablesOf(Rename(m, a), c'))
  {
    TableAgrees(a.nodes, NodeId, m.node, n => RenameNode(m, n));
    TableAgrees(a.populations, PopulationId, m.population, p => RenamePopulation(m, p));
    TableAgrees(a.bindings, Slot, m.slot, b => RenameBinding(m, b));
  }

  lemma KeyedAgrees<T(!new)>(xs: seq<T>, id: T -> string, f: string -> string, g: T -> T)
    requires Injective(f) && f("") == "" && forall x :: id(g(x)) == f(id(x))
    ensures Keyed(Map(g, xs), id) == Keyed(xs, id)
  {
    TableAgrees(xs, id, f, g);
    assert f("") in Table(Map(g, xs), id) <==> "" in Table(xs, id);
  }

  lemma {:induction false} MapSome<A, B>(f: A -> B, xs: seq<A>, p: A -> bool, q: B -> bool)
    requires forall x | x in xs :: p(x) == q(f(x))
    ensures (exists x | x in xs :: p(x)) <==> exists y | y in Map(f, xs) :: q(y)
  {
    var ys := Map(f, xs);
    if x :| x in xs && p(x) {
      var i :| 0 <= i < |xs| && xs[i] == x;
      assert ys[i] in ys && q(ys[i]);
    }
    if y :| y in ys && q(y) {
      var i :| 0 <= i < |ys| && ys[i] == y;
      assert xs[i] in xs && p(xs[i]);
    }
  }

  lemma DanglingAgrees(m: Renaming, a: Analysis)
    requires Proper(m)
    ensures OutputsDangle(Rename(m, a)) == OutputsDangle(a)
    ensures EnrichmentsDangle(Rename(m, a)) == EnrichmentsDangle(a)
  {
    var a' := Rename(m, a);
    TableAgrees(a.nodes, NodeId, m.node, n => RenameNode(m, n));
    TableAgrees(a.outputs, OutputId, m.output, o => RenameOutput(m, o));
    var nodes, nodes' := Table(a.nodes, NodeId), Table(a'.nodes, NodeId);
    var ids, ids' := Table(a.outputs, OutputId), Table(a'.outputs, OutputId);
    forall o | o in a.outputs ensures (o.node !in nodes) == (RenameOutput(m, o).node !in nodes') {
      assert m.node(o.node) in nodes' <==> o.node in nodes;
    }
    MapSome((o: Output) => RenameOutput(m, o), a.outputs, (o: Output) => o.node !in nodes, (o: Output) => o.node !in nodes');
    MapSome(m.output, a.enrichments, e => e !in ids, e => e !in ids');
  }

  lemma StructureAgrees(m: Renaming, a: Analysis)
    requires Proper(m)
    ensures StructureFault(Rename(m, a)) == StructureFault(a)
  {
    KeyedAgrees(a.nodes, NodeId, m.node, n => RenameNode(m, n));
    KeyedAgrees(a.populations, PopulationId, m.population, p => RenamePopulation(m, p));
    KeyedAgrees(a.bindings, Slot, m.slot, b => RenameBinding(m, b));
    KeyedAgrees(a.outputs, OutputId, m.output, o => RenameOutput(m, o));
    TableAgrees(a.outputs, Alias, m.alias, o => RenameOutput(m, o));
    DanglingAgrees(m, a);
  }

  // --------------------------------------------------------------- read results

  lemma ReadNodesAgree(m: Renaming, t: Tables, t': Tables, ids: seq<string>)
    requires Proper(m) && RenamedTables(m, t, t')
    ensures ReadNodes(t', Map(m.node, ids)) == ReadNodes(t, ids)
  {
    NodeKeysAgree(m, ids);
    WalkAllAgrees(m, t, t', NodeKeys(ids), {}, {});
  }

  lemma ReadPopulationAgrees(m: Renaming, t: Tables, t': Tables, id: Option<string>)
    requires Proper(m) && RenamedTables(m, t, t')
    ensures ReadPopulation(t', MapOption(m.population, id)) == ReadPopulation(t, id)
  {
    if id.Some? {
      WalkAgrees(m, t, t', PopulationKey(id.value), {}, {});
    }
  }

  lemma ReadTimeAgrees(m: Renaming, t: Tables, t': Tables, p: Option<TimePolicy>)
    requires RenamedTables(m, t, t')
    ensures ReadTime(t', MapOption(p => RenameTime(m, p), p)) == ReadTime(t, p)
  {
    if p.Some? {
      if p.value.current.Some? { BindingAgrees(m, t, t', p.value.current.value); }
      if p.value.prior.Some? { BindingAgrees(m, t, t', p.value.prior.value); }
    }
  }

  lemma PairsAgree(m: Renaming, pairs: seq<(string, string)>)
    ensures Firsts(Map(p => RenamePair(m, p), pairs)) == Map(m.node, Firsts(pairs))
    ensures Seconds(Map(p => RenamePair(m, p), pairs)) == Seconds(pairs)
  {
  }

  lemma ReadRankingAgrees(m: Renaming, t: Tables, t': Tables, r: Option<Ranking>)
    requires Proper(m) && RenamedTables(m, t, t')
    ensures ReadRanking(t', MapOption(r => RenameRanking(m, r), r)) == ReadRanking(t, r)
  {
    if r.Some? {
      ReadNodesAgree(m, t, t', r.value.partition);
      PairsAgree(m, r.value.order);
      ReadNodesAgree(m, t, t', Firsts(r.value.order));
      ReadNodesAgree(m, t, t', r.value.tieBreakers);
    }
  }

  lemma ReadOutcomeAgrees(m: Renaming, t: Tables, t': Tables, o: Outcome)
    requires Proper(m) && RenamedTables(m, t, t')
    ensures ReadOutcome(t', RenameOutcome(m, o)) == ReadOutcome(t, o)
  {
    ReadNodesAgree(m, t, t', o.grain);
    ReadPopulationAgrees(m, t, t', o.population);
    PairsAgree(m, o.order);
    ReadNodesAgree(m, t, t', Firsts(o.order));
    ReadTimeAgrees(m, t, t', o.timePolicy);
    ReadNodesAgree(m, t, t', o.predicates);
    ReadRankingAgrees(m, t, t', o.ranking);
  }

  lemma ReadOptionalOutcomeAgrees(m: Renaming, t: Tables, t': Tables, o: Option<Outcome>)
    requires Proper(m) && RenamedTables(m, t, t')
    ensures ReadOptionalOutcome(t', MapOption(o => RenameOutcome(m, o), o)) == ReadOptionalOutcome(t, o)
  {
    if o.Some? {
      ReadOutcomeAgrees(m, t, t', o.value);
    }
  }

  lemma ReadOutputsAgree(m: Renaming, t: Tables, t': Tables, a: Analysis)
    requires Proper(m) && RenamedTables(m, t, t')
    ensures ReadOutputs(t', Rename(m, a)) == ReadOutputs(t, a)
  {
    assert OutputNodes(Rename(m, a).outputs) == Map(m.node, OutputNodes(a.outputs));
    ReadNodesAgree(m, t, t', OutputNodes(a.outputs));
  }

  lemma {:induction false} ReadDerivationsAgree(m: Renaming, t: Tables, t': Tables, ds: seq<seq<string>>)
    requires Proper(m) && RenamedTables(m, t, t')
    ensures ReadDerivations(t', Map(d => Map(m.node, d), ds)) == ReadDerivations(t, ds)
  {
    if ds != [] {
      ReadNodesAgree(m, t, t', ds[0]);
      ReadDerivationsAgree(m, t, t', ds[1..]);
      assert Map(d => Map(m.node, d), ds)[1..] == Map(d => Map(m.node, d), ds[1..]);
    }
  }

  lemma VocabularyAgrees(m: Renaming, a: Analysis)
    ensures KnownVocabulary(Rename(m, a)) == KnownVocabulary(a)
  {
    MapSome((n: SemanticNode) => RenameNode(m, n), a.nodes, (n: SemanticNode) => !KnownNode(n), (n: SemanticNode) => !KnownNode(n));
  }

  lemma ValidateAgrees(m: Renaming, t: Tables, t': Tables, a: Analysis)
    requires Proper(m) && RenamedTables(m, t, t')
    ensures Validate(t', Rename(m, a)) == Validate(t, a)
  {
    var a' := Rename(m, a);
    var nodes, populations := Ids(a.nodes, NodeId), PopulationKeys(Ids(a.populations, PopulationId));
    assert Ids(a'.nodes, NodeId) == Map(m.node, nodes);
    assert ReadNodes(t', Map(m.node, nodes)) == ReadNodes(t, nodes) by { ReadNodesAgree(m, t, t', nodes); }
    assert PopulationKeys(Ids(a'.populations, PopulationId)) == RenameKeys(m, populations);
    assert WalkAll(t', RenameKeys(m, populations), {}) == WalkAll(t, populations, {}) by {
      WalkAllAgrees(m, t, t', populations, {}, {});
    }
    assert ReadOptionalOutcome(t', a'.outcome) == ReadOptionalOutcome(t, a.outcome) by {
      ReadOptionalOutcomeAgrees(m, t, t', a.outcome);
    }
    assert ReadDerivations(t', a'.derivations) == ReadDerivations(t, a.derivations) by {
      ReadDerivationsAgree(m, t, t', a.derivations);
    }
    assert KnownVocabulary(a') == KnownVocabulary(a) by { VocabularyAgrees(m, a); }
    assert ReadOutputs(t', a') == ReadOutputs(t, a) by { ReadOutputsAgree(m, t, t', a); }
  }

  lemma ContextAgrees(m: Renaming, a: Analysis, c: map<string, string>, c': map<string, string>)
    requires Proper(m) && RenamedContext(m, Some(c), Some(c'))
    ensures ReadContext(Rename(m, a), c') == ReadContext(a, c)
  {
    var a' := Rename(m, a);
    var t, t' := TablesOf(a, Some(c)), TablesOf(a', Some(c'));
    assert RenamedTables(m, t, t') by { TablesAgree(m, a, Some(c), Some(c')); }
    SlotsCovered(m, a, c, c');
    assert ReadOutputs(t', a') == ReadOutputs(t, a) by { ReadOutputsAgree(m, t, t', a); }
    assert ReadOptionalOutcome(t', a'.outcome) == ReadOptionalOutcome(t, a.outcome) by {
      ReadOptionalOutcomeAgrees(m, t, t', a.outcome);
    }
    assert BindingDescriptors(t', Ids(a'.bindings, Slot)) == BindingDescriptors(t, Ids(a.bindings, Slot)) by {
      assert Ids(a'.bindings, Slot) == Map(m.slot, Ids(a.bindings, Slot));
      BindingsAgree(m, t, t', Ids(a.bindings, Slot));
    }
  }

  lemma {:induction false} TableKeys<T>(xs: seq<T>, id: T -> string)
    ensures forall k :: k in Table(xs, id) <==> exists x | x in xs :: id(x) == k
  {
    if xs != [] {
      TableKeys(xs[..|xs| - 1], id);
      assert xs == xs[..|xs| - 1] + [xs[|xs| - 1]];
    }
  }

  lemma SlotsCovered(m: Renaming, a: Analysis, c: map<string, string>, c': map<string, string>)
    requires Proper(m) && RenamedContext(m, Some(c), Some(c'))
    ensures Table(Rename(m, a).bindings, Slot).Keys <= c'.Keys <==> Table(a.bindings, Slot).Keys <= c.Keys
  {
    TableKeys(a.bindings, Slot);
    TableKeys(Rename(m, a).bindings, Slot);
    MapSome((b: Binding) => RenameBinding(m, b), a.bindings, (b: Binding) => b.slot !in c, (b: Binding) => b.slot !in c');
  }

  // -------------------------------------------------------------- main results

  /** Options whose contexts are keyed by the renamed slots. */
  ghost predicate RenamedOptions(m: Renaming, n: Renaming, opts: Options, opts': Options) {
    && opts'.scope == opts.scope && opts'.shared == opts.shared && opts'.attested == opts.attested
    && RenamedContext(m, opts.leftContext, opts'.leftContext)
    && RenamedContext(n, opts.rightContext, opts'.rightContext)
  }

  /** A side reads the same under its new names. */
  lemma ReadAgrees(m: Renaming, a: Analysis, c: Option<map<string, string>>, c': Option<map<string, string>>)
    requires Proper(m) && RenamedContext(m, c, c')
    ensures Read(Rename(m, a), c') == Read(a, c)
  {
    var t, t' := TablesOf(a, None), TablesOf(Rename(m, a), None);
    assert RenamedTables(m, t, t') by { TablesAgree(m, a, None, None); }
    assert StructureFault(Rename(m, a)) == StructureFault(a) by { StructureAgrees(m, a); }
    assert Validate(t', Rename(m, a)) == Validate(t, a) by { ValidateAgrees(m, t, t', a); }
    assert ReadOutputs(t', Rename(m, a)) == ReadOutputs(t, a) by { ReadOutputsAgree(m, t, t', a); }
    assert ReadOptionalOutcome(t', Rename(m, a).outcome) == ReadOptionalOutcome(t, a.outcome) by {
      ReadOptionalOutcomeAgrees(m, t, t', a.outcome);
    }
    if c.Some? {
      ContextAgrees(m, a, c.value, c'.value);
    }
  }

  /** Renaming either side's local identifiers never changes what comparison returns or raises. */
  lemma RenamingInvariant(m: Renaming, n: Renaming, l: Analysis, r: Analysis, opts: Options, opts': Options)
    requires Proper(m) && Proper(n) && RenamedOptions(m, n, opts, opts')
    ensures CompareAnalysis(Rename(m, l), Rename(n, r), opts') == CompareAnalysis(l, r, opts)
  {
    ReadAgrees(m, l, opts.leftContext, opts'.leftContext);
    ReadAgrees(n, r, opts.rightContext, opts'.rightContext);
  }
}
