/**
  Comparison ignores the order of the node, population, binding and output
  tuples, up to which structural fault is reported first.
*/
module ComparePermuting {
  import opened Wrappers
  import opened SemanticGraph
  import opened GraphReader
  import opened Compare
  import opened CompareRenaming

  ghost predicate Permuted(a: Analysis, b: Analysis) {
    && b == a.(nodes := b.nodes, populations := b.populations, bindings := b.bindings, outputs := b.outputs)
    && multiset(b.nodes) == multiset(a.nodes) && multiset(b.populations) == multiset(a.populations)
    && multiset(b.bindings) == multiset(a.bindings) && multiset(b.outputs) == multiset(a.outputs)
  }

  /** The same success, or some fault on both sides. */
  predicate SameButFault<T(==)>(r: Result<T, Fault>, s: Result<T, Fault>) {
    r.Ok? == s.Ok? && (r.Ok? ==> r.value == s.value)
  }

  // ------------------------------------------------------------ permuted lists

  lemma PermutedMembers<T>(xs: seq<T>, ys: seq<T>)
    requires multiset(xs) == multiset(ys)
    ensures |xs| == |ys| && forall x :: x in xs <==> x in ys
  {
    assert |multiset(xs)| == |xs| && |multiset(ys)| == |ys|;
    assert forall x :: x in xs <==> x in multiset(xs);
    assert forall x :: x in ys <==> x in multiset(ys);
  }

  function RemoveAt<T>(xs: seq<T>, j: nat): seq<T>
    requires j < |xs|
  {
    xs[..j] + xs[j + 1..]
  }

  lemma RemoveOne<T>(xs: seq<T>, j: nat)
    requires j < |xs|
    ensures multiset(xs) == multiset(RemoveAt(xs, j)) + multiset{xs[j]}
  {
    assert xs == xs[..j] + [xs[j]] + xs[j + 1..];
  }

  lemma MapRemoveAt<A, B>(f: A -> B, xs: seq<A>, j: nat)
    requires j < |xs|
    ensures RemoveAt(Map(f, xs), j) == Map(f, RemoveAt(xs, j))
  {
  }

  lemma {:induction false} PermutedMap<A, B>(f: A -> B, xs: seq<A>, ys: seq<A>)
    requires multiset(xs) == multiset(ys)
    ensures multiset(Map(f, xs)) == multiset(Map(f, ys))
    decreases |xs|
  {
    PermutedMembers(xs, ys);
    if xs != [] {
      assert xs[0] in ys;
      var j :| 0 <= j < |ys| && ys[j] == xs[0];
      var rest, others := RemoveAt(xs, 0), RemoveAt(ys, j);
      RemoveOne(xs, 0);
      RemoveOne(ys, j);
      assert multiset(rest) == multiset(xs) - multiset{xs[0]} == multiset(others);
      PermutedMap(f, rest, others);
      MapRemoveAt(f, xs, 0);
      MapRemoveAt(f, ys, j);
      RemoveOne(Map(f, xs), 0);
      RemoveOne(Map(f, ys), j);
    }
  }

  lemma {:induction false} UniqueEntries<T>(xs: seq<T>, id: T -> string)
    ensures |Table(xs, id)| <= |xs|
    ensures UniqueIds(xs, id) ==> forall x | x in xs :: id(x) in Table(xs, id) && Table(xs, id)[id(x)] == x
  {
    if xs != [] {
      var n := |xs| - 1;
      UniqueEntries(xs[..n], id);
      TableKeys(xs[..n], id);
      TableKeys(xs, id);
      assert xs == xs[..n] + [xs[n]];
    }
  }

  lemma TablePermuted<T>(xs: seq<T>, ys: seq<T>, id: T -> string)
    requires multiset(xs) == multiset(ys)
    ensures Table(xs, id).Keys == Table(ys, id).Keys && UniqueIds(xs, id) == UniqueIds(ys, id)
    ensures UniqueIds(xs, id) ==> Table(xs, id) == Table(ys, id)
  {
    PermutedMembers(xs, ys);
    TableKeys(xs, id);
    TableKeys(ys, id);
    var t, u := Table(xs, id), Table(ys, id);
    assert t.Keys == u.Keys;
    assert |t| == |t.Keys| && |u| == |u.Keys|;
    UniqueEntries(xs, id);
    UniqueEntries(ys, id);
    if UniqueIds(xs, id) {
      forall k | k in t ensures t[k] == u[k] {
        var x :| x in xs && id(x) == k;
      }
    }
  }

  // ------------------------------------------------------------------- reading

  function DescOf(t: Tables, key: Key): Desc {
    var r := Walk(t, key, {});
    if r.Ok? then r.value else PopulationDesc("", multiset{}, multiset{}, multiset{})
  }

  lemma WalkAllPermuted(t: Tables, xs: seq<Key>, ys: seq<Key>)
    requires multiset(xs) == multiset(ys)
    ensures WalkAll(t, xs, {}).Ok? == WalkAll(t, ys, {}).Ok?
    ensures WalkAll(t, xs, {}).Ok? ==> multiset(WalkAll(t, xs, {}).value) == multiset(WalkAll(t, ys, {}).value)
  {
    PermutedMembers(xs, ys);
    WalkAllAt(t, xs, {});
    WalkAllAt(t, ys, {});
    var f := (k: Key) => DescOf(t, k);
    PermutedMap(f, xs, ys);
    if WalkAll(t, xs, {}).Ok? {
      assert WalkAll(t, xs, {}).value == Map(f, xs);
      assert WalkAll(t, ys, {}).value == Map(f, ys);
    }
  }

  lemma ReadNodesPermuted(t: Tables, xs: seq<string>, ys: seq<string>)
    requires multiset(xs) == multiset(ys)
    ensures ReadNodes(t, xs).Ok? == ReadNodes(t, ys).Ok?
    ensures ReadNodes(t, xs).Ok? ==> multiset(ReadNodes(t, xs).value) == multiset(ReadNodes(t, ys).value)
  {
    var f := (id: string) => NodeKey(id);
    PermutedMap(f, xs, ys);
    assert NodeKeys(xs) == Map(f, xs) && NodeKeys(ys) == Map(f, ys);
    WalkAllPermuted(t, NodeKeys(xs), NodeKeys(ys));
  }

  lemma IdsPermuted<T>(xs: seq<T>, ys: seq<T>, id: T -> string)
    requires multiset(xs) == multiset(ys)
    ensures multiset(Ids(xs, id)) == multiset(Ids(ys, id))
  {
    PermutedMap(id, xs, ys);
    assert Ids(xs, id) == Map(id, xs) && Ids(ys, id) == Map(id, ys);
  }

  lemma ReadOutputsPermuted(t: Tables, a: Analysis, b: Analysis)
    requires Permuted(a, b)
    ensures SameButFault(ReadOutputs(t, a), ReadOutputs(t, b))
  {
    var f := (o: Output) => o.node;
    PermutedMap(f, a.outputs, b.outputs);
    assert OutputNodes(a.outputs) == Map(f, a.outputs) && OutputNodes(b.outputs) == Map(f, b.outputs);
    ReadNodesPermuted(t, OutputNodes(a.outputs), OutputNodes(b.outputs));
  }

  lemma PopulationsPermuted(t: Tables, a: Analysis, b: Analysis)
    requires Permuted(a, b)
    ensures WalkAll(t, PopulationKeys(Ids(a.populations, PopulationId)), {}).Ok? ==
            WalkAll(t, PopulationKeys(Ids(b.populations, PopulationId)), {}).Ok?
  {
    var f := (p: Population) => PopulationKey(p.id);
    PermutedMap(f, a.populations, b.populations);
    assert PopulationKeys(Ids(a.populations, PopulationId)) == Map(f, a.populations);
    assert PopulationKeys(Ids(b.populations, PopulationId)) == Map(f, b.populations);
    WalkAllPermuted(t, Map(f, a.populations), Map(f, b.populations));
  }

  lemma ValidatePermuted(t: Tables, a: Analysis, b: Analysis)
    requires Permuted(a, b)
    ensures SameButFault(Validate(t, a), Validate(t, b))
  {
    assert ReadNodes(t, Ids(a.nodes, NodeId)).Ok? == ReadNodes(t, Ids(b.nodes, NodeId)).Ok? by {
      IdsPermuted(a.nodes, b.nodes, NodeId);
      ReadNodesPermuted(t, Ids(a.nodes, NodeId), Ids(b.nodes, NodeId));
    }
    PopulationsPermuted(t, a, b);
    assert KnownVocabulary(a) == KnownVocabulary(b) by { PermutedMembers(a.nodes, b.nodes); }
    ReadOutputsPermuted(t, a, b);
  }

  function BindingOf(t: Tables, slot: string): BindingDesc {
    var r := BindingDescriptor(t, slot);
    if r.Ok? then r.value else BindingDesc("", None, None, None, None, None)
  }

  lemma {:induction false} BindingDescriptorsAt(t: Tables, slots: seq<string>)
    requires BindingDescriptors(t, slots).Ok?
    ensures BindingDescriptors(t, slots).value == Map(s => BindingOf(t, s), slots)
  {
    if slots != [] {
      BindingDescriptorsAt(t, slots[1..]);
      assert Map(s => BindingOf(t, s), slots) == [BindingOf(t, slots[0])] + Map(s => BindingOf(t, s), slots[1..]);
    }
  }

  lemma BindingsPermuted(t: Tables, a: Analysis, b: Analysis)
    requires Permuted(a, b)
    ensures var x, y := BindingDescriptors(t, Ids(a.bindings, Slot)), BindingDescriptors(t, Ids(b.bindings, Slot));
            x.Ok? == y.Ok? && (x.Ok? ==> multiset(x.value) == multiset(y.value))
  {
    var xs, ys := Ids(a.bindings, Slot), Ids(b.bindings, Slot);
    IdsPermuted(a.bindings, b.bindings, Slot);
    PermutedMembers(xs, ys);
    BindingDescriptorsOk(t, xs);
    BindingDescriptorsOk(t, ys);
    if BindingDescriptors(t, xs).Ok? {
      BindingDescriptorsAt(t, xs);
      BindingDescriptorsAt(t, ys);
      PermutedMap(s => BindingOf(t, s), xs, ys);
    }
  }

  lemma StructurePermuted(a: Analysis, b: Analysis)
    requires Permuted(a, b)
    ensures StructureFault(a) == StructureFault(b)
    ensures StructureFault(a).None? ==> forall c :: TablesOf(a, c) == TablesOf(b, c)
  {
    TablePermuted(a.nodes, b.nodes, NodeId);
    TablePermuted(a.populations, b.populations, PopulationId);
    TablePermuted(a.bindings, b.bindings, Slot);
    TablePermuted(a.outputs, b.outputs, OutputId);
    TablePermuted(a.outputs, b.outputs, Alias);
    PermutedMembers(a.outputs, b.outputs);
    assert OutputsDangle(a) == OutputsDangle(b);
    assert EnrichmentsDangle(a) == EnrichmentsDangle(b);
  }

  lemma ContextPermuted(a: Analysis, b: Analysis, c: map<string, string>)
    requires Permuted(a, b) && TablesOf(a, Some(c)) == TablesOf(b, Some(c))
    ensures SameButFault(ReadContext(a, c), ReadContext(b, c))
  {
    var t := TablesOf(a, Some(c));
    ReadOutputsPermuted(t, a, b);
    BindingsPermuted(t, a, b);
  }

  // --------------------------------------------------------------- main result

  ghost predicate SameReading(x: Reading, y: Reading) {
    && y == x.(valid := y.valid, outputs := y.outputs, outcome := y.outcome, context := y.context)
    && (x.fault.None? ==>
         && SameButFault(x.valid, y.valid) && SameButFault(x.outputs, y.outputs) && x.outcome == y.outcome
         && x.context.Some? == y.context.Some?
         && (x.context.Some? ==> SameButFault(x.context.value, y.context.value)))
  }

  lemma ReadPermuted(a: Analysis, b: Analysis, c: Option<map<string, string>>)
    requires Permuted(a, b)
    ensures SameReading(Read(a, c), Read(b, c))
  {
    StructurePermuted(a, b);
    PermutedMembers(a.bindings, b.bindings);
    if StructureFault(a).None? {
      var t := TablesOf(a, None);
      assert t == TablesOf(b, None);
      ValidatePermuted(t, a, b);
      ReadOutputsPermuted(t, a, b);
      if c.Some? {
        ContextPermuted(a, b, c.value);
      }
    }
  }

  lemma DecidePermuted(l: Reading, l': Reading, r: Reading, r': Reading, scope: Scope, shared: bool, attested: Option<bool>)
    requires SameReading(l, l') && SameReading(r, r')
    ensures SameButFault(Decide(l, r, scope, shared, attested), Decide(l', r', scope, shared, attested))
  {
  }

  /** Permuting either side's tuples changes no verdict: at most which fault is raised. */
  lemma PermutingInvariant(l: Analysis, l': Analysis, r: Analysis, r': Analysis, opts: Options)
    requires Permuted(l, l') && Permuted(r, r')
    ensures SameButFault(CompareAnalysis(l, r, opts), CompareAnalysis(l', r', opts))
  {
    ReadPermuted(l, l', opts.leftContext);
    ReadPermuted(r, r', opts.rightContext);
    DecidePermuted(Read(l, opts.leftContext), Read(l', opts.leftContext),
                   Read(r, opts.rightContext), Read(r', opts.rightContext), opts.scope, opts.shared, opts.attested);
  }
}
