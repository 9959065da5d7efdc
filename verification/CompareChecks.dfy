/** What an artifact must be for the comparison to read it whole. */
module CompareChecks {

  import opened Wrappers
  import opened SemanticGraph
  import opened GraphReader
  import opened Compare
  import opened CompareResults

  // -------------------------------------------------------------- identifiers

  /** Entries under different, non-empty identifiers. */
  predicate Identified<T(==)>(xs: seq<T>, id: T -> string) {
    Apart(xs, id) && forall x | x in xs :: id(x) != ""
  }

  predicate Apart<T>(xs: seq<T>, id: T -> string) {
    forall i, j | 0 <= i < j < |xs| :: id(xs[i]) != id(xs[j])
  }

  lemma {:induction false} TableIs<T>(xs: seq<T>, id: T -> string)
    ensures forall k :: k in Table(xs, id) <==> exists x :: x in xs && id(x) == k
    ensures |Table(xs, id)| <= |xs|
    ensures |Table(xs, id)| == |xs| <==> Apart(xs, id)
  {
    if xs != [] {
      var n := |xs| - 1;
      var before, k := Table(xs[..n], id), id(xs[n]);
      TableIs(xs[..n], id);
      assert xs == xs[..n] + [xs[n]];
      assert Table(xs, id).Keys == before.Keys + {k};
      assert |Table(xs, id)| == |Table(xs, id).Keys| && |before| == |before.Keys|;
      assert k in before <==> exists i :: 0 <= i < n && id(xs[i]) == k by {
        if k in before {
          var x :| x in xs[..n] && id(x) == k;
        }
        if i :| 0 <= i < n && id(xs[i]) == k {
          assert xs[..n][i] in xs[..n];
        }
      }
      assert Apart(xs, id) <==> Apart(xs[..n], id) && forall i | 0 <= i < n :: id(xs[i]) != k by {
        assert forall i | 0 <= i < n :: xs[..n][i] == xs[i];
      }
    }
  }

  lemma KeyedIff<T>(xs: seq<T>, id: T -> string)
    ensures Keyed(xs, id) <==> Identified(xs, id)
    ensures UniqueIds(xs, id) <==> Apart(xs, id)
  {
    TableIs(xs, id);
  }

  predicate OutputsStand(a: Analysis) {
    forall o | o in a.outputs :: exists n :: n in a.nodes && n.id == o.node
  }

  predicate EnrichmentsStand(a: Analysis) {
    forall e | e in a.enrichments :: exists o :: o in a.outputs && o.id == e
  }

  lemma OutputsStandIff(a: Analysis)
    ensures OutputsStand(a) <==> !OutputsDangle(a)
    ensures EnrichmentsStand(a) <==> !EnrichmentsDangle(a)
  {
    hide Table;
    TableIs(a.nodes, NodeId);
    TableIs(a.outputs, OutputId);
  }

  /** The checks in the order they are made, each by what it demands of the lists. */
  lemma StructureFaultIs(a: Analysis)
    ensures StructureFault(a) ==
            if !Identified(a.nodes, NodeId) then Some(InvalidNodeIds)
            else if !Identified(a.populations, PopulationId) then Some(InvalidPopulationIds)
            else if !Identified(a.bindings, Slot) then Some(InvalidBindingIds)
            else if !Identified(a.outputs, OutputId) then Some(InvalidOutputIds)
            else if !Apart(a.outputs, Alias) then Some(DuplicateAlias)
            else if !OutputsStand(a) then Some(DanglingNode)
            else if !EnrichmentsStand(a) then Some(DanglingEnrichment)
            else None
  {
    hide Keyed, UniqueIds, Identified, Apart, OutputsDangle, EnrichmentsDangle, OutputsStand, EnrichmentsStand;
    KeyedIff(a.nodes, NodeId);
    KeyedIff(a.populations, PopulationId);
    KeyedIff(a.bindings, Slot);
    KeyedIff(a.outputs, OutputId);
    KeyedIff(a.outputs, Alias);
    OutputsStandIff(a);
  }

  // ------------------------------------------------------------------- reading

  /** From each node and population, no reference leads back, out of the artifact or to a missing slot. */
  ghost predicate GraphSound(t: Tables, a: Analysis) {
    (forall n | n in a.nodes :: Sound(t, NodeKey(n.id))) && forall p | p in a.populations :: Sound(t, PopulationKey(p.id))
  }

  ghost predicate DerivationsSound(t: Tables, derivations: seq<seq<string>>) {
    forall d, id | d in derivations && id in d :: Sound(t, NodeKey(id))
  }

  /** No two outputs say the same. */
  predicate OutputsDiffer(t: Tables, a: Analysis) {
    forall i, j | 0 <= i < j < |a.outputs| :: Walk(t, NodeKey(a.outputs[i].node), {}) != Walk(t, NodeKey(a.outputs[j].node), {})
  }

  ghost predicate ReadsAll(t: Tables, a: Analysis) {
    GraphSound(t, a) && (a.outcome.Some? ==> OutcomeReads(t, a.outcome.value)) && DerivationsSound(t, a.derivations)
  }

  lemma {:induction false} AllWalked(t: Tables, keys: seq<Key>)
    ensures WalkAll(t, keys, {}).Ok? <==> forall k | k in keys :: Sound(t, k)
  {
    hide Walk, Sound;
    WalkAllAt(t, keys, {});
    forall k ensures Walk(t, k, {}).Ok? <==> Sound(t, k) {
      WalkSucceedsIffSound(t, k);
    }
  }

  lemma IdsAre(a: Analysis)
    ensures var ids := Ids(a.nodes, NodeId); |ids| == |a.nodes| && forall i | 0 <= i < |ids| :: ids[i] == a.nodes[i].id
    ensures var ids := Ids(a.populations, PopulationId); |ids| == |a.populations| && forall i | 0 <= i < |ids| :: ids[i] == a.populations[i].id
  {
    forall i | 0 <= i < |a.nodes| ensures Ids(a.nodes, NodeId)[i] == a.nodes[i].id {
      assert NodeId(a.nodes[i]) == a.nodes[i].id;
    }
    forall i | 0 <= i < |a.populations| ensures Ids(a.populations, PopulationId)[i] == a.populations[i].id {
      assert PopulationId(a.populations[i]) == a.populations[i].id;
    }
  }

  lemma GraphSoundIff(t: Tables, a: Analysis)
    ensures GraphSound(t, a) <==>
            ReadNodes(t, Ids(a.nodes, NodeId)).Ok? && WalkAll(t, PopulationKeys(Ids(a.populations, PopulationId)), {}).Ok?
  {
    hide Sound, Ids;
    IdsAre(a);
    var ns, ps := NodeKeys(Ids(a.nodes, NodeId)), PopulationKeys(Ids(a.populations, PopulationId));
    AllWalked(t, ns);
    AllWalked(t, ps);
    forall n | n in a.nodes ensures NodeKey(n.id) in ns {
      var i :| 0 <= i < |a.nodes| && a.nodes[i] == n;
      assert Ids(a.nodes, NodeId)[i] == n.id && ns[i] == NodeKey(n.id);
    }
    forall p | p in a.populations ensures PopulationKey(p.id) in ps {
      var i :| 0 <= i < |a.populations| && a.populations[i] == p;
      assert Ids(a.populations, PopulationId)[i] == p.id && ps[i] == PopulationKey(p.id);
    }
    forall k | k in ns ensures exists n :: n in a.nodes && k == NodeKey(n.id) {
      var i :| 0 <= i < |ns| && ns[i] == k;
      assert Ids(a.nodes, NodeId)[i] == a.nodes[i].id && a.nodes[i] in a.nodes;
    }
    forall k | k in ps ensures exists p :: p in a.populations && k == PopulationKey(p.id) {
      var i :| 0 <= i < |ps| && ps[i] == k;
      assert Ids(a.populations, PopulationId)[i] == a.populations[i].id && a.populations[i] in a.populations;
    }
  }

  lemma {:induction false} DerivationsSoundIff(t: Tables, derivations: seq<seq<string>>)
    ensures ReadDerivations(t, derivations).Ok? <==> DerivationsSound(t, derivations)
    ensures ReadDerivations(t, derivations).Ok? ==> ReadDerivations(t, derivations) == Ok(true)
  {
    hide Sound;
    if derivations != [] {
      DerivationsSoundIff(t, derivations[1..]);
      AllWalked(t, NodeKeys(derivations[0]));
      assert derivations == [derivations[0]] + derivations[1..];
      forall id ensures NodeKey(id) in NodeKeys(derivations[0]) <==> id in derivations[0] {
        if id in derivations[0] {
          var i :| 0 <= i < |derivations[0]| && derivations[0][i] == id;
          assert NodeKeys(derivations[0])[i] == NodeKey(id);
        }
      }
      assert forall k | k in NodeKeys(derivations[0]) :: k.NodeKey?;
    }
  }

  lemma {:induction false} NoRepeatsIff(ds: seq<Desc>)
    ensures NoRepeats(multiset(ds)) <==> forall i, j | 0 <= i < j < |ds| :: ds[i] != ds[j]
  {
    if ds != [] {
      var n := |ds| - 1;
      NoRepeatsIff(ds[..n]);
      assert ds == ds[..n] + [ds[n]];
      assert multiset(ds) == multiset(ds[..n]) + multiset{ds[n]};
      assert ds[n] in multiset(ds[..n]) <==> ds[n] in ds[..n];
      NoRepeatsMore(multiset(ds[..n]), ds[n]);
      assert (forall i, j | 0 <= i < j < |ds| :: ds[i] != ds[j]) <==>
             (forall i, j | 0 <= i < j < n :: ds[..n][i] != ds[..n][j]) && forall i | 0 <= i < n :: ds[..n][i] != ds[n] by {
        assert forall i | 0 <= i < n :: ds[..n][i] == ds[i];
      }
    }
  }

  lemma NoRepeatsMore(ds: multiset<Desc>, d: Desc)
    ensures NoRepeats(ds + multiset{d}) <==> NoRepeats(ds) && d !in ds
  {
    var all := ds + multiset{d};
    if NoRepeats(all) {
      assert all[d] == 1;
      forall e | e in ds ensures ds[e] == 1 {
        assert e in all && all[e] == ds[e] + if e == d then 1 else 0;
      }
    }
  }

  lemma OutputsDifferIff(t: Tables, a: Analysis)
    requires ReadOutputs(t, a).Ok?
    ensures NoRepeats(ReadOutputs(t, a).value) <==> OutputsDiffer(t, a)
  {
    hide Walk, NoRepeats;
    var ids := OutputNodes(a.outputs);
    NodesAre(t, ids);
    var ds := ReadNodes(t, ids).value;
    NoRepeatsIff(ds);
    assert forall i | 0 <= i < |ds| :: Walk(t, NodeKey(a.outputs[i].node), {}) == Ok(ds[i]) by {
      assert forall i | 0 <= i < |ds| :: MeaningsOf(t, ids)[i] == Ok(ds[i]);
    }
  }

  /** Outputs of a sound artifact read. */
  lemma OutputsRead(t: Tables, a: Analysis)
    requires OutputsStand(a) && GraphSound(t, a)
    ensures ReadOutputs(t, a).Ok?
  {
    hide Sound;
    var keys := NodeKeys(OutputNodes(a.outputs));
    AllWalked(t, keys);
    forall k | k in keys ensures Sound(t, k) {
      var i :| 0 <= i < |keys| && keys[i] == k;
      assert a.outputs[i] in a.outputs;
    }
  }

  /** Reading succeeds iff everything can be followed; then an unknown word or a repeated output is found, in that order. */
  lemma ValidIs(a: Analysis)
    requires StructureFault(a).None?
    ensures var t := TablesOf(a, None);
            && (Validate(t, a) == Ok(true) <==> ReadsAll(t, a) && KnownVocabulary(a) && OutputsDiffer(t, a))
            && (Validate(t, a) == Ok(false) <==> ReadsAll(t, a) && !KnownVocabulary(a))
            && (ReadsAll(t, a) && KnownVocabulary(a) && !OutputsDiffer(t, a) ==> Validate(t, a) == Err(DuplicateOutput))
  {
    hide Sound, Walk, WalkAll, ReadNodes, KnownVocabulary, ReadOutcome, OutcomeReads, ReadDerivations, DerivationsSound, NoRepeats, OutputsDiffer, ReadOutputs,
         Keyed, GraphSound, OutputsStand, EnrichmentsStand, TablesOf, Identified, Apart;
    var t := TablesOf(a, None);
    GraphSoundIff(t, a);
    DerivationsSoundIff(t, a.derivations);
    if a.outcome.Some? {
      OutcomeIs(t, a.outcome.value);
    }
    StructureFaultIs(a);
    if GraphSound(t, a) {
      OutputsRead(t, a);
      OutputsDifferIff(t, a);
    }
  }

  /** An artifact of version 1 and full coverage, its lists identified, its references sound, its words known, its outputs different. */
  ghost predicate WellFormed(a: Analysis) {
    var t := TablesOf(a, None);
    && a.version == 1 && (forall x | x in a.required :: x == "partition_ranking") && a.complete
    && Identified(a.nodes, NodeId) && Identified(a.populations, PopulationId) && Identified(a.bindings, Slot) && Identified(a.outputs, OutputId)
    && Apart(a.outputs, Alias) && OutputsStand(a) && EnrichmentsStand(a)
    && ReadsAll(t, a) && KnownVocabulary(a) && OutputsDiffer(t, a)
  }

  /** The comparison reads an artifact whole exactly when it is well formed. */
  lemma ReadsWholeIff(a: Analysis)
    ensures ReadsWhole(a) <==> WellFormed(a)
  {
    hide Identified, Apart, OutputsStand, EnrichmentsStand, ReadsAll, KnownVocabulary, OutputsDiffer, TablesOf, Validate, StructureFault;
    StructureFaultIs(a);
    if StructureFault(a).None? {
      ValidIs(a);
    }
  }

  // ---------------------------------------------------------------- vocabulary

  /** The words there are, by kind. */
  const WORDS: seq<(string, seq<string>)> := [
    ("aggregate", ["sum", "count", "count_distinct", "avg", "min", "max", "median", "p75", "p90", "p95", "ratio"]),
    ("arithmetic", ["sum", "diff", "ratio"]),
    ("comparison", ["current", "prior", "delta", "pct_change"]),
    ("predicate", ["eq", "neq", "in", "not_in", "gt", "lt", "gte", "lte", "contains", "is_null", "not_null", "and", "or", "not",
                   "segment", "scope", "tenancy", "security", "base_predicate", "half_open_range"])]

  /** A dimension or time column, whatever it carries, or a word of its kind. */
  predicate Spoken(kind: string, word: Option<string>) {
    kind == "dimension" || kind == "time" || (exists i :: 0 <= i < |WORDS| && WORDS[i].0 == kind && word.Some? && word.value in WORDS[i].1)
  }

  lemma KnownIff(n: SemanticNode)
    ensures KnownNode(n) <==> Spoken(n.kind, n.aggregate)
  {
    var word := if n.aggregate.Some? then n.aggregate.value else "";
    assert word in AGGREGATES <==> word in WORDS[0].1;
    assert word in ARITHMETIC <==> word in WORDS[1].1;
    assert word in COMPARISONS <==> word in WORDS[2].1;
    assert word in PREDICATES <==> word in WORDS[3].1;
    assert WORDS[0].0 == "aggregate" && WORDS[1].0 == "arithmetic" && WORDS[2].0 == "comparison" && WORDS[3].0 == "predicate";
    hide AGGREGATES, ARITHMETIC, COMPARISONS, PREDICATES;
  }
}
