/** The comparison of two semantic analyses. */
module Compare {

  /*
    Structural checks, a complete read of both graphs, and a chain of decisions on
    their descriptors.
  */

  import opened Wrappers
  import opened SemanticGraph
  import opened GraphReader

  // -------------------------------------------------------------- dictionaries

  /** A dictionary keyed by identifier; a later entry replaces an earlier one. */
  function Table<T>(xs: seq<T>, id: T -> string): map<string, T> {
    if xs == [] then map[] else
      var last := xs[|xs| - 1];
      Table(xs[..|xs| - 1], id)[id(last) := last]
  }

  function NodeId(n: SemanticNode): string { n.id }
  function PopulationId(p: Population): string { p.id }
  function Slot(b: Binding): string { b.slot }
  function OutputId(o: Output): string { o.id }
  function Alias(o: Output): string { o.alias }

  /** The dictionary lost no entry: all identifiers differ. */
  predicate UniqueIds<T>(xs: seq<T>, id: T -> string) {
    |Table(xs, id)| == |xs|
  }

  function TablesOf(a: Analysis, private: Option<map<string, string>>): Tables {
    Tables(Table(a.nodes, NodeId), Table(a.populations, PopulationId), Table(a.bindings, Slot), private)
  }

  predicate Keyed<T>(xs: seq<T>, id: T -> string) {
    UniqueIds(xs, id) && "" !in Table(xs, id)
  }

  predicate OutputsDangle(a: Analysis) {
    exists o | o in a.outputs :: o.node !in Table(a.nodes, NodeId)
  }

  predicate EnrichmentsDangle(a: Analysis) {
    exists e | e in a.enrichments :: e !in Table(a.outputs, OutputId)
  }

  /** The checks made while the dictionaries are built. */
  function StructureFault(a: Analysis): Option<Fault> {
    if !Keyed(a.nodes, NodeId) then Some(InvalidNodeIds)
    else if !Keyed(a.populations, PopulationId) then Some(InvalidPopulationIds)
    else if !Keyed(a.bindings, Slot) then Some(InvalidBindingIds)
    else if !Keyed(a.outputs, OutputId) then Some(InvalidOutputIds)
    else if !UniqueIds(a.outputs, Alias) then Some(DuplicateAlias)
    else if OutputsDangle(a) then Some(DanglingNode)
    else if EnrichmentsDangle(a) then Some(DanglingEnrichment)
    else None
  }

  // ------------------------------------------------------------------- reading

  datatype RankingDesc = RankingDesc(
    partition: multiset<Desc>, order: seq<Desc>, directions: seq<string>, tieBreakers: seq<Desc>, details: string)

  datatype TimeDesc = TimeDesc(current: Option<BindingDesc>, prior: Option<BindingDesc>, details: string)

  datatype OutcomeDesc = OutcomeDesc(
    grain: multiset<Desc>, population: Option<Desc>, order: seq<Desc>, directions: seq<string>,
    time: Option<TimeDesc>, predicates: multiset<Desc>, ranking: Option<RankingDesc>, details: string)

  function Firsts(pairs: seq<(string, string)>): seq<string> {
    seq(|pairs|, i requires 0 <= i < |pairs| => pairs[i].0)
  }

  function Seconds(pairs: seq<(string, string)>): seq<string> {
    seq(|pairs|, i requires 0 <= i < |pairs| => pairs[i].1)
  }

  function ReadNodes(t: Tables, ids: seq<string>): Result<seq<Desc>, Fault> {
    WalkAll(t, NodeKeys(ids), {})
  }

  function ReadPopulation(t: Tables, id: Option<string>): Result<Option<Desc>, Fault> {
    match id
    case None => Ok(None)
    case Some(p) => var d :- Walk(t, PopulationKey(p), {}); Ok(Some(d))
  }

  function ReadBinding(t: Tables, slot: Option<string>): Result<Option<BindingDesc>, Fault> {
    match slot
    case None => Ok(None)
    case Some(s) => var d :- BindingDescriptor(t, s); Ok(Some(d))
  }

  function ReadTime(t: Tables, policy: Option<TimePolicy>): Result<Option<TimeDesc>, Fault> {
    match policy
    case None => Ok(None)
    case Some(p) =>
      var current :- ReadBinding(t, p.current);
      var prior :- ReadBinding(t, p.prior);
      Ok(Some(TimeDesc(current, prior, p.details)))
  }

  function ReadRanking(t: Tables, ranking: Option<Ranking>): Result<Option<RankingDesc>, Fault> {
    match ranking
    case None => Ok(None)
    case Some(r) =>
      var partition :- ReadNodes(t, r.partition);
      var order :- ReadNodes(t, Firsts(r.order));
      var ties :- ReadNodes(t, r.tieBreakers);
      Ok(Some(RankingDesc(multiset(partition), order, Seconds(r.order), ties, r.details)))
  }

  function ReadOutcome(t: Tables, o: Outcome): Result<OutcomeDesc, Fault> {
    var grain :- ReadNodes(t, o.grain);
    var population :- ReadPopulation(t, o.population);
    var order :- ReadNodes(t, Firsts(o.order));
    var time :- ReadTime(t, o.timePolicy);
    var predicates :- ReadNodes(t, o.predicates);
    var ranking :- ReadRanking(t, o.ranking);
    Ok(OutcomeDesc(multiset(grain), population, order, Seconds(o.order), time, multiset(predicates), ranking, o.details))
  }

  function ReadOptionalOutcome(t: Tables, o: Option<Outcome>): Result<Option<OutcomeDesc>, Fault> {
    match o
    case None => Ok(None)
    case Some(outcome) => var d :- ReadOutcome(t, outcome); Ok(Some(d))
  }

  function OutputNodes(outputs: seq<Output>): seq<string> {
    seq(|outputs|, i requires 0 <= i < |outputs| => outputs[i].node)
  }

  function ReadOutputs(t: Tables, a: Analysis): Result<multiset<Desc>, Fault> {
    var ds :- ReadNodes(t, OutputNodes(a.outputs));
    Ok(multiset(ds))
  }

  function Ids<T>(xs: seq<T>, id: T -> string): seq<string> {
    seq(|xs|, i requires 0 <= i < |xs| => id(xs[i]))
  }

  function PopulationKeys(ids: seq<string>): seq<Key> {
    seq(|ids|, i requires 0 <= i < |ids| => PopulationKey(ids[i]))
  }

  function ReadDerivations(t: Tables, derivations: seq<seq<string>>): Result<bool, Fault> {
    if derivations == [] then Ok(true) else
      var _ :- ReadNodes(t, derivations[0]);
      ReadDerivations(t, derivations[1..])
  }

  const KINDS := {"aggregate", "dimension", "time", "arithmetic", "comparison", "predicate"}
  const AGGREGATES := {"sum", "count", "count_distinct", "avg", "min", "max", "median", "p75", "p90", "p95", "ratio"}
  const ARITHMETIC := {"sum", "diff", "ratio"}
  const PREDICATES := {
    "eq", "neq", "in", "not_in", "gt", "lt", "gte", "lte", "contains", "is_null", "not_null", "and", "or", "not",
    "segment", "scope", "tenancy", "security", "base_predicate", "half_open_range"}
  const COMPARISONS := {"current", "prior", "delta", "pct_change"}

  predicate KnownAs(aggregate: Option<string>, names: set<string>) {
    aggregate.Some? && aggregate.value in names
  }

  predicate KnownNode(n: SemanticNode) {
    && n.kind in KINDS
    && (n.kind == "aggregate" ==> KnownAs(n.aggregate, AGGREGATES))
    && (n.kind == "arithmetic" ==> KnownAs(n.aggregate, ARITHMETIC))
    && (n.kind == "predicate" ==> KnownAs(n.aggregate, PREDICATES))
    && (n.kind == "comparison" ==> KnownAs(n.aggregate, COMPARISONS))
  }

  predicate KnownVocabulary(a: Analysis) {
    forall n | n in a.nodes :: KnownNode(n)
  }

  predicate NoRepeats(ds: multiset<Desc>) {
    forall d | d in ds :: ds[d] == 1
  }

  /** Read everything, projected or not; true unless the vocabulary is unknown. */
  function Validate(t: Tables, a: Analysis): Result<bool, Fault> {
    Verified(ReadNodes(t, Ids(a.nodes, NodeId)), WalkAll(t, PopulationKeys(Ids(a.populations, PopulationId)), {}),
             ReadOptionalOutcome(t, a.outcome), ReadDerivations(t, a.derivations), KnownVocabulary(a), ReadOutputs(t, a))
  }

  /** The first fault in reading order, then the vocabulary, then repeated outputs. */
  function Verified(
    nodes: Result<seq<Desc>, Fault>, populations: Result<seq<Desc>, Fault>, outcome: Result<Option<OutcomeDesc>, Fault>,
    derivations: Result<bool, Fault>, known: bool, outputs: Result<multiset<Desc>, Fault>): Result<bool, Fault>
  {
    var _ :- nodes;
    var _ :- populations;
    var _ :- outcome;
    var _ :- derivations;
    if !known then Ok(false) else
      var ds :- outputs;
      if NoRepeats(ds) then Ok(true) else Err(DuplicateOutput)
  }

  // ------------------------------------------------------------------ deciding

  datatype Scope = Expression | ResultScope

  datatype Verdict = Equivalent | Different(reason: string) | NotEstablished(reason: string)

  datatype Options = Options(
    scope: Scope, leftContext: Option<map<string, string>>, rightContext: Option<map<string, string>>,
    shared: bool, attested: Option<bool>)

  datatype Context = Context(outputs: multiset<Desc>, outcome: Option<OutcomeDesc>, bindings: multiset<BindingDesc>)

  /** The bound graph: every binding descriptor carries its private value. */
  function ReadContext(a: Analysis, values: map<string, string>): Result<Option<Context>, Fault> {
    if !(Table(a.bindings, Slot).Keys <= values.Keys) then Ok(None) else
      var t := TablesOf(a, Some(values));
      var outputs :- ReadOutputs(t, a);
      var outcome :- ReadOptionalOutcome(t, a.outcome);
      var bindings :- BindingDescriptors(t, Ids(a.bindings, Slot));
      Ok(Some(Context(outputs, outcome, multiset(bindings))))
  }

  predicate Named(c: Option<Catalog>) {
    c.Some? && c.value.namespace.Some? && c.value.namespace.value != ""
  }

  predicate Revised(c: Option<Catalog>) {
    c.Some? && c.value.revision.Some?
  }

  /** The obstacles that need no graph comparison, in the order they are reported. */
  function Obstacle(l: Reading, r: Reading, shared: bool): Option<string> {
    if !l.complete || !r.complete then Some("analysis_coverage_incomplete")
    else if !(Named(l.catalog) && Named(r.catalog)) && !shared then Some("catalog_context_missing")
    else if Named(l.catalog) && Named(r.catalog) && l.catalog.value.namespace != r.catalog.value.namespace then
      Some("catalog_namespace_incompatible")
    else if !(Revised(l.catalog) && Revised(r.catalog)) && !shared then Some("catalog_revision_missing")
    else if Revised(l.catalog) && Revised(r.catalog) && l.catalog.value.revision != r.catalog.value.revision then
      Some("catalog_revision_incompatible")
    else None
  }

  const SUPPORTED := {"partition_ranking"}

  /** Materialised merge-key obligations describe a physical strategy. */
  function Logical(assumptions: seq<Assumption>): seq<Assumption> {
    if assumptions == [] then [] else
      (if assumptions[0].kind != "unique_merge_key" then [assumptions[0]] else []) + Logical(assumptions[1..])
  }

  /** One side as the decision chain sees it; what is not needed is never looked at. */
  datatype Reading = Reading(
    version: nat, required: set<string>, complete: bool, catalog: Option<Catalog>,
    fault: Option<Fault>, valid: Result<bool, Fault>, outputs: Result<multiset<Desc>, Fault>,
    outcome: Result<Option<OutcomeDesc>, Fault>, joins: seq<Join>, assumptions: multiset<Assumption>,
    bound: bool, context: Option<Result<Option<Context>, Fault>>)

  function Read(a: Analysis, values: Option<map<string, string>>): Reading {
    var t := TablesOf(a, None);
    Reading(a.version, a.required, a.complete, a.catalog, StructureFault(a), Validate(t, a), ReadOutputs(t, a),
            ReadOptionalOutcome(t, a.outcome), a.joins, multiset(Logical(a.assumptions)), a.bindings != [],
            match values case None => None case Some(v) => Some(ReadContext(a, v)))
  }

  /** Whether bound inputs agree, given both contexts or the caller's word. */
  function Attested(l: Reading, r: Reading, attested: Option<bool>): Result<Verdict, Fault> {
    if l.context.None? || r.context.None? then
      Ok(if attested == Some(false) then Different("bound_context_differs")
         else if (l.bound || r.bound) && attested.None? then NotEstablished("bound_context_not_attested")
         else Equivalent)
    else
      var lc :- l.context.value;
      var rc :- r.context.value;
      Ok(if lc.None? || rc.None? then NotEstablished("bound_context_incomplete")
         else if lc != rc then Different("bound_context_differs")
         else Equivalent)
  }

  /** The part of the chain that compares results rather than expressions. */
  function DecideResults(l: Reading, r: Reading, attested: Option<bool>): Result<Verdict, Fault> {
    var lo :- l.outcome;
    var ro :- r.outcome;
    if lo.None? || ro.None? then Ok(NotEstablished("result_contract_missing"))
    else if lo != ro then Ok(Different("result_contract_differs"))
    else if l.joins != r.joins then Ok(Different("join_semantics_differ"))
    else if l.assumptions != r.assumptions then Ok(Different("logical_assumptions_differ"))
    else Attested(l, r, attested)
  }

  function Decide(l: Reading, r: Reading, scope: Scope, shared: bool, attested: Option<bool>): Result<Verdict, Fault> {
    if l.version != 1 || r.version != 1 then Ok(NotEstablished("analysis_version_unsupported"))
    else if !(l.required + r.required <= SUPPORTED) then Ok(NotEstablished("required_semantics_unsupported"))
    else if l.fault.Some? then Err(l.fault.value)
    else if r.fault.Some? then Err(r.fault.value)
    else
      var leftKnown :- l.valid;
      if !leftKnown then Ok(NotEstablished("unknown_semantic_vocabulary")) else
      var rightKnown :- r.valid;
      if !rightKnown then Ok(NotEstablished("unknown_semantic_vocabulary")) else
      var obstacle := Obstacle(l, r, shared);
      if obstacle.Some? then Ok(NotEstablished(obstacle.value)) else
      var lo :- l.outputs;
      var ro :- r.outputs;
      if lo != ro then Ok(Different("semantic_descriptors_differ"))
      else if scope == Expression then Ok(Equivalent)
      else DecideResults(l, r, attested)
  }

  function CompareAnalysis(l: Analysis, r: Analysis, opts: Options): Result<Verdict, Fault> {
    Decide(Read(l, opts.leftContext), Read(r, opts.rightContext), opts.scope, opts.shared, opts.attested)
  }

  // ------------------------------------------------------- equivalence relation

  /** An analysis the comparison can read to the end. */
  predicate Readable(r: Reading) {
    && r.version == 1 && r.required <= SUPPORTED && r.complete
    && r.fault.None? && r.valid == Ok(true) && r.outputs.Ok?
    && Named(r.catalog) && Revised(r.catalog)
  }

  /** Expression equivalence: both readable, one catalog snapshot, same output meanings. */
  lemma ExpressionEquivalence(l: Analysis, r: Analysis, opts: Options)
    requires opts.scope == Expression && !opts.shared
    ensures CompareAnalysis(l, r, opts) == Ok(Equivalent) <==>
            var x, y := Read(l, opts.leftContext), Read(r, opts.rightContext);
            Readable(x) && Readable(y) && x.catalog == y.catalog && x.outputs == y.outputs
  {
    DecideExpression(Read(l, opts.leftContext), Read(r, opts.rightContext), opts.attested);
  }

  lemma DecideExpression(x: Reading, y: Reading, attested: Option<bool>)
    ensures Decide(x, y, Expression, false, attested) == Ok(Equivalent) <==>
            Readable(x) && Readable(y) && x.catalog == y.catalog && x.outputs == y.outputs
  {
  }

  lemma ExpressionSymmetric(l: Analysis, r: Analysis, opts: Options)
    requires opts.scope == Expression && !opts.shared
    requires CompareAnalysis(l, r, opts) == Ok(Equivalent)
    ensures CompareAnalysis(r, l, opts) == Ok(Equivalent)
  {
    ExpressionEquivalence(l, r, opts);
    ExpressionEquivalence(r, l, opts);
  }

  lemma ExpressionTransitive(a: Analysis, b: Analysis, c: Analysis, opts: Options)
    requires opts.scope == Expression && !opts.shared
    requires CompareAnalysis(a, b, opts) == Ok(Equivalent) && CompareAnalysis(b, c, opts) == Ok(Equivalent)
    ensures CompareAnalysis(a, c, opts) == Ok(Equivalent)
  {
    ExpressionEquivalence(a, b, opts);
    ExpressionEquivalence(b, c, opts);
    ExpressionEquivalence(a, c, opts);
  }

  /** Results that agree have expressions that agree. */
  lemma ResultImpliesExpression(l: Analysis, r: Analysis, opts: Options)
    requires CompareAnalysis(l, r, opts) == Ok(Equivalent)
    ensures CompareAnalysis(l, r, opts.(scope := Expression)) == Ok(Equivalent)
  {
  }

  function Blank(namespace: Option<string>): Analysis {
    Analysis(1, [], [], [], Some(Catalog(namespace, Some("r"))), true, [], [], None, {}, [], [], [])
  }

  /** With the shared-snapshot flag, equivalence is not transitive. */
  lemma SharedNotTransitive(opts: Options)
    requires opts.scope == Expression && opts.shared
    ensures CompareAnalysis(Blank(Some("x")), Blank(None), opts) == Ok(Equivalent)
    ensures CompareAnalysis(Blank(None), Blank(Some("y")), opts) == Ok(Equivalent)
    ensures CompareAnalysis(Blank(Some("x")), Blank(Some("y")), opts) == Ok(NotEstablished("catalog_namespace_incompatible"))
  {
  }

}
