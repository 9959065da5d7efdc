/**
  The result an analysis describes: how its clauses find nodes by name, its
  grain, order, time policy and ranking, and that all of them refer to nodes
  and slots that exist.
*/
module AnalysisResult {
  import opened Wrappers
  import opened SemanticGraph
  import opened Naming
  import opened AnalysisDraft
  import opened AnalysisBuilder
  import opened AnalysisAssembly
  import Compare

  // ------------------------------------------------------- names in the result

  function AliasTarget(aliases: seq<(string, string)>, name: string): string {
    if aliases == [] then name
    else if aliases[0].0 == name then aliases[0].1
    else AliasTarget(aliases[1..], name)
  }

  /** Output nodes by alias; a later output wins. */
  function ByAlias(outputs: seq<Output>): map<string, string> {
    if outputs == [] then map[] else
      var o := outputs[|outputs| - 1];
      ByAlias(outputs[..|outputs| - 1])[o.alias := o.node]
  }

  /** Aggregate, dimension and time nodes by catalog reference; a later node wins. */
  function ByReference(ns: seq<SemanticNode>): map<string, string> {
    if ns == [] then map[] else
      var n := ns[|ns| - 1];
      var before := ByReference(ns[..|ns| - 1]);
      if n.catalogRef.Some? && n.kind in {"aggregate", "dimension", "time"} then before[n.catalogRef.value := n.id] else before
  }

  function Zip(keys: seq<string>, values: seq<string>): map<string, string> {
    if keys == [] || values == [] then map[] else
      map[keys[0] := values[0]] + Zip(keys[1..], values[1..])
  }

  /** How result clauses find nodes: by alias, then by projected reference, then by any reference. */
  datatype Names = Names(alias: map<string, string>, projected: map<string, string>, any: map<string, string>)

  function FindNode(names: Names, aliases: seq<(string, string)>, name: string, anywhere: bool): Option<string> {
    var ref := AliasTarget(aliases, name);
    if name in names.alias then Some(names.alias[name])
    else if ref in names.projected then Some(names.projected[ref])
    else if anywhere && ref in names.any then Some(names.any[ref])
    else None
  }

  function FindAll(names: Names, aliases: seq<(string, string)>, wanted: seq<string>): Option<seq<string>> {
    if wanted == [] then Some([]) else
      var first := FindNode(names, aliases, wanted[0], false);
      var rest := FindAll(names, aliases, wanted[1..]);
      if first.None? || rest.None? then None else Some([first.value] + rest.value)
  }

  /** Order clauses up to the first one that binds to nothing. */
  function FindOrder(names: Names, aliases: seq<(string, string)>, order: seq<(string, string)>): seq<(string, string)> {
    if order == [] then [] else
      var node := FindNode(names, aliases, order[0].0, true);
      if node.None? then [] else [(node.value, order[0].1)] + FindOrder(names, aliases, order[1..])
  }

  predicate NamesExist(t: map<string, SemanticNode>, names: Names) {
    && (forall k | k in names.alias :: names.alias[k] in t)
    && (forall k | k in names.projected :: names.projected[k] in t)
    && (forall k | k in names.any :: names.any[k] in t)
  }

  lemma {:induction false} FindOrderExists(t: map<string, SemanticNode>, names: Names, aliases: seq<(string, string)>, order: seq<(string, string)>)
    requires NamesExist(t, names)
    ensures forall p | p in FindOrder(names, aliases, order) :: p.0 in t
  {
    hide AliasTarget;
    if order != [] {
      FindOrderExists(t, names, aliases, order[1..]);
    }
  }

  lemma {:induction false} FindAllExists(t: map<string, SemanticNode>, names: Names, aliases: seq<(string, string)>, wanted: seq<string>)
    requires NamesExist(t, names)
    ensures FindAll(names, aliases, wanted).Some? ==>
              |FindAll(names, aliases, wanted).value| == |wanted| && AllIn(t, FindAll(names, aliases, wanted).value)
  {
    hide AliasTarget;
    if wanted != [] {
      FindAllExists(t, names, aliases, wanted[1..]);
    }
  }

  predicate AllIn(t: map<string, SemanticNode>, ids: seq<string>) {
    forall id | id in ids :: id in t
  }

  lemma {:induction false} ByAliasExists(t: map<string, SemanticNode>, outputs: seq<Output>)
    requires forall o | o in outputs :: o.node in t
    ensures forall k | k in ByAlias(outputs) :: ByAlias(outputs)[k] in t
  {
    if outputs != [] {
      ByAliasExists(t, outputs[..|outputs| - 1]);
    }
  }

  lemma {:induction false} ByReferenceExists(t: map<string, SemanticNode>, ns: seq<SemanticNode>)
    requires forall n | n in ns :: n.id in t
    ensures forall k | k in ByReference(ns) :: ByReference(ns)[k] in t
  {
    if ns != [] {
      ByReferenceExists(t, ns[..|ns| - 1]);
    }
  }

  lemma {:induction false} ZipExists(t: map<string, SemanticNode>, keys: seq<string>, values: seq<string>)
    requires AllIn(t, values)
    ensures forall k | k in Zip(keys, values) :: Zip(keys, values)[k] in t
  {
    if keys != [] && values != [] {
      ZipExists(t, keys[1..], values[1..]);
    }
  }

  /** The outputs' references, then dimensions by grain, measures by field, time by its bucket. */
  function Projected(t: map<string, SemanticNode>, outputs: seq<Output>): map<string, string>
    requires forall o | o in outputs :: o.node in t
  {
    if outputs == [] then map[] else
      var o := outputs[|outputs| - 1];
      var before := Projected(t, outputs[..|outputs| - 1]);
      if t[o.node].catalogRef.Some? then before[t[o.node].catalogRef.value := o.node] else before
  }

  lemma {:induction false} ProjectedExists(t: map<string, SemanticNode>, outputs: seq<Output>)
    requires forall o | o in outputs :: o.node in t
    ensures forall k | k in Projected(t, outputs) :: Projected(t, outputs)[k] in t
  {
    if outputs != [] {
      ProjectedExists(t, outputs[..|outputs| - 1]);
    }
  }

  // ------------------------------------------------------- the result's contract

  /** The result refers to nodes and slots that exist. */
  ghost predicate OutcomeOk(d: Draft, o: Outcome) {
    && AllIn(d.table, o.grain) && o.population == Some("p1")
    && AllFirstsIn(d.table, o.order)
    && AllIn(d.table, o.predicates)
    && (o.timePolicy.Some? ==> SlotIn(d.slots, o.timePolicy.value.current) && SlotIn(d.slots, o.timePolicy.value.prior))
    && (o.ranking.Some? ==> AllIn(d.table, o.ranking.value.partition) && AllFirstsIn(d.table, o.ranking.value.order) &&
                            AllIn(d.table, o.ranking.value.tieBreakers))
  }

  predicate AllFirstsIn(t: map<string, SemanticNode>, pairs: seq<(string, string)>) {
    forall p | p in pairs :: p.0 in t
  }

  predicate SlotIn(slots: map<string, Binding>, slot: Option<string>) {
    slot.Some? ==> slot.value in slots
  }

  function MeasureIds(ids: map<string, string>, refs: seq<string>): map<string, string>
    requires forall ref | ref in refs :: ref in ids
  {
    map ref | ref in refs :: ids[ref]
  }

  /** What result clauses may name: outputs, dimensions, measures and the time bucket, the later ones winning. */
  function NamesOf(t: map<string, SemanticNode>, ns: seq<SemanticNode>, outputs: seq<Output>, q: Query, ids: map<string, string>, grain: seq<string>): Names
    requires forall o | o in outputs :: o.node in t
    requires forall ref | ref in q.measures :: ref in ids
    requires Bucketed(q) ==> grain != []
  {
    var projected := Projected(t, outputs) + Zip(q.dimensions, grain) + MeasureIds(ids, q.measures);
    Names(ByAlias(outputs),
          if Bucketed(q) then projected[q.time.value.dimension := grain[|grain| - 1]] else projected,
          ByReference(ns))
  }

  lemma NamesOfExist(t: map<string, SemanticNode>, ns: seq<SemanticNode>, outputs: seq<Output>, q: Query, ids: map<string, string>, grain: seq<string>)
    requires forall o | o in outputs :: o.node in t
    requires forall ref | ref in q.measures :: ref in ids && ids[ref] in t
    requires AllIn(t, grain) && (Bucketed(q) ==> grain != [])
    requires forall n | n in ns :: n.id in t
    ensures NamesExist(t, NamesOf(t, ns, outputs, q, ids, grain))
  {
    hide ByAlias, ByReference, Projected, Zip;
    ByAliasExists(t, outputs);
    ByReferenceExists(t, ns);
    ProjectedExists(t, outputs);
    ZipExists(t, q.dimensions, grain);
  }

  /** The order of Python's strings. */
  predicate Less(a: string, b: string) {
    b != "" && (a == "" || a[0] < b[0] || (a[0] == b[0] && Less(a[1..], b[1..])))
  }

  lemma {:induction false} LessOrders(a: string, b: string, c: string)
    ensures a == b || Less(a, b) || Less(b, a)
    ensures !(Less(a, b) && Less(b, a)) && !Less(a, a)
    ensures Less(a, b) && Less(b, c) ==> Less(a, c)
  {
    if a != "" {
      LessOrders(a[1..], if b == "" then "" else b[1..], if c == "" then "" else c[1..]);
      LessOrders(a[1..], a[1..], a[1..]);
      if b != "" && a[0] == b[0] && a[1..] == b[1..] {
        assert a == [a[0]] + a[1..] && b == [b[0]] + b[1..];
      }
    }
  }

  function RefOf(t: map<string, SemanticNode>, id: string): string {
    if id in t && t[id].catalogRef.Some? then t[id].catalogRef.value else ""
  }

  /** Nodes by the reference they describe, then by identifier. */
  predicate Before(t: map<string, SemanticNode>, a: string, b: string) {
    a == b || Less(RefOf(t, a), RefOf(t, b)) || (RefOf(t, a) == RefOf(t, b) && Less(a, b))
  }

  lemma BeforeOrders(t: map<string, SemanticNode>, a: string, b: string, c: string)
    ensures Before(t, a, b) || Before(t, b, a)
    ensures Before(t, a, b) && Before(t, b, c) ==> Before(t, a, c)
    ensures Before(t, a, b) && Before(t, b, a) ==> a == b
  {
    LessOrders(RefOf(t, a), RefOf(t, b), RefOf(t, c));
    LessOrders(a, b, c);
  }

  predicate InRefOrder(t: map<string, SemanticNode>, ids: seq<string>) {
    forall i, j | 0 <= i < j < |ids| :: Before(t, ids[i], ids[j])
  }

  function Insert(t: map<string, SemanticNode>, id: string, ids: seq<string>): seq<string> {
    if ids == [] || Before(t, id, ids[0]) then [id] + ids else [ids[0]] + Insert(t, id, ids[1..])
  }

  function SortedByRef(t: map<string, SemanticNode>, ids: seq<string>): seq<string> {
    if ids == [] then [] else Insert(t, ids[0], SortedByRef(t, ids[1..]))
  }

  lemma {:induction false} InsertAdds(t: map<string, SemanticNode>, id: string, ids: seq<string>)
    ensures multiset(Insert(t, id, ids)) == multiset(ids) + multiset{id}
  {
    hide Before;
    if ids != [] {
      InsertAdds(t, id, ids[1..]);
      assert ids == [ids[0]] + ids[1..];
    }
  }

  lemma InOrderCons(t: map<string, SemanticNode>, id: string, ids: seq<string>)
    requires InRefOrder(t, ids) && forall x | x in ids :: Before(t, id, x)
    ensures InRefOrder(t, [id] + ids)
  {
    hide Before;
  }

  lemma {:induction false} InsertKeepsOrder(t: map<string, SemanticNode>, id: string, ids: seq<string>)
    requires InRefOrder(t, ids)
    ensures InRefOrder(t, Insert(t, id, ids))
  {
    hide Before;
    if ids == [] || Before(t, id, ids[0]) {
      forall x | x in ids ensures Before(t, id, x) {
        var j :| 0 <= j < |ids| && ids[j] == x;
        BeforeOrders(t, id, ids[0], x);
      }
      InOrderCons(t, id, ids);
    } else {
      var rest := Insert(t, id, ids[1..]);
      InsertKeepsOrder(t, id, ids[1..]);
      InsertAdds(t, id, ids[1..]);
      BeforeOrders(t, ids[0], id, id);
      forall x | x in rest ensures Before(t, ids[0], x) {
        assert x in multiset(rest);
        if x != id {
          var j :| 0 <= j < |ids| - 1 && ids[1..][j] == x;
          assert ids[j + 1] == x;
        }
      }
      InOrderCons(t, ids[0], rest);
    }
  }

  /** The tie breakers are the same nodes, in the order of what they describe. */
  lemma {:induction false} TieBreakersSorted(t: map<string, SemanticNode>, ids: seq<string>)
    ensures InRefOrder(t, SortedByRef(t, ids)) && multiset(SortedByRef(t, ids)) == multiset(ids)
  {
    if ids != [] {
      TieBreakersSorted(t, ids[1..]);
      InsertKeepsOrder(t, ids[0], SortedByRef(t, ids[1..]));
      InsertAdds(t, ids[0], SortedByRef(t, ids[1..]));
      assert ids == [ids[0]] + ids[1..];
    }
  }

  /** Ranked fields: a partition, ordering positions and, for exact ties, the rest of the grain, sorted. */
  function FindRanking(t: map<string, SemanticNode>, names: Names, aliases: seq<(string, string)>, rank: Rank, grain: seq<string>): Option<Ranking> {
    var partition := FindAll(names, aliases, rank.partitionBy);
    var order := FindAll(names, aliases, Compare.Firsts(rank.orderBy));
    if partition.None? || order.None? then None else
      Some(Ranking(partition.value, Rezip(order.value, rank.orderBy),
                   if rank.exact then SortedByRef(t, Without(grain, partition.value)) else [], rank.details))
  }

  function Rezip(ids: seq<string>, pairs: seq<(string, string)>): (zs: seq<(string, string)>)
    ensures |zs| <= |ids| && forall i | 0 <= i < |zs| :: zs[i].0 == ids[i]
  {
    if ids == [] || pairs == [] then [] else [(ids[0], pairs[0].1)] + Rezip(ids[1..], pairs[1..])
  }

  function Without(xs: seq<string>, ys: seq<string>): (zs: seq<string>)
    ensures forall z | z in zs :: z in xs && z !in ys
  {
    if xs == [] then [] else
      var rest := Without(xs[1..], ys);
      if xs[0] in ys then rest else [xs[0]] + rest
  }

  lemma FindRankingExists(t: map<string, SemanticNode>, names: Names, aliases: seq<(string, string)>, rank: Rank, grain: seq<string>)
    requires NamesExist(t, names) && AllIn(t, grain)
    ensures var r := FindRanking(t, names, aliases, rank, grain);
            r.Some? ==> AllIn(t, r.value.partition) && AllFirstsIn(t, r.value.order) && AllIn(t, r.value.tieBreakers)
  {
    hide NamesExist, FindAll;
    FindAllExists(t, names, aliases, rank.partitionBy);
    FindAllExists(t, names, aliases, Compare.Firsts(rank.orderBy));
    var partition := FindAll(names, aliases, rank.partitionBy);
    if partition.Some? {
      var rest := Without(grain, partition.value);
      TieBreakersSorted(t, rest);
      forall id | id in SortedByRef(t, rest) ensures id in rest {
        assert id in multiset(SortedByRef(t, rest));
      }
    }
  }

  lemma {:induction false} TableHas(ns: seq<SemanticNode>)
    ensures forall n | n in ns :: n.id in Compare.Table(ns, Compare.NodeId)
  {
    if ns != [] {
      TableHas(ns[..|ns| - 1]);
      assert ns == ns[..|ns| - 1] + [ns[|ns| - 1]];
    }
  }

  function PriorBinding(slot: string, q: Query): Binding
    requires q.time.Some?
  {
    Binding(slot, "time_window", Some(q.time.value.dimension), q.compare, Some("compare"), Some(2))
  }

  /** The time policy, with the prior period's slot when periods are compared. */
  method AddTimePolicy(b: Builder, q: Query, slot: Option<string>) returns (policy: Option<TimePolicy>)
    requires b.Valid() && SlotIn(b.slots, slot)
    modifies b
    ensures b.Valid() && Grows(old(b.Current()), b.Current()) && b.table == old(b.table) && b.nodes == old(b.nodes)
    ensures PolicyOk(b.slots, q, slot, policy)
  {
    hide Inv, Extends, Name;
    ghost var before := b.Current();
    GrowsSelf(before);
    if q.time.None? {
      return None;
    }
    var prior: Option<string> := None;
    if q.compare.Some? {
      var s := Name('b', |b.bindings| + 1);
      b.AddBinding(PriorBinding(s, q));
      prior := Some(s);
    }
    if slot.Some? {
      SlotKept(before, b.Current(), slot.value);
    }
    return Some(TimePolicy(slot, prior, q.time.value.details));
  }

  /** A policy exactly with a time window; a prior slot of its own exactly with a comparison. */
  /** The prior period's two bounds on the time dimension, found by the query's way of comparing. */
  predicate IsPriorWindow(b: Binding, q: Query)
    requires q.time.Some?
  {
    && b.kind == "time_window" && b.stage == Some("compare") && b.arity == Some(2)
    && b.reference == Some(q.time.value.dimension) && b.operator == q.compare
  }

  ghost predicate PolicyOk(slots: map<string, Binding>, q: Query, slot: Option<string>, policy: Option<TimePolicy>) {
    && policy.Some? == q.time.Some?
    && (policy.Some? ==>
          policy.value.details == q.time.value.details && policy.value.current == slot && SlotIn(slots, slot) &&
          policy.value.prior.Some? == q.compare.Some? &&
          (q.compare.Some? ==> policy.value.prior.value in slots && IsPriorWindow(slots[policy.value.prior.value], q)))
  }

  lemma NodesInTable(d: Draft)
    requires Inv(d)
    ensures d.table == Compare.Table(d.nodes, Compare.NodeId)
    ensures forall n | n in d.nodes :: n.id in d.table
  {
    TableHas(d.nodes);
  }

  lemma OutcomeIsOk(d: Draft, o: Outcome, q: Query, slot: Option<string>)
    requires AllIn(d.table, o.grain) && o.population == Some("p1") && AllFirstsIn(d.table, o.order) && AllIn(d.table, o.predicates)
    requires PolicyOk(d.slots, q, slot, o.timePolicy)
    requires o.ranking.Some? ==> AllIn(d.table, o.ranking.value.partition) && AllFirstsIn(d.table, o.ranking.value.order) &&
                                 AllIn(d.table, o.ranking.value.tieBreakers)
    ensures OutcomeOk(d, o)
  {
  }

  // ------------------------------------------------- which node a name stands for

  /** An alias stands for its target, any other name for itself. */
  predicate StandsForRef(aliases: seq<(string, string)>, name: string, ref: string) {
    if IsAlias(aliases, name) then exists i | 0 <= i < |aliases| :: FirstAlias(aliases, name, ref, i) else ref == name
  }

  predicate IsAlias(aliases: seq<(string, string)>, name: string) {
    exists i | 0 <= i < |aliases| :: aliases[i].0 == name
  }

  predicate FirstAlias(aliases: seq<(string, string)>, name: string, ref: string, i: nat)
    requires i < |aliases|
  {
    aliases[i].0 == name && aliases[i].1 == ref && forall j | 0 <= j < i :: aliases[j].0 != name
  }

  /** A node that may answer to a name, and whether it does. */
  datatype Candidate = Candidate(fits: bool, node: string)

  /** The node of the last candidate that fits. */
  predicate LastFit(cs: seq<Candidate>, node: string) {
    exists i | 0 <= i < |cs| :: cs[i].fits && cs[i].node == node && forall j | i < j < |cs| :: !cs[j].fits
  }

  predicate AnyFit(cs: seq<Candidate>) {
    exists i | 0 <= i < |cs| :: cs[i].fits
  }

  /** Outputs answer to their aliases. */
  function ByTheirAlias(outputs: seq<Output>, alias: string): seq<Candidate> {
    seq(|outputs|, i requires 0 <= i < |outputs| => Candidate(outputs[i].alias == alias, outputs[i].node))
  }

  /** Outputs answer to what their nodes describe. */
  function ByTheirRef(t: map<string, SemanticNode>, outputs: seq<Output>, ref: string): seq<Candidate>
    requires forall o | o in outputs :: o.node in t
  {
    seq(|outputs|, i requires 0 <= i < |outputs| => Candidate(t[outputs[i].node].catalogRef == Some(ref), outputs[i].node))
  }

  predicate IsClauseKind(kind: string) {
    kind == "aggregate" || kind == "dimension" || kind == "time"
  }

  /** Aggregate, dimension and time nodes answer to what they describe. */
  function NodesByRef(ns: seq<SemanticNode>, ref: string): seq<Candidate> {
    seq(|ns|, i requires 0 <= i < |ns| => Candidate(ns[i].catalogRef == Some(ref) && IsClauseKind(ns[i].kind), ns[i].id))
  }

  lemma LastFitSnoc(cs: seq<Candidate>, last: Candidate, node: string)
    ensures LastFit(cs + [last], node) <==> if last.fits then node == last.node else LastFit(cs, node)
    ensures AnyFit(cs + [last]) <==> last.fits || AnyFit(cs)
  {
    var all, n := cs + [last], |cs|;
    assert all[n] == last;
    if i :| 0 <= i < n && cs[i].fits && cs[i].node == node && forall j | i < j < n :: !cs[j].fits {
      assert all[i] == cs[i];
    }
    if i :| 0 <= i < |all| && all[i].fits && all[i].node == node && forall j | i < j < |all| :: !all[j].fits {
      if i < n {
        assert all[i] == cs[i] && forall j | i < j < n :: all[j] == cs[j];
      }
    }
    if i :| 0 <= i < n && cs[i].fits {
      assert all[i].fits;
    }
  }

  /** The grain's node for the last of a query's dimensions with that reference. */
  predicate GrainLast(dimensions: seq<string>, grain: seq<string>, ref: string, node: string) {
    exists i | 0 <= i < |dimensions| && i < |grain| ::
      dimensions[i] == ref && grain[i] == node && forall j | i < j < |dimensions| && j < |grain| :: dimensions[j] != ref
  }

  predicate InGrain(dimensions: seq<string>, grain: seq<string>, ref: string) {
    exists i | 0 <= i < |dimensions| && i < |grain| :: dimensions[i] == ref
  }

  /** What result clauses look names up in. */
  datatype Scope = Scope(table: map<string, SemanticNode>, nodes: seq<SemanticNode>, outputs: seq<Output>, ids: map<string, string>, grain: seq<string>)

  predicate ScopeOk(s: Scope, q: Query) {
    (forall o | o in s.outputs :: o.node in s.table) && AllUsedIn(s.ids, q.measures) && (Bucketed(q) ==> s.grain != [])
  }

  /** Whether a reference is projected: as the time bucket, a measure, a dimension or by an output. */
  predicate IsProjected(s: Scope, q: Query, ref: string)
    requires ScopeOk(s, q)
  {
    (Bucketed(q) && ref == q.time.value.dimension) || ref in q.measures || InGrain(q.dimensions, s.grain, ref) ||
    AnyFit(ByTheirRef(s.table, s.outputs, ref))
  }

  /** The node projected for a reference: the time bucket's, else the measure's, else the dimension's, else the last output's. */
  predicate ProjectsAs(s: Scope, q: Query, ref: string, node: string)
    requires ScopeOk(s, q)
  {
    if Bucketed(q) && ref == q.time.value.dimension then node == s.grain[|s.grain| - 1]
    else if ref in q.measures then node == s.ids[ref]
    else if InGrain(q.dimensions, s.grain, ref) then GrainLast(q.dimensions, s.grain, ref, node)
    else LastFit(ByTheirRef(s.table, s.outputs, ref), node)
  }

  /** A name stands for the last output with that alias, else for what its reference projects, else, where allowed, for the last node of that reference. */
  ghost predicate StandsForNode(s: Scope, q: Query, name: string, anywhere: bool, node: string)
    requires ScopeOk(s, q)
  {
    if AnyFit(ByTheirAlias(s.outputs, name)) then LastFit(ByTheirAlias(s.outputs, name), node)
    else exists ref :: StandsForRef(q.aliases, name, ref) &&
           if IsProjected(s, q, ref) then ProjectsAs(s, q, ref, node) else anywhere && LastFit(NodesByRef(s.nodes, ref), node)
  }

  ghost predicate StandsForNothing(s: Scope, q: Query, name: string, anywhere: bool)
    requires ScopeOk(s, q)
  {
    forall node :: !StandsForNode(s, q, name, anywhere, node)
  }

  /** Each clause orders by what its name stands for, in its own direction, up to the first that stands for nothing. */
  ghost predicate OrderStands(s: Scope, q: Query, order: seq<(string, string)>)
    requires ScopeOk(s, q)
  {
    && |order| <= |q.order|
    && (forall i | 0 <= i < |order| :: order[i].1 == q.order[i].1 && StandsForNode(s, q, q.order[i].0, true, order[i].0))
    && (|order| < |q.order| ==> StandsForNothing(s, q, q.order[|order|].0, true))
  }

  /** Partition and order name what they stand for; exact ties are broken by the rest of the grain, sorted. */
  ghost predicate RankingStands(s: Scope, q: Query, rank: Rank, r: Ranking)
    requires ScopeOk(s, q)
  {
    && |r.partition| == |rank.partitionBy| && (forall i | 0 <= i < |r.partition| :: StandsForNode(s, q, rank.partitionBy[i], false, r.partition[i]))
    && |r.order| == |rank.orderBy|
    && (forall i | 0 <= i < |r.order| :: r.order[i].1 == rank.orderBy[i].1 && StandsForNode(s, q, rank.orderBy[i].0, false, r.order[i].0))
    && r.details == rank.details && InRefOrder(s.table, r.tieBreakers)
    && forall id :: multiset(r.tieBreakers)[id] == if rank.exact && id !in r.partition then multiset(s.grain)[id] else 0
  }

  ghost predicate RankStandsForNothing(s: Scope, q: Query, rank: Rank)
    requires ScopeOk(s, q)
  {
    (exists name | name in rank.partitionBy :: StandsForNothing(s, q, name, false)) ||
    exists p | p in rank.orderBy :: StandsForNothing(s, q, p.0, false)
  }

  // ------------------------------------------------------- the lookups find them

  lemma {:induction false} AliasTargetIs(aliases: seq<(string, string)>, name: string)
    ensures forall ref :: StandsForRef(aliases, name, ref) <==> ref == AliasTarget(aliases, name)
  {
    hide StandsForRef;
    if aliases == [] {
      forall ref ensures StandsForRef(aliases, name, ref) <==> ref == name {
        NoAlias(name, ref);
      }
    } else {
      AliasTargetIs(aliases[1..], name);
      forall ref ensures StandsForRef(aliases, name, ref) <==> if aliases[0].0 == name then ref == aliases[0].1 else StandsForRef(aliases[1..], name, ref) {
        if aliases[0].0 == name {
          AliasAtOnce(aliases, name, ref);
        } else {
          AliasShift(aliases, name, ref);
        }
      }
    }
  }

  lemma NoAlias(name: string, ref: string)
    ensures StandsForRef([], name, ref) <==> ref == name
  {
  }

  lemma AliasAtOnce(aliases: seq<(string, string)>, name: string, ref: string)
    requires aliases != [] && aliases[0].0 == name
    ensures StandsForRef(aliases, name, ref) <==> ref == aliases[0].1
  {
    if ref == aliases[0].1 {
      assert FirstAlias(aliases, name, ref, 0);
    }
  }

  lemma AliasShift(aliases: seq<(string, string)>, name: string, ref: string)
    requires aliases != [] && aliases[0].0 != name
    ensures StandsForRef(aliases, name, ref) <==> StandsForRef(aliases[1..], name, ref)
  {
    hide FirstAlias;
    var rest := aliases[1..];
    forall i: nat | i < |rest| ensures rest[i] == aliases[i + 1] && (FirstAlias(rest, name, ref, i) <==> FirstAlias(aliases, name, ref, i + 1)) {
      FirstShift(aliases, name, ref, i);
    }
    if i :| 0 <= i < |aliases| && FirstAlias(aliases, name, ref, i) {
      NotFirst(aliases, name, ref);
      assert FirstAlias(rest, name, ref, i - 1);
    }
    if i :| 0 <= i < |aliases| && aliases[i].0 == name {
      assert rest[i - 1].0 == name;
    }
    if i :| 0 <= i < |rest| && FirstAlias(rest, name, ref, i) {
      assert FirstAlias(aliases, name, ref, i + 1);
    }
    if i :| 0 <= i < |rest| && rest[i].0 == name {
      assert aliases[i + 1].0 == name;
    }
  }

  lemma NotFirst(aliases: seq<(string, string)>, name: string, ref: string)
    requires aliases != [] && aliases[0].0 != name
    ensures !FirstAlias(aliases, name, ref, 0)
  {
  }

  lemma FirstShift(aliases: seq<(string, string)>, name: string, ref: string, i: nat)
    requires aliases != [] && aliases[0].0 != name && i < |aliases| - 1
    ensures FirstAlias(aliases[1..], name, ref, i) <==> FirstAlias(aliases, name, ref, i + 1)
  {
    var rest := aliases[1..];
    if FirstAlias(rest, name, ref, i) {
      forall j | 0 <= j < i + 1 ensures aliases[j].0 != name {
        if j > 0 {
          assert aliases[j] == rest[j - 1];
        }
      }
    }
  }

  lemma {:induction false} ByAliasIs(outputs: seq<Output>, alias: string)
    ensures alias in ByAlias(outputs) <==> AnyFit(ByTheirAlias(outputs, alias))
    ensures forall node :: LastFit(ByTheirAlias(outputs, alias), node) <==> alias in ByAlias(outputs) && ByAlias(outputs)[alias] == node
  {
    hide LastFit, AnyFit;
    if outputs == [] {
      NoFit();
    } else {
      var n := |outputs| - 1;
      ByAliasIs(outputs[..n], alias);
      var rest, last := ByTheirAlias(outputs[..n], alias), Candidate(outputs[n].alias == alias, outputs[n].node);
      assert ByTheirAlias(outputs, alias) == rest + [last];
      LastFitSnoc(rest, last, last.node);
      forall node ensures LastFit(rest + [last], node) <==> if last.fits then node == last.node else LastFit(rest, node) {
        LastFitSnoc(rest, last, node);
      }
    }
  }

  lemma NoFit()
    ensures !AnyFit([]) && forall node :: !LastFit([], node)
  {
  }

  lemma {:induction false} ProjectedIs(t: map<string, SemanticNode>, outputs: seq<Output>, ref: string)
    requires forall o | o in outputs :: o.node in t
    ensures ref in Projected(t, outputs) <==> AnyFit(ByTheirRef(t, outputs, ref))
    ensures forall node :: LastFit(ByTheirRef(t, outputs, ref), node) <==> ref in Projected(t, outputs) && Projected(t, outputs)[ref] == node
  {
    hide LastFit, AnyFit;
    if outputs == [] {
      NoFit();
    } else {
      var n := |outputs| - 1;
      assert outputs[n] in outputs;
      ProjectedIs(t, outputs[..n], ref);
      var rest, last := ByTheirRef(t, outputs[..n], ref), Candidate(t[outputs[n].node].catalogRef == Some(ref), outputs[n].node);
      assert ByTheirRef(t, outputs, ref) == rest + [last];
      LastFitSnoc(rest, last, last.node);
      forall node ensures LastFit(rest + [last], node) <==> if last.fits then node == last.node else LastFit(rest, node) {
        LastFitSnoc(rest, last, node);
      }
    }
  }

  lemma {:induction false} ByReferenceIs(ns: seq<SemanticNode>, ref: string)
    ensures forall node :: LastFit(NodesByRef(ns, ref), node) <==> ref in ByReference(ns) && ByReference(ns)[ref] == node
  {
    hide LastFit, AnyFit;
    if ns == [] {
      NoFit();
    } else {
      var n := |ns| - 1;
      ByReferenceIs(ns[..n], ref);
      var rest, last := NodesByRef(ns[..n], ref), Candidate(ns[n].catalogRef == Some(ref) && IsClauseKind(ns[n].kind), ns[n].id);
      assert NodesByRef(ns, ref) == rest + [last];
      LastFitSnoc(rest, last, last.node);
      forall node ensures LastFit(rest + [last], node) <==> if last.fits then node == last.node else LastFit(rest, node) {
        LastFitSnoc(rest, last, node);
      }
    }
  }

  lemma {:induction false} ZipIs(keys: seq<string>, values: seq<string>, ref: string)
    ensures ref in Zip(keys, values) <==> InGrain(keys, values, ref)
    ensures forall node :: GrainLast(keys, values, ref, node) <==> ref in Zip(keys, values) && Zip(keys, values)[ref] == node
  {
    if keys != [] && values != [] {
      var ks, vs := keys[1..], values[1..];
      ZipIs(ks, vs, ref);
      assert InGrain(keys, values, ref) <==> keys[0] == ref || InGrain(ks, vs, ref) by {
        if i :| 0 <= i < |ks| && i < |vs| && ks[i] == ref { assert keys[i + 1] == ref; }
        if i :| 0 <= i < |keys| && i < |values| && keys[i] == ref { if i > 0 { assert ks[i - 1] == ref; } }
      }
      forall node ensures GrainLast(keys, values, ref, node) <==> ref in Zip(keys, values) && Zip(keys, values)[ref] == node {
        GrainShift(keys, values, ref, node);
      }
    }
  }

  lemma GrainShift(keys: seq<string>, values: seq<string>, ref: string, node: string)
    requires keys != [] && values != []
    ensures GrainLast(keys, values, ref, node) <==>
            if InGrain(keys[1..], values[1..], ref) then GrainLast(keys[1..], values[1..], ref, node) else keys[0] == ref && values[0] == node
  {
    var ks, vs := keys[1..], values[1..];
    if i :| 0 <= i < |ks| && i < |vs| && ks[i] == ref && vs[i] == node && forall j | i < j < |ks| && j < |vs| :: ks[j] != ref {
      assert keys[i + 1] == ref && values[i + 1] == node;
      forall j | i + 1 < j < |keys| && j < |values| ensures keys[j] != ref { assert keys[j] == ks[j - 1]; }
    }
    if i :| 0 <= i < |keys| && i < |values| && keys[i] == ref && values[i] == node && forall j | i < j < |keys| && j < |values| :: keys[j] != ref {
      if i > 0 {
        assert ks[i - 1] == ref && vs[i - 1] == node;
        forall j | i - 1 < j < |ks| && j < |vs| ensures ks[j] != ref { assert ks[j] == keys[j + 1]; }
      } else {
        forall j | 0 <= j < |ks| && j < |vs| ensures ks[j] != ref { assert ks[j] == keys[j + 1]; }
      }
    }
    if keys[0] == ref && values[0] == node && !InGrain(ks, vs, ref) {
      forall j | 0 < j < |keys| && j < |values| ensures keys[j] != ref { assert keys[j] == ks[j - 1]; }
    }
  }

  function NamesIn(s: Scope, q: Query): Names
    requires ScopeOk(s, q)
  {
    NamesOf(s.table, s.nodes, s.outputs, q, s.ids, s.grain)
  }

  lemma ProjectedNames(s: Scope, q: Query, ref: string)
    requires ScopeOk(s, q)
    ensures ref in NamesIn(s, q).projected <==> IsProjected(s, q, ref)
    ensures IsProjected(s, q, ref) ==> forall node :: ProjectsAs(s, q, ref, node) <==> NamesIn(s, q).projected[ref] == node
  {
    hide ByAlias, ByReference, Projected, Zip, GrainLast, InGrain, LastFit, AnyFit, ByTheirRef;
    ProjectedIs(s.table, s.outputs, ref);
    ZipIs(q.dimensions, s.grain, ref);
  }

  /** The lookup finds a name's node, or nothing. */
  lemma FindNodeIs(s: Scope, q: Query, name: string, anywhere: bool)
    requires ScopeOk(s, q)
    ensures var found := FindNode(NamesIn(s, q), q.aliases, name, anywhere);
            forall node :: StandsForNode(s, q, name, anywhere, node) <==> found == Some(node)
  {
    hide NamesOf, AliasTarget, LastFit, AnyFit, IsProjected, ProjectsAs, NodesByRef, ByTheirAlias, StandsForRef, ByAlias, ByReference;
    AliasTargetIs(q.aliases, name);
    ByAliasIs(s.outputs, name);
    var ref := AliasTarget(q.aliases, name);
    ProjectedNames(s, q, ref);
    ByReferenceIs(s.nodes, ref);
    NamesParts(s, q);
    assert StandsForRef(q.aliases, name, ref);
  }

  lemma NamesParts(s: Scope, q: Query)
    requires ScopeOk(s, q)
    ensures NamesIn(s, q).alias == ByAlias(s.outputs) && NamesIn(s, q).any == ByReference(s.nodes)
  {
    hide ByAlias, ByReference, Projected, Zip;
  }

  lemma {:induction false} FindOrderIs(s: Scope, q: Query, order: seq<(string, string)>)
    requires ScopeOk(s, q)
    ensures var found := FindOrder(NamesIn(s, q), q.aliases, order);
            && |found| <= |order|
            && (forall i | 0 <= i < |found| :: found[i].1 == order[i].1 && StandsForNode(s, q, order[i].0, true, found[i].0))
            && (|found| < |order| ==> StandsForNothing(s, q, order[|found|].0, true))
  {
    hide NamesIn, FindNode, StandsForNode;
    if order != [] {
      FindNodeIs(s, q, order[0].0, true);
      FindOrderIs(s, q, order[1..]);
    }
  }

  lemma OrderFound(s: Scope, q: Query)
    requires ScopeOk(s, q)
    ensures OrderStands(s, q, FindOrder(NamesIn(s, q), q.aliases, q.order))
  {
    FindOrderIs(s, q, q.order);
  }

  lemma {:induction false} FindAllIs(s: Scope, q: Query, wanted: seq<string>)
    requires ScopeOk(s, q)
    ensures var found := FindAll(NamesIn(s, q), q.aliases, wanted);
            && (found.None? <==> exists name | name in wanted :: StandsForNothing(s, q, name, false))
            && (found.Some? ==> |found.value| == |wanted| && forall i | 0 <= i < |wanted| :: StandsForNode(s, q, wanted[i], false, found.value[i]))
  {
    hide NamesIn, FindNode, StandsForNode;
    if wanted != [] {
      FindNodeIs(s, q, wanted[0], false);
      FindAllIs(s, q, wanted[1..]);
      assert wanted == [wanted[0]] + wanted[1..];
      var first := FindNode(NamesIn(s, q), q.aliases, wanted[0], false);
      assert first.None? <==> StandsForNothing(s, q, wanted[0], false) by {
        if first.Some? {
          assert StandsForNode(s, q, wanted[0], false, first.value);
        }
      }
    }
  }

  lemma {:induction false} RezipIs(ids: seq<string>, pairs: seq<(string, string)>)
    requires |ids| == |pairs|
    ensures |Rezip(ids, pairs)| == |pairs| && forall i | 0 <= i < |pairs| :: Rezip(ids, pairs)[i] == (ids[i], pairs[i].1)
  {
    if ids != [] {
      RezipIs(ids[1..], pairs[1..]);
    }
  }

  lemma {:induction false} WithoutIs(xs: seq<string>, ys: seq<string>, id: string)
    ensures multiset(Without(xs, ys))[id] == if id in ys then 0 else multiset(xs)[id]
  {
    if xs != [] {
      WithoutIs(xs[1..], ys, id);
      assert xs == [xs[0]] + xs[1..];
    }
  }

  lemma FindRankingIs(s: Scope, q: Query, rank: Rank)
    requires ScopeOk(s, q)
    ensures var found := FindRanking(s.table, NamesIn(s, q), q.aliases, rank, s.grain);
            (found.None? <==> RankStandsForNothing(s, q, rank)) && (found.Some? ==> RankingStands(s, q, rank, found.value))
  {
    hide NamesIn, FindAll, StandsForNode, StandsForNothing, SortedByRef, Without, Rezip, InRefOrder;
    FindAllIs(s, q, rank.partitionBy);
    FindAllIs(s, q, Compare.Firsts(rank.orderBy));
    FirstsNamed(s, q, rank.orderBy);
    var partition, order := FindAll(NamesIn(s, q), q.aliases, rank.partitionBy), FindAll(NamesIn(s, q), q.aliases, Compare.Firsts(rank.orderBy));
    if partition.Some? && order.Some? {
      RezipIs(order.value, rank.orderBy);
      TieBreakersAre(s.table, s.grain, partition.value, rank.exact);
    }
  }

  lemma FirstsNamed(s: Scope, q: Query, pairs: seq<(string, string)>)
    requires ScopeOk(s, q)
    ensures (exists name | name in Compare.Firsts(pairs) :: StandsForNothing(s, q, name, false)) <==>
            exists p | p in pairs :: StandsForNothing(s, q, p.0, false)
  {
    hide StandsForNothing;
    if name :| name in Compare.Firsts(pairs) && StandsForNothing(s, q, name, false) {
      var i :| 0 <= i < |pairs| && Compare.Firsts(pairs)[i] == name;
      assert pairs[i] in pairs;
    }
    if p :| p in pairs && StandsForNothing(s, q, p.0, false) {
      var i :| 0 <= i < |pairs| && pairs[i] == p;
      assert Compare.Firsts(pairs)[i] in Compare.Firsts(pairs);
    }
  }

  lemma TieBreakersAre(t: map<string, SemanticNode>, grain: seq<string>, partition: seq<string>, exact: bool)
    ensures var ties := if exact then SortedByRef(t, Without(grain, partition)) else [];
            InRefOrder(t, ties) && forall id :: multiset(ties)[id] == if exact && id !in partition then multiset(grain)[id] else 0
  {
    hide SortedByRef, Without, Before;
    if exact {
      TieBreakersSorted(t, Without(grain, partition));
      forall id ensures multiset(Without(grain, partition))[id] == if id in partition then 0 else multiset(grain)[id] {
        WithoutIs(grain, partition, id);
      }
    }
  }

  /** What a result says: every clause names what it stands for, with the query's literals and the window's slots. */
  ghost predicate ResultOf(d: Draft, o: Outcome, q: Query, outputs: seq<Output>, having: seq<string>, grain: seq<string>, slot: Option<string>)
    requires (forall o | o in outputs :: o.node in d.table) && AllUsedIn(d.ids, q.measures) && (Bucketed(q) ==> grain != [])
  {
    var s := Scope(d.table, d.nodes, outputs, d.ids, grain);
    && o.grain == grain && o.population == Some("p1") && o.predicates == having && o.details == q.details
    && OrderStands(s, q, o.order) && o.ranking.Some? == q.rank.Some? && (q.rank.Some? ==> RankingStands(s, q, q.rank.value, o.ranking.value))
    && PolicyOk(d.slots, q, slot, o.timePolicy)
  }

  predicate AllUsedIn(ids: map<string, string>, refs: seq<string>) {
    forall ref | ref in refs :: ref in ids
  }

  /** A bucketed query needs a grain, and a ranking names that are there. */
  ghost predicate ResultResolves(t: map<string, SemanticNode>, ns: seq<SemanticNode>, outputs: seq<Output>, q: Query, ids: map<string, string>, grain: seq<string>)
    requires (forall o | o in outputs :: o.node in t) && AllUsedIn(ids, q.measures)
  {
    (Bucketed(q) ==> grain != []) && (q.rank.Some? ==> !RankStandsForNothing(Scope(t, ns, outputs, ids, grain), q, q.rank.value))
  }

  /** The result's own references, and whether its order bound completely. */
  method AddResult(b: Builder, q: Query, outputs: seq<Output>, having: seq<string>, grain: seq<string>, slot: Option<string>)
    returns (r: Result<(Outcome, bool), string>)
    requires b.Valid() && (forall o | o in outputs :: o.node in b.table) && AllIn(b.table, having) && AllIn(b.table, grain)
    requires SlotIn(b.slots, slot) && AllUsedIn(b.ids, q.measures) && forall ref | ref in q.measures :: b.ids[ref] in b.table
    modifies b
    ensures r.Ok? <==> ResultResolves(old(b.table), old(b.nodes), outputs, q, old(b.ids), grain)
    ensures r.Ok? ==> b.Valid() && Grows(old(b.Current()), b.Current()) && b.table == old(b.table) && b.nodes == old(b.nodes)
    ensures r.Ok? ==> OutcomeOk(b.Current(), r.value.0) && ResultOf(b.Current(), r.value.0, q, outputs, having, grain, slot)
    ensures r.Ok? ==> r.value.0.grain == grain && r.value.0.predicates == having && (Bucketed(q) ==> grain != [])
    ensures r.Ok? ==> (r.value.1 <==> |r.value.0.order| == |q.order|)
  {
    hide Inv, Extends, Name, NamesExist, ByAlias, ByReference, Projected, FindRanking, FindOrder, NamesOf,
         AllIn, SlotIn, OutcomeOk, PolicyOk, OrderStands, RankingStands, RankStandsForNothing;
    if Bucketed(q) && grain == [] {
      return Err("grain");
    }
    NodesInTable(b.Current());
    ghost var scope := Scope(b.table, b.nodes, outputs, b.ids, grain);
    var t := Compare.Table(b.nodes, Compare.NodeId);
    var names := NamesOf(t, b.nodes, outputs, q, b.ids, grain);
    NamesOfExist(t, b.nodes, outputs, q, b.ids, grain);
    var order := FindOrder(names, q.aliases, q.order);
    FindOrderExists(t, names, q.aliases, q.order);
    OrderFound(scope, q);
    var ranking: Option<Ranking> := None;
    if q.rank.Some? {
      ranking := FindRanking(t, names, q.aliases, q.rank.value, grain);
      FindRankingExists(t, names, q.aliases, q.rank.value, grain);
      FindRankingIs(scope, q, q.rank.value);
      if ranking.None? {
        return Err("rank");
      }
    }
    var policy := AddTimePolicy(b, q, slot);
    var outcome := Outcome(grain, Some("p1"), order, policy, having, ranking, q.details);
    OutcomeIsOk(b.Current(), outcome, q, slot);
    return Ok((outcome, |order| == |q.order|));
  }
}
