/** When two analyses are equivalent. */
module CompareResults {

  /*
    And which reason is given when they are not. Everything is said of the artifacts themselves: what their nodes, populations
    and slots read as, and which literals they carry.
  */

  import opened Wrappers
  import opened SemanticGraph
  import opened GraphReader
  import opened Compare

  type Meaning = Result<Desc, Fault>

  function MeaningsOf(t: Tables, ids: seq<string>): (ms: seq<Meaning>)
    ensures |ms| == |ids| && forall i | 0 <= i < |ids| :: ms[i] == Walk(t, NodeKey(ids[i]), {})
  {
    seq(|ids|, i requires 0 <= i < |ids| => Walk(t, NodeKey(ids[i]), {}))
  }

  function OutputMeanings(t: Tables, outputs: seq<Output>): (ms: seq<Meaning>)
    ensures |ms| == |outputs| && forall i | 0 <= i < |outputs| :: ms[i] == Walk(t, NodeKey(outputs[i].node), {})
  {
    seq(|outputs|, i requires 0 <= i < |outputs| => Walk(t, NodeKey(outputs[i].node), {}))
  }

  predicate AllRead(ms: seq<Meaning>) {
    forall m | m in ms :: m.Ok?
  }

  // --------------------------------------------------------------- results agree

  /** The same meanings as often, in whatever order. */
  predicate NodesAgree(lt: Tables, ls: seq<string>, rt: Tables, rs: seq<string>) {
    multiset(MeaningsOf(lt, ls)) == multiset(MeaningsOf(rt, rs))
  }

  /** The same meanings with the same directions, in order. */
  predicate OrdersAgree(lt: Tables, ls: seq<(string, string)>, rt: Tables, rs: seq<(string, string)>) {
    |ls| == |rs| &&
    forall i | 0 <= i < |ls| :: Walk(lt, NodeKey(ls[i].0), {}) == Walk(rt, NodeKey(rs[i].0), {}) && ls[i].1 == rs[i].1
  }

  predicate OrderReads(t: Tables, order: seq<(string, string)>) {
    forall p | p in order :: Walk(t, NodeKey(p.0), {}).Ok?
  }

  /** What a slot is bound to, whatever it is called. */
  datatype Bound = Bound(
    kind: string, reference: Option<string>, operator: Option<string>, stage: Option<string>, arity: Option<nat>, value: Option<string>)

  function BoundAt(t: Tables, slot: string): Option<Bound> {
    if slot !in t.bindings then None else
      var b := t.bindings[slot];
      Some(Bound(b.kind, b.reference, b.operator, b.stage, b.arity,
                 if t.private.Some? && slot in t.private.value then Some(t.private.value[slot]) else None))
  }

  predicate SlotReads(t: Tables, slot: Option<string>) {
    slot.Some? ==> slot.value in t.bindings
  }

  predicate SlotsAgree(lt: Tables, l: Option<string>, rt: Tables, r: Option<string>) {
    l.Some? == r.Some? && (l.Some? ==> BoundAt(lt, l.value) == BoundAt(rt, r.value))
  }

  predicate TimesAgree(lt: Tables, l: Option<TimePolicy>, rt: Tables, r: Option<TimePolicy>) {
    l.Some? == r.Some? &&
    (l.Some? ==> l.value.details == r.value.details && SlotsAgree(lt, l.value.current, rt, r.value.current) &&
                 SlotsAgree(lt, l.value.prior, rt, r.value.prior))
  }

  predicate RankingsAgree(lt: Tables, l: Option<Ranking>, rt: Tables, r: Option<Ranking>) {
    l.Some? == r.Some? &&
    (l.Some? ==>
       && NodesAgree(lt, l.value.partition, rt, r.value.partition) && OrdersAgree(lt, l.value.order, rt, r.value.order)
       && MeaningsOf(lt, l.value.tieBreakers) == MeaningsOf(rt, r.value.tieBreakers) && l.value.details == r.value.details)
  }

  predicate PopulationsAgree(lt: Tables, l: Option<string>, rt: Tables, r: Option<string>) {
    l.Some? == r.Some? && (l.Some? ==> Walk(lt, PopulationKey(l.value), {}) == Walk(rt, PopulationKey(r.value), {}))
  }

  predicate OutcomesAgree(lt: Tables, l: Outcome, rt: Tables, r: Outcome) {
    && NodesAgree(lt, l.grain, rt, r.grain) && NodesAgree(lt, l.predicates, rt, r.predicates)
    && OrdersAgree(lt, l.order, rt, r.order) && PopulationsAgree(lt, l.population, rt, r.population)
    && TimesAgree(lt, l.timePolicy, rt, r.timePolicy) && RankingsAgree(lt, l.ranking, rt, r.ranking)
    && l.details == r.details
  }

  predicate RankingReads(t: Tables, r: Option<Ranking>) {
    r.Some? ==> AllRead(MeaningsOf(t, r.value.partition)) && OrderReads(t, r.value.order) && AllRead(MeaningsOf(t, r.value.tieBreakers))
  }

  predicate TimeReads(t: Tables, p: Option<TimePolicy>) {
    p.Some? ==> SlotReads(t, p.value.current) && SlotReads(t, p.value.prior)
  }

  predicate PopulationReads(t: Tables, id: Option<string>) {
    id.Some? ==> Walk(t, PopulationKey(id.value), {}).Ok?
  }

  predicate OutcomeReads(t: Tables, o: Outcome) {
    && AllRead(MeaningsOf(t, o.grain)) && AllRead(MeaningsOf(t, o.predicates)) && OrderReads(t, o.order)
    && PopulationReads(t, o.population) && TimeReads(t, o.timePolicy) && RankingReads(t, o.ranking)
  }

  // --------------------------------------------------------- reading and agreeing

  lemma NodesAre(t: Tables, ids: seq<string>)
    ensures ReadNodes(t, ids).Ok? <==> AllRead(MeaningsOf(t, ids))
    ensures ReadNodes(t, ids).Ok? ==>
              |ReadNodes(t, ids).value| == |ids| && forall i | 0 <= i < |ids| :: MeaningsOf(t, ids)[i] == Ok(ReadNodes(t, ids).value[i])
  {
    hide Walk;
    WalkAllAt(t, NodeKeys(ids), {});
    if ReadNodes(t, ids).Ok? {
      forall m | m in MeaningsOf(t, ids) ensures m.Ok? {
        var i :| 0 <= i < |ids| && MeaningsOf(t, ids)[i] == m;
        assert NodeKeys(ids)[i] in NodeKeys(ids);
      }
    } else {
      var k :| k in NodeKeys(ids) && Walk(t, k, {}).Err?;
      var i :| 0 <= i < |ids| && NodeKeys(ids)[i] == k;
      assert MeaningsOf(t, ids)[i] in MeaningsOf(t, ids);
    }
  }

  lemma {:induction false} CountedOnce<D>(ds: seq<D>, ms: seq<Result<D, Fault>>, x: D)
    requires |ms| == |ds| && forall i | 0 <= i < |ds| :: ms[i] == Ok(ds[i])
    ensures multiset(ms)[Ok(x)] == multiset(ds)[x]
  {
    if ds != [] {
      var n := |ds| - 1;
      CountedOnce(ds[..n], ms[..n], x);
      assert ds == ds[..n] + [ds[n]] && ms == ms[..n] + [ms[n]];
    }
  }

  /** Wrapping values changes nothing about which occur how often. */
  lemma SameCounts<D>(ds: seq<D>, ms: seq<Result<D, Fault>>, es: seq<D>, ns: seq<Result<D, Fault>>)
    requires |ms| == |ds| && forall i | 0 <= i < |ds| :: ms[i] == Ok(ds[i])
    requires |ns| == |es| && forall i | 0 <= i < |es| :: ns[i] == Ok(es[i])
    ensures multiset(ms) == multiset(ns) <==> multiset(ds) == multiset(es)
  {
    if multiset(ms) == multiset(ns) {
      forall x ensures multiset(ds)[x] == multiset(es)[x] {
        CountedOnce(ds, ms, x);
        CountedOnce(es, ns, x);
      }
    }
    if multiset(ds) == multiset(es) {
      forall m ensures multiset(ms)[m] == multiset(ns)[m] {
        if m.Ok? {
          CountedOnce(ds, ms, m.value);
          CountedOnce(es, ns, m.value);
        } else {
          assert m !in ms && m !in ns;
          assert m !in multiset(ms) && m !in multiset(ns);
        }
      }
    }
  }

  lemma NodesAgreeIff(lt: Tables, ls: seq<string>, rt: Tables, rs: seq<string>)
    requires ReadNodes(lt, ls).Ok? && ReadNodes(rt, rs).Ok?
    ensures NodesAgree(lt, ls, rt, rs) <==> multiset(ReadNodes(lt, ls).value) == multiset(ReadNodes(rt, rs).value)
    ensures MeaningsOf(lt, ls) == MeaningsOf(rt, rs) <==> ReadNodes(lt, ls).value == ReadNodes(rt, rs).value
  {
    hide Walk, ReadNodes;
    NodesAre(lt, ls);
    NodesAre(rt, rs);
    SameCounts(ReadNodes(lt, ls).value, MeaningsOf(lt, ls), ReadNodes(rt, rs).value, MeaningsOf(rt, rs));
    var ds, es, ms, ns := ReadNodes(lt, ls).value, ReadNodes(rt, rs).value, MeaningsOf(lt, ls), MeaningsOf(rt, rs);
    if |ls| == |rs| {
      assert forall i | 0 <= i < |ls| :: ms[i] == ns[i] <==> ds[i] == es[i];
    }
  }

  lemma OrderIs(t: Tables, order: seq<(string, string)>)
    ensures AllRead(MeaningsOf(t, Firsts(order))) <==> OrderReads(t, order)
  {
    hide Walk;
    var ms := MeaningsOf(t, Firsts(order));
    if AllRead(ms) {
      forall p | p in order ensures Walk(t, NodeKey(p.0), {}).Ok? {
        var i :| 0 <= i < |order| && order[i] == p;
        assert ms[i] in ms;
      }
    }
    if OrderReads(t, order) {
      forall m | m in ms ensures m.Ok? {
        var i :| 0 <= i < |ms| && ms[i] == m;
        assert order[i] in order;
      }
    }
  }

  lemma OrdersAgreeIff(lt: Tables, ls: seq<(string, string)>, rt: Tables, rs: seq<(string, string)>)
    requires ReadNodes(lt, Firsts(ls)).Ok? && ReadNodes(rt, Firsts(rs)).Ok?
    ensures OrdersAgree(lt, ls, rt, rs) <==>
            ReadNodes(lt, Firsts(ls)).value == ReadNodes(rt, Firsts(rs)).value && Seconds(ls) == Seconds(rs)
  {
    hide Walk, ReadNodes;
    NodesAgreeIff(lt, Firsts(ls), rt, Firsts(rs));
    var ms, ns := MeaningsOf(lt, Firsts(ls)), MeaningsOf(rt, Firsts(rs));
    if ms == ns && Seconds(ls) == Seconds(rs) {
      forall i | 0 <= i < |ls| ensures Walk(lt, NodeKey(ls[i].0), {}) == Walk(rt, NodeKey(rs[i].0), {}) && ls[i].1 == rs[i].1 {
        assert ms[i] == ns[i] && Seconds(ls)[i] == Seconds(rs)[i];
      }
    }
  }

  lemma SlotIs(t: Tables, slot: Option<string>)
    ensures ReadBinding(t, slot).Ok? <==> SlotReads(t, slot)
  {
  }

  lemma SlotsAgreeIff(lt: Tables, l: Option<string>, rt: Tables, r: Option<string>)
    requires SlotReads(lt, l) && SlotReads(rt, r)
    ensures SlotsAgree(lt, l, rt, r) <==> ReadBinding(lt, l) == ReadBinding(rt, r)
  {
  }

  lemma TimeIs(lt: Tables, l: Option<TimePolicy>, rt: Tables, r: Option<TimePolicy>)
    ensures ReadTime(lt, l).Ok? <==> TimeReads(lt, l)
    ensures ReadTime(lt, l).Ok? && ReadTime(rt, r).Ok? ==> (TimesAgree(lt, l, rt, r) <==> ReadTime(lt, l) == ReadTime(rt, r))
  {
    hide BoundAt, BindingDescriptor, ReadBinding, SlotReads, SlotsAgree;
    if l.Some? {
      SlotIs(lt, l.value.current);
      SlotIs(lt, l.value.prior);
    }
    if l.Some? && r.Some? {
      SlotIs(rt, r.value.current);
      SlotIs(rt, r.value.prior);
      if ReadTime(lt, l).Ok? && ReadTime(rt, r).Ok? {
        SlotsAgreeIff(lt, l.value.current, rt, r.value.current);
        SlotsAgreeIff(lt, l.value.prior, rt, r.value.prior);
      }
    }
  }

  lemma RankingIs(t: Tables, r: Option<Ranking>)
    ensures ReadRanking(t, r).Ok? <==> RankingReads(t, r)
  {
    hide Walk, ReadNodes, AllRead, OrderReads;
    if r.Some? {
      NodesAre(t, r.value.partition);
      NodesAre(t, Firsts(r.value.order));
      OrderIs(t, r.value.order);
      NodesAre(t, r.value.tieBreakers);
    }
  }

  lemma RankingsAgreeIff(lt: Tables, l: Option<Ranking>, rt: Tables, r: Option<Ranking>)
    requires ReadRanking(lt, l).Ok? && ReadRanking(rt, r).Ok?
    ensures RankingsAgree(lt, l, rt, r) <==> ReadRanking(lt, l) == ReadRanking(rt, r)
  {
    hide Walk, ReadNodes, NodesAgree, OrdersAgree;
    if l.Some? && r.Some? {
      NodesAgreeIff(lt, l.value.partition, rt, r.value.partition);
      OrdersAgreeIff(lt, l.value.order, rt, r.value.order);
      NodesAgreeIff(lt, l.value.tieBreakers, rt, r.value.tieBreakers);
    }
  }

  lemma OutcomeIs(t: Tables, o: Outcome)
    ensures ReadOutcome(t, o).Ok? <==> OutcomeReads(t, o)
  {
    hide Walk, ReadNodes, ReadRanking, ReadTime, AllRead, OrderReads, RankingReads, TimeReads;
    NodesAre(t, o.grain);
    NodesAre(t, o.predicates);
    NodesAre(t, Firsts(o.order));
    OrderIs(t, o.order);
    TimeIs(t, o.timePolicy, t, o.timePolicy);
    RankingIs(t, o.ranking);
  }

  lemma OutcomesAgreeIff(lt: Tables, l: Outcome, rt: Tables, r: Outcome)
    requires ReadOutcome(lt, l).Ok? && ReadOutcome(rt, r).Ok?
    ensures OutcomesAgree(lt, l, rt, r) <==> ReadOutcome(lt, l) == ReadOutcome(rt, r)
  {
    hide Walk, ReadNodes, ReadRanking, ReadTime, NodesAgree, OrdersAgree, RankingsAgree, TimesAgree;
    NodesAgreeIff(lt, l.grain, rt, r.grain);
    NodesAgreeIff(lt, l.predicates, rt, r.predicates);
    OrdersAgreeIff(lt, l.order, rt, r.order);
    TimeIs(lt, l.timePolicy, rt, r.timePolicy);
    RankingsAgreeIff(lt, l.ranking, rt, r.ranking);
  }

  lemma OutputsAre(t: Tables, a: Analysis)
    ensures MeaningsOf(t, OutputNodes(a.outputs)) == OutputMeanings(t, a.outputs)
    ensures ReadOutputs(t, a).Ok? <==> AllRead(OutputMeanings(t, a.outputs))
  {
    hide Walk;
    NodesAre(t, OutputNodes(a.outputs));
  }

  lemma OutputsAgreeIff(lt: Tables, l: Analysis, rt: Tables, r: Analysis)
    requires ReadOutputs(lt, l).Ok? && ReadOutputs(rt, r).Ok?
    ensures multiset(OutputMeanings(lt, l.outputs)) == multiset(OutputMeanings(rt, r.outputs)) <==> ReadOutputs(lt, l) == ReadOutputs(rt, r)
  {
    hide Walk, ReadNodes;
    OutputsAre(lt, l);
    OutputsAre(rt, r);
    NodesAgreeIff(lt, OutputNodes(l.outputs), rt, OutputNodes(r.outputs));
  }

  // ------------------------------------------------------------------ assumptions

  /** The assumptions agree, each as often, but for merge keys, which belong to a physical strategy. */
  ghost predicate AssumptionsAgree(ls: seq<Assumption>, rs: seq<Assumption>) {
    forall a: Assumption | a.kind != "unique_merge_key" :: multiset(ls)[a] == multiset(rs)[a]
  }

  lemma {:induction false} LogicalCounts(xs: seq<Assumption>, a: Assumption)
    ensures multiset(Logical(xs))[a] == if a.kind == "unique_merge_key" then 0 else multiset(xs)[a]
  {
    if xs != [] {
      LogicalCounts(xs[1..], a);
      assert xs == [xs[0]] + xs[1..];
    }
  }

  lemma AssumptionsAgreeIff(ls: seq<Assumption>, rs: seq<Assumption>)
    ensures AssumptionsAgree(ls, rs) <==> multiset(Logical(ls)) == multiset(Logical(rs))
  {
    hide Logical;
    forall a: Assumption ensures multiset(Logical(ls))[a] == if a.kind == "unique_merge_key" then 0 else multiset(ls)[a] {
      LogicalCounts(ls, a);
    }
    forall a: Assumption ensures multiset(Logical(rs))[a] == if a.kind == "unique_merge_key" then 0 else multiset(rs)[a] {
      LogicalCounts(rs, a);
    }
    if multiset(Logical(ls)) == multiset(Logical(rs)) {
      forall a: Assumption | a.kind != "unique_merge_key" ensures multiset(ls)[a] == multiset(rs)[a] {
        assert multiset(Logical(ls))[a] == multiset(Logical(rs))[a];
      }
    }
  }

  // -------------------------------------------------------------- bound contexts

  /** Values change no outcome of reading but what slots show. */
  lemma PrivateReads(t: Tables, private: Option<map<string, string>>, key: Key)
    ensures Walk(t, key, {}).Ok? <==> Walk(t.(private := private), key, {}).Ok?
  {
    hide Walk;
    var p := t.(private := private);
    WalkSucceedsIffSound(t, key);
    WalkSucceedsIffSound(p, key);
    forall k ensures Children(t, k) == Children(p, k) && Present(t, k) == Present(p, k) {
    }
    forall path ensures IsPath(t, path) == IsPath(p, path) {
    }
  }

  lemma PrivateMeanings(t: Tables, private: Option<map<string, string>>, ids: seq<string>)
    ensures AllRead(MeaningsOf(t, ids)) <==> AllRead(MeaningsOf(t.(private := private), ids))
  {
    hide Walk;
    var p := t.(private := private);
    forall i | 0 <= i < |ids| ensures MeaningsOf(t, ids)[i].Ok? <==> MeaningsOf(p, ids)[i].Ok? {
      PrivateReads(t, private, NodeKey(ids[i]));
    }
    ReadIff(MeaningsOf(t, ids), MeaningsOf(p, ids));
  }

  lemma ReadIff(ms: seq<Meaning>, ns: seq<Meaning>)
    requires |ms| == |ns| && forall i | 0 <= i < |ms| :: ms[i].Ok? <==> ns[i].Ok?
    ensures AllRead(ms) <==> AllRead(ns)
  {
    if AllRead(ms) {
      forall n | n in ns ensures n.Ok? {
        var i :| 0 <= i < |ns| && ns[i] == n;
        assert ms[i] in ms;
      }
    }
    if AllRead(ns) {
      forall m | m in ms ensures m.Ok? {
        var i :| 0 <= i < |ms| && ms[i] == m;
        assert ns[i] in ns;
      }
    }
  }

  lemma PrivateOutcome(t: Tables, private: Option<map<string, string>>, o: Outcome)
    ensures OutcomeReads(t, o) <==> OutcomeReads(t.(private := private), o)
  {
    hide Walk, MeaningsOf, AllRead;
    var p := t.(private := private);
    PrivateMeanings(t, private, o.grain);
    PrivateMeanings(t, private, o.predicates);
    forall key ensures Walk(t, key, {}).Ok? <==> Walk(p, key, {}).Ok? {
      PrivateReads(t, private, key);
    }
    if o.ranking.Some? {
      PrivateMeanings(t, private, o.ranking.value.partition);
      PrivateMeanings(t, private, o.ranking.value.tieBreakers);
    }
  }

  /** Every slot has a value. */
  predicate Supplied(a: Analysis, values: map<string, string>) {
    forall b | b in a.bindings :: b.slot in values
  }

  function BoundsOf(t: Tables, bindings: seq<Binding>): (bs: seq<Option<Bound>>)
    ensures |bs| == |bindings| && forall i | 0 <= i < |bs| :: bs[i] == BoundAt(t, bindings[i].slot)
  {
    seq(|bindings|, i requires 0 <= i < |bindings| => BoundAt(t, bindings[i].slot))
  }

  /** With their values, the artifacts read the same outputs, results and slots. */
  predicate ContextsAgree(l: Analysis, lv: map<string, string>, r: Analysis, rv: map<string, string>)
    requires l.outcome.Some? && r.outcome.Some?
  {
    var lt, rt := TablesOf(l, Some(lv)), TablesOf(r, Some(rv));
    && multiset(OutputMeanings(lt, l.outputs)) == multiset(OutputMeanings(rt, r.outputs))
    && OutcomesAgree(lt, l.outcome.value, rt, r.outcome.value)
    && multiset(BoundsOf(lt, l.bindings)) == multiset(BoundsOf(rt, r.bindings))
  }

  function Describe(b: Bound): BindingDesc {
    BindingDesc(b.kind, b.reference, b.operator, b.stage, b.arity, b.value)
  }

  function Undescribe(d: BindingDesc): Bound {
    Bound(d.kind, d.reference, d.operator, d.stage, d.arity, d.private)
  }

  lemma {:induction false} SlotsKeyed(bindings: seq<Binding>)
    ensures forall b | b in bindings :: b.slot in Table(bindings, Slot)
    ensures forall s | s in Table(bindings, Slot) :: exists b | b in bindings :: b.slot == s
  {
    if bindings != [] {
      var n := |bindings| - 1;
      SlotsKeyed(bindings[..n]);
      assert bindings == bindings[..n] + [bindings[n]];
    }
  }

  lemma SuppliedIff(a: Analysis, values: map<string, string>)
    ensures Supplied(a, values) <==> Table(a.bindings, Slot).Keys <= values.Keys
  {
    hide Table;
    SlotsKeyed(a.bindings);
  }

  lemma {:induction false} SlotDescriptors(t: Tables, slots: seq<string>)
    requires forall s | s in slots :: s in t.bindings
    ensures BindingDescriptors(t, slots).Ok? && |BindingDescriptors(t, slots).value| == |slots|
    ensures forall i | 0 <= i < |slots| :: BoundAt(t, slots[i]) == Some(Undescribe(BindingDescriptors(t, slots).value[i]))
  {
    if slots != [] {
      assert slots == [slots[0]] + slots[1..];
      SlotDescriptors(t, slots[1..]);
      assert slots[0] in slots;
    }
  }

  lemma {:induction false} BoundCounts(ds: seq<BindingDesc>, bs: seq<Option<Bound>>, d: BindingDesc)
    requires |bs| == |ds| && forall i | 0 <= i < |ds| :: bs[i] == Some(Undescribe(ds[i]))
    ensures multiset(bs)[Some(Undescribe(d))] == multiset(ds)[d]
  {
    if ds != [] {
      var n := |ds| - 1;
      BoundCounts(ds[..n], bs[..n], d);
      assert ds == ds[..n] + [ds[n]] && bs == bs[..n] + [bs[n]];
    }
  }

  lemma SameBounds(ds: seq<BindingDesc>, bs: seq<Option<Bound>>, es: seq<BindingDesc>, cs: seq<Option<Bound>>)
    requires |bs| == |ds| && forall i | 0 <= i < |ds| :: bs[i] == Some(Undescribe(ds[i]))
    requires |cs| == |es| && forall i | 0 <= i < |es| :: cs[i] == Some(Undescribe(es[i]))
    ensures multiset(bs) == multiset(cs) <==> multiset(ds) == multiset(es)
  {
    if multiset(bs) == multiset(cs) {
      forall d ensures multiset(ds)[d] == multiset(es)[d] {
        BoundCounts(ds, bs, d);
        BoundCounts(es, cs, d);
      }
    }
    if multiset(ds) == multiset(es) {
      forall b ensures multiset(bs)[b] == multiset(cs)[b] {
        if b.Some? {
          BoundCounts(ds, bs, Describe(b.value));
          BoundCounts(es, cs, Describe(b.value));
        } else {
          assert b !in bs && b !in cs;
          assert b !in multiset(bs) && b !in multiset(cs);
        }
      }
    }
  }

  /** A bound graph is read unless a value is missing. */
  lemma ContextIs(a: Analysis, values: map<string, string>)
    requires a.outcome.Some? && OutcomeReads(TablesOf(a, None), a.outcome.value) && AllRead(OutputMeanings(TablesOf(a, None), a.outputs))
    ensures !Supplied(a, values) ==> ReadContext(a, values) == Ok(None)
    ensures Supplied(a, values) ==>
              var t := TablesOf(a, Some(values));
              && ReadContext(a, values).Ok? && ReadContext(a, values).value.Some?
              && ReadOutputs(t, a) == Ok(ReadContext(a, values).value.value.outputs)
              && ReadOutcome(t, a.outcome.value).Ok? && ReadContext(a, values).value.value.outcome == Some(ReadOutcome(t, a.outcome.value).value)
              && BindingDescriptors(t, Ids(a.bindings, Slot)).Ok?
              && ReadContext(a, values).value.value.bindings == multiset(BindingDescriptors(t, Ids(a.bindings, Slot)).value)
  {
    hide Walk, ReadOutputs, ReadOutcome, OutcomeReads, OutputMeanings, AllRead, Table, BindingDescriptors;
    SuppliedIff(a, values);
    if Supplied(a, values) {
      var t, bound := TablesOf(a, None), TablesOf(a, Some(values));
      assert bound == t.(private := Some(values));
      PrivateOutcome(t, Some(values), a.outcome.value);
      OutcomeIs(bound, a.outcome.value);
      OutputsAre(t, a);
      OutputsAre(bound, a);
      PrivateMeanings(t, Some(values), OutputNodes(a.outputs));
      BindingsKnown(a);
      SlotDescriptors(bound, Ids(a.bindings, Slot));
    }
  }

  lemma BindingsKnown(a: Analysis)
    ensures forall s | s in Ids(a.bindings, Slot) :: s in Table(a.bindings, Slot)
  {
    hide Table;
    SlotsKeyed(a.bindings);
    forall s | s in Ids(a.bindings, Slot) ensures s in Table(a.bindings, Slot) {
      var i :| 0 <= i < |a.bindings| && Ids(a.bindings, Slot)[i] == s;
      assert a.bindings[i] in a.bindings;
    }
  }

  lemma BoundsAre(a: Analysis, values: map<string, string>)
    ensures var t, slots := TablesOf(a, Some(values)), Ids(a.bindings, Slot);
            BindingDescriptors(t, slots).Ok? && |BindingDescriptors(t, slots).value| == |a.bindings| &&
            forall i | 0 <= i < |a.bindings| :: BoundsOf(t, a.bindings)[i] == Some(Undescribe(BindingDescriptors(t, slots).value[i]))
  {
    hide Table, BoundAt, BindingDescriptors;
    BindingsKnown(a);
    SlotDescriptors(TablesOf(a, Some(values)), Ids(a.bindings, Slot));
  }

  lemma ContextsAgreeIff(l: Analysis, lv: map<string, string>, r: Analysis, rv: map<string, string>)
    requires l.outcome.Some? && OutcomeReads(TablesOf(l, None), l.outcome.value) && AllRead(OutputMeanings(TablesOf(l, None), l.outputs))
    requires r.outcome.Some? && OutcomeReads(TablesOf(r, None), r.outcome.value) && AllRead(OutputMeanings(TablesOf(r, None), r.outputs))
    requires Supplied(l, lv) && Supplied(r, rv)
    ensures ContextsAgree(l, lv, r, rv) <==> ReadContext(l, lv) == ReadContext(r, rv)
  {
    hide Walk, ReadOutputs, ReadOutcome, OutcomeReads, OutputMeanings, OutcomesAgree, AllRead, Table, BindingDescriptors, ReadContext, Supplied;
    ContextIs(l, lv);
    ContextIs(r, rv);
    var lt, rt := TablesOf(l, Some(lv)), TablesOf(r, Some(rv));
    OutputsAgreeIff(lt, l, rt, r);
    OutcomesAgreeIff(lt, l.outcome.value, rt, r.outcome.value);
    BoundsAre(l, lv);
    BoundsAre(r, rv);
    SameBounds(BindingDescriptors(lt, Ids(l.bindings, Slot)).value, BoundsOf(lt, l.bindings),
               BindingDescriptors(rt, Ids(r.bindings, Slot)).value, BoundsOf(rt, r.bindings));
  }

  // ------------------------------------------------------------------ expressions

  /** A catalog's name, unless it has none or an empty one. */
  function NamespaceOf(c: Option<Catalog>): Option<string> {
    if c.Some? && c.value.namespace.Some? && c.value.namespace.value != "" then c.value.namespace else None
  }

  function RevisionOf(c: Option<Catalog>): Option<string> {
    if c.Some? then c.value.revision else None
  }

  predicate OneSnapshot(l: Option<Catalog>, r: Option<Catalog>, shared: bool) {
    && (if NamespaceOf(l).Some? && NamespaceOf(r).Some? then NamespaceOf(l) == NamespaceOf(r) else shared)
    && (if RevisionOf(l).Some? && RevisionOf(r).Some? then RevisionOf(l) == RevisionOf(r) else shared)
  }

  /** An artifact that is read to the end, with nothing unknown. */
  predicate ReadsWhole(a: Analysis) {
    && a.version == 1 && (forall x | x in a.required :: x == "partition_ranking") && a.complete
    && StructureFault(a).None? && Validate(TablesOf(a, None), a) == Ok(true)
  }

  predicate OutputsAgree(l: Analysis, r: Analysis) {
    multiset(OutputMeanings(TablesOf(l, None), l.outputs)) == multiset(OutputMeanings(TablesOf(r, None), r.outputs))
  }

  predicate ExpressionsAgree(l: Analysis, r: Analysis, shared: bool) {
    ReadsWhole(l) && ReadsWhole(r) && OneSnapshot(l.catalog, r.catalog, shared) && OutputsAgree(l, r)
  }

  /** Complete validation reads the outputs and the result. */
  lemma ValidReads(a: Analysis)
    requires Validate(TablesOf(a, None), a) == Ok(true)
    ensures AllRead(OutputMeanings(TablesOf(a, None), a.outputs)) && ReadOutputs(TablesOf(a, None), a).Ok?
    ensures a.outcome.Some? ==> OutcomeReads(TablesOf(a, None), a.outcome.value) && ReadOutcome(TablesOf(a, None), a.outcome.value).Ok?
  {
    hide Walk, ReadNodes, WalkAll, ReadOutcome, OutcomeReads, ReadDerivations, KnownVocabulary, OutputMeanings, AllRead;
    OutputsAre(TablesOf(a, None), a);
    if a.outcome.Some? {
      OutcomeIs(TablesOf(a, None), a.outcome.value);
    }
  }

  lemma ObstacleIff(l: Analysis, r: Analysis, lv: Option<map<string, string>>, rv: Option<map<string, string>>, shared: bool)
    ensures Obstacle(Read(l, lv), Read(r, rv), shared).None? <==> l.complete && r.complete && OneSnapshot(l.catalog, r.catalog, shared)
  {
    hide StructureFault, Validate, ReadOutputs, ReadOptionalOutcome, ReadContext, TablesOf, Logical;
  }

  lemma RequiredIff(l: set<string>, r: set<string>)
    ensures l + r <= SUPPORTED <==> (forall x | x in l :: x == "partition_ranking") && forall x | x in r :: x == "partition_ranking"
  {
    if l + r <= SUPPORTED {
      forall x | x in l ensures x == "partition_ranking" { assert x in l + r; }
      forall x | x in r ensures x == "partition_ranking" { assert x in l + r; }
    }
  }

  /** EXPRESSION comparison answers equivalent exactly when the expressions agree, with the shared flag or without. */
  lemma ExpressionIff(l: Analysis, r: Analysis, opts: Options)
    requires opts.scope == Expression
    ensures CompareAnalysis(l, r, opts) == Ok(Equivalent) <==> ExpressionsAgree(l, r, opts.shared)
  {
    hide StructureFault, Validate, ReadOutputs, ReadOptionalOutcome, ReadContext, TablesOf, Obstacle, OutputMeanings, OneSnapshot, Logical;
    ObstacleIff(l, r, opts.leftContext, opts.rightContext, opts.shared);
    RequiredIff(l.required, r.required);
    if Validate(TablesOf(l, None), l) == Ok(true) && Validate(TablesOf(r, None), r) == Ok(true) {
      ValidReads(l);
      ValidReads(r);
      OutputsAgreeIff(TablesOf(l, None), l, TablesOf(r, None), r);
    }
  }

  // ---------------------------------------------------------------------- results

  predicate ResultsAgree(l: Analysis, r: Analysis)
    requires l.outcome.Some? && r.outcome.Some?
  {
    OutcomesAgree(TablesOf(l, None), l.outcome.value, TablesOf(r, None), r.outcome.value)
  }

  predicate BothSupplied(l: Analysis, r: Analysis, opts: Options)
    requires opts.leftContext.Some? && opts.rightContext.Some?
  {
    Supplied(l, opts.leftContext.value) && Supplied(r, opts.rightContext.value)
  }

  /** Bound inputs agree by their values when both sides give them, and otherwise by the caller's word or for want of any. */
  predicate InputsAgree(l: Analysis, r: Analysis, opts: Options)
    requires l.outcome.Some? && r.outcome.Some?
  {
    if opts.leftContext.Some? && opts.rightContext.Some?
    then BothSupplied(l, r, opts) && ContextsAgree(l, opts.leftContext.value, r, opts.rightContext.value)
    else opts.attested == Some(true) || (opts.attested.None? && l.bindings == [] && r.bindings == [])
  }

  lemma InputsReason(l: Analysis, r: Analysis, opts: Options)
    requires l.outcome.Some? && OutcomeReads(TablesOf(l, None), l.outcome.value) && AllRead(OutputMeanings(TablesOf(l, None), l.outputs))
    requires r.outcome.Some? && OutcomeReads(TablesOf(r, None), r.outcome.value) && AllRead(OutputMeanings(TablesOf(r, None), r.outputs))
    ensures Attested(Read(l, opts.leftContext), Read(r, opts.rightContext), opts.attested) ==
            Ok(if InputsAgree(l, r, opts) then Equivalent
               else if opts.leftContext.Some? && opts.rightContext.Some? then
                 if !BothSupplied(l, r, opts) then NotEstablished("bound_context_incomplete") else Different("bound_context_differs")
               else if opts.attested.Some? then Different("bound_context_differs")
               else NotEstablished("bound_context_not_attested"))
  {
    hide StructureFault, Validate, ReadOutputs, ReadOptionalOutcome, ReadContext, TablesOf, OutcomeReads, AllRead, OutputMeanings, ContextsAgree, Supplied, Logical;
    var x, y := Read(l, opts.leftContext), Read(r, opts.rightContext);
    if opts.leftContext.Some? && opts.rightContext.Some? {
      var lv, rv := opts.leftContext.value, opts.rightContext.value;
      assert x.context == Some(ReadContext(l, lv)) && y.context == Some(ReadContext(r, rv));
      ContextIs(l, lv);
      ContextIs(r, rv);
      if Supplied(l, lv) && Supplied(r, rv) {
        ContextsAgreeIff(l, lv, r, rv);
      }
      assert ReadContext(l, lv).Ok? && ReadContext(r, rv).Ok?;
    } else {
      assert x.bound == (l.bindings != []) && y.bound == (r.bindings != []);
      assert x.context.None? || y.context.None?;
      match opts.attested {
        case None =>
        case Some(word) => assert word == true || word == false;
      }
    }
  }

  /**
    RESULT comparison: what the expressions leave undecided is decided by the
    result contracts, the joins, the assumptions and the bound inputs, in that
    order, each with its own reason.
  */
  lemma ResultReason(l: Analysis, r: Analysis, opts: Options)
    requires opts.scope == ResultScope
    ensures !ExpressionsAgree(l, r, opts.shared) ==>
              CompareAnalysis(l, r, opts) == CompareAnalysis(l, r, opts.(scope := Expression)) != Ok(Equivalent)
    ensures ExpressionsAgree(l, r, opts.shared) ==>
              CompareAnalysis(l, r, opts) ==
              Ok(if l.outcome.None? || r.outcome.None? then NotEstablished("result_contract_missing")
                 else if !ResultsAgree(l, r) then Different("result_contract_differs")
                 else if l.joins != r.joins then Different("join_semantics_differ")
                 else if !AssumptionsAgree(l.assumptions, r.assumptions) then Different("logical_assumptions_differ")
                 else if InputsAgree(l, r, opts) then Equivalent
                 else if opts.leftContext.Some? && opts.rightContext.Some? then
                   if !BothSupplied(l, r, opts) then NotEstablished("bound_context_incomplete") else Different("bound_context_differs")
                 else if opts.attested.Some? then Different("bound_context_differs")
                 else NotEstablished("bound_context_not_attested"))
  {
    hide StructureFault, Validate, ReadOutputs, ReadOutcome, ReadContext, TablesOf, OutcomeReads, AllRead, OutputMeanings, Logical, ExpressionsAgree,
         Obstacle, Attested, InputsAgree, OutcomesAgree, AssumptionsAgree, BothSupplied;
    ExpressionIff(l, r, opts.(scope := Expression));
    if ExpressionsAgree(l, r, opts.shared) && l.outcome.Some? && r.outcome.Some? {
      BothValid(l, r, opts.shared);
      ValidReads(l);
      ValidReads(r);
      OutcomesAgreeIff(TablesOf(l, None), l.outcome.value, TablesOf(r, None), r.outcome.value);
      AssumptionsAgreeIff(l.assumptions, r.assumptions);
      InputsReason(l, r, opts);
    }
    if ExpressionsAgree(l, r, opts.shared) {
      BothValid(l, r, opts.shared);
      ValidReads(l);
      ValidReads(r);
    }
  }

  lemma BothValid(l: Analysis, r: Analysis, shared: bool)
    requires ExpressionsAgree(l, r, shared)
    ensures Validate(TablesOf(l, None), l) == Ok(true) && Validate(TablesOf(r, None), r) == Ok(true)
  {
  }

  /** RESULT comparison answers equivalent exactly when expressions, results, joins, assumptions and bound inputs all agree. */
  lemma ResultIff(l: Analysis, r: Analysis, opts: Options)
    requires opts.scope == ResultScope
    ensures CompareAnalysis(l, r, opts) == Ok(Equivalent) <==>
            && ExpressionsAgree(l, r, opts.shared) && l.outcome.Some? && r.outcome.Some?
            && ResultsAgree(l, r) && l.joins == r.joins && AssumptionsAgree(l.assumptions, r.assumptions) && InputsAgree(l, r, opts)
  {
    hide *;
    ResultReason(l, r, opts);
  }

  // ---------------------------------------------------------------------- reasons

  /** The first of these checks that fails decides, a fault before any verdict on what was read. */
  lemma ExpressionReason(l: Analysis, r: Analysis, opts: Options)
    requires opts.scope == Expression
    ensures var v, lt, rt := CompareAnalysis(l, r, opts), TablesOf(l, None), TablesOf(r, None);
            if l.version != 1 || r.version != 1 then v == Ok(NotEstablished("analysis_version_unsupported"))
            else if exists x | x in l.required + r.required :: x != "partition_ranking" then v == Ok(NotEstablished("required_semantics_unsupported"))
            else if StructureFault(l).Some? then v == Err(StructureFault(l).value)
            else if StructureFault(r).Some? then v == Err(StructureFault(r).value)
            else if Validate(lt, l).Err? then v == Err(Validate(lt, l).error)
            else if Validate(lt, l) == Ok(false) then v == Ok(NotEstablished("unknown_semantic_vocabulary"))
            else if Validate(rt, r).Err? then v == Err(Validate(rt, r).error)
            else if Validate(rt, r) == Ok(false) then v == Ok(NotEstablished("unknown_semantic_vocabulary"))
            else if !l.complete || !r.complete then v == Ok(NotEstablished("analysis_coverage_incomplete"))
            else if !OneSnapshot(l.catalog, r.catalog, opts.shared) then v == Ok(NotEstablished(SnapshotReason(l.catalog, r.catalog, opts.shared)))
            else if !OutputsAgree(l, r) then v == Ok(Different("semantic_descriptors_differ"))
            else v == Ok(Equivalent)
  {
    hide StructureFault, Validate, ReadOutputs, ReadOptionalOutcome, ReadContext, TablesOf, Obstacle, OutputMeanings, OneSnapshot, SnapshotReason, Logical;
    RequiredIff(l.required, r.required);
    ObstacleIff(l, r, opts.leftContext, opts.rightContext, opts.shared);
    ObstacleReason(l, r, opts.leftContext, opts.rightContext, opts.shared);
    if Validate(TablesOf(l, None), l) == Ok(true) && Validate(TablesOf(r, None), r) == Ok(true) {
      ValidReads(l);
      ValidReads(r);
      OutputsAgreeIff(TablesOf(l, None), l, TablesOf(r, None), r);
    }
  }

  /** The namespace is judged before the revision; either may be missing or another. */
  function SnapshotReason(l: Option<Catalog>, r: Option<Catalog>, shared: bool): string {
    var names := NamespaceOf(l).Some? && NamespaceOf(r).Some?;
    if names && NamespaceOf(l) != NamespaceOf(r) then "catalog_namespace_incompatible"
    else if !names && !shared then "catalog_context_missing"
    else if RevisionOf(l).Some? && RevisionOf(r).Some? then "catalog_revision_incompatible"
    else "catalog_revision_missing"
  }

  lemma ObstacleReason(l: Analysis, r: Analysis, lv: Option<map<string, string>>, rv: Option<map<string, string>>, shared: bool)
    ensures !l.complete || !r.complete ==> Obstacle(Read(l, lv), Read(r, rv), shared) == Some("analysis_coverage_incomplete")
    ensures l.complete && r.complete && !OneSnapshot(l.catalog, r.catalog, shared) ==>
              Obstacle(Read(l, lv), Read(r, rv), shared) == Some(SnapshotReason(l.catalog, r.catalog, shared))
  {
    hide StructureFault, Validate, ReadOutputs, ReadOptionalOutcome, ReadContext, TablesOf, Logical;
  }
}
