/**
  The whole construction of an analysis from a resolved query and its plan:
  filters, fields, outputs, derived measures, post-aggregate predicates and the
  result they describe, as one machine with one counter of local identifiers.
*/
module AnalysisBuild {
  import opened Wrappers
  import opened Spec
  import opened SemanticGraph
  import opened Naming
  import opened Sequences
  import opened AnalysisDraft
  import opened GraphReader
  import opened AnalysisBuilder
  import opened AnalysisAssembly
  import opened AnalysisNames
  import opened AnalysisOutputs
  import opened AnalysisResult
  import Compare

  // ------------------------------------------------------- references in use

  function OwnNames(fs: seq<Field>): seq<string> {
    seq(|fs|, i requires 0 <= i < |fs| => Canonical(fs[i]))
  }

  /** Dimensions, measures, derived operands and the time dimension, by their own names. */
  function ResolvedRefs(r: Resolved): seq<string> {
    OwnNames(r.dimensions) + OwnNames(r.measures) + OwnNames(r.operands) + if r.time.Some? then [Canonical(r.time.value)] else []
  }

  /** The grain: the dimensions, then the time bucket. */
  function GrainRefs(q: Query, r: Resolved): seq<string> {
    OwnNames(r.dimensions) + if Bucketed(q) && r.time.Some? then [Canonical(r.time.value)] else []
  }

  function ProjectedRefs(q: Query, plan: Plan): seq<string> {
    ColumnRefs(plan.columns) + q.measures + OperandsOf(q.derived)
  }

  /** Every reference a node is looked up for, in order. */
  function AllRefs(q: Query, r: Resolved, plan: Plan): seq<string> {
    ResolvedRefs(r) + ColumnRefs(plan.columns) + q.measures + OperandsOf(q.derived) + GrainRefs(q, r)
  }

  /** The references in use and the fields behind them; or the one nothing is registered for. */
  function UsedBook(q: Query, r: Resolved, plan: Plan): Result<Book, string>
    requires LinedUp(q, r)
  {
    NoteAll(RegistryOf(q, r), EMPTY, AllRefs(q, r, plan))
  }

  // ------------------------------------------------------------ what is projected

  /** The outputs of the analysis, in order. */
  function OutputsOf(book: Book, q: Query, plan: Plan): seq<Shown> {
    var base := BaseShown(q.aliases, plan.columns, q.derived);
    if plan.comparing then ComparedShown(book, q.aliases, base) else base
  }

  function BasesOf(book: Book, names: map<string, set<string>>, s: Shown): set<string>
    requires Aggregated(book, s.meaning)
  {
    if book.target[s.meaning.ref] in names then names[book.target[s.meaning.ref]] else {s.alias}
  }

  /** What names stand for once the comparison has added its own. */
  function ComparedNames(book: Book, names: map<string, set<string>>, shown: seq<Shown>, m: map<string, Meaning>): map<string, Meaning> {
    if shown == [] then m else
      var s := shown[|shown| - 1];
      var before := ComparedNames(book, names, shown[..|shown| - 1], m);
      if Aggregated(book, s.meaning) then FacetMeans(before, BasesOf(book, names, s), s.meaning.ref) else before
  }

  predicate RefsIn(target: map<string, string>, q: Query, plan: Plan) {
    AllUsed(target, q.measures) && forall c | c in plan.columns :: Reference(c) in target
  }

  /** A field by its own name. */
  function FieldMeans(targets: map<string, string>): map<string, Meaning> {
    map name | name in targets :: OfField(targets[name])
  }

  /** All names a HAVING clause may use, and what they stand for. */
  function HavingMeans(book: Book, q: Query, r: Resolved, plan: Plan): map<string, Meaning>
    requires LinedUp(q, r) && RefsIn(book.target, q, plan)
  {
    var known := NamingOf(book.target, q.aliases, plan.columns, q.measures, r.measures);
    var base := InlineMeans(FieldMeans(known.targets), q.derived);
    if plan.comparing then ComparedNames(book, known.names, BaseShown(q.aliases, plan.columns, q.derived), base) else base
  }

  function AliasesShown(shown: seq<Shown>): set<string> {
    set s | s in shown :: s.alias
  }

  function NamesShown(target: map<string, string>, shown: seq<Shown>): set<string> {
    set s | s in shown && s.meaning.OfField? && s.meaning.ref in target :: target[s.meaning.ref]
  }

  /** A ranking may name outputs by alias, and fields, dimensions, measures and the time bucket by reference. */
  predicate RankResolves(book: Book, q: Query, plan: Plan, wanted: seq<string>) {
    var shown := OutputsOf(book, q, plan);
    forall name | name in wanted ::
      name in AliasesShown(shown) ||
      var ref := AliasTarget(q.aliases, name);
      ref in NamesShown(book.target, shown) || ref in q.dimensions || ref in q.measures || (Bucketed(q) && ref == q.time.value.dimension)
  }

  function RankNames(q: Query): seq<string> {
    if q.rank.Some? then q.rank.value.partitionBy + Compare.Firsts(q.rank.value.orderBy) else []
  }

  /**
    When an analysis is built: every reference in use is registered, filters
    and the time window resolve, no projection repeats, HAVING and ranking name
    something projected, and a bucketed query has a grain.
  */
  predicate Buildable(q: Query, r: Resolved, plan: Plan)
    requires LinedUp(q, r)
  {
    UsedBook(q, r, plan).Ok? && PopulationResolves(ResolverOf(q, r), q) && Projectable(UsedBook(q, r, plan).value, q, r, plan) &&
    (Bucketed(q) ==> GrainRefs(q, r) != []) && RankResolves(UsedBook(q, r, plan).value, q, plan, RankNames(q))
  }

  predicate Projectable(book: Book, q: Query, r: Resolved, plan: Plan)
    requires LinedUp(q, r)
  {
    && RefsIn(book.target, q, plan) && RefsApart(book.target, ColumnRefs(plan.columns)) && Distinct(InlineIdentities(q.derived))
    && forall f | f in q.having :: f.dimension in HavingMeans(book, q, r, plan)
  }

  // -------------------------------------------------------------------- phases

  /** Field nodes for dimensions, measures, derived operands and the time dimension. */
  method AddResolvedFields(b: Builder, r: Resolved) returns (ok: bool)
    requires b.Valid()
    modifies b
    ensures ok <==> NoteAll(b.resolver.fields, old(b.book), ResolvedRefs(r)).Ok?
    ensures ok ==> b.Valid() && GainsFields(old(b.Current()), b.Current())
    ensures ok ==> b.book == NoteAll(b.resolver.fields, old(b.book), ResolvedRefs(r)).value
  {
    hide Inv, Extends, NoteAll;
    var added := b.AddFields(ResolvedRefs(r));
    return added.Ok?;
  }

  /** The predicates that define the population, and the slot of its time window. */
  method AddPopulation(b: Builder, q: Query, plan: Plan) returns (r: Result<(seq<string>, Option<string>), string>)
    requires b.Valid()
    modifies b
    ensures r.Ok? <==> PopulationResolves(b.resolver, q)
    ensures r.Ok? ==> b.Valid() && Grows(old(b.Current()), b.Current())
    ensures r.Ok? ==> DescribeAll(b.table, b.slots, r.value.0, PopulationDescs(b.resolver, q, plan))
    ensures r.Ok? ==> WindowSlot(b.slots, q, r.value.1)
  {
    hide Inv, Extends, DescribeAll, Resolves, RootDescs, WindowDesc, Describes;
    ghost var d0 := b.Current();
    var roots := AddRoots(b, q);
    if roots.Err? {
      return Err(roots.error);
    }
    ghost var descs := RootDescs(b.resolver, q);
    ghost var d1 := b.Current();
    var segments := AddSegments(b, q.segments);
    ghost var d2 := b.Current();
    GrowsTrans(d0, d1, d2);
    DescribeAllGrows(d1, d2, roots.value, descs);
    DescribedAppend(b.table, b.slots, roots.value, descs, segments, SegmentDescs(q.segments));
    var ids := roots.value + segments;
    descs := descs + SegmentDescs(q.segments);
    var slot: Option<string> := None;
    if q.time.Some? {
      var window := AddWindow(b, q.time.value, q.compare.Some?);
      if window.Err? {
        return Err(window.error);
      }
      ghost var desc := WindowDesc(q.time.value, b.resolver.fields[q.time.value.dimension], q.compare.Some?);
      DescribeAllGrows(d2, b.Current(), ids, descs);
      OneDescribed(b.table, b.slots, window.value.0, desc);
      DescribedAppend(b.table, b.slots, ids, descs, [window.value.0], [desc]);
      ids := ids + [window.value.0];
      descs := descs + [desc];
      slot := Some(window.value.1);
      GrowsTrans(d0, d2, b.Current());
    }
    ghost var d3 := b.Current();
    var contexts := AddContexts(b, plan.contexts);
    GrowsTrans(d0, d3, b.Current());
    DescribeAllGrows(d3, b.Current(), ids, descs);
    DescribedAppend(b.table, b.slots, ids, descs, contexts, ContextDescs(plan.contexts));
    if slot.Some? {
      SlotKept(d3, b.Current(), slot.value);
    }
    assert descs + ContextDescs(plan.contexts) == PopulationDescs(b.resolver, q, plan);
    return Ok((ids + contexts, slot));
  }

  /** The slot of the query's time window. */
  ghost predicate WindowSlot(slots: map<string, Binding>, q: Query, slot: Option<string>) {
    && slot.Some? == q.time.Some?
    && (slot.Some? ==> slot.value in slots && IsWindow(slots[slot.value], q))
  }

  /** The two bounds of the window on the time dimension, current when periods are compared. */
  predicate IsWindow(b: Binding, q: Query)
    requires q.time.Some?
  {
    && b.kind == "time_range" && b.stage == Some("where") && b.arity == Some(2) && b.reference == Some(q.time.value.dimension)
    && b.operator == Some(if q.compare.Some? then "current_range" else "half_open")
  }

  /** Columns and names, in terms of the final references. */
  method AddColumnsAndNames(p: Projector, q: Query, r: Resolved, plan: Plan) returns (ok: bool)
    requires p.Ready() && p.outputs == [] && p.shown == [] && p.seen == {} && p.Known() == NAMELESS && LinedUp(q, r) && p.aliases == q.aliases
    modifies p, p.b
    ensures ok <==> NoteAll(p.b.resolver.fields, old(p.b.book), ColumnRefs(plan.columns) + q.measures).Ok? &&
                    RefsApart(NoteAll(p.b.resolver.fields, old(p.b.book), ColumnRefs(plan.columns) + q.measures).value.target, ColumnRefs(plan.columns))
    ensures ok ==> p.Ready() && GainsFields(old(p.b.Current()), p.b.Current())
    ensures ok ==> p.b.book == NoteAll(p.b.resolver.fields, old(p.b.book), ColumnRefs(plan.columns) + q.measures).value
    ensures ok ==> p.shown == ShownColumns(q.aliases, plan.columns)
    ensures ok ==> RefsIn(p.b.ids, q, plan) && p.Known() == NamingOf(p.b.ids, q.aliases, plan.columns, q.measures, r.measures)
    ensures ok ==> AllUsed(p.b.ids, ColumnRefs(plan.columns)) && p.seen == NodeSet(p.b.ids, ColumnRefs(plan.columns))
  {
    hide Inv, Extends, AllGroups, AllShown, NoteAll, RefsApart, OwnersNoted, Reference, AliasNaming, MeasureNaming, ColumnNaming, ShownColumn;
    ghost var fields, refs := p.b.resolver.fields, ColumnRefs(plan.columns);
    ghost var d0 := p.b.Current();
    BookStarts(d0);
    NoteAllSplits(fields, d0.book, refs, q.measures);
    ok := p.AddColumns(plan.columns);
    if !ok {
      StillNotApart(fields, d0.book, refs, q.measures);
      return;
    }
    ghost var d1 := p.b.Current();
    BookStarts(d1);
    ApartLater(fields, d1.book, refs, q.measures);
    ok := p.AddMeasureNames(q.measures, r.measures);
    if !ok { return; }
    IdsKept(d1, p.b.Current());
    ColumnNamingKept(d1.ids, p.b.ids, plan.columns);
    SeenKept(d1, p.b.Current(), refs);
    GainsTrans(d0, d1, p.b.Current());
    p.AddAliasNames();
  }

  lemma SeenKept(d: Draft, e: Draft, refs: seq<string>)
    requires Extends(d, e) && AllUsed(d.ids, refs)
    ensures AllUsed(e.ids, refs) && NodeSet(e.ids, refs) == NodeSet(d.ids, refs)
  {
    forall ref | ref in refs ensures e.ids[ref] == d.ids[ref] {
    }
  }

  /** Later references do not change what earlier ones resolve to. */
  lemma ApartLater(fields: Registry, book: Book, refs: seq<string>, more: seq<string>)
    requires OwnersNoted(book) && AllUsed(book.target, refs)
    ensures NoteAll(fields, book, more).Ok? ==>
              AllUsed(NoteAll(fields, book, more).value.target, refs) &&
              (RefsApart(NoteAll(fields, book, more).value.target, refs) <==> RefsApart(book.target, refs))
  {
    hide NoteAll;
    if NoteAll(fields, book, more).Ok? {
      NoteAllKeeps(fields, book, more);
      var target := NoteAll(fields, book, more).value.target;
      forall ref | ref in refs ensures ref in target && target[ref] == book.target[ref] {
      }
      forall i | 0 <= i < |refs| ensures refs[i] in refs {
      }
    }
  }

  lemma StillNotApart(fields: Registry, book: Book, refs: seq<string>, more: seq<string>)
    requires OwnersNoted(book)
    requires !(NoteAll(fields, book, refs).Ok? && RefsApart(NoteAll(fields, book, refs).value.target, refs))
    ensures !(NoteAll(fields, book, refs + more).Ok? && RefsApart(NoteAll(fields, book, refs + more).value.target, refs))
  {
    hide NoteAll;
    NoteAllSplits(fields, book, refs, more);
    if NoteAll(fields, book, refs).Ok? {
      NoteAllKeeps(fields, book, refs);
      ApartLater(fields, NoteAll(fields, book, refs).value, refs, more);
    }
  }

  /** Columns, names, derived measures and the comparison expansion. */
  method AddOutputs(p: Projector, q: Query, r: Resolved, plan: Plan) returns (ok: bool)
    requires p.Ready() && p.outputs == [] && p.shown == [] && p.seen == {} && p.Known() == NAMELESS && LinedUp(q, r) && p.aliases == q.aliases
    modifies p, p.b
    ensures ok <==> ProjectedOk(p.b.resolver.fields, old(p.b.book), q, plan)
    ensures ok ==> p.Ready() && Extends(old(p.b.Current()), p.b.Current())
    ensures ok ==> p.b.book == NoteAll(p.b.resolver.fields, old(p.b.book), ProjectedRefs(q, plan)).value
    ensures ok ==> p.shown == OutputsOf(p.b.book, q, plan)
    ensures ok ==> RefsIn(p.b.book.target, q, plan) && Means(p.b.Current(), p.targets, HavingMeans(p.b.book, q, r, plan))
  {
    hide Inv, Extends, AllGroups, AllShown, NoteAll, RefsApart, OwnersNoted, Distinct, InlineIdentities, NamingOf, ShownColumns,
         ShownInlines, ComparedShown, ComparedNames, ComparedMeans, OperandsOf, Grows, GainsFields, InlineMeans, Elements, RefsIn, Means, FieldMeans;
    ghost var fields := p.b.resolver.fields;
    ghost var d0 := p.b.Current();
    BookStarts(d0);
    ProjectedSplits(fields, d0.book, q, plan);
    ok := AddColumnsAndNames(p, q, r, plan);
    if !ok { return; }
    ghost var d1 := p.b.Current();
    ColumnsPlain(d1, ColumnRefs(plan.columns), q.derived);
    BookStarts(d1);
    ghost var known := FieldsMeant(d1, p.targets, q, r, plan);
    ok := p.AddDerived(q.derived, FieldMeans(known.targets));
    if !ok { return; }
    ghost var means := InlineMeans(FieldMeans(known.targets), q.derived);
    ghost var d2, outputs2, names2 := p.b.Current(), p.outputs, p.names;
    Gained(d0, d1, d2);
    NamesSettled(d1, d2, q, r, plan);
    SameKnown(fields, d1, d2, q, r, plan);
    AfterDerived(d2, outputs2, p.shown, names2, q, r, plan, means);
    if plan.comparing {
      p.ExpandComparison(means);
      Grown(d0, d2, p.b.Current());
    }
  }

  lemma Gained(a: Draft, b: Draft, c: Draft)
    requires GainsFields(a, b) && Extends(b, c)
    ensures Extends(a, c)
  {
    hide Extends;
    ExtendsTrans(a, b, c);
  }

  lemma Grown(a: Draft, b: Draft, c: Draft)
    requires Extends(a, b) && Grows(b, c)
    ensures Extends(a, c) && c.book == b.book
  {
    hide Extends;
    ExtendsTrans(a, b, c);
  }

  /** What the projection asks of the references it notes. */
  predicate ProjectedOk(fields: Registry, book: Book, q: Query, plan: Plan) {
    var all := NoteAll(fields, book, ProjectedRefs(q, plan));
    all.Ok? && RefsApart(all.value.target, ColumnRefs(plan.columns)) && Distinct(InlineIdentities(q.derived))
  }

  lemma ProjectedSplits(fields: Registry, book: Book, q: Query, plan: Plan)
    requires OwnersNoted(book)
    ensures var first := NoteAll(fields, book, ColumnRefs(plan.columns) + q.measures);
            (first.Err? ==> NoteAll(fields, book, ProjectedRefs(q, plan)).Err?) &&
            (first.Ok? ==>
               NoteAll(fields, book, ProjectedRefs(q, plan)) == NoteAll(fields, first.value, OperandsOf(q.derived)) &&
               (NoteAll(fields, book, ProjectedRefs(q, plan)).Ok? ==>
                  (RefsApart(NoteAll(fields, book, ProjectedRefs(q, plan)).value.target, ColumnRefs(plan.columns)) <==>
                   RefsApart(first.value.target, ColumnRefs(plan.columns)))))
  {
    hide NoteAll, RefsApart, OwnersNoted;
    var refs := ColumnRefs(plan.columns) + q.measures;
    NoteAllSplits(fields, book, refs, OperandsOf(q.derived));
    if NoteAll(fields, book, refs).Ok? {
      NoteAllKeeps(fields, book, refs);
      forall ref | ref in ColumnRefs(plan.columns) ensures ref in refs {
      }
      ApartLater(fields, NoteAll(fields, book, refs).value, ColumnRefs(plan.columns), OperandsOf(q.derived));
    }
  }

  /** Column nodes and inline identities never look like a facet's identity. */
  lemma ColumnsPlain(d: Draft, refs: seq<string>, derived: seq<Inline>)
    requires Inv(d) && AllUsed(d.ids, refs)
    ensures forall x | x in NodeSet(d.ids, refs) :: !("inline:" <= x)
    ensures forall x | x in NodeSet(d.ids, refs) + Elements(InlineIdentities(derived)) :: PlainIdentity(x)
  {
    hide Joined, Made;
    forall x | x in NodeSet(d.ids, refs) ensures ':' !in x && !("inline:" <= x) {
      var ref :| ref in refs && d.ids[ref] == x;
      UsedMade(d, ref);
      NodeIdentity(x, d.next);
    }
    forall x | x in Elements(InlineIdentities(derived)) ensures "inline:" <= x {
      var i :| 0 <= i < |derived| && InlineIdentities(derived)[i] == x;
    }
  }

  lemma UsedMade(d: Draft, ref: string)
    requires Inv(d) && ref in d.ids
    ensures Made(d.ids[ref], d.next)
  {
    assert Targeted(d.ids, d.book, ref);
    assert OwnerOk(d, d.book.target[ref]);
  }

  // ---------------------------------------------------------- names, renumbered

  ghost function NodesByName(d: Draft): (f: map<string, string>)
    ensures f.Keys == d.book.owner.Keys * d.ids.Keys
    ensures forall c | c in f :: f[c] == d.ids[c]
  {
    map c | c in d.book.owner.Keys * d.ids.Keys :: d.ids[c]
  }

  lemma ThroughNames(d: Draft)
    requires Inv(d)
    ensures Through(d.ids, d.book.target, NodesByName(d)) && Injective(NodesByName(d))
  {
    OwnersUsed(d);
    forall ref | ref in d.book.target ensures ref in d.ids && d.book.target[ref] in NodesByName(d) && d.ids[ref] == d.ids[d.book.target[ref]] {
      assert Targeted(d.ids, d.book, ref);
    }
  }

  lemma NamesSettled(d: Draft, e: Draft, q: Query, r: Resolved, plan: Plan)
    requires Extends(d, e) && RefsIn(d.ids, q, plan) && LinedUp(q, r)
    ensures RefsIn(e.ids, q, plan)
    ensures NamingOf(e.ids, q.aliases, plan.columns, q.measures, r.measures) == NamingOf(d.ids, q.aliases, plan.columns, q.measures, r.measures)
  {
    hide ColumnNaming, MeasureNaming, AliasNaming, Reference;
    IdsKept(d, e);
    ColumnNamingKept(d.ids, e.ids, plan.columns);
    MeasureNamingKept(ColumnNaming(d.ids, plan.columns), d.ids, e.ids, q.measures, r.measures);
  }

  /** Before inline measures, every name stands for a field: the one its name leads to. */
  lemma FieldsMeant(d: Draft, targets: map<string, string>, q: Query, r: Resolved, plan: Plan) returns (known: Glossary)
    requires Inv(d) && d.pending == {} && LinedUp(q, r) && RefsIn(d.ids, q, plan)
    requires targets == NamingOf(d.ids, q.aliases, plan.columns, q.measures, r.measures).targets
    ensures RefsIn(d.book.target, q, plan) && known == NamingOf(d.book.target, q.aliases, plan.columns, q.measures, r.measures)
    ensures Means(d, targets, FieldMeans(known.targets))
  {
    hide Inv, NamingOf, Reference, SameNames, Injective, Through;
    SameKeys(d);
    ThroughNames(d);
    NamingSame(d.ids, d.book.target, NodesByName(d), q.aliases, plan.columns, q.measures, r.measures);
    known := NamingOf(d.book.target, q.aliases, plan.columns, q.measures, r.measures);
    NamesMeant(d, NamingOf(d.ids, q.aliases, plan.columns, q.measures, r.measures), known);
  }

  lemma NamesMeant(d: Draft, a: Glossary, b: Glossary)
    requires Inv(d) && d.pending == {} && SameNames(a, b, NodesByName(d))
    ensures Means(d, a.targets, FieldMeans(b.targets))
  {
    hide Inv, StandsFor, IsGroup;
    forall name | name in b.targets ensures name in a.targets && Denotes(d, a.targets[name], OfField(b.targets[name])) {
      assert b.targets[name] in NodesByName(d);
      FieldDenotes(d, b.targets[name]);
    }
  }

  /** The inline measures' references do not change the names before them. */
  lemma SameKnown(fields: Registry, d: Draft, e: Draft, q: Query, r: Resolved, plan: Plan)
    requires OwnersNoted(d.book) && NoteAll(fields, d.book, OperandsOf(q.derived)) == Ok(e.book)
    requires LinedUp(q, r) && RefsIn(d.book.target, q, plan)
    ensures RefsIn(e.book.target, q, plan)
    ensures NamingOf(e.book.target, q.aliases, plan.columns, q.measures, r.measures) == NamingOf(d.book.target, q.aliases, plan.columns, q.measures, r.measures)
  {
    hide ColumnNaming, MeasureNaming, AliasNaming, Reference, NoteAll, OwnersNoted;
    NoteAllKeeps(fields, d.book, OperandsOf(q.derived));
    ColumnNamingKept(d.book.target, e.book.target, plan.columns);
    MeasureNamingKept(ColumnNaming(d.book.target, plan.columns), d.book.target, e.book.target, q.measures, r.measures);
  }

  /** Columns have different nodes, and the names are those of the references in use. */
  lemma AfterDerived(d: Draft, outputs: seq<Output>, shown: seq<Shown>, names: map<string, set<string>>, q: Query, r: Resolved, plan: Plan,
                     m: map<string, Meaning>)
    requires Inv(d) && d.pending == {} && AllShown(d, outputs, shown) && LinedUp(q, r) && RefsIn(d.ids, q, plan)
    requires shown == BaseShown(q.aliases, plan.columns, q.derived) && RefsApart(d.book.target, ColumnRefs(plan.columns))
    requires names == NamingOf(d.ids, q.aliases, plan.columns, q.measures, r.measures).names
    ensures RefsIn(d.book.target, q, plan)
    ensures |outputs| == |shown|
    ensures ComparedMeans(d.table, names, outputs, shown, m) ==
            ComparedNames(d.book, NamingOf(d.book.target, q.aliases, plan.columns, q.measures, r.measures).names, shown, m)
    ensures forall o | o in outputs :: o.node in d.table
    ensures forall i, j | 0 <= i < j < |outputs| && d.table[outputs[i].node].kind == "aggregate" :: outputs[i].node != outputs[j].node
  {
    hide Inv, AllShown, NamingOf, Reference, RefsApart, ComparedMeans, ComparedNames, SameNames, ShownAs, IsGroup, Injective, Through,
         BaseShown, Aggregated;
    SameKeys(d);
    ThroughNames(d);
    NamingSame(d.ids, d.book.target, NodesByName(d), q.aliases, plan.columns, q.measures, r.measures);
    ComparedSame(d, outputs, shown, NamingOf(d.ids, q.aliases, plan.columns, q.measures, r.measures),
                 NamingOf(d.book.target, q.aliases, plan.columns, q.measures, r.measures), m);
    ShownGroups(d, outputs, shown);
    forall o | o in outputs ensures o.node in d.table {
      var i :| 0 <= i < |outputs| && outputs[i] == o;
    }
    forall i, j | 0 <= i < j < |outputs| && d.table[outputs[i].node].kind == "aggregate" ensures outputs[i].node != outputs[j].node {
      NodesDiffer(d, outputs, shown, q, plan, i, j);
    }
  }

  lemma NodesDiffer(d: Draft, outputs: seq<Output>, shown: seq<Shown>, q: Query, plan: Plan, i: nat, j: nat)
    requires Inv(d) && d.pending == {} && AllShown(d, outputs, shown) && i < j < |outputs| && outputs[i].node in d.table && outputs[j].node in d.table
    requires shown == BaseShown(q.aliases, plan.columns, q.derived) && RefsApart(d.book.target, ColumnRefs(plan.columns))
    requires d.table[outputs[i].node].kind == "aggregate"
    ensures outputs[i].node != outputs[j].node
  {
    hide Inv, Name, AliasFor;
    assert ShownAs(d, outputs[i], shown[i]) && ShownAs(d, outputs[j], shown[j]);
    DenotesGroup(d, outputs[i].node, shown[i].meaning);
    DenotesGroup(d, outputs[j].node, shown[j].meaning);
    var refs := ColumnRefs(plan.columns);
    if shown[j].meaning.OfField? {
      assert j < |plan.columns|;
      SameNode(d, refs[i], refs[j]);
    }
  }

  lemma {:induction false} ComparedSame(d: Draft, outputs: seq<Output>, shown: seq<Shown>, a: Glossary, b: Glossary,
                                       m: map<string, Meaning>)
    requires Inv(d) && d.pending == {} && AllShown(d, outputs, shown) && SameNames(a, b, NodesByName(d))
    ensures |outputs| == |shown| && ComparedMeans(d.table, a.names, outputs, shown, m) == ComparedNames(d.book, b.names, shown, m)
  {
    hide Inv, SameNames, FacetMeans, Denotes, Name, IsGroup, IsMeasureRef, NodesByName;
    if outputs != [] {
      var n := |outputs| - 1;
      ComparedSame(d, outputs[..n], shown[..n], a, b, m);
      assert ShownAs(d, outputs[n], shown[n]);
      DenotesGroup(d, outputs[n].node, shown[n].meaning);
      if Aggregated(d.book, shown[n].meaning) {
        SameBases(d, outputs[n], shown[n], a, b);
      }
    }
  }

  lemma SameBases(d: Draft, o: Output, s: Shown, a: Glossary, b: Glossary)
    requires Inv(d) && ShownAs(d, o, s) && Aggregated(d.book, s.meaning) && SameNames(a, b, NodesByName(d))
    ensures FacetBases(a.names, o) == BasesOf(d.book, b.names, s)
  {
    hide Inv, Name, Injective, Through, SameNames;
    ThroughNames(d);
    assert d.ids[s.meaning.ref] == NodesByName(d)[d.book.target[s.meaning.ref]] by { ThroughAt(d, s.meaning.ref); }
    NamesAtSame(a, b, NodesByName(d), d.book.target[s.meaning.ref]);
  }

  lemma ThroughAt(d: Draft, ref: string)
    requires Through(d.ids, d.book.target, NodesByName(d)) && ref in d.book.target
    ensures ref in d.ids && d.book.target[ref] in NodesByName(d) && d.ids[ref] == NodesByName(d)[d.book.target[ref]]
  {
  }

  /** The grain: the dimensions' nodes, then the time bucket's. */
  method AddGrain(b: Builder, q: Query, r: Resolved) returns (g: Result<seq<string>, string>)
    requires b.Valid() && b.pending == {}
    modifies b
    ensures g.Ok? <==> NoteAll(b.resolver.fields, old(b.book), GrainRefs(q, r)).Ok?
    ensures g.Ok? ==> b.Valid() && GainsFields(old(b.Current()), b.Current())
    ensures g.Ok? ==> b.book == NoteAll(b.resolver.fields, old(b.book), GrainRefs(q, r)).value
    ensures g.Ok? ==> NodesOfRefs(b.ids, GrainRefs(q, r), g.value) && AllIn(b.table, g.value)
  {
    hide Inv, Extends, NoteAll, AllIn, NodesOfRefs;
    g := b.AddFields(GrainRefs(q, r));
    if g.Ok? {
      FieldsIn(b.Current(), GrainRefs(q, r), g.value);
    }
  }

  lemma FieldsIn(d: Draft, refs: seq<string>, ids: seq<string>)
    requires Inv(d) && d.pending == {} && NodesOfRefs(d.ids, refs, ids)
    ensures AllIn(d.table, ids)
  {
    hide Inv, IsField, StandsFor;
    forall id | id in ids ensures id in d.table {
      var i :| 0 <= i < |ids| && ids[i] == id;
      FieldSettled(d, refs[i]);
    }
  }

  // --------------------------------------------------------- finding a ranking

  lemma {:induction false} FoundAll(names: Names, aliases: seq<(string, string)>, wanted: seq<string>)
    ensures FindAll(names, aliases, wanted).Some? <==> forall w | w in wanted :: FindNode(names, aliases, w, false).Some?
  {
    hide FindNode;
    if wanted != [] {
      FoundAll(names, aliases, wanted[1..]);
      assert wanted == [wanted[0]] + wanted[1..];
    }
  }

  lemma {:induction false} AliasKeys(d: Draft, outputs: seq<Output>, shown: seq<Shown>)
    requires AllShown(d, outputs, shown)
    ensures ByAlias(outputs).Keys == AliasesShown(shown)
  {
    hide Denotes, Name;
    if outputs != [] {
      var n := |outputs| - 1;
      AliasKeys(d, outputs[..n], shown[..n]);
      assert ShownAs(d, outputs[n], shown[n]);
      assert shown == shown[..n] + [shown[n]];
    }
  }

  lemma ReferenceOf(d: Draft, node: string, m: Meaning)
    requires Inv(d) && d.pending == {} && Denotes(d, node, m)
    ensures node in d.table
    ensures d.table[node].catalogRef == if m.OfField? && m.ref in d.book.target then Some(d.book.target[m.ref]) else None
  {
    hide Inv;
    if m.OfField? {
      FieldSettled(d, m.ref);
    }
  }

  lemma {:induction false} ProjectedKeys(d: Draft, outputs: seq<Output>, shown: seq<Shown>)
    requires Inv(d) && d.pending == {} && AllShown(d, outputs, shown) && forall o | o in outputs :: o.node in d.table
    ensures Projected(d.table, outputs).Keys == NamesShown(d.book.target, shown)
  {
    hide Inv, Denotes, Name;
    if outputs != [] {
      var n := |outputs| - 1;
      ProjectedKeys(d, outputs[..n], shown[..n]);
      assert ShownAs(d, outputs[n], shown[n]);
      ReferenceOf(d, outputs[n].node, shown[n].meaning);
      assert shown == shown[..n] + [shown[n]];
      NamesNext(d.book.target, shown[..n], shown[n]);
    }
  }

  lemma NamesNext(target: map<string, string>, shown: seq<Shown>, s: Shown)
    ensures NamesShown(target, shown + [s]) ==
            NamesShown(target, shown) + if s.meaning.OfField? && s.meaning.ref in target then {target[s.meaning.ref]} else {}
  {
    forall x | x in NamesShown(target, shown + [s]) ensures
      x in NamesShown(target, shown) || (s.meaning.OfField? && s.meaning.ref in target && x == target[s.meaning.ref])
    {
    }
    forall x | x in NamesShown(target, shown) ensures x in NamesShown(target, shown + [s]) {
      var y :| y in shown && y.meaning.OfField? && y.meaning.ref in target && target[y.meaning.ref] == x;
      assert y in shown + [s];
    }
    assert s in shown + [s];
  }

  lemma {:induction false} ZipKeys(keys: seq<string>, values: seq<string>)
    requires |keys| <= |values|
    ensures forall k :: k in Zip(keys, values) <==> k in keys
  {
    if keys != [] {
      ZipKeys(keys[1..], values[1..]);
      assert keys == [keys[0]] + keys[1..];
    }
  }

  /** A ranking's names are found exactly when they name something projected or requested. */
  lemma RankFound(d: Draft, outputs: seq<Output>, q: Query, r: Resolved, plan: Plan, grain: seq<string>)
    requires Inv(d) && d.pending == {} && AllShown(d, outputs, OutputsOf(d.book, q, plan)) && LinedUp(q, r)
    requires NodesOfRefs(d.ids, GrainRefs(q, r), grain) && (Bucketed(q) ==> grain != []) && AllUsedIn(d.ids, q.measures)
    requires forall o | o in outputs :: o.node in d.table
    ensures (q.rank.Some? ==> !RankStandsForNothing(Scope(d.table, d.nodes, outputs, d.ids, grain), q, q.rank.value)) <==>
            RankResolves(d.book, q, plan, RankNames(q))
  {
    hide Inv, AllShown, FindAll, ByAlias, ByReference, Projected, Zip, OutputsOf, NamesShown, AliasesShown, AliasTarget, RankStandsForNothing, RankingStands;
    var names := NamesOf(d.table, d.nodes, outputs, q, d.ids, grain);
    AliasKeys(d, outputs, OutputsOf(d.book, q, plan));
    ProjectedKeys(d, outputs, OutputsOf(d.book, q, plan));
    ZipKeys(q.dimensions, grain);
    if q.rank.Some? {
      FoundAll(names, q.aliases, q.rank.value.partitionBy);
      FoundAll(names, q.aliases, Compare.Firsts(q.rank.value.orderBy));
      FindRankingIs(Scope(d.table, d.nodes, outputs, d.ids, grain), q, q.rank.value);
    }
  }

  // ---------------------------------------------------------------- derivations

  /** Aggregate nodes, either the counts or all the others. */
  function Aggregates(ns: seq<SemanticNode>, counts: bool): (ids: seq<string>)
    ensures forall id | id in ids :: exists n | n in ns :: n.id == id && n.kind == "aggregate"
  {
    if ns == [] then [] else
      var rest := Aggregates(ns[1..], counts);
      if ns[0].kind == "aggregate" && ns[0].aggregate.Some? && (ns[0].aggregate == Some("count")) == counts
      then [ns[0].id] + rest else rest
  }

  /** A rollup derives counts and other measures in their own ways. */
  function DerivationsOf(ns: seq<SemanticNode>, rollup: bool): seq<seq<string>> {
    if !rollup then [] else
      (if Aggregates(ns, true) != [] then [Aggregates(ns, true)] else []) +
      (if Aggregates(ns, false) != [] then [Aggregates(ns, false)] else [])
  }

  lemma DerivationsExist(ns: seq<SemanticNode>, rollup: bool)
    ensures forall ids | ids in DerivationsOf(ns, rollup) :: AllIn(Compare.Table(ns, Compare.NodeId), ids)
  {
    TableHas(ns);
  }

  // ---------------------------------------------------------------- the whole

  /** What every artifact the builder returns satisfies. */
  ghost predicate BuiltFrom(d: Draft, a: Analysis) {
    && Inv(d) && d.pending == {}
    && a.nodes == d.nodes && a.bindings == d.bindings
    && |a.populations| == 1 && a.populations[0].id == "p1" && AllRows(d.table, a.populations[0].predicates)
    && (forall o | o in a.outputs :: o.node in d.table)
    && a.outcome.Some? && OutcomeOk(d, a.outcome.value)
    && (forall ids | ids in a.derivations :: AllIn(d.table, ids))
    && a.enrichments == [] && a.version == 1
  }

  datatype Parts = Parts(predicates: seq<string>, slot: Option<string>, outputs: seq<Output>, having: seq<string>, grain: seq<string>)

  /** Each post-aggregate predicate applies its filter to what its name stands for. */
  ghost predicate HavingStands(d: Draft, q: Query, r: Resolved, plan: Plan, ids: seq<string>)
    requires LinedUp(q, r)
  {
    RefsIn(d.book.target, q, plan) && HavingOk(d, q.having, ids, HavingMeans(d.book, q, r, plan))
  }

  /** The graph's parts mean what the query says. */
  ghost predicate PartsOk(d: Draft, resolver: Resolver, q: Query, r: Resolved, plan: Plan, p: Parts)
    requires PopulationResolves(resolver, q) && LinedUp(q, r)
  {
    && DescribeAll(d.table, d.slots, p.predicates, PopulationDescs(resolver, q, plan)) && WindowSlot(d.slots, q, p.slot)
    && AllShown(d, p.outputs, OutputsOf(d.book, q, plan)) && HavingStands(d, q, r, plan, p.having)
    && NodesOfRefs(d.ids, GrainRefs(q, r), p.grain) && AllIn(d.table, p.grain)
  }

  /** The first half: fields, population, outputs and post-aggregate predicates. */
  method BuildGraph(b: Builder, q: Query, r: Resolved, plan: Plan) returns (parts: Result<Parts, string>)
    requires b.Valid() && b.pending == {} && b.book == EMPTY && LinedUp(q, r) && b.resolver == ResolverOf(q, r)
    modifies b
    ensures parts.Ok? <==> GraphOk(q, r, plan)
    ensures parts.Ok? ==> b.Valid() && b.pending == {} && b.book == UsedBook(q, r, plan).value
    ensures parts.Ok? ==> PopulationResolves(b.resolver, q) && PartsOk(b.Current(), b.resolver, q, r, plan, parts.value)
  {
    hide Inv, Extends, DescribeAll, PopulationResolves, PopulationDescs, AllShown, NoteAll, RefsApart, Distinct, HavingMeans, OutputsOf,
         WindowSlot, AllRefs, GrainRefs, ResolvedRefs, ProjectedRefs, RegistryOf, AllGroups, NodesOfRefs, AllIn, RefsIn, InlineIdentities, NodesOfRefs, FiltersOutput;
    ghost var fields := b.resolver.fields;
    GraphSplits(q, r, plan);
    var ok := AddResolvedFields(b, r);
    if !ok { return Err("field"); }
    ghost var d0 := b.Current();
    var population := AddPopulation(b, q, plan);
    if population.Err? { return Err(population.error); }
    ghost var d1 := b.Current();
    var p := new Projector(b, q.aliases);
    NoGroups(b.table);
    NothingShown(d1);
    ok := AddOutputs(p, q, r, plan);
    if !ok { return Err("output"); }
    ghost var d2 := b.Current();
    HavingSettled(fields, d2.book, q, r, plan);
    var having := p.AddHaving(q.having, HavingMeans(d2.book, q, r, plan));
    if having.None? { return Err("having"); }
    ghost var d3 := b.Current();
    var grain := AddGrain(b, q, r);
    ghost var d4 := b.Current();
    PartsKept(d1, d2, d3, d4, b.resolver, q, r, plan, population.value, p.outputs, having.value, grain.value);
    parts := Ok(Parts(population.value.0, population.value.1, p.outputs, having.value, grain.value));
  }

  lemma NoGroups(t: map<string, SemanticNode>)
    ensures AllGroups(t, {}) && AllGroups(t, NAMELESS.targets.Values)
  {
  }

  /** What the first half asks for. */
  predicate GraphOk(q: Query, r: Resolved, plan: Plan)
    requires LinedUp(q, r)
  {
    UsedBook(q, r, plan).Ok? && PopulationResolves(ResolverOf(q, r), q) && Projectable(UsedBook(q, r, plan).value, q, r, plan)
  }

  /** The book of the projection, where noting its references has succeeded. */
  function ProjectedBook(fields: Registry, q: Query, r: Resolved, plan: Plan): Result<Book, string> {
    NoteAll(fields, EMPTY, ResolvedRefs(r) + ProjectedRefs(q, plan))
  }

  /** The references are noted phase by phase; the grain's are in use by then. */
  lemma GraphSplits(q: Query, r: Resolved, plan: Plan)
    requires LinedUp(q, r)
    ensures var fields := RegistryOf(q, r);
            var first := NoteAll(fields, EMPTY, ResolvedRefs(r));
            (first.Err? ==> UsedBook(q, r, plan).Err?) &&
            (first.Ok? ==>
               OwnersNoted(first.value) &&
               var all := NoteAll(fields, first.value, ProjectedRefs(q, plan));
               (all.Err? ==> UsedBook(q, r, plan).Err?) &&
               (all.Ok? ==>
                  NoteAll(fields, all.value, GrainRefs(q, r)) == Ok(all.value) && UsedBook(q, r, plan) == Ok(all.value)))
  {
    hide NoteAll, RegistryOf, OwnersNoted;
    var fields := RegistryOf(q, r);
    var early := ResolvedRefs(r) + ProjectedRefs(q, plan);
    assert ResolvedRefs(r) + ColumnRefs(plan.columns) + q.measures + OperandsOf(q.derived) == early;
    NoteAllSplits(fields, EMPTY, early, GrainRefs(q, r));
    NoteAllSplits(fields, EMPTY, ResolvedRefs(r), ProjectedRefs(q, plan));
    assert OwnersNoted(EMPTY) by { NoOwners(); }
    if NoteAll(fields, EMPTY, ResolvedRefs(r)).Ok? {
      NoteAllKeeps(fields, EMPTY, ResolvedRefs(r));
      if NoteAll(fields, EMPTY, early).Ok? {
        var all := NoteAll(fields, EMPTY, early).value;
        forall ref | ref in GrainRefs(q, r) ensures ref in all.target {
          assert ref in ResolvedRefs(r);
          assert ref in early;
        }
        NotedAlready(fields, all, GrainRefs(q, r));
      }
    }
  }

  lemma NoOwners()
    ensures OwnersNoted(EMPTY)
  {
  }

  lemma {:induction false} NotedAlready(fields: Registry, book: Book, refs: seq<string>)
    requires forall ref | ref in refs :: ref in book.target
    ensures NoteAll(fields, book, refs) == Ok(book)
  {
    if refs != [] {
      NotedAlready(fields, book, refs[1..]);
    }
  }

  /** What the outputs were asked for is what the whole projection asks. */
  lemma HavingSettled(fields: Registry, book: Book, q: Query, r: Resolved, plan: Plan)
    requires LinedUp(q, r) && RefsIn(book.target, q, plan) && RefsApart(book.target, ColumnRefs(plan.columns)) && Distinct(InlineIdentities(q.derived))
    ensures Projectable(book, q, r, plan) <==> forall f | f in q.having :: f.dimension in HavingMeans(book, q, r, plan)
  {
    hide HavingMeans, RefsIn, RefsApart, Distinct;
  }

  lemma PartsKept(d1: Draft, d2: Draft, d3: Draft, d4: Draft, resolver: Resolver, q: Query, r: Resolved, plan: Plan,
                  population: (seq<string>, Option<string>), outputs: seq<Output>, having: seq<string>, grain: seq<string>)
    requires Extends(d1, d2) && Grows(d2, d3) && GainsFields(d3, d4) && PopulationResolves(resolver, q) && d4.book == d3.book && LinedUp(q, r)
    requires DescribeAll(d1.table, d1.slots, population.0, PopulationDescs(resolver, q, plan)) && WindowSlot(d1.slots, q, population.1)
    requires AllShown(d2, outputs, OutputsOf(d2.book, q, plan))
    requires RefsIn(d3.book.target, q, plan) && HavingOk(d3, q.having, having, HavingMeans(d3.book, q, r, plan))
    requires NodesOfRefs(d4.ids, GrainRefs(q, r), grain) && AllIn(d4.table, grain)
    ensures PartsOk(d4, resolver, q, r, plan, Parts(population.0, population.1, outputs, having, grain))
  {
    hide Extends, DescribeAll, AllShown, OutputsOf, PopulationDescs, NodesOfRefs, AllIn, HavingOk, HavingMeans, RefsIn, PopulationResolves, GrainRefs;
    ExtendsTrans(d2, d3, d4);
    ExtendsTrans(d1, d2, d4);
    DescribeAllGrows(d1, d4, population.0, PopulationDescs(resolver, q, plan));
    ShownGrows(d2, d4, outputs, OutputsOf(d2.book, q, plan));
    if population.1.Some? {
      SlotKept(d1, d4, population.1.value);
    }
    HavingGrows(d3, d4, q.having, having, HavingMeans(d3.book, q, r, plan));
  }

  /**
    The semantic analysis of a resolved query.  It is built exactly when its
    names resolve and its projections differ; its parts then mean what the
    query says, over fields that only the query and its registrations decide.
  */
  method Build(q: Query, r: Resolved, plan: Plan) returns (result: Result<Analysis, string>, ghost d: Draft)
    requires LinedUp(q, r)
    ensures result.Ok? <==> Buildable(q, r, plan)
    ensures result.Ok? ==> BuiltFrom(d, result.value) && d.book == UsedBook(q, r, plan).value
    ensures result.Ok? ==> Answers(d, result.value, q, r, plan)
  {
    hide Inv, Extends, RegistryOf, DerivationsOf, OutcomeOk, PartsOk, BuiltFrom, AllRows, AllIn, SlotIn, OutputsOf, PopulationDescs, PopulationResolves,
         Projectable, UsedBook, ResultResolves, RankResolves, ResultOf, GrainRefs;
    var b := new Builder(ResolverOf(q, r), Style(q.ungrouped, Bucketed(q), OwnNames(r.dimensions)));
    d := b.Current();
    var graph := BuildGraph(b, q, r, plan);
    if graph.Err? {
      return Err(graph.error), d;
    }
    var g := graph.value;
    d := b.Current();
    PartsExist(d, b.resolver, q, r, plan, g);
    RankDecides(d, b.resolver, q, r, plan, g);
    ghost var d1 := d;
    var outcome := AddResult(b, q, g.outputs, g.having, g.grain, g.slot);
    if outcome.Err? {
      return Err(outcome.error), d;
    }
    d := b.Current();
    result := Ok(Assembled(q, r, plan, g, outcome.value.0, outcome.value.1, b.nodes, b.bindings));
    PartsStay(d1, d, b.resolver, q, r, plan, g);
    PartsExist(d, b.resolver, q, r, plan, g);
    AssembledOk(d, q, r, plan, g, outcome.value.0, outcome.value.1);
    IdsKept(d1, d);
    AssembledAnswers(d, q, r, plan, g, outcome.value.0, outcome.value.1);
  }

  /** The artifact's own parts, and what they mean. */
  ghost predicate Answers(d: Draft, a: Analysis, q: Query, r: Resolved, plan: Plan)
    requires LinedUp(q, r) && Buildable(q, r, plan) && BuiltFrom(d, a)
  {
    && DescribeAll(d.table, d.slots, a.populations[0].predicates, PopulationDescs(ResolverOf(q, r), q, plan))
    && AllShown(d, a.outputs, OutputsOf(d.book, q, plan))
    && HavingStands(d, q, r, plan, a.outcome.value.predicates) && NodesOfRefs(d.ids, GrainRefs(q, r), a.outcome.value.grain)
    && ResultStands(d, a, q) && GrainStands(d, a.outcome.value.grain, q, r)
    && d.style == Style(q.ungrouped, Bucketed(q), OwnNames(r.dimensions)) && Carries(a, q, r, plan)
  }

  /** The grain is the dimensions' own nodes, in order, and last the bucketed time dimension's. */
  ghost predicate GrainStands(d: Draft, grain: seq<string>, q: Query, r: Resolved) {
    var timed := q.time.Some? && q.time.value.granularity.Some? && r.time.Some?;
    && |grain| == |r.dimensions| + (if timed then 1 else 0)
    && (forall i | 0 <= i < |r.dimensions| :: IsNodeOf(d.ids, r.dimensions[i], grain[i]))
    && (timed ==> IsNodeOf(d.ids, r.time.value, grain[|r.dimensions|]))
  }

  predicate IsNodeOf(ids: map<string, string>, f: Field, node: string) {
    var name := f.cube + "." + f.name;
    name in ids && node == ids[name]
  }

  lemma GrainIs(d: Draft, grain: seq<string>, q: Query, r: Resolved)
    requires NodesOfRefs(d.ids, GrainRefs(q, r), grain)
    ensures GrainStands(d, grain, q, r)
  {
    var refs := GrainRefs(q, r);
    forall i | 0 <= i < |r.dimensions| ensures IsNodeOf(d.ids, r.dimensions[i], grain[i]) {
      assert refs[i] == Canonical(r.dimensions[i]);
    }
  }

  /** The aggregates that are counts, or those that are not. */
  ghost predicate ListsAggregates(ns: seq<SemanticNode>, counts: bool, ids: seq<string>) {
    forall id :: id in ids <==> exists n :: n in ns && n.id == id && n.kind == "aggregate" && n.aggregate.Some? && (n.aggregate.value == "count") == counts
  }

  /** Answered from a rollup, the counts are derived together and so are the other aggregates. */
  ghost predicate DerivesFrom(ns: seq<SemanticNode>, rollup: bool, derivations: seq<seq<string>>) {
    if !rollup then derivations == [] else
      exists counts, others :: ListsAggregates(ns, true, counts) && ListsAggregates(ns, false, others) &&
        derivations == (if counts == [] then [] else [counts]) + (if others == [] then [] else [others])
  }

  /** What the artifact says beside its graph: complete only when something is put out and every order clause is bound. */
  ghost predicate Carries(a: Analysis, q: Query, r: Resolved, plan: Plan)
    requires |a.populations| == 1 && a.outcome.Some?
  {
    var p := a.populations[0];
    && p.inclusion == plan.inclusion && p.policies == plan.policies
    && |p.sources| == |r.touched| && (forall i | 0 <= i < |p.sources| :: p.sources[i] == r.touched[i].name)
    && a.catalog == plan.catalog && a.joins == plan.joins && a.assumptions == plan.assumptions
    && (a.complete <==> plan.complete && |a.outputs| > 0 && |a.outcome.value.order| == |q.order|)
    && (forall x :: x in a.required <==> x == "partition_ranking" && q.rank.Some?)
    && DerivesFrom(a.nodes, plan.rollup, a.derivations)
  }

  lemma {:induction false} AggregatesAre(ns: seq<SemanticNode>, counts: bool)
    ensures ListsAggregates(ns, counts, Aggregates(ns, counts))
  {
    if ns != [] {
      AggregatesAre(ns[1..], counts);
      assert ns == [ns[0]] + ns[1..];
    }
  }

  lemma DerivationsAre(ns: seq<SemanticNode>, rollup: bool)
    ensures DerivesFrom(ns, rollup, DerivationsOf(ns, rollup))
  {
    hide ListsAggregates;
    AggregatesAre(ns, true);
    AggregatesAre(ns, false);
  }

  /** The result names what its clauses find, with the slots of the window and the prior period. */
  ghost predicate ResultStands(d: Draft, a: Analysis, q: Query)
    requires a.outcome.Some? && forall o | o in a.outputs :: o.node in d.table
  {
    var o := a.outcome.value;
    AllUsedIn(d.ids, q.measures) && (Bucketed(q) ==> o.grain != []) &&
    exists slot :: WindowSlot(d.slots, q, slot) && ResultOf(d, o, q, a.outputs, o.predicates, o.grain, slot)
  }

  function Assembled(q: Query, r: Resolved, plan: Plan, g: Parts, outcome: Outcome, ordered: bool, nodes: seq<SemanticNode>, bindings: seq<Binding>): Analysis {
    Analysis(
      1, nodes, g.outputs, [Population("p1", plan.inclusion, g.predicates, CubeNames(r.touched), plan.policies)], plan.catalog,
      plan.complete && g.outputs != [] && ordered, [], bindings, Some(outcome),
      if q.rank.Some? then {"partition_ranking"} else {}, plan.joins, plan.assumptions, DerivationsOf(nodes, plan.rollup))
  }

  lemma AssembledOk(d: Draft, q: Query, r: Resolved, plan: Plan, g: Parts, outcome: Outcome, ordered: bool)
    requires Inv(d) && d.pending == {}
    requires AllRows(d.table, g.predicates) && (forall o | o in g.outputs :: o.node in d.table) && OutcomeOk(d, outcome)
    ensures BuiltFrom(d, Assembled(q, r, plan, g, outcome, ordered, d.nodes, d.bindings))
  {
    hide Inv, OutcomeOk, IsRow, DerivationsOf;
    TableIs(d);
    DerivationsExist(d.nodes, plan.rollup);
  }

  lemma AssembledCarries(
    q: Query, r: Resolved, plan: Plan, g: Parts, outcome: Outcome, ordered: bool, nodes: seq<SemanticNode>, bindings: seq<Binding>)
    requires ordered <==> |outcome.order| == |q.order|
    ensures Carries(Assembled(q, r, plan, g, outcome, ordered, nodes, bindings), q, r, plan)
  {
    hide DerivesFrom, DerivationsOf;
    DerivationsAre(nodes, plan.rollup);
  }

  lemma AssembledAnswers(d: Draft, q: Query, r: Resolved, plan: Plan, g: Parts, outcome: Outcome, ordered: bool)
    requires LinedUp(q, r) && Buildable(q, r, plan) && d.style == Style(q.ungrouped, Bucketed(q), OwnNames(r.dimensions))
    requires BuiltFrom(d, Assembled(q, r, plan, g, outcome, ordered, d.nodes, d.bindings))
    requires PartsOk(d, ResolverOf(q, r), q, r, plan, g) && outcome.predicates == g.having && outcome.grain == g.grain
    requires (forall o | o in g.outputs :: o.node in d.table) && AllUsedIn(d.ids, q.measures) && (Bucketed(q) ==> g.grain != [])
    requires ResultOf(d, outcome, q, g.outputs, g.having, g.grain, g.slot) && (ordered <==> |outcome.order| == |q.order|)
    ensures Answers(d, Assembled(q, r, plan, g, outcome, ordered, d.nodes, d.bindings), q, r, plan)
  {
    AssembledCarries(q, r, plan, g, outcome, ordered, d.nodes, d.bindings);
    GrainIs(d, g.grain, q, r);
    hide Carries, DescribeAll, AllShown, HavingStands, NodesOfRefs, PopulationDescs, OutputsOf, Buildable, PopulationResolves, DerivationsOf, RegistryOf, Inv, OutcomeOk,
         ResultOf, WindowSlot, AllRows, AllIn, DerivesFrom, GrainStands, GrainRefs;
  }

  function CubeNames(cubes: seq<Cube>): seq<string> {
    seq(|cubes|, i requires 0 <= i < |cubes| => cubes[i].name)
  }

  lemma PartsStay(d: Draft, e: Draft, resolver: Resolver, q: Query, r: Resolved, plan: Plan, p: Parts)
    requires PopulationResolves(resolver, q) && LinedUp(q, r) && PartsOk(d, resolver, q, r, plan, p) && Grows(d, e)
    ensures PartsOk(e, resolver, q, r, plan, p)
  {
    hide Extends, DescribeAll, AllShown, OutputsOf, PopulationDescs, NodesOfRefs, HavingOk, HavingMeans, RefsIn, PopulationResolves, GrainRefs;
    DescribeAllGrows(d, e, p.predicates, PopulationDescs(resolver, q, plan));
    ShownGrows(d, e, p.outputs, OutputsOf(d.book, q, plan));
    TableKept(d, e);
    if p.slot.Some? {
      SlotKept(d, e, p.slot.value);
    }
    HavingGrows(d, e, q.having, p.having, HavingMeans(d.book, q, r, plan));
  }

  lemma TableKept(d: Draft, e: Draft)
    requires Extends(d, e)
    ensures d.table.Keys <= e.table.Keys
  {
  }

  lemma PartsExist(d: Draft, resolver: Resolver, q: Query, r: Resolved, plan: Plan, p: Parts)
    requires Inv(d) && d.pending == {} && LinedUp(q, r) && PopulationResolves(resolver, q) && PartsOk(d, resolver, q, r, plan, p)
    ensures AllRows(d.table, p.predicates) && SlotIn(d.slots, p.slot)
    ensures (forall o | o in p.outputs :: o.node in d.table) && AllIn(d.table, p.having) && AllIn(d.table, p.grain)
  {
    hide Inv, DescribeAll, AllShown, PopulationDescs, OutputsOf, NodesOfRefs, IsRow, GrainRefs;
    DescribedRows(d, p.predicates, PopulationDescs(resolver, q, plan));
    ShownGroups(d, p.outputs, OutputsOf(d.book, q, plan));
    forall o | o in p.outputs ensures o.node in d.table {
      var i :| 0 <= i < |p.outputs| && p.outputs[i] == o;
    }
    forall id | id in p.having ensures id in d.table {
      var i :| 0 <= i < |p.having| && p.having[i] == id;
      assert FiltersMeaning(d, p.having[i], q.having[i], HavingMeans(d.book, q, r, plan)[q.having[i].dimension]);
    }
  }

  /** With the graph built, a result follows exactly when the query is buildable. */
  lemma RankDecides(d: Draft, resolver: Resolver, q: Query, r: Resolved, plan: Plan, p: Parts)
    requires Inv(d) && d.pending == {} && LinedUp(q, r) && GraphOk(q, r, plan) && d.book == UsedBook(q, r, plan).value
    requires PopulationResolves(resolver, q) && PartsOk(d, resolver, q, r, plan, p) && forall o | o in p.outputs :: o.node in d.table
    ensures AllUsedIn(d.ids, q.measures) && forall ref | ref in q.measures :: d.ids[ref] in d.table
    ensures ResultResolves(d.table, d.nodes, p.outputs, q, d.ids, p.grain) <==> Buildable(q, r, plan)
  {
    hide Inv, DescribeAll, AllShown, OutputsOf, PopulationDescs, PopulationResolves, HavingStands, RankStandsForNothing, RankResolves, RegistryOf, NoteAll, AllRefs,
         HavingMeans, RefsApart, Distinct, GrainRefs, StandsFor;
    SameKeys(d);
    forall ref | ref in q.measures ensures ref in d.ids && d.ids[ref] in d.table {
      FieldSettled(d, ref);
    }
    if Bucketed(q) ==> p.grain != [] {
      RankFound(d, p.outputs, q, r, plan, p.grain);
    }
  }
}
