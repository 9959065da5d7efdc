/** When two outputs of a built artifact have one meaning to its reader. */
module AnalysisSenses {
  import opened Sequences
  import opened Wrappers
  import opened SemanticGraph
  import opened Naming
  import opened AnalysisDraft
  import opened GraphReader
  import opened AnalysisBuilder
  import opened AnalysisAssembly
  import opened AnalysisNames
  import opened AnalysisOutputs
  import opened AnalysisBuild
  import opened AnalysisSoundness
  import opened AnalysisReading
  import Compare

  /** What is left of a meaning when references stand for the fields they lead to. */
  datatype Sense = FieldSense(name: string) | InlineSense(op: string, names: seq<string>) | FacetSense(name: string, role: string)

  function NameOf(book: Book, ref: string): string {
    if ref in book.target then book.target[ref] else ref
  }

  function NamesFor(book: Book, refs: seq<string>): (names: seq<string>)
    ensures |names| == |refs| && forall i | 0 <= i < |refs| :: names[i] == NameOf(book, refs[i])
  {
    seq(|refs|, i requires 0 <= i < |refs| => NameOf(book, refs[i]))
  }

  function SenseOf(book: Book, m: Meaning): Sense {
    match m
    case OfField(ref) => FieldSense(NameOf(book, ref))
    case OfInline(op, refs) => InlineSense(op, NamesFor(book, refs))
    case OfFacet(ref, role) => FacetSense(NameOf(book, ref), role)
  }

  // ------------------------------------------------------------- reading a node

  ghost predicate Reads(t: Tables, id: string, desc: Desc) {
    id in t.nodes && Walk(t, NodeKey(id), {}) == Ok(desc)
  }

  /** A node's descriptor: its own literals, and the descriptors of its operands and population. */
  ghost predicate ReadAs(t: Tables, n: SemanticNode, desc: Desc) {
    && desc.NodeDesc? && desc.kind == n.kind && desc.catalogRef == n.catalogRef && desc.aggregate == n.aggregate && desc.stage == n.stage
    && desc.source == n.source && desc.grainRefs == multiset(n.grainRefs) && desc.details == n.details
    && (n.bindings == [] ==> desc.bindings == multiset{})
    && |desc.operands| == |n.operands| && (forall i | 0 <= i < |n.operands| :: Walk(t, NodeKey(n.operands[i]), {}) == Ok(desc.operands[i]))
    && (desc.population.Some? <==> n.population.Some?)
    && (n.population.Some? ==> Walk(t, PopulationKey(n.population.value), {}) == Ok(desc.population.value))
  }

  lemma NodeReads(t: Tables, id: string, desc: Desc)
    requires Reads(t, id, desc)
    ensures ReadAs(t, t.nodes[id], desc)
  {
    var n, key := t.nodes[id], NodeKey(id);
    var keys := Children(t, key);
    assert key in KeysOf(t);
    var children := WalkAll(t, keys, {} + {key});
    WalkAllAt(t, keys, {} + {key});
    forall i | 0 <= i < |keys| ensures Walk(t, keys[i], {}) == Ok(children.value[i]) {
      assert keys[i] in keys;
      WalkStandsAlone(t, keys[i], {} + {key});
    }
    forall i | 0 <= i < |n.operands| ensures keys[i] == NodeKey(n.operands[i]) {
    }
    assert n.bindings == [] ==> BindingDescriptors(t, n.bindings) == Ok([]);
  }

  predicate SaysSame(n: SemanticNode, m: SemanticNode) {
    && n.kind == m.kind && n.catalogRef == m.catalogRef && n.aggregate == m.aggregate && n.stage == m.stage && n.population == m.population
    && n.bindings == m.bindings == [] && n.source == m.source && n.grainRefs == m.grainRefs && n.details == m.details
  }

  /** Equal literals and equal operands read the same. */
  lemma SameReads(t: Tables, id: string, other: string, desc: Desc, more: Desc)
    requires Reads(t, id, desc) && Reads(t, other, more) && desc.NodeDesc? && more.NodeDesc? && desc.operands == more.operands
    requires SaysSame(t.nodes[id], t.nodes[other])
    ensures desc == more
  {
    NodeReads(t, id, desc);
    NodeReads(t, other, more);
  }

  // ------------------------------------------------------ equal reads, equal senses

  lemma FieldReads(d: Draft, t: Tables, ref: string, desc: Desc)
    requires Inv(d) && d.pending == {} && t.nodes == d.table && ref in d.ids && Reads(t, d.ids[ref], desc)
    ensures desc.NodeDesc? && desc.catalogRef == Some(NameOf(d.book, ref))
  {
    hide Inv, IsField;
    FieldSettled(d, ref);
    NodeReads(t, d.ids[ref], desc);
  }

  lemma FieldsSame(d: Draft, t: Tables, ref: string, other: string, desc: Desc, more: Desc)
    requires Inv(d) && d.pending == {} && t.nodes == d.table && ref in d.ids && other in d.ids
    requires Reads(t, d.ids[ref], desc) && Reads(t, d.ids[other], more)
    ensures desc == more <==> NameOf(d.book, ref) == NameOf(d.book, other)
  {
    hide Inv;
    FieldReads(d, t, ref, desc);
    FieldReads(d, t, other, more);
    SameNode(d, ref, other);
  }

  lemma InlineReads(d: Draft, t: Tables, node: string, op: string, refs: seq<string>, desc: Desc)
    requires Inv(d) && d.pending == {} && t.nodes == d.table && IsInline(d, node, op, refs) && Reads(t, node, desc)
    ensures desc.NodeDesc? && desc.kind == "arithmetic" && desc.catalogRef.None? && desc.aggregate == Some(op) && |desc.operands| == |refs|
    ensures forall i | 0 <= i < |refs| :: refs[i] in d.ids && Reads(t, d.ids[refs[i]], desc.operands[i])
  {
    hide Inv, StandsFor, IsField;
    NodeReads(t, node, desc);
    forall i | 0 <= i < |refs| ensures refs[i] in d.ids && Reads(t, d.ids[refs[i]], desc.operands[i]) {
      FieldSettled(d, refs[i]);
    }
  }

  lemma InlinesSame(d: Draft, t: Tables, x: string, op: string, refs: seq<string>, desc: Desc, y: string, other: string, more: seq<string>, desc2: Desc)
    requires Inv(d) && d.pending == {} && t.nodes == d.table
    requires IsInline(d, x, op, refs) && Reads(t, x, desc) && IsInline(d, y, other, more) && Reads(t, y, desc2)
    ensures desc == desc2 <==> op == other && NamesFor(d.book, refs) == NamesFor(d.book, more)
  {
    hide Inv, Reads;
    InlineReads(d, t, x, op, refs, desc);
    InlineReads(d, t, y, other, more, desc2);
    if |refs| == |more| {
      forall i | 0 <= i < |refs| ensures desc.operands[i] == desc2.operands[i] <==> NameOf(d.book, refs[i]) == NameOf(d.book, more[i]) {
        FieldsSame(d, t, refs[i], more[i], desc.operands[i], desc2.operands[i]);
      }
      if op == other && NamesFor(d.book, refs) == NamesFor(d.book, more) {
        forall i | 0 <= i < |refs| ensures desc.operands[i] == desc2.operands[i] {
          assert NamesFor(d.book, refs)[i] == NamesFor(d.book, more)[i];
        }
        assert desc.operands == desc2.operands;
        SameReads(t, x, y, desc, desc2) by { ReadsIn(t, x, desc); }
      }
      if desc == desc2 {
        assert NamesFor(d.book, refs) == NamesFor(d.book, more);
      }
    }
  }

  lemma ReadsIn(t: Tables, id: string, desc: Desc)
    requires Reads(t, id, desc)
    ensures id in t.nodes
  {
  }

  predicate IsPeriodRole(role: string) {
    role == "current" || role == "prior"
  }

  lemma PeriodReads(d: Draft, t: Tables, node: string, ref: string, role: string, desc: Desc)
    requires Inv(d) && d.pending == {} && t.nodes == d.table && IsPeriod(d, node, ref, role) && Reads(t, node, desc)
    ensures desc.NodeDesc? && desc.kind == "comparison" && desc.catalogRef.None? && desc.aggregate == Some(role) && |desc.operands| == 1
    ensures ref in d.ids && Reads(t, d.ids[ref], desc.operands[0])
  {
    hide Inv, StandsFor, IsField;
    NodeReads(t, node, desc);
    FieldSettled(d, ref);
  }

  lemma PeriodsSame(d: Draft, t: Tables, x: string, ref: string, role: string, desc: Desc, y: string, other: string, role2: string, desc2: Desc)
    requires Inv(d) && d.pending == {} && t.nodes == d.table
    requires IsPeriod(d, x, ref, role) && Reads(t, x, desc) && IsPeriod(d, y, other, role2) && Reads(t, y, desc2)
    ensures desc == desc2 <==> role == role2 && NameOf(d.book, ref) == NameOf(d.book, other)
  {
    hide Inv, Reads;
    PeriodReads(d, t, x, ref, role, desc);
    PeriodReads(d, t, y, other, role2, desc2);
    FieldsSame(d, t, ref, other, desc.operands[0], desc2.operands[0]);
    if role == role2 && NameOf(d.book, ref) == NameOf(d.book, other) {
      assert desc.operands == [desc.operands[0]] && desc2.operands == [desc2.operands[0]];
      ReadsIn(t, x, desc);
      SameReads(t, x, y, desc, desc2);
    }
  }

  lemma ChangeReads(d: Draft, t: Tables, node: string, ref: string, role: string, desc: Desc)
    requires t.nodes == d.table && IsChange(d, node, ref, role) && Reads(t, node, desc)
    ensures desc.NodeDesc? && desc.kind == "comparison" && desc.catalogRef.None? && desc.aggregate == Some(role) && |desc.operands| == 2
    ensures node in d.table && |d.table[node].operands| == 2
    ensures Reads(t, d.table[node].operands[0], desc.operands[0]) && Reads(t, d.table[node].operands[1], desc.operands[1])
  {
    NodeReads(t, node, desc);
  }

  lemma ChangesSame(d: Draft, t: Tables, x: string, ref: string, role: string, desc: Desc, y: string, other: string, role2: string, desc2: Desc)
    requires Inv(d) && d.pending == {} && t.nodes == d.table
    requires IsChange(d, x, ref, role) && Reads(t, x, desc) && IsChange(d, y, other, role2) && Reads(t, y, desc2)
    ensures desc == desc2 <==> role == role2 && NameOf(d.book, ref) == NameOf(d.book, other)
  {
    hide Inv, Reads, IsPeriod;
    ChangeReads(d, t, x, ref, role, desc);
    ChangeReads(d, t, y, other, role2, desc2);
    var a, b := d.table[x].operands, d.table[y].operands;
    PeriodsSame(d, t, a[0], ref, "current", desc.operands[0], b[0], other, "current", desc2.operands[0]);
    PeriodsSame(d, t, a[1], ref, "prior", desc.operands[1], b[1], other, "prior", desc2.operands[1]);
    if role == role2 && NameOf(d.book, ref) == NameOf(d.book, other) {
      assert desc.operands == [desc.operands[0], desc.operands[1]] && desc2.operands == [desc2.operands[0], desc2.operands[1]];
      SameReads(t, x, y, desc, desc2);
    }
  }

  /** What kind of descriptor each meaning reads as. */
  lemma SenseReads(d: Draft, t: Tables, node: string, m: Meaning, desc: Desc)
    requires Inv(d) && d.pending == {} && t.nodes == d.table && Denotes(d, node, m) && Reads(t, node, desc)
    ensures desc.NodeDesc? && (desc.catalogRef.Some? <==> m.OfField?)
    ensures m.OfInline? ==> desc.kind == "arithmetic"
    ensures m.OfFacet? ==> desc.kind == "comparison" && desc.aggregate == Some(m.role)
  {
    hide Inv, Reads, IsInline, IsPeriod, IsChange;
    match m {
      case OfField(ref) => FieldReads(d, t, ref, desc);
      case OfInline(op, refs) => InlineReads(d, t, node, op, refs, desc);
      case OfFacet(ref, role) => if IsPeriodRole(role) { PeriodReads(d, t, node, ref, role, desc); } else { ChangeReads(d, t, node, ref, role, desc); }
    }
  }

  /** Outputs read the same exactly when their meanings have one sense. */
  lemma SensesSame(d: Draft, t: Tables, x: string, m: Meaning, desc: Desc, y: string, more: Meaning, desc2: Desc)
    requires Inv(d) && d.pending == {} && t.nodes == d.table
    requires Denotes(d, x, m) && Reads(t, x, desc) && Denotes(d, y, more) && Reads(t, y, desc2)
    ensures desc == desc2 <==> SenseOf(d.book, m) == SenseOf(d.book, more)
  {
    hide Inv, Reads, IsInline, IsPeriod, IsChange, NameOf, NamesFor;
    SenseReads(d, t, x, m, desc);
    SenseReads(d, t, y, more, desc2);
    if m.OfField? && more.OfField? {
      FieldsSame(d, t, m.ref, more.ref, desc, desc2);
    } else if m.OfInline? && more.OfInline? {
      InlinesSame(d, t, x, m.op, m.operands, desc, y, more.op, more.operands, desc2);
    } else if m.OfFacet? && more.OfFacet? {
      if IsPeriodRole(m.role) && IsPeriodRole(more.role) {
        PeriodsSame(d, t, x, m.ref, m.role, desc, y, more.ref, more.role, desc2);
      } else if !IsPeriodRole(m.role) && !IsPeriodRole(more.role) {
        ChangesSame(d, t, x, m.ref, m.role, desc, y, more.ref, more.role, desc2);
      }
    }
  }

  // ---------------------------------------------------- which outputs share a sense

  function Senses(book: Book, shown: seq<Shown>): (senses: seq<Sense>)
    ensures |senses| == |shown| && forall i | 0 <= i < |shown| :: senses[i] == SenseOf(book, shown[i].meaning)
  {
    seq(|shown|, i requires 0 <= i < |shown| => SenseOf(book, shown[i].meaning))
  }

  function InlineSenses(book: Book, derived: seq<Inline>): (senses: seq<Sense>)
    ensures |senses| == |derived| && forall i | 0 <= i < |derived| :: senses[i] == InlineSense(derived[i].op, NamesFor(book, derived[i].operands))
  {
    seq(|derived|, i requires 0 <= i < |derived| => InlineSense(derived[i].op, NamesFor(book, derived[i].operands)))
  }

  lemma DistinctJoined<T>(xs: seq<T>, ys: seq<T>)
    ensures Distinct(xs + ys) <==> Distinct(xs) && Distinct(ys) && forall x | x in xs :: x !in ys
  {
    var all := xs + ys;
    if Distinct(all) {
      forall i, j | 0 <= i < j < |xs| ensures xs[i] != xs[j] { assert all[i] != all[j]; }
      forall i, j | 0 <= i < j < |ys| ensures ys[i] != ys[j] { assert all[|xs| + i] != all[|xs| + j]; }
      forall x | x in xs ensures x !in ys {
        var i :| 0 <= i < |xs| && xs[i] == x;
        forall j | 0 <= j < |ys| ensures ys[j] != x { assert all[i] != all[|xs| + j]; }
      }
    }
    if Distinct(xs) && Distinct(ys) && forall x | x in xs :: x !in ys {
      forall i, j | 0 <= i < j < |all| ensures all[i] != all[j] {
        if i < |xs| <= j {
          assert all[i] in xs && all[j] == ys[j - |xs|];
        } else if |xs| <= i {
          assert ys[i - |xs|] != ys[j - |xs|];
        }
      }
    }
  }

  lemma BaseAre(book: Book, aliases: seq<(string, string)>, columns: seq<Column>, derived: seq<Inline>)
    ensures Senses(book, BaseShown(aliases, columns, derived)) == Senses(book, ShownColumns(aliases, columns)) + InlineSenses(book, derived)
  {
    hide AliasFor, Reference, NameOf, NamesFor;
  }

  lemma FieldsApart(book: Book, aliases: seq<(string, string)>, columns: seq<Column>)
    requires RefsApart(book.target, ColumnRefs(columns)) && forall c | c in columns :: Reference(c) in book.target
    ensures Distinct(Senses(book, ShownColumns(aliases, columns)))
  {
    hide AliasFor, Reference;
    var fields := Senses(book, ShownColumns(aliases, columns));
    forall i, j | 0 <= i < j < |fields| ensures fields[i] != fields[j] {
      assert columns[i] in columns && columns[j] in columns;
      assert ColumnRefs(columns)[i] == Reference(columns[i]) && ColumnRefs(columns)[j] == Reference(columns[j]);
    }
  }

  lemma FieldsAreFields(book: Book, aliases: seq<(string, string)>, columns: seq<Column>)
    ensures forall x | x in Senses(book, ShownColumns(aliases, columns)) :: x.FieldSense?
  {
    hide AliasFor, Reference, NameOf;
  }

  /** Columns have different senses, so only inline measures can share one. */
  lemma BaseSenses(book: Book, aliases: seq<(string, string)>, columns: seq<Column>, derived: seq<Inline>)
    requires RefsApart(book.target, ColumnRefs(columns)) && forall c | c in columns :: Reference(c) in book.target
    ensures Distinct(Senses(book, BaseShown(aliases, columns, derived))) <==> Distinct(InlineSenses(book, derived))
  {
    hide BaseShown, ShownColumns, Senses, Distinct, RefsApart;
    BaseAre(book, aliases, columns, derived);
    FieldsApart(book, aliases, columns);
    FieldsAreFields(book, aliases, columns);
    DistinctJoined(Senses(book, ShownColumns(aliases, columns)), InlineSenses(book, derived));
  }

  /** A shown output before comparing, with known references. */
  predicate Plainly(book: Book, s: Shown) {
    !s.meaning.OfFacet? && (s.meaning.OfField? ==> s.meaning.ref in book.target)
  }

  /** The senses one output has after comparing. */
  function Compared(book: Book, s: Shown): seq<Sense> {
    if Aggregated(book, s.meaning) then
      var name := NameOf(book, s.meaning.ref);
      [FacetSense(name, ROLES[0]), FacetSense(name, ROLES[1]), FacetSense(name, ROLES[2]), FacetSense(name, ROLES[3])]
    else [SenseOf(book, s.meaning)]
  }

  /** Different senses stay apart, and one sense stays one. */
  lemma ComparedApart(book: Book, s: Shown, other: Shown)
    requires Plainly(book, s) && Plainly(book, other)
    ensures Distinct(Compared(book, s))
    ensures (forall x | x in Compared(book, s) :: x !in Compared(book, other)) <==> SenseOf(book, s.meaning) != SenseOf(book, other.meaning)
  {
    assert ROLES[0] != ROLES[1] && ROLES[0] != ROLES[2] && ROLES[0] != ROLES[3] && ROLES[1] != ROLES[2] && ROLES[1] != ROLES[3] && ROLES[2] != ROLES[3] by {
      assert ROLES[0][0] == 'c' && ROLES[1][1] == 'r' && ROLES[2][0] == 'd' && ROLES[3][1] == 'c';
      assert ROLES[1][0] == 'p' && ROLES[3][0] == 'p';
    }
    assert Compared(book, s)[0] in Compared(book, s);
    if SenseOf(book, s.meaning) == SenseOf(book, other.meaning) {
      assert Compared(book, s) == Compared(book, other);
    }
  }

  function AllCompared(book: Book, shown: seq<Shown>): seq<Sense> {
    if shown == [] then [] else AllCompared(book, shown[..|shown| - 1]) + Compared(book, shown[|shown| - 1])
  }

  lemma {:induction false} ComparedSenses(book: Book, aliases: seq<(string, string)>, shown: seq<Shown>)
    ensures Senses(book, ComparedShown(book, aliases, shown)) == AllCompared(book, shown)
  {
    hide AliasFor, NameOf, NamesFor, IsMeasureRef;
    if shown != [] {
      var n := |shown| - 1;
      ComparedSenses(book, aliases, shown[..n]);
    }
  }

  lemma {:induction false} AllComparedAre(book: Book, shown: seq<Shown>)
    ensures forall x :: x in AllCompared(book, shown) <==> exists s | s in shown :: x in Compared(book, s)
  {
    hide Compared;
    if shown != [] {
      var n := |shown| - 1;
      AllComparedAre(book, shown[..n]);
      assert shown == shown[..n] + [shown[n]];
    }
  }

  /** The comparison neither parts nor joins senses. */
  lemma {:induction false} ComparedDistinct(book: Book, shown: seq<Shown>)
    requires forall s | s in shown :: Plainly(book, s)
    ensures Distinct(AllCompared(book, shown)) <==> Distinct(Senses(book, shown))
  {
    hide Compared, SenseOf, Plainly;
    if shown != [] {
      var n := |shown| - 1;
      var rest, last := shown[..n], shown[n];
      assert shown == rest + [last] && last in shown;
      ComparedDistinct(book, rest);
      DistinctJoined(AllCompared(book, rest), Compared(book, last));
      assert Senses(book, shown) == Senses(book, rest) + [SenseOf(book, last.meaning)];
      DistinctJoined(Senses(book, rest), [SenseOf(book, last.meaning)]);
      ComparedApart(book, last, last);
      LastApart(book, rest, last);
    }
  }

  lemma LastApart(book: Book, rest: seq<Shown>, last: Shown)
    requires Plainly(book, last) && forall s | s in rest :: Plainly(book, s)
    ensures (forall x | x in AllCompared(book, rest) :: x !in Compared(book, last)) <==> SenseOf(book, last.meaning) !in Senses(book, rest)
  {
    hide Compared, SenseOf, Plainly;
    AllComparedAre(book, rest);
    forall s | s in rest
      ensures (forall x | x in Compared(book, s) :: x !in Compared(book, last)) <==> SenseOf(book, s.meaning) != SenseOf(book, last.meaning)
    {
      ComparedApart(book, s, last);
    }
    if SenseOf(book, last.meaning) in Senses(book, rest) {
      var i :| 0 <= i < |rest| && Senses(book, rest)[i] == SenseOf(book, last.meaning);
      assert rest[i] in rest;
    }
    forall s | s in rest ensures SenseOf(book, s.meaning) in Senses(book, rest) {
      var i :| 0 <= i < |rest| && rest[i] == s;
      assert Senses(book, rest)[i] == SenseOf(book, s.meaning);
    }
  }

  /** Outputs share a sense exactly when two inline measures do. */
  lemma OutputSenses(book: Book, q: Query, plan: Plan)
    requires RefsApart(book.target, ColumnRefs(plan.columns)) && forall c | c in plan.columns :: Reference(c) in book.target
    ensures Distinct(Senses(book, OutputsOf(book, q, plan))) <==> Distinct(InlineSenses(book, q.derived))
  {
    hide AliasFor, Reference, ComparedShown, Compared, SenseOf, Aggregated;
    var base := BaseShown(q.aliases, plan.columns, q.derived);
    BaseSenses(book, q.aliases, plan.columns, q.derived);
    if plan.comparing {
      forall s | s in base ensures Plainly(book, s) {
        var i :| 0 <= i < |base| && base[i] == s;
        if i < |plan.columns| {
          assert plan.columns[i] in plan.columns;
        }
      }
      ComparedSenses(book, q.aliases, base);
      ComparedDistinct(book, base);
    }
  }

  // --------------------------------------------------------------- the validation

  lemma {:induction false} OnceIffDistinct(ds: seq<Desc>)
    ensures Compare.NoRepeats(multiset(ds)) <==> Distinct(ds)
  {
    if ds != [] {
      var n := |ds| - 1;
      OnceIffDistinct(ds[..n]);
      assert ds == ds[..n] + [ds[n]];
      var before, all := multiset(ds[..n]), multiset(ds);
      forall x ensures all[x] == before[x] + if x == ds[n] then 1 else 0 {
      }
      if Compare.NoRepeats(all) {
        forall x | x in before ensures before[x] == 1 {
          assert x in all;
        }
        assert ds[n] in all && ds[n] !in before;
      }
    }
  }

  /** The outputs' descriptors repeat exactly when their senses do. */
  lemma OutputsDiffer(d: Draft, t: Tables, a: Analysis, shown: seq<Shown>)
    requires Inv(d) && d.pending == {} && t.nodes == d.table && AllShown(d, a.outputs, shown) && Compare.ReadOutputs(t, a).Ok?
    ensures Compare.NoRepeats(Compare.ReadOutputs(t, a).value) <==> Distinct(Senses(d.book, shown))
  {
    hide Inv, Denotes, SenseOf, Compare.NoRepeats, Reads;
    var ids := Compare.OutputNodes(a.outputs);
    var ds := Compare.ReadNodes(t, ids).value;
    OnceIffDistinct(ds);
    forall i | 0 <= i < |ds| ensures Reads(t, a.outputs[i].node, ds[i]) && Denotes(d, a.outputs[i].node, shown[i].meaning) {
      OutputReads(d, t, a, shown, ds, i);
    }
    forall i, j | 0 <= i < j < |ds| ensures ds[i] == ds[j] <==> Senses(d.book, shown)[i] == Senses(d.book, shown)[j] {
      SensesSame(d, t, a.outputs[i].node, shown[i].meaning, ds[i], a.outputs[j].node, shown[j].meaning, ds[j]);
    }
    DistinctTogether(ds, Senses(d.book, shown));
  }

  lemma DistinctTogether<T, U>(xs: seq<T>, ys: seq<U>)
    requires |xs| == |ys| && forall i, j | 0 <= i < j < |xs| :: xs[i] == xs[j] <==> ys[i] == ys[j]
    ensures Distinct(xs) <==> Distinct(ys)
  {
  }

  lemma OutputReads(d: Draft, t: Tables, a: Analysis, shown: seq<Shown>, ds: seq<Desc>, i: nat)
    requires Inv(d) && d.pending == {} && t.nodes == d.table && AllShown(d, a.outputs, shown) && i < |shown|
    requires Compare.ReadNodes(t, Compare.OutputNodes(a.outputs)) == Ok(ds)
    ensures |ds| == |shown| && Reads(t, a.outputs[i].node, ds[i]) && Denotes(d, a.outputs[i].node, shown[i].meaning)
  {
    hide Inv, Denotes, Name;
    var ids := Compare.OutputNodes(a.outputs);
    WalkAllAt(t, NodeKeys(ids), {});
    ShownGroups(d, a.outputs, shown);
    assert ShownAs(d, a.outputs[i], shown[i]);
    assert NodeKeys(ids)[i] == NodeKey(a.outputs[i].node);
  }

  /**
    What complete validation of a built artifact answers: a cycle iff a ratio
    measure reaches itself; else nothing when the vocabulary is unknown; else a
    repeated output iff two inline measures apply one operation to the same
    fields in the same order.
  */
  lemma BuiltValidatesAs(d: Draft, a: Analysis, q: Query, r: Resolved, plan: Plan)
    requires LinedUp(q, r) && Buildable(q, r, plan) && BuiltFrom(d, a) && Answers(d, a, q, r, plan) && d.book == UsedBook(q, r, plan).value
    ensures Compare.Validate(Compare.TablesOf(a, None), a) ==
            if !RatiosBottomOut(d.book) then Err(CyclicGraph)
            else if !Compare.KnownVocabulary(a) then Ok(false)
            else if Distinct(InlineSenses(d.book, q.derived)) then Ok(true)
            else Err(DuplicateOutput)
  {
    hide RatiosBottomOut, Inv, Compare.KnownVocabulary, Compare.NoRepeats, UsedBook, OutputsOf, AllShown, RegistryOf, InlineSenses, Senses, RefsApart,
         PopulationResolves, RankResolves, HavingMeans, DescribeAll, HavingStands, NodesOfRefs, ResultStands, PopulationDescs, BuiltFrom, Compare.ReadOutputs,
         Compare.ReadDerivations, Compare.ReadOptionalOutcome, Compare.ReadNodes, WalkAll;
    var t := Compare.TablesOf(a, None);
    BuiltValidates(d, a);
    if RatiosBottomOut(d.book) {
      OutputSenses(d.book, q, plan);
      BuiltTables(d, a, t);
      SoundIffRatiosBottomOut(d, t);
      OutputsDiffer(d, t, a, OutputsOf(d.book, q, plan));
    }
  }

  lemma BuiltTables(d: Draft, a: Analysis, t: Tables)
    requires BuiltFrom(d, a) && t == Compare.TablesOf(a, None)
    ensures Layered(d, t) && Inv(d) && d.pending == {} && t.nodes == d.table
  {
    BuiltIsLayered(d, a, None);
  }
}
