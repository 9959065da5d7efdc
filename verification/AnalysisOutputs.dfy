/**
  Projected outputs of the analysis: columns, inline derived measures and the
  comparison expansion, with the names post-aggregate predicates may use.
*/
module AnalysisOutputs {
  import opened Wrappers
  import opened Spec
  import opened SemanticGraph
  import opened Naming
  import opened Sequences
  import opened AnalysisDraft
  import opened AnalysisBuilder
  import opened AnalysisAssembly
  import opened AnalysisNames

  // ------------------------------------------------------- what outputs denote

  /** A column's field, an inline measure over references, or one facet of a compared measure. */
  datatype Meaning = OfField(ref: string) | OfInline(op: string, operands: seq<string>) | OfFacet(ref: string, role: string)

  /** An output: what it denotes, its alias and the number in its identifier. */
  datatype Shown = Shown(meaning: Meaning, alias: string, number: nat)

  function ComputedNode(id: string, kind: string, aggregate: string, stage: string, operands: seq<string>): SemanticNode {
    SemanticNode(id, kind, None, Some(aggregate), Some(stage), operands, Some("p1"), [], None, [], "")
  }

  /** A node over the population that computes something from other nodes and says nothing else. */
  predicate IsComputed(n: SemanticNode, kind: string, aggregate: string, stage: string, operands: seq<string>) {
    && n.kind == kind && n.aggregate == Some(aggregate) && n.stage == Some(stage) && n.operands == operands && n.population == Some("p1")
    && n.catalogRef == None && n.bindings == [] && n.source == None && n.grainRefs == [] && n.details == ""
  }

  /** The node for one period of a measure. */
  ghost predicate IsPeriod(d: Draft, node: string, ref: string, role: string) {
    ref in d.ids && node in d.table && IsComputed(d.table[node], "comparison", role, "compare", [d.ids[ref]])
  }

  /** A node computed from the two periods of a measure. */
  ghost predicate IsChange(d: Draft, node: string, ref: string, role: string) {
    && node in d.table && |d.table[node].operands| == 2
    && IsPeriod(d, d.table[node].operands[0], ref, "current") && IsPeriod(d, d.table[node].operands[1], ref, "prior")
    && IsComputed(d.table[node], "comparison", role, "compare", d.table[node].operands)
  }

  ghost predicate IsInline(d: Draft, node: string, op: string, refs: seq<string>) {
    && node in d.table && NodesOfRefs(d.ids, refs, d.table[node].operands)
    && IsComputed(d.table[node], "arithmetic", op, "post_aggregate", d.table[node].operands)
  }

  ghost predicate Denotes(d: Draft, node: string, m: Meaning) {
    match m
    case OfField(ref) => ref in d.ids && node == d.ids[ref] && node in d.table
    case OfInline(op, refs) => IsInline(d, node, op, refs)
    case OfFacet(ref, role) => if role == "current" || role == "prior" then IsPeriod(d, node, ref, role) else IsChange(d, node, ref, role)
  }

  ghost predicate AllShown(d: Draft, outputs: seq<Output>, shown: seq<Shown>) {
    |outputs| == |shown| && forall i | 0 <= i < |outputs| :: ShownAs(d, outputs[i], shown[i])
  }

  ghost predicate ShownAs(d: Draft, o: Output, s: Shown) {
    Denotes(d, o.node, s.meaning) && o.alias == s.alias && o.id == Name('o', s.number)
  }

  lemma DenotesGrows(d: Draft, e: Draft, node: string, m: Meaning)
    requires Denotes(d, node, m) && Extends(d, e)
    ensures Denotes(e, node, m)
  {
  }

  lemma ShownGrows(d: Draft, e: Draft, outputs: seq<Output>, shown: seq<Shown>)
    requires AllShown(d, outputs, shown) && Extends(d, e)
    ensures AllShown(e, outputs, shown)
  {
    hide Denotes, Extends, Name;
    forall i | 0 <= i < |outputs| ensures ShownAs(e, outputs[i], shown[i]) {
      assert ShownAs(d, outputs[i], shown[i]);
      DenotesGrows(d, e, outputs[i].node, shown[i].meaning);
    }
  }

  lemma ShownAppend(d: Draft, outputs: seq<Output>, shown: seq<Shown>, o: Output, s: Shown)
    requires AllShown(d, outputs, shown) && ShownAs(d, o, s)
    ensures AllShown(d, outputs + [o], shown + [s])
  {
    hide ShownAs;
  }

  /** An output or post-aggregate target: a field node or one computed from fields. */
  predicate IsGroup(n: SemanticNode) {
    IsField(n) || IsDerived(n)
  }

  ghost predicate AllGroups(t: map<string, SemanticNode>, ids: set<string>) {
    forall id | id in ids :: id in t && IsGroup(t[id])
  }

  predicate IsMeasureRef(book: Book, ref: string) {
    ref in book.target && book.target[ref] in book.owner && book.owner[book.target[ref]].kind.Measure?
  }

  /** The comparison expands field nodes of measures and nothing else. */
  predicate Aggregated(book: Book, m: Meaning) {
    m.OfField? && IsMeasureRef(book, m.ref)
  }

  /** What each name stands for. */
  ghost predicate Means(d: Draft, targets: map<string, string>, means: map<string, Meaning>) {
    targets.Keys == means.Keys && forall name | name in means :: Denotes(d, targets[name], means[name])
  }

  lemma MeansGrows(d: Draft, e: Draft, targets: map<string, string>, means: map<string, Meaning>)
    requires Means(d, targets, means) && Extends(d, e)
    ensures Means(e, targets, means)
  {
    hide Denotes, Extends;
    forall name | name in means ensures Denotes(e, targets[name], means[name]) {
      DenotesGrows(d, e, targets[name], means[name]);
    }
  }

  lemma MeansSet(d: Draft, targets: map<string, string>, means: map<string, Meaning>, name: string, node: string, m: Meaning)
    requires Means(d, targets, means) && Denotes(d, node, m)
    ensures Means(d, targets[name := node], means[name := m])
  {
    hide Denotes;
  }

  lemma MeansFacets(d: Draft, targets: map<string, string>, means: map<string, Meaning>, bases: set<string>, role: string, node: string, m: Meaning)
    requires Means(d, targets, means) && Denotes(d, node, m)
    ensures Means(d, WithFacets(targets, bases, role, node), WithFacets(means, bases, role, m))
  {
    hide Denotes, WithFacets;
    FacetForms(targets, bases, role, node);
    FacetForms(means, bases, role, m);
  }

  lemma DenotesGroup(d: Draft, node: string, m: Meaning)
    requires Inv(d) && d.pending == {} && Denotes(d, node, m)
    ensures node in d.table && IsGroup(d.table[node])
    ensures d.table[node].kind == "aggregate" <==> Aggregated(d.book, m)
  {
    hide Inv;
    if m.OfField? {
      FieldSettled(d, m.ref);
    }
  }

  lemma ShownGroups(d: Draft, outputs: seq<Output>, shown: seq<Shown>)
    requires Inv(d) && d.pending == {} && AllShown(d, outputs, shown)
    ensures |outputs| == |shown|
    ensures forall i | 0 <= i < |outputs| :: outputs[i].node in d.table && IsGroup(d.table[outputs[i].node])
    ensures forall i | 0 <= i < |outputs| :: d.table[outputs[i].node].kind == "aggregate" <==> Aggregated(d.book, shown[i].meaning)
  {
    hide Inv, Denotes, IsGroup, Aggregated, Name;
    forall i | 0 <= i < |outputs|
      ensures outputs[i].node in d.table && IsGroup(d.table[outputs[i].node])
      ensures d.table[outputs[i].node].kind == "aggregate" <==> Aggregated(d.book, shown[i].meaning)
    {
      assert ShownAs(d, outputs[i], shown[i]);
      DenotesGroup(d, outputs[i].node, shown[i].meaning);
    }
  }

  // --------------------------------------------------- which outputs there are

  function AliasFor(aliases: seq<(string, string)>, ref: string, fallback: string): string {
    if aliases == [] then fallback
    else if aliases[0].1 == ref then aliases[0].0
    else AliasFor(aliases[1..], ref, fallback)
  }

  /** The first alias of a reference, or the name it has without one. */
  lemma {:induction false} AliasIs(aliases: seq<(string, string)>, ref: string, fallback: string)
    ensures var alias := AliasFor(aliases, ref, fallback);
            if exists i :: 0 <= i < |aliases| && aliases[i].1 == ref
            then exists i :: 0 <= i < |aliases| && aliases[i] == (alias, ref) && forall j | 0 <= j < i :: aliases[j].1 != ref
            else alias == fallback
  {
    if aliases != [] {
      AliasIs(aliases[1..], ref, fallback);
      if aliases[0].1 == ref {
        assert aliases[0] == (AliasFor(aliases, ref, fallback), ref);
      } else if i :| 0 <= i < |aliases| && aliases[i].1 == ref {
        assert aliases[1..][i - 1].1 == ref;
        var k :| 0 <= k < |aliases[1..]| && aliases[1..][k] == (AliasFor(aliases, ref, fallback), ref) &&
                 forall j | 0 <= j < k :: aliases[1..][j].1 != ref;
        forall j | 0 <= j < k + 1 ensures aliases[j].1 != ref {
          if j > 0 {
            assert aliases[1..][j - 1] == aliases[j];
          }
        }
        assert aliases[k + 1] == (AliasFor(aliases, ref, fallback), ref);
      } else {
        forall i | 0 <= i < |aliases[1..]| ensures aliases[1..][i].1 != ref {
          assert aliases[i + 1] == aliases[1..][i];
        }
      }
    }
  }

  function ShownColumn(aliases: seq<(string, string)>, c: Column, number: nat): Shown {
    Shown(OfField(Reference(c)), AliasFor(aliases, Reference(c), c.alias), number)
  }

  function ShownColumns(aliases: seq<(string, string)>, columns: seq<Column>): (shown: seq<Shown>)
    ensures |shown| == |columns|
  {
    seq(|columns|, i requires 0 <= i < |columns| => ShownColumn(aliases, columns[i], i + 1))
  }

  function ShownInline(aliases: seq<(string, string)>, d: Inline, number: nat): Shown {
    Shown(OfInline(d.op, d.operands), AliasFor(aliases, d.name, d.name), number)
  }

  function ShownInlines(aliases: seq<(string, string)>, derived: seq<Inline>, base: nat): (shown: seq<Shown>)
    ensures |shown| == |derived|
  {
    seq(|derived|, i requires 0 <= i < |derived| => ShownInline(aliases, derived[i], base + i + 1))
  }

  /** Columns in plan order, then inline measures. */
  function BaseShown(aliases: seq<(string, string)>, columns: seq<Column>, derived: seq<Inline>): seq<Shown> {
    ShownColumns(aliases, columns) + ShownInlines(aliases, derived, |columns|)
  }

  function ShownFacet(aliases: seq<(string, string)>, s: Shown, role: string, number: nat): Shown
    requires s.meaning.OfField?
  {
    Shown(OfFacet(s.meaning.ref, role), AliasFor(aliases, s.alias, s.alias + "_" + role), number)
  }

  function ShownFacets(aliases: seq<(string, string)>, s: Shown, n: nat): seq<Shown>
    requires s.meaning.OfField?
  {
    [ShownFacet(aliases, s, ROLES[0], n + 1), ShownFacet(aliases, s, ROLES[1], n + 2),
     ShownFacet(aliases, s, ROLES[2], n + 3), ShownFacet(aliases, s, ROLES[3], n + 4)]
  }

  /** The comparison: measures become their facets, every other output stays as it was, number included. */
  function ComparedShown(book: Book, aliases: seq<(string, string)>, shown: seq<Shown>): seq<Shown> {
    if shown == [] then [] else
      var n := |shown| - 1;
      var before := ComparedShown(book, aliases, shown[..n]);
      if Aggregated(book, shown[n].meaning) then before + ShownFacets(aliases, shown[n], |before|) else before + [shown[n]]
  }

  // --------------------------------------------------------- what names stand for

  /** Each name gains a suffixed and a dotted form for one facet. */
  function WithFacets<V>(m: map<string, V>, bases: set<string>, role: string, v: V): map<string, V> {
    m + Suffixed(bases, role, v) + Dotted(bases, role, v)
  }

  function Suffixed<V>(bases: set<string>, role: string, v: V): map<string, V> {
    map n | n in bases :: n + "_" + role := v
  }

  function Dotted<V>(bases: set<string>, role: string, v: V): map<string, V> {
    map n | n in bases :: "compare." + n + "." + role := v
  }

  function Forms(bases: set<string>, role: string): set<string> {
    (set n | n in bases :: n + "_" + role) + (set n | n in bases :: "compare." + n + "." + role)
  }

  lemma FacetForms<V>(m: map<string, V>, bases: set<string>, role: string, v: V)
    ensures WithFacets(m, bases, role, v).Keys == m.Keys + Forms(bases, role)
    ensures forall k | k in WithFacets(m, bases, role, v) :: WithFacets(m, bases, role, v)[k] == if k in Forms(bases, role) then v else m[k]
  {
    assert Suffixed(bases, role, v).Keys == set n | n in bases :: n + "_" + role;
    assert Dotted(bases, role, v).Keys == set n | n in bases :: "compare." + n + "." + role;
  }

  /** An inline measure's name is its own; a later one takes it over. */
  function InlineMeans(m: map<string, Meaning>, derived: seq<Inline>): map<string, Meaning> {
    if derived == [] then m else
      var d := derived[|derived| - 1];
      InlineMeans(m, derived[..|derived| - 1])[d.name := OfInline(d.op, d.operands)]
  }

  /** The names of a compared measure, in both forms for each facet. */
  function FacetMeans(m: map<string, Meaning>, bases: set<string>, ref: string): map<string, Meaning> {
    var one := WithFacets(m, bases, ROLES[0], OfFacet(ref, ROLES[0]));
    var two := WithFacets(one, bases, ROLES[1], OfFacet(ref, ROLES[1]));
    var three := WithFacets(two, bases, ROLES[2], OfFacet(ref, ROLES[2]));
    WithFacets(three, bases, ROLES[3], OfFacet(ref, ROLES[3]))
  }

  // ------------------------------------------------------ projection identities

  function Joined(parts: seq<string>): string {
    if parts == [] then "" else if |parts| == 1 then parts[0] else parts[0] + "," + Joined(parts[1..])
  }

  function InlineIdentity(d: Inline): string {
    "inline:" + d.op + ":" + Joined(d.operands)
  }

  /** An operation without a colon over at least one reference, none with a comma. */
  predicate Spelled(d: Inline) {
    ':' !in d.op && d.operands != [] && forall r | r in d.operands :: ',' !in r
  }

  /** Where two texts that lack a character are followed by it, they end together. */
  lemma {:induction false} SameStart(x: string, y: string, mark: char, a: string, b: string)
    requires mark !in x && mark !in y && x + [mark] + a == y + [mark] + b
    ensures x == y && a == b
  {
    var whole := x + [mark] + a;
    assert whole == y + [mark] + b;
    assert (x == "" <==> whole[0] == mark) && (y == "" <==> whole[0] == mark) by {
      assert x != "" ==> whole[0] == x[0];
      assert y != "" ==> whole[0] == y[0];
    }
    if x == "" {
      assert whole[1..] == a && whole[1..] == b;
    } else {
      assert whole[0] == x[0] && whole[0] == y[0];
      assert whole[1..] == x[1..] + [mark] + a && whole[1..] == y[1..] + [mark] + b;
      SameStart(x[1..], y[1..], mark, a, b);
    }
  }

  lemma {:induction false} JoinedApart(xs: seq<string>, ys: seq<string>)
    requires xs != [] && ys != [] && (forall x | x in xs :: ',' !in x) && (forall y | y in ys :: ',' !in y) && Joined(xs) == Joined(ys)
    ensures xs == ys
  {
    CommaIff(xs);
    CommaIff(ys);
    if |xs| > 1 {
      SameStart(xs[0], ys[0], ',', Joined(xs[1..]), Joined(ys[1..]));
      JoinedApart(xs[1..], ys[1..]);
    }
  }

  lemma CommaIff(xs: seq<string>)
    requires xs != [] && forall x | x in xs :: ',' !in x
    ensures ',' in Joined(xs) <==> |xs| > 1
  {
    if |xs| > 1 {
      assert Joined(xs)[|xs[0]|] == ',';
    } else {
      assert xs[0] in xs;
    }
  }

  /** Inline measures have one identity iff they apply one operation to the same references in the same order. */
  lemma IdentityIff(d: Inline, e: Inline)
    requires Spelled(d) && Spelled(e)
    ensures InlineIdentity(d) == InlineIdentity(e) <==> d.op == e.op && d.operands == e.operands
  {
    hide Joined;
    if InlineIdentity(d) == InlineIdentity(e) {
      var x, y := d.op + ":" + Joined(d.operands), e.op + ":" + Joined(e.operands);
      assert InlineIdentity(d) == "inline:" + x && InlineIdentity(e) == "inline:" + y;
      assert x == InlineIdentity(d)[|"inline:"|..] && y == InlineIdentity(e)[|"inline:"|..];
      SameStart(d.op, e.op, ':', Joined(d.operands), Joined(e.operands));
      JoinedApart(d.operands, e.operands);
    }
  }

  function Elements(xs: seq<string>): set<string> {
    set x | x in xs
  }

  function InlineIdentities(derived: seq<Inline>): (texts: seq<string>)
    ensures |texts| == |derived| && forall i | 0 <= i < |texts| :: texts[i] == InlineIdentity(derived[i])
  {
    seq(|derived|, i requires 0 <= i < |derived| => InlineIdentity(derived[i]))
  }

  function FacetIdentity(node: string, role: string): string {
    node + ":" + role
  }

  function FacetIdentities(node: string): set<string> {
    {FacetIdentity(node, ROLES[0]), FacetIdentity(node, ROLES[1]), FacetIdentity(node, ROLES[2]), FacetIdentity(node, ROLES[3])}
  }

  /** The identities of columns are their nodes; those of inline measures start differently. */
  predicate PlainIdentity(x: string) {
    ':' !in x || "inline:" <= x
  }

  lemma {:induction false} NoColon(k: nat)
    ensures ':' !in Numeral(k)
  {
    if k >= 10 {
      NoColon(k / 10);
    }
  }

  lemma NodeIdentity(id: string, next: nat)
    requires Made(id, next)
    ensures ':' !in id && |id| > 0 && id[0] == 'n' && !("inline:" <= id)
  {
    NoColon(Counter(id));
  }

  lemma {:induction false} SplitAtColon(a: string, r: string, b: string, s: string)
    requires ':' !in a && ':' !in b && a + ":" + r == b + ":" + s
    ensures a == b && r == s
  {
    var x, y := a + ":" + r, b + ":" + s;
    if a == [] || b == [] {
      assert x[0] == y[0];
      assert x[1..] == y[1..];
      assert a == [] ==> x[1..] == r;
      assert b == [] ==> y[1..] == s;
    } else {
      assert x[0] == a[0] && y[0] == b[0];
      assert x[1..] == a[1..] + ":" + r && y[1..] == b[1..] + ":" + s;
      SplitAtColon(a[1..], r, b[1..], s);
    }
  }

  /** A facet's identity is no column's, no inline measure's and no other node's facet's. */
  lemma FacetsDiffer(node: string, role: string, x: string, other: string, r: string, next: nat)
    requires Made(node, next) && Made(other, next)
    ensures PlainIdentity(x) ==> x != FacetIdentity(node, role)
    ensures FacetIdentity(node, role) == FacetIdentity(other, r) ==> node == other && role == r
  {
    hide Made, Name, Counter;
    NodeIdentity(node, next);
    NodeIdentity(other, next);
    var f := FacetIdentity(node, role);
    assert f[|node|] == ':' && f[0] == 'n';
    if FacetIdentity(node, role) == FacetIdentity(other, r) {
      SplitAtColon(node, role, other, r);
    }
  }

  function NodeSet(ids: map<string, string>, refs: seq<string>): set<string>
    requires AllUsed(ids, refs)
  {
    set ref | ref in refs :: ids[ref]
  }

  /** No two references resolve to one name. */
  predicate RefsApart(target: map<string, string>, refs: seq<string>) {
    forall i, j | 0 <= i < j < |refs| && refs[i] in target && refs[j] in target :: target[refs[i]] != target[refs[j]]
  }

  // ---------------------------------------------------------------- the projector

  class Projector {
    const b: Builder
    const aliases: seq<(string, string)>
    var outputs: seq<Output>
    var seen: set<string>
    var targets: map<string, string>
    var names: map<string, set<string>>
    ghost var shown: seq<Shown>

    constructor (b: Builder, aliases: seq<(string, string)>)
      ensures this.b == b && this.aliases == aliases && outputs == [] && shown == [] && seen == {} && Known() == NAMELESS
    {
      this.b, this.aliases := b, aliases;
      outputs, seen, targets, names, shown := [], {}, map[], map[], [];
    }

    function Known(): Glossary
      reads this
    {
      Glossary(targets, names)
    }

    ghost predicate Ready()
      reads this, b
    {
      b.Valid() && b.pending == {} && AllGroups(b.table, targets.Values) && AllShown(b.Current(), outputs, shown)
    }

    /** The builder has grown and everything projected is still there. */
    lemma StillReady(d: Draft)
      requires b.Valid() && b.pending == {} && Extends(d, b.Current())
      requires AllGroups(d.table, targets.Values) && AllShown(d, outputs, shown)
      ensures Ready()
    {
      hide AllShown, Inv;
      ShownGrows(d, b.Current(), outputs, shown);
    }

    method AddOutput(ref: string, alias: string, node: string, identity: string, ghost m: Meaning) returns (ok: bool)
      requires Ready() && Denotes(b.Current(), node, m)
      modifies this
      ensures ok <==> identity !in old(seen)
      ensures Ready() && Known() == old(Known())
      ensures ok ==> shown == old(shown) + [Shown(m, AliasFor(aliases, ref, alias), |old(shown)| + 1)] && seen == old(seen) + {identity}
    {
      hide Inv, Name, Denotes;
      if identity in seen {
        return false;
      }
      seen := seen + {identity};
      var o := Output(Name('o', |outputs| + 1), node, AliasFor(aliases, ref, alias));
      ShownAppend(b.Current(), outputs, shown, o, Shown(m, o.alias, |outputs| + 1));
      outputs := outputs + [o];
      shown := shown + [Shown(m, o.alias, |shown| + 1)];
      return true;
    }

    /** Names a HAVING clause may use for a node. */
    method AddTargets(more: set<string>, node: string)
      requires Ready() && node in b.table && IsGroup(b.table[node])
      modifies this
      ensures Ready() && outputs == old(outputs) && shown == old(shown) && seen == old(seen)
      ensures Known() == Tell(old(Known()), more, node)
    {
      hide Inv, Name, IsGroup, AllShown;
      names := names[node := (if node in names then names[node] else {}) + more];
      ghost var before := targets;
      targets := targets + map k | k in names[node] :: node;
      assert targets.Values <= before.Values + {node};
    }

    /** One column of the plan. */
    method AddColumn(c: Column) returns (ok: bool)
      requires Ready()
      modifies this, b
      ensures Note(b.resolver.fields, old(b.book), Reference(c)).Ok? ==>
                Ready() && GainsFields(old(b.Current()), b.Current()) && Reference(c) in b.ids &&
                b.book == Note(b.resolver.fields, old(b.book), Reference(c)).value
      ensures ok <==> Note(b.resolver.fields, old(b.book), Reference(c)).Ok? && b.ids[Reference(c)] !in old(seen)
      ensures ok ==> shown == old(shown) + [ShownColumn(aliases, c, |old(shown)| + 1)] && seen == old(seen) + {b.ids[Reference(c)]}
      ensures ok ==> Known() == ToldColumn(old(Known()), b.ids, c)
    {
      hide Inv, Extends, Name, AllGroups, IsGroup, Reference, AllShown, Tell;
      ghost var before := b.Current();
      var ref := Reference(c);
      var id := b.AddField(ref);
      if id.Err? {
        return false;
      }
      StillReady(before);
      FieldDenotes(b.Current(), ref);
      ok := AddOutput(ref, c.alias, id.value, id.value, OfField(ref));
      if ok && c.isMeasure {
        AddTargets({ref, c.field, c.alias}, id.value);
      }
    }

    /** Plan columns, in order: refused when one is unknown or two share a node. */
    method AddColumns(columns: seq<Column>) returns (ok: bool)
      requires Ready() && outputs == [] && shown == [] && seen == {} && Known() == NAMELESS
      modifies this, b
      ensures ok <==> NoteAll(b.resolver.fields, old(b.book), ColumnRefs(columns)).Ok? &&
                      RefsApart(NoteAll(b.resolver.fields, old(b.book), ColumnRefs(columns)).value.target, ColumnRefs(columns))
      ensures ok ==> Ready() && GainsFields(old(b.Current()), b.Current())
      ensures ok ==> b.book == NoteAll(b.resolver.fields, old(b.book), ColumnRefs(columns)).value
      ensures ok ==> shown == ShownColumns(aliases, columns)
      ensures ok ==> AllUsed(b.ids, ColumnRefs(columns)) && seen == NodeSet(b.ids, ColumnRefs(columns))
      ensures ok ==> (forall c | c in columns :: Reference(c) in b.ids) && Known() == ColumnNaming(b.ids, columns)
    {
      hide Inv, Extends, Name, AllGroups, Reference, AllShown, Tell, Note, NoteAll, OwnersNoted, ToldColumn, AliasFor;
      ghost var before, fields, refs := b.Current(), b.resolver.fields, ColumnRefs(columns);
      BookStarts(before);
      GainsSelf(before);
      NothingNoted(fields, before.book, refs);
      for i := 0 to |columns|
        invariant Ready() && GainsFields(before, b.Current()) && NoteAll(fields, before.book, refs[..i]) == Ok(b.book)
        invariant shown == ShownColumns(aliases, columns[..i])
        invariant AllUsed(b.ids, refs[..i]) && seen == NodeSet(b.ids, refs[..i]) && RefsApart(b.book.target, refs[..i])
        invariant (forall c | c in columns[..i] :: Reference(c) in b.ids) && Known() == ColumnNaming(b.ids, columns[..i])
      {
        ghost var middle := b.Current();
        NoteNext(fields, before.book, refs, i);
        var added := AddColumn(columns[i]);
        if !added {
          ColumnRefused(fields, before.book, refs, i, middle, b.Current());
          return false;
        }
        GainsTrans(before, middle, b.Current());
        ColumnTaken(refs, i, middle, b.Current());
        IdsKept(middle, b.Current());
        ColumnNamingKept(middle.ids, b.ids, columns[..i]);
        assert columns[..i + 1][..i] == columns[..i];
        assert ShownColumns(aliases, columns[..i + 1]) == ShownColumns(aliases, columns[..i]) + [ShownColumn(aliases, columns[i], i + 1)];
      }
      assert columns[..|columns|] == columns && refs[..|columns|] == refs;
      return true;
    }

    /** Requested measures may be named by reference, field or own name. */
    method AddMeasureNames(refs: seq<string>, fs: seq<Field>) returns (ok: bool)
      requires Ready() && |refs| == |fs|
      modifies this, b
      ensures ok <==> NoteAll(b.resolver.fields, old(b.book), refs).Ok?
      ensures ok ==> Ready() && GainsFields(old(b.Current()), b.Current()) && outputs == old(outputs) && shown == old(shown) && seen == old(seen)
      ensures ok ==> b.book == NoteAll(b.resolver.fields, old(b.book), refs).value
      ensures ok ==> AllUsed(b.ids, refs) && Known() == MeasureNaming(old(Known()), b.ids, refs, fs)
    {
      hide Inv, Extends, Name, AllGroups, IsGroup, AllShown, Tell, Note, NoteAll, OwnersNoted;
      ghost var before, fields, known := b.Current(), b.resolver.fields, Known();
      BookStarts(before);
      GainsSelf(before);
      NothingNoted(fields, before.book, refs);
      for i := 0 to |refs|
        invariant Ready() && GainsFields(before, b.Current()) && outputs == old(outputs) && shown == old(shown) && seen == old(seen)
        invariant NoteAll(fields, before.book, refs[..i]) == Ok(b.book)
        invariant AllUsed(b.ids, refs[..i]) && Known() == MeasureNaming(known, b.ids, refs[..i], fs[..i])
      {
        ghost var middle := b.Current();
        NoteNext(fields, before.book, refs, i);
        var id := b.AddField(refs[i]);
        if id.Err? {
          return false;
        }
        StillReady(middle);
        GainsTrans(before, middle, b.Current());
        IdsKept(middle, b.Current());
        MeasureNamingKept(known, middle.ids, b.ids, refs[..i], fs[..i]);
        FieldDenotes(b.Current(), refs[i]);
        AddTargets({refs[i], fs[i].name, Canonical(fs[i])}, id.value);
        assert refs[..i + 1][..i] == refs[..i] && fs[..i + 1][..i] == fs[..i];
      }
      assert refs[..|refs|] == refs && fs[..|refs|] == fs;
      return true;
    }

    method AddAliasNames()
      requires Ready()
      modifies this
      ensures Ready() && outputs == old(outputs) && shown == old(shown) && seen == old(seen)
      ensures Known() == AliasNaming(old(Known()), aliases)
    {
      hide Inv, Name, AllGroups, IsGroup, AllShown;
      ghost var known := Known();
      for i := 0 to |aliases|
        invariant Ready() && outputs == old(outputs) && shown == old(shown) && seen == old(seen)
        invariant Known() == AliasNaming(known, aliases[..i])
      {
        if aliases[i].1 in targets {
          var node := targets[aliases[i].1];
          TargetGroup(b.table, targets, aliases[i].1);
          SetTarget(aliases[i].0, node);
          names := names[node := (if node in names then names[node] else {}) + {aliases[i].0}];
        }
        assert aliases[..i + 1][..i] == aliases[..i];
      }
      assert aliases[..|aliases|] == aliases;
    }

    method SetTarget(name: string, node: string)
      requires Ready() && node in b.table && IsGroup(b.table[node])
      modifies this`targets
      ensures Ready() && targets == old(targets)[name := node]
    {
      hide Inv, Name, IsGroup, AllShown;
      ghost var before := targets;
      targets := targets[name := node];
      assert targets.Values <= before.Values + {node};
    }

    /** A node computed from field nodes or from nodes already computed. */
    method AddComputed(kind: string, aggregate: string, stage: string, operands: seq<string>) returns (id: string)
      requires Ready() && kind in {"arithmetic", "comparison"}
      requires AllGroups(b.table, set o | o in operands)
      modifies b
      ensures Ready() && Grows(old(b.Current()), b.Current())
      ensures id !in old(b.table) && b.table == old(b.table)[id := ComputedNode(id, kind, aggregate, stage, operands)]
    {
      hide Inv, Extends, Name, NodeOk, AllGroups, AllShown;
      ghost var before := b.Current();
      var n := ComputedNode(Name('n', b.next), kind, aggregate, stage, operands);
      InvIsNumbered(before);
      ComputedOk(before, n);
      id := b.AddNode(n);
      StillReady(before);
    }

    /** One inline derived measure over field nodes of its own. */
    method AddInline(d: Inline, ghost m: map<string, Meaning>) returns (ok: bool)
      requires Ready() && Means(b.Current(), targets, m)
      modifies this, b
      ensures ok <==> NoteAll(b.resolver.fields, old(b.book), d.operands).Ok? && InlineIdentity(d) !in old(seen)
      ensures ok ==> Ready() && Extends(old(b.Current()), b.Current())
      ensures ok ==> b.book == NoteAll(b.resolver.fields, old(b.book), d.operands).value
      ensures ok ==> shown == old(shown) + [ShownInline(aliases, d, |old(shown)| + 1)] && seen == old(seen) + {InlineIdentity(d)}
      ensures ok ==> Means(b.Current(), targets, m[d.name := OfInline(d.op, d.operands)]) && names == old(names)
    {
      hide Inv, Extends, Name, AllGroups, IsField, IsDerived, AllShown, NoteAll, Joined, AliasFor, Means;
      ghost var before := b.Current();
      var operands := b.AddFields(d.operands);
      if operands.Err? {
        return false;
      }
      ghost var middle := b.Current();
      StillReady(before);
      FieldsAreGroups(middle, d.operands, operands.value);
      var id := AddComputed("arithmetic", d.op, "post_aggregate", operands.value);
      ExtendsTrans(before, middle, b.Current());
      RefsKept(middle, b.Current(), d.operands, operands.value);
      ok := AddOutput(d.name, d.name, id, InlineIdentity(d), OfInline(d.op, d.operands));
      if ok {
        DenotesGroup(b.Current(), id, OfInline(d.op, d.operands));
        MeansGrows(before, b.Current(), targets, m);
        MeansSet(b.Current(), targets, m, d.name, id, OfInline(d.op, d.operands));
        SetTarget(d.name, id);
      }
    }

    /** Inline derived measures: refused when an operand is unknown or one repeats another. */
    method AddDerived(derived: seq<Inline>, ghost m: map<string, Meaning>) returns (ok: bool)
      requires Ready() && Means(b.Current(), targets, m) && forall x | x in seen :: !("inline:" <= x)
      modifies this, b
      ensures ok <==> NoteAll(b.resolver.fields, old(b.book), OperandsOf(derived)).Ok? && Distinct(InlineIdentities(derived))
      ensures ok ==> Ready() && Extends(old(b.Current()), b.Current())
      ensures ok ==> b.book == NoteAll(b.resolver.fields, old(b.book), OperandsOf(derived)).value
      ensures ok ==> shown == old(shown) + ShownInlines(aliases, derived, |old(shown)|)
      ensures ok ==> seen == old(seen) + Elements(InlineIdentities(derived)) && names == old(names)
      ensures ok ==> Means(b.Current(), targets, InlineMeans(m, derived))
    {
      hide Inv, Extends, Name, AllGroups, AllShown, Note, NoteAll, InlineIdentity, Elements, InlineMeans, Distinct, InlineIdentities,
           OperandsOf, ShownInlines, ShownInline, Means;
      NoInlines(aliases, |shown|, m);
      ghost var before, fields := b.Current(), b.resolver.fields;
      ExtendsSelf(before);
      NothingNoted(fields, before.book, OperandsOf(derived));
      for i := 0 to |derived|
        invariant Ready() && Extends(before, b.Current())
        invariant NoteAll(fields, before.book, OperandsOf(derived[..i])) == Ok(b.book)
        invariant shown == old(shown) + ShownInlines(aliases, derived[..i], |old(shown)|)
        invariant seen == old(seen) + Elements(InlineIdentities(derived[..i])) && names == old(names)
        invariant Means(b.Current(), targets, InlineMeans(m, derived[..i])) && Distinct(InlineIdentities(derived[..i]))
      {
        ghost var middle := b.Current();
        OperandsNext(fields, before.book, derived, i);
        var added := AddInline(derived[i], InlineMeans(m, derived[..i]));
        IdentityNext(derived, i, old(seen));
        if !added {
          return false;
        }
        ExtendsTrans(before, middle, b.Current());
        InlineNext(aliases, derived, i, |old(shown)|, m);
      }
      assert derived[..|derived|] == derived;
      return true;
    }

    /** One facet of a compared measure: its node, output and names. */
    method AddFacet(o: Output, role: string, operands: seq<string>, ghost s: Shown, ghost m: map<string, Meaning>) returns (id: string)
      requires Ready() && Means(b.Current(), targets, m) && ShownAs(b.Current(), o, s) && s.meaning.OfField? && AllGroups(b.table, set x | x in operands)
      requires FacetIdentity(o.node, role) !in seen
      requires if role == "current" || role == "prior" then operands == [o.node]
               else |operands| == 2 && IsPeriod(b.Current(), operands[0], s.meaning.ref, "current") &&
                    IsPeriod(b.Current(), operands[1], s.meaning.ref, "prior")
      modifies this, b
      ensures Ready() && Grows(old(b.Current()), b.Current()) && Denotes(b.Current(), id, OfFacet(s.meaning.ref, role))
      ensures shown == old(shown) + [ShownFacet(aliases, s, role, |old(shown)| + 1)] && seen == old(seen) + {FacetIdentity(o.node, role)}
      ensures Means(b.Current(), targets, WithFacets(m, FacetBases(names, o), role, OfFacet(s.meaning.ref, role))) && names == old(names)
    {
      hide Inv, Extends, Name, AllGroups, IsField, IsDerived, AllShown, WithFacets, AliasFor, FacetIdentity, Means;
      ghost var before := b.Current();
      id := AddComputed("comparison", role, "compare", operands);
      FacetDenotes(before, b.Current(), o, s, role, operands, id);
      var added := AddOutput(o.alias, o.alias + "_" + role, id, FacetIdentity(o.node, role), OfFacet(s.meaning.ref, role));
      DenotesGroup(b.Current(), id, OfFacet(s.meaning.ref, role));
      MeansGrows(before, b.Current(), targets, m);
      MeansFacets(b.Current(), targets, m, FacetBases(names, o), role, id, OfFacet(s.meaning.ref, role));
      AddFacetNames(FacetBases(names, o), role, id);
    }

    method AddFacetNames(bases: set<string>, role: string, id: string)
      requires Ready() && id in b.table && IsGroup(b.table[id])
      modifies this`targets
      ensures Ready() && targets == WithFacets(old(targets), bases, role, id)
    {
      hide Inv, Name, IsGroup, AllGroups, AllShown, WithFacets;
      FacetGroups(b.table, targets, bases, role, id);
      targets := WithFacets(targets, bases, role, id);
    }

    /** An aggregate becomes current, prior, delta and percentage change. */
    method AddFacets(o: Output, ghost s: Shown, ghost m: map<string, Meaning>)
      requires Ready() && Means(b.Current(), targets, m) && ShownAs(b.Current(), o, s) && s.meaning.OfField? && o.node in b.table && IsGroup(b.table[o.node])
      requires FacetIdentities(o.node) !! seen
      modifies this, b
      ensures Ready() && Grows(old(b.Current()), b.Current())
      ensures shown == old(shown) + ShownFacets(aliases, s, |old(shown)|) && seen == old(seen) + FacetIdentities(o.node)
      ensures Means(b.Current(), targets, FacetMeans(m, FacetBases(names, o), s.meaning.ref)) && names == old(names)
    {
      hide Inv, Extends, Name, IsField, IsDerived, AllShown, Denotes, WithFacets, AliasFor, FacetIdentity, Means;
      ghost var bases, ref := FacetBases(names, o), s.meaning.ref;
      ghost var m1 := WithFacets(m, bases, ROLES[0], OfFacet(ref, ROLES[0]));
      ghost var m2 := WithFacets(m1, bases, ROLES[1], OfFacet(ref, ROLES[1]));
      ghost var m3 := WithFacets(m2, bases, ROLES[2], OfFacet(ref, ROLES[2]));
      RolesDiffer(o.node);
      ghost var d0 := b.Current();
      var current := AddFacet(o, ROLES[0], [o.node], s, m);
      ghost var d1 := b.Current();
      Carried(d0, d1, o, s);
      var prior := AddFacet(o, ROLES[1], [o.node], s, m1);
      ghost var d2 := b.Current();
      Carried(d1, d2, o, s);
      DenotesGrows(d1, d2, current, OfFacet(s.meaning.ref, "current"));
      PeriodsGroup(d2, current, prior, s.meaning.ref);
      var delta := AddFacet(o, ROLES[2], [current, prior], s, m2);
      ghost var d3 := b.Current();
      Carried(d2, d3, o, s);
      DenotesGrows(d2, d3, current, OfFacet(s.meaning.ref, "current"));
      DenotesGrows(d2, d3, prior, OfFacet(s.meaning.ref, "prior"));
      PeriodsGroup(d3, current, prior, s.meaning.ref);
      var change := AddFacet(o, ROLES[3], [current, prior], s, m3);
      GrowsTrans(d0, d1, d2);
      GrowsTrans(d0, d2, d3);
      GrowsTrans(d0, d3, b.Current());
    }

    /**
      The comparison expansion replaces aggregates and keeps every other output
      as it was; no projection identity can repeat.
    */
    method ExpandComparison(ghost m: map<string, Meaning>)
      requires Ready() && Means(b.Current(), targets, m) && (forall x | x in seen :: PlainIdentity(x))
      requires forall i, j | 0 <= i < j < |outputs| && b.table[outputs[i].node].kind == "aggregate" :: outputs[i].node != outputs[j].node
      modifies this, b
      ensures Ready() && Grows(old(b.Current()), b.Current())
      ensures shown == ComparedShown(b.book, aliases, old(shown))
      ensures Means(b.Current(), targets, ComparedMeans(old(b.table), old(names), old(outputs), old(shown), m))
    {
      hide Inv, Extends, Name, IsGroup, AllGroups, AllShown, ShownAs, AliasFor, FacetMeans, FacetIdentities, PlainIdentity, Aggregated,
           ComparedShown, ComparedMeans, Expanded, ShownFacets, Means;
      var base := outputs;
      ghost var before, was, told, known := b.Current(), shown, seen, names;
      ShownGroups(before, base, was);
      GrowsSelf(before);
      NothingShown(before);
      NothingCompared(before, aliases, base, was, known, m);
      outputs, shown := [], [];
      for i := 0 to |base|
        invariant Ready() && Grows(before, b.Current()) && names == known
        invariant shown == ComparedShown(before.book, aliases, was[..i])
        invariant seen == told + Expanded(before.table, base[..i])
        invariant Means(b.Current(), targets, ComparedMeans(before.table, known, base[..i], was[..i], m))
      {
        var o := base[i];
        ghost var middle := b.Current();
        ShownAt(before, middle, base, was, i);
        CompareNext(before, aliases, base, was, known, i, m);
        var node := b.Lookup(o.node);
        if node.kind != "aggregate" {
          KeepOutput(o, was[i]);
        } else {
          FacetsFree(before, told, base, i);
          AddFacets(o, was[i], ComparedMeans(before.table, known, base[..i], was[..i], m));
          GrowsTrans(before, middle, b.Current());
        }
      }
      assert was[..|base|] == was && base[..|base|] == base;
    }

    /** An output kept with the identifier it already had. */
    method KeepOutput(o: Output, ghost s: Shown)
      requires Ready() && ShownAs(b.Current(), o, s)
      modifies this`outputs, this`shown
      ensures Ready() && shown == old(shown) + [s]
    {
      hide Inv, ShownAs, AllGroups;
      ShownAppend(b.Current(), outputs, shown, o, s);
      outputs := outputs + [o];
      shown := shown + [s];
    }

    /** Post-aggregate predicates, each on the node its name stands for. */
    method AddHaving(having: seq<Filter>, ghost m: map<string, Meaning>) returns (r: Option<seq<string>>)
      requires Ready() && Means(b.Current(), targets, m)
      modifies b
      ensures r.Some? <==> forall f | f in having :: f.dimension in m
      ensures r.Some? ==> Ready() && Grows(old(b.Current()), b.Current()) && HavingOk(b.Current(), having, r.value, m)
    {
      hide Inv, Extends, Name, AllGroups, AllShown, FiltersOutput, Denotes;
      ghost var before := b.Current();
      GrowsSelf(before);
      var ids: seq<string> := [];
      for i := 0 to |having|
        invariant Ready() && Grows(before, b.Current()) && Means(b.Current(), targets, m)
        invariant HavingOk(b.Current(), having[..i], ids, m)
      {
        var f := having[i];
        if f.dimension !in targets {
          return None;
        }
        ghost var middle := b.Current();
        var target := targets[f.dimension];
        TargetGroup(b.table, targets, f.dimension);
        var node := b.Lookup(target);
        var id := b.AddTargetFilter(f, "having", target, node.catalogRef, node.source);
        StillReady(middle);
        GrowsTrans(before, middle, b.Current());
        FilterAdded(middle, b.Current(), id, f, target);
        MeansGrows(middle, b.Current(), targets, m);
        HavingGrows(middle, b.Current(), having[..i], ids, m);
        assert FiltersMeaning(b.Current(), id, f, m[f.dimension]);
        ids := ids + [id];
      }
      assert having[..|having|] == having;
      return Some(ids);
    }
  }

  // ------------------------------------------------------------------ the steps

  /** A post-aggregate predicate on an output's node, with a slot for the values it binds. */
  ghost predicate FiltersOutput(d: Draft, id: string, f: Filter, target: string) {
    && id in d.table && target in d.table && IsGroup(d.table[target])
    && exists k: nat :: d.table[id] == FilterNode(id, f, "having", target, d.table[target].catalogRef, d.table[target].source, k) &&
         (Arity(f) > 0 ==> Name('b', k) in d.slots && d.slots[Name('b', k)] == FilterBinding(f, "having", d.table[target].catalogRef, k))
  }

  lemma FiltersGrows(d: Draft, e: Draft, id: string, f: Filter, target: string)
    requires FiltersOutput(d, id, f, target) && Extends(d, e)
    ensures FiltersOutput(e, id, f, target)
  {
    hide Name, IsGroup;
    var k: nat :| d.table[id] == FilterNode(id, f, "having", target, d.table[target].catalogRef, d.table[target].source, k) &&
         (Arity(f) > 0 ==> Name('b', k) in d.slots && d.slots[Name('b', k)] == FilterBinding(f, "having", d.table[target].catalogRef, k));
    assert e.table[id] == FilterNode(id, f, "having", target, e.table[target].catalogRef, e.table[target].source, k);
  }

  /** A post-aggregate predicate on a node with a given meaning. */
  ghost predicate FiltersMeaning(d: Draft, id: string, f: Filter, m: Meaning) {
    exists target :: FiltersOutput(d, id, f, target) && Denotes(d, target, m)
  }

  /** The predicates apply the filters, in order, to what their names stand for. */
  ghost predicate HavingOk(d: Draft, having: seq<Filter>, ids: seq<string>, m: map<string, Meaning>) {
    |ids| == |having| && forall i | 0 <= i < |ids| :: having[i].dimension in m && FiltersMeaning(d, ids[i], having[i], m[having[i].dimension])
  }

  lemma HavingGrows(d: Draft, e: Draft, having: seq<Filter>, ids: seq<string>, m: map<string, Meaning>)
    requires HavingOk(d, having, ids, m) && Extends(d, e)
    ensures HavingOk(e, having, ids, m)
  {
    hide FiltersOutput, Denotes, Extends;
    forall i | 0 <= i < |ids| ensures FiltersMeaning(e, ids[i], having[i], m[having[i].dimension]) {
      assert FiltersMeaning(d, ids[i], having[i], m[having[i].dimension]);
      var target :| FiltersOutput(d, ids[i], having[i], target) && Denotes(d, target, m[having[i].dimension]);
      FiltersGrows(d, e, ids[i], having[i], target);
      DenotesGrows(d, e, target, m[having[i].dimension]);
    }
  }

  lemma FilterAdded(d: Draft, e: Draft, id: string, f: Filter, target: string)
    requires target in d.table && IsGroup(d.table[target]) && id !in d.table && Extends(d, e)
    requires e.table == d.table[id := FilterNode(id, f, "having", target, d.table[target].catalogRef, d.table[target].source, |d.bindings| + 1)]
    requires Arity(f) > 0 ==> e.slots == d.slots[Name('b', |d.bindings| + 1) := FilterBinding(f, "having", d.table[target].catalogRef, |d.bindings| + 1)]
    ensures FiltersOutput(e, id, f, target)
  {
    hide Name, IsGroup;
    var k: nat := |d.bindings| + 1;
    assert e.table[id] == FilterNode(id, f, "having", target, e.table[target].catalogRef, e.table[target].source, k);
  }

  /** The names a node's facets get. */
  function FacetBases(names: map<string, set<string>>, o: Output): set<string> {
    if o.node in names then names[o.node] else {o.alias}
  }

  /** What names stand for once the comparison has added its own. */
  function ComparedMeans(
    t: map<string, SemanticNode>, names: map<string, set<string>>, outputs: seq<Output>, shown: seq<Shown>, m: map<string, Meaning>): map<string, Meaning>
    requires |outputs| == |shown|
  {
    if outputs == [] then m else
      var n := |outputs| - 1;
      var before := ComparedMeans(t, names, outputs[..n], shown[..n], m);
      if outputs[n].node in t && t[outputs[n].node].kind == "aggregate" && shown[n].meaning.OfField?
      then FacetMeans(before, FacetBases(names, outputs[n]), shown[n].meaning.ref) else before
  }

  /** The projection identities the comparison has used. */
  ghost function Expanded(t: map<string, SemanticNode>, outputs: seq<Output>): set<string> {
    if outputs == [] then {} else
      var o := outputs[|outputs| - 1];
      Expanded(t, outputs[..|outputs| - 1]) + if o.node in t && t[o.node].kind == "aggregate" then FacetIdentities(o.node) else {}
  }

  lemma {:induction false} ExpandedAre(t: map<string, SemanticNode>, outputs: seq<Output>)
    ensures forall x | x in Expanded(t, outputs) :: exists o | o in outputs :: o.node in t && t[o.node].kind == "aggregate" && x in FacetIdentities(o.node)
  {
    hide FacetIdentities;
    if outputs != [] {
      ExpandedAre(t, outputs[..|outputs| - 1]);
      assert outputs == outputs[..|outputs| - 1] + [outputs[|outputs| - 1]];
    }
  }

  lemma FacetsFree(d: Draft, told: set<string>, base: seq<Output>, i: nat)
    requires Inv(d) && i < |base| && (forall x | x in told :: PlainIdentity(x)) && forall o | o in base :: o.node in d.table
    requires forall i, j | 0 <= i < j < |base| && d.table[base[i].node].kind == "aggregate" :: base[i].node != base[j].node
    ensures FacetIdentities(base[i].node) !! told + Expanded(d.table, base[..i])
  {
    hide Inv, PlainIdentity, FacetIdentity, Expanded, Made;
    ExpandedAre(d.table, base[..i]);
    InvIsNumbered(d);
    assert base[i] in base && Made(base[i].node, d.next);
    forall x | x in FacetIdentities(base[i].node) ensures x !in told && x !in Expanded(d.table, base[..i]) {
      var role :| x == FacetIdentity(base[i].node, role);
      FacetsDiffer(base[i].node, role, x, base[i].node, role, d.next);
      if x in Expanded(d.table, base[..i]) {
        var o :| o in base[..i] && d.table[o.node].kind == "aggregate" && x in FacetIdentities(o.node);
        var k :| 0 <= k < i && base[k] == o;
        var r :| x == FacetIdentity(o.node, r);
        assert o in base && Made(o.node, d.next);
        FacetsDiffer(base[i].node, role, x, o.node, r, d.next);
      }
    }
  }

  lemma RolesDiffer(node: string)
    ensures forall i, j | 0 <= i < j < 4 :: FacetIdentity(node, ROLES[i]) != FacetIdentity(node, ROLES[j])
  {
    forall i, j | 0 <= i < j < 4 ensures FacetIdentity(node, ROLES[i]) != FacetIdentity(node, ROLES[j]) {
      var x, y := FacetIdentity(node, ROLES[i]), FacetIdentity(node, ROLES[j]);
      assert x[|node| + 1..] == ROLES[i] && y[|node| + 1..] == ROLES[j];
    }
  }

  lemma Carried(d: Draft, e: Draft, o: Output, s: Shown)
    requires ShownAs(d, o, s) && Extends(d, e) && o.node in d.table && IsGroup(d.table[o.node])
    ensures ShownAs(e, o, s) && o.node in e.table && IsGroup(e.table[o.node])
  {
    hide Denotes, Name, IsGroup;
    DenotesGrows(d, e, o.node, s.meaning);
  }

  lemma PeriodsGroup(d: Draft, current: string, prior: string, ref: string)
    requires Denotes(d, current, OfFacet(ref, "current")) && Denotes(d, prior, OfFacet(ref, "prior"))
    ensures IsPeriod(d, current, ref, "current") && IsPeriod(d, prior, ref, "prior") && AllGroups(d.table, set x | x in [current, prior])
  {
  }

  lemma FacetDenotes(d: Draft, e: Draft, o: Output, s: Shown, role: string, operands: seq<string>, id: string)
    requires ShownAs(d, o, s) && s.meaning.OfField? && Extends(d, e) && id in e.table
    requires if role == "current" || role == "prior" then operands == [o.node]
             else |operands| == 2 && IsPeriod(d, operands[0], s.meaning.ref, "current") && IsPeriod(d, operands[1], s.meaning.ref, "prior")
    requires e.table[id] == ComputedNode(id, "comparison", role, "compare", operands)
    ensures Denotes(e, id, OfFacet(s.meaning.ref, role))
  {
    hide Name;
  }

  lemma ShownAt(d: Draft, e: Draft, outputs: seq<Output>, shown: seq<Shown>, i: nat)
    requires Inv(d) && d.pending == {} && AllShown(d, outputs, shown) && Extends(d, e) && i < |outputs|
    ensures ShownAs(e, outputs[i], shown[i]) && outputs[i].node in d.table && outputs[i].node in e.table
    ensures e.table[outputs[i].node] == d.table[outputs[i].node] && IsGroup(e.table[outputs[i].node])
    ensures d.table[outputs[i].node].kind == "aggregate" <==> Aggregated(d.book, shown[i].meaning)
    ensures Aggregated(d.book, shown[i].meaning) ==> shown[i].meaning.OfField?
  {
    hide Inv, Denotes, IsField, IsDerived, Name, IsMeasureRef;
    ShownGroups(d, outputs, shown);
    assert ShownAs(d, outputs[i], shown[i]);
    DenotesGrows(d, e, outputs[i].node, shown[i].meaning);
  }

  lemma NothingCompared(d: Draft, aliases: seq<(string, string)>, outputs: seq<Output>, shown: seq<Shown>, names: map<string, set<string>>,
                        m: map<string, Meaning>)
    ensures ComparedShown(d.book, aliases, shown[..0]) == [] && Expanded(d.table, outputs[..0]) == {}
    ensures ComparedMeans(d.table, names, outputs[..0], shown[..0], m) == m
  {
  }

  /** One more output compared. */
  lemma CompareNext(d: Draft, aliases: seq<(string, string)>, outputs: seq<Output>, shown: seq<Shown>, names: map<string, set<string>>, i: nat,
                    m: map<string, Meaning>)
    requires i < |outputs| == |shown| && outputs[i].node in d.table
    ensures ComparedShown(d.book, aliases, shown[..i + 1]) ==
            var before := ComparedShown(d.book, aliases, shown[..i]);
            if Aggregated(d.book, shown[i].meaning) then before + ShownFacets(aliases, shown[i], |before|) else before + [shown[i]]
    ensures Expanded(d.table, outputs[..i + 1]) ==
            Expanded(d.table, outputs[..i]) + if d.table[outputs[i].node].kind == "aggregate" then FacetIdentities(outputs[i].node) else {}
    ensures ComparedMeans(d.table, names, outputs[..i + 1], shown[..i + 1], m) ==
            var before := ComparedMeans(d.table, names, outputs[..i], shown[..i], m);
            if d.table[outputs[i].node].kind == "aggregate" && shown[i].meaning.OfField?
            then FacetMeans(before, FacetBases(names, outputs[i]), shown[i].meaning.ref) else before
  {
    hide ShownFacets, FacetIdentities, FacetMeans, IsMeasureRef;
    assert shown[..i + 1][..i] == shown[..i] && outputs[..i + 1][..i] == outputs[..i];
  }

  lemma NothingShown(d: Draft)
    ensures AllShown(d, [], [])
  {
  }

  lemma ComputedOk(d: Draft, n: SemanticNode)
    requires Numbered(d) && n.id == Name('n', d.next) && n.kind in {"arithmetic", "comparison"}
    requires n.population == Some("p1") && n.bindings == [] && AllGroups(d.table, set o | o in n.operands)
    ensures NodeOk(d, n) && IsDerived(n)
  {
    CounterOfName('n', d.next);
    forall o | o in n.operands ensures o in d.table && IsGroup(d.table[o]) && Counter(o) < d.next {
      assert o in (set x | x in n.operands);
      assert Made(o, d.next);
    }
  }

  lemma FacetGroups(t: map<string, SemanticNode>, m: map<string, string>, bases: set<string>, role: string, id: string)
    requires AllGroups(t, m.Values) && id in t && IsGroup(t[id])
    ensures AllGroups(t, WithFacets(m, bases, role, id).Values)
  {
    hide IsGroup, WithFacets, Forms;
    FacetForms(m, bases, role, id);
    var all := WithFacets(m, bases, role, id);
    forall k | k in all ensures all[k] in m.Values + {id} {
      if k !in Forms(bases, role) {
        assert k in m && m[k] in m.Values;
      }
    }
  }

  lemma FieldDenotes(d: Draft, ref: string)
    requires Inv(d) && d.pending == {} && ref in d.ids
    ensures Denotes(d, d.ids[ref], OfField(ref)) && d.ids[ref] in d.table && IsGroup(d.table[d.ids[ref]])
  {
    hide Inv, StandsFor;
    FieldSettled(d, ref);
  }

  lemma FieldsAreGroups(d: Draft, refs: seq<string>, ids: seq<string>)
    requires Inv(d) && d.pending == {} && NodesOfRefs(d.ids, refs, ids)
    ensures AllGroups(d.table, set o | o in ids)
  {
    hide Inv, IsGroup, Denotes;
    forall o | o in ids ensures o in d.table && IsGroup(d.table[o]) {
      var i :| 0 <= i < |ids| && ids[i] == o;
      FieldDenotes(d, refs[i]);
    }
  }

  lemma RefsKept(d: Draft, e: Draft, refs: seq<string>, nodes: seq<string>)
    requires NodesOfRefs(d.ids, refs, nodes) && Extends(d, e)
    ensures NodesOfRefs(e.ids, refs, nodes)
  {
  }

  lemma IdsKept(d: Draft, e: Draft)
    requires Extends(d, e)
    ensures Agree(d.ids, e.ids)
  {
  }

  lemma ExtendsSelf(d: Draft)
    ensures Extends(d, d)
  {
  }

  lemma TargetGroup(t: map<string, SemanticNode>, targets: map<string, string>, name: string)
    requires AllGroups(t, targets.Values) && name in targets
    ensures targets[name] in t && IsGroup(t[targets[name]])
  {
  }

  lemma BookStarts(d: Draft)
    requires Inv(d)
    ensures OwnersNoted(d.book)
  {
    OwnersUsed(d);
  }

  lemma NothingNoted(fields: Registry, book: Book, refs: seq<string>)
    ensures NoteAll(fields, book, refs[..0]) == Ok(book) && NoteAll(fields, book, []) == Ok(book)
  {
  }

  /** A column is refused when it is unknown or shares its node with an earlier one, and then the whole list is. */
  lemma ColumnRefused(fields: Registry, book: Book, refs: seq<string>, i: nat, d: Draft, e: Draft)
    requires i < |refs| && OwnersNoted(book) && NoteAll(fields, book, refs[..i]) == Ok(d.book)
    requires AllUsed(d.ids, refs[..i])
    requires Note(fields, d.book, refs[i]).Ok? ==>
               Inv(e) && Extends(d, e) && e.book == Note(fields, d.book, refs[i]).value && refs[i] in e.ids && e.ids[refs[i]] in NodeSet(d.ids, refs[..i])
    ensures !(NoteAll(fields, book, refs).Ok? && RefsApart(NoteAll(fields, book, refs).value.target, refs))
  {
    hide Inv, Note, NoteAll, OwnersNoted;
    NoteNext(fields, book, refs, i);
    if NoteAll(fields, book, refs).Ok? {
      var ref :| ref in refs[..i] && d.ids[ref] == e.ids[refs[i]];
      var k :| 0 <= k < i && refs[k] == ref;
      SameNode(e, refs[k], refs[i]);
    }
  }

  lemma ColumnTaken(refs: seq<string>, i: nat, d: Draft, e: Draft)
    requires i < |refs| && AllUsed(d.ids, refs[..i]) && RefsApart(d.book.target, refs[..i]) && Inv(d) && Inv(e) && Extends(d, e)
    requires refs[i] in e.ids && e.ids[refs[i]] !in NodeSet(d.ids, refs[..i])
    ensures AllUsed(e.ids, refs[..i + 1]) && RefsApart(e.book.target, refs[..i + 1])
    ensures NodeSet(e.ids, refs[..i + 1]) == NodeSet(d.ids, refs[..i]) + {e.ids[refs[i]]}
  {
    hide Inv;
    var all := refs[..i + 1];
    assert all[..i] == refs[..i];
    SameKeys(d);
    forall j | 0 <= j < i
      ensures all[j] in d.ids && all[j] in e.ids && e.ids[all[j]] == d.ids[all[j]]
      ensures all[j] in e.book.target && refs[i] in e.book.target && e.book.target[all[j]] != e.book.target[refs[i]]
    {
      assert all[j] == refs[..i][j];
      SameNode(e, all[j], refs[i]);
    }
    forall x, y | 0 <= x < y < |all| && all[x] in e.book.target && all[y] in e.book.target ensures e.book.target[all[x]] != e.book.target[all[y]] {
      if y < i {
        assert refs[..i][x] == all[x] && refs[..i][y] == all[y];
      }
    }
  }

  lemma {:induction false} OperandsSnoc(derived: seq<Inline>, d: Inline)
    ensures OperandsOf(derived + [d]) == OperandsOf(derived) + d.operands
  {
    if derived == [] {
      assert [] + [d] == [d] && [d][1..] == [];
    } else {
      assert (derived + [d])[1..] == derived[1..] + [d];
      OperandsSnoc(derived[1..], d);
    }
  }

  lemma {:induction false} OperandsAppend(derived: seq<Inline>, more: seq<Inline>)
    ensures OperandsOf(derived + more) == OperandsOf(derived) + OperandsOf(more)
  {
    if derived == [] {
      assert derived + more == more;
    } else {
      assert (derived + more)[1..] == derived[1..] + more;
      OperandsAppend(derived[1..], more);
    }
  }

  lemma OperandsNext(fields: Registry, book: Book, derived: seq<Inline>, i: nat)
    requires i < |derived| && NoteAll(fields, book, OperandsOf(derived[..i])).Ok?
    ensures var so := NoteAll(fields, book, OperandsOf(derived[..i])).value;
            NoteAll(fields, book, OperandsOf(derived[..i + 1])) == NoteAll(fields, so, derived[i].operands) &&
            (NoteAll(fields, book, OperandsOf(derived)).Ok? ==> NoteAll(fields, so, derived[i].operands).Ok?)
  {
    hide NoteAll;
    assert derived[..i + 1] == derived[..i] + [derived[i]] && derived == derived[..i + 1] + derived[i + 1..];
    OperandsSnoc(derived[..i], derived[i]);
    OperandsAppend(derived[..i + 1], derived[i + 1..]);
    NoteAllSplits(fields, book, OperandsOf(derived[..i]), derived[i].operands);
    NoteAllSplits(fields, book, OperandsOf(derived[..i + 1]), OperandsOf(derived[i + 1..]));
  }

  lemma NoInlines(aliases: seq<(string, string)>, n: nat, m: map<string, Meaning>)
    ensures OperandsOf([]) == [] && Elements(InlineIdentities([])) == {} && InlineMeans(m, []) == m && Distinct(InlineIdentities([]))
    ensures ShownInlines(aliases, [], n) == []
  {
  }

  lemma InlineNext(aliases: seq<(string, string)>, derived: seq<Inline>, i: nat, n: nat, m: map<string, Meaning>)
    requires i < |derived|
    ensures InlineMeans(m, derived[..i + 1]) == InlineMeans(m, derived[..i])[derived[i].name := OfInline(derived[i].op, derived[i].operands)]
    ensures ShownInlines(aliases, derived[..i + 1], n) == ShownInlines(aliases, derived[..i], n) + [ShownInline(aliases, derived[i], n + i + 1)]
    ensures |ShownInlines(aliases, derived[..i], n)| == i
  {
    hide AliasFor;
    assert derived[..i + 1] == derived[..i] + [derived[i]] && derived[..i + 1][..i] == derived[..i];
  }

  /** One more identity repeats an earlier one, or is new. */
  lemma IdentityNext(derived: seq<Inline>, i: nat, told: set<string>)
    requires i < |derived| && Distinct(InlineIdentities(derived[..i])) && forall x | x in told :: !("inline:" <= x)
    ensures var x, before := InlineIdentity(derived[i]), Elements(InlineIdentities(derived[..i]));
            (x in told + before <==> x in before) &&
            (x in before ==> !Distinct(InlineIdentities(derived))) &&
            (x !in before ==> Distinct(InlineIdentities(derived[..i + 1]))) &&
            Elements(InlineIdentities(derived[..i + 1])) == before + {x}
  {
    hide Joined;
    var all, some := InlineIdentities(derived), InlineIdentities(derived[..i]);
    assert InlineIdentities(derived[..i + 1]) == some + [all[i]];
    assert "inline:" <= InlineIdentity(derived[i]);
    if InlineIdentity(derived[i]) in some {
      var k :| 0 <= k < i && some[k] == all[i];
      assert all[k] == all[i];
    }
  }

  // ------------------------------------------------ the numbers of compared outputs

  function UpTo(n: nat): seq<nat> {
    seq(n, i requires 0 <= i < n => i + 1)
  }

  /** Aggregates expand to four outputs; other outputs keep their first identifier. */
  function CompareNumbers(aggregate: seq<bool>): seq<nat> {
    if aggregate == [] then [] else
      var n := |aggregate| - 1;
      var before := CompareNumbers(aggregate[..n]);
      if aggregate[n] then before + [|before| + 1, |before| + 2, |before| + 3, |before| + 4] else before + [n + 1]
  }

  function Numbers(shown: seq<Shown>): (ns: seq<nat>)
    ensures |ns| == |shown| && forall i | 0 <= i < |ns| :: ns[i] == shown[i].number
  {
    seq(|shown|, i requires 0 <= i < |shown| => shown[i].number)
  }

  function Flags(book: Book, shown: seq<Shown>): (flags: seq<bool>)
    ensures |flags| == |shown| && forall i | 0 <= i < |flags| :: flags[i] == Aggregated(book, shown[i].meaning)
  {
    seq(|shown|, i requires 0 <= i < |shown| => Aggregated(book, shown[i].meaning))
  }

  lemma {:induction false} ComparedNumbers(book: Book, aliases: seq<(string, string)>, shown: seq<Shown>)
    requires Numbers(shown) == UpTo(|shown|)
    ensures Numbers(ComparedShown(book, aliases, shown)) == CompareNumbers(Flags(book, shown))
  {
    hide Aggregated, AliasFor;
    if shown != [] {
      var n := |shown| - 1;
      assert Numbers(shown[..n]) == Numbers(shown)[..n] == UpTo(n);
      ComparedNumbers(book, aliases, shown[..n]);
      assert Flags(book, shown)[..n] == Flags(book, shown[..n]);
      assert shown[n].number == UpTo(|shown|)[n];
    }
  }

  lemma BaseNumbers(aliases: seq<(string, string)>, columns: seq<Column>, derived: seq<Inline>)
    ensures Numbers(BaseShown(aliases, columns, derived)) == UpTo(|columns| + |derived|)
  {
    hide AliasFor;
  }
}
