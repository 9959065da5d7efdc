/**
  Building the semantic graph of a resolved query: field nodes, predicate
  nodes over source rows, the population they define, projected outputs,
  derived and comparison nodes, and post-aggregate predicates.
*/
module AnalysisBuilder {
  import opened Wrappers
  import opened Spec
  import opened SemanticGraph
  import opened Naming
  import opened AnalysisDraft
  import opened GraphReader
  import Compare

  // ---------------------------------------------------- what predicates mean

  function OpName(op: FilterOp): string {
    match op
    case Equal => "eq" case NotEqual => "neq" case In => "in" case NotIn => "not_in"
    case Gt => "gt" case Lt => "lt" case Gte => "gte" case Lte => "lte"
    case Contains => "contains" case IsNull => "is_null" case NotNull => "not_null"
  }

  function BoolName(op: BoolOp): string {
    match op case And => "and" case Or => "or" case Not => "not"
  }

  /** How many values a filter binds. */
  function Arity(f: Filter): nat {
    if f.op == IsNull || f.op == NotNull then 0
    else if f.op == In || f.op == NotIn then |f.values|
    else 1
  }

  function FieldKindName(f: Field): string {
    if f.kind.TimeDimension? then "time" else "dimension"
  }

  /** A field of a source row, as predicates read it. */
  function RowFieldDesc(f: Field): Desc {
    NodeDesc(FieldKindName(f), Some(Canonical(f)), None, Some("row"), [], None, multiset{}, Some(f.cube), multiset{}, "")
  }

  /** A filter on a field, by operator and number of bound values. */
  function FilterDesc(f: Filter, field: Field, stage: string): Desc {
    var bound := if Arity(f) == 0 then multiset{} else
      multiset{BindingDesc("filter_value", Some(Canonical(field)), Some(OpName(f.op)), Some(stage), Some(Arity(f)), None)};
    NodeDesc("predicate", Some(Canonical(field)), Some(OpName(f.op)), Some(stage), [RowFieldDesc(field)], None, bound,
             Some(field.cube), multiset{}, "")
  }

  function BoolDesc(op: BoolOp, stage: string, operands: seq<Desc>): Desc {
    NodeDesc("predicate", None, Some(BoolName(op)), Some(stage), operands, None, multiset{}, None, multiset{}, "")
  }

  /** How filter references resolve: tree leaves first, then flat filters, then any field. */
  datatype Resolver = Resolver(leaves: map<string, Field>, filters: seq<(string, Field)>, fields: Registry)

  function FirstFilter(filters: seq<(string, Field)>, ref: string): Option<Field> {
    if filters == [] then None
    else if filters[0].0 == ref then Some(filters[0].1)
    else FirstFilter(filters[1..], ref)
  }

  function Resolve(r: Resolver, ref: string): Option<Field> {
    if ref in r.leaves then Some(r.leaves[ref])
    else if FirstFilter(r.filters, ref).Some? then FirstFilter(r.filters, ref)
    else if ref in r.fields then Some(r.fields[ref])
    else None
  }

  predicate Resolves(r: Resolver, e: Expr) {
    match e
    case Leaf(f) => Resolve(r, f.dimension).Some?
    case Node(_, cs) => forall c | c in cs :: Resolves(r, c)
  }

  /** The meaning of a predicate tree, read off the tree itself. */
  function ExprDesc(r: Resolver, e: Expr, stage: string): Desc
    requires Resolves(r, e)
    decreases e, 0
  {
    match e
    case Leaf(f) => FilterDesc(f, Resolve(r, f.dimension).value, stage)
    case Node(op, cs) => BoolDesc(op, stage, ExprDescs(r, cs, stage))
  }

  function ExprDescs(r: Resolver, es: seq<Expr>, stage: string): (ds: seq<Desc>)
    requires forall e | e in es :: Resolves(r, e)
    ensures |ds| == |es|
    decreases es, 1
  {
    if es == [] then [] else [ExprDesc(r, es[0], stage)] + ExprDescs(r, es[1..], stage)
  }

  function OfBinding(b: Binding): BindingDesc {
    BindingDesc(b.kind, b.reference, b.operator, b.stage, b.arity, None)
  }

  function OfBindings(slots: map<string, Binding>, names: seq<string>): seq<BindingDesc>
    requires forall s | s in names :: s in slots
  {
    seq(|names|, i requires 0 <= i < |names| => OfBinding(slots[names[i]]))
  }

  /** The row node under an identifier has exactly this meaning. */
  ghost predicate Describes(t: map<string, SemanticNode>, slots: map<string, Binding>, id: string, d: Desc)
    decreases d
  {
    && id in t && IsRow(t[id]) && d.NodeDesc?
    && (forall s | s in t[id].bindings :: s in slots)
    && d == NodeDesc(t[id].kind, t[id].catalogRef, t[id].aggregate, t[id].stage, d.operands, None,
                     multiset(OfBindings(slots, t[id].bindings)), t[id].source, multiset(t[id].grainRefs), t[id].details)
    && |t[id].operands| == |d.operands|
    && forall i | 0 <= i < |d.operands| :: Describes(t, slots, t[id].operands[i], d.operands[i])
  }

  lemma {:induction false} DescribesGrows(d: Draft, e: Draft, id: string, desc: Desc)
    requires Describes(d.table, d.slots, id, desc) && Extends(d, e)
    ensures Describes(e.table, e.slots, id, desc)
    decreases desc
  {
    forall i | 0 <= i < |desc.operands| ensures Describes(e.table, e.slots, e.table[id].operands[i], desc.operands[i]) {
      DescribesGrows(d, e, d.table[id].operands[i], desc.operands[i]);
    }
    assert OfBindings(e.slots, e.table[id].bindings) == OfBindings(d.slots, d.table[id].bindings);
  }

  // ------------------------------------------------------------- the builder

  /** Nodes and slots are added and nothing else changes. */
  ghost predicate Grows(d: Draft, e: Draft) {
    Extends(d, e) && e.pending == d.pending && e.ids == d.ids && e.book == d.book
  }

  lemma GrowsTrans(a: Draft, b: Draft, c: Draft)
    requires Grows(a, b) && Grows(b, c)
    ensures Grows(a, c)
  {
    hide Extends;
    ExtendsTrans(a, b, c);
  }

  lemma GrowsSelf(d: Draft)
    ensures Grows(d, d)
  {
  }

  /** Field nodes are added and no slot. */
  ghost predicate GainsFields(d: Draft, e: Draft) {
    Extends(d, e) && e.pending == d.pending && e.bindings == d.bindings && e.slots == d.slots
  }

  lemma GainsTrans(a: Draft, b: Draft, c: Draft)
    requires GainsFields(a, b) && GainsFields(b, c)
    ensures GainsFields(a, c)
  {
    hide Extends;
    ExtendsTrans(a, b, c);
  }

  lemma GainsSelf(d: Draft)
    ensures GainsFields(d, d)
  {
  }

  class Builder {
    const resolver: Resolver
    const style: Style
    var next: nat
    var nodes: seq<SemanticNode>
    var bindings: seq<Binding>
    var ids: map<string, string>
    ghost var book: Book
    ghost var pending: set<string>
    ghost var table: map<string, SemanticNode>
    ghost var slots: map<string, Binding>

    ghost function Current(): Draft
      reads this
    {
      Draft(style, next, nodes, bindings, ids, book, pending, table, slots)
    }

    ghost predicate Valid()
      reads this
    {
      Inv(Current())
    }

    constructor (resolver: Resolver, style: Style)
      ensures Valid() && pending == {} && book == EMPTY && this.resolver == resolver && this.style == style && bindings == []
    {
      this.resolver, this.style := resolver, style;
      next, nodes, bindings, ids := 1, [], [], map[];
      book, pending, table, slots := EMPTY, {}, map[], map[];
    }

    /** Take an identifier and append a node that is complete at once. */
    method AddNode(n: SemanticNode) returns (id: string)
      requires Valid() && n.id == Fresh(Current()) && NodeOk(Current(), n)
      modifies this
      ensures Valid() && Current() == Added(old(Current()), n) && Grows(old(Current()), Current())
      ensures id == n.id && id !in old(table)
    {
      hide Inv, Extends, NodeOk, Name;
      AddedKeeps(Current(), n);
      id := n.id;
      next := next + 1;
      nodes := nodes + [n];
      table := table[n.id := n];
    }

    method AddBinding(b: Binding)
      requires Valid() && b.slot == Name('b', |bindings| + 1)
      modifies this
      ensures Valid() && Current() == AddSlot(old(Current()), b) && Grows(old(Current()), Current())
    {
      hide Inv, Extends;
      AddSlotKeeps(Current(), b);
      bindings := bindings + [b];
      slots := slots[b.slot := b];
    }

    /**
      The node of a field, added with its ratio operands on first use: refused
      exactly when the reference, or an operand met on the way, has no field.
    */
    method AddField(ref: string) returns (r: Result<string, string>)
      requires Valid()
      modifies this
      ensures r.Ok? <==> Note(resolver.fields, old(book), ref).Ok?
      ensures r.Err? ==> r.error == Note(resolver.fields, old(book), ref).error
      ensures r.Ok? ==> Valid() && GainsFields(old(Current()), Current()) && book == Note(resolver.fields, old(book), ref).value
      ensures r.Ok? ==> ref in ids && r.value == ids[ref]
      decreases Canonicals(resolver.fields) - ids.Keys, 1, 0
    {
      hide Inv, Extends, Canonicals, OperandRefs;
      GainsSelf(Current());
      SameKeys(Current());
      if ref in ids {
        return Ok(ids[ref]);
      }
      if ref !in resolver.fields {
        return Err(ref);
      }
      var canonical := Canonical(resolver.fields[ref]);
      if canonical in ids {
        AliasKeeps(Current(), ref, canonical);
        ids := ids[ref := ids[canonical]];
        book := book.(target := book.target[ref := book.target[canonical]]);
        return Ok(ids[canonical]);
      }
      r := AddNewField(ref);
    }

    /** The identifier is the next one, taken and registered before the operands are added. */
    method AddNewField(ref: string) returns (r: Result<string, string>)
      requires Valid() && ref in resolver.fields && ref !in ids && Canonical(resolver.fields[ref]) !in ids
      modifies this
      ensures r.Ok? <==> Note(resolver.fields, old(book), ref).Ok?
      ensures r.Err? ==> r.error == Note(resolver.fields, old(book), ref).error
      ensures r.Ok? ==> Valid() && GainsFields(old(Current()), Current()) && book == Note(resolver.fields, old(book), ref).value
      ensures r.Ok? ==> ref in ids && r.value == ids[ref] == Name('n', old(next))
      decreases Canonicals(resolver.fields) - ids.Keys, 0, 0
    {
      hide Inv, Extends, Canonicals, OperandRefs, StandsFor, Name, NoteAll;
      var f := resolver.fields[ref];
      ghost var before := Current();
      SameKeys(before);
      NotedFewer(resolver.fields, book, ref);
      var id := ReserveField(ref, f);
      ghost var reserved := Current();
      SameKeys(reserved);
      var operands := AddFields(OperandRefs(f));
      if operands.Err? {
        return Err(operands.error);
      }
      ghost var ready := Current();
      KeepsField(reserved, ready, ref);
      KeepsField(reserved, ready, Canonical(f));
      FieldStands(style, id, f, ids, operands.value);
      SettleField(f, FieldNode(style, id, f, operands.value));
      ReservedGains(before, reserved, ready, Current(), Canonical(f));
      KeepsField(ready, Current(), ref);
      return Ok(id);
    }

    method ReserveField(ref: string, f: Field) returns (id: string)
      requires Valid() && ref !in ids && Canonical(f) !in ids
      modifies this
      ensures Valid() && Current() == Reserve(old(Current()), ref, f) && Extends(old(Current()), Current())
      ensures id == Name('n', old(next)) && Canonical(f) !in old(pending)
      ensures ref in ids && Canonical(f) in ids && ids[ref] == ids[Canonical(f)] == id
    {
      hide Inv, Extends, Name, Canonical;
      PendingUsed(Current());
      ReserveKeeps(Current(), ref, f);
      id := Name('n', next);
      next := next + 1;
      ids := ids[Canonical(f) := id][ref := id];
      book := Noted(book, ref, f);
      pending := pending + {Canonical(f)};
    }

    method SettleField(f: Field, n: SemanticNode)
      requires Valid() && Canonical(f) in pending && Canonical(f) in book.owner && book.owner[Canonical(f)] == f
      requires Canonical(f) in ids && n.id == ids[Canonical(f)] && StandsFor(style, f, ids, n)
      modifies this
      ensures Valid() && Current() == Settle(old(Current()), Canonical(f), n) && Extends(old(Current()), Current())
    {
      hide Inv, Extends, StandsFor, Canonical;
      SettleKeeps(Current(), Canonical(f), n);
      nodes := nodes + [n];
      table := table[n.id := n];
      pending := pending - {Canonical(f)};
    }

    method AddFields(refs: seq<string>) returns (r: Result<seq<string>, string>)
      requires Valid()
      modifies this
      ensures r.Ok? <==> NoteAll(resolver.fields, old(book), refs).Ok?
      ensures r.Err? ==> r.error == NoteAll(resolver.fields, old(book), refs).error
      ensures r.Ok? ==> Valid() && GainsFields(old(Current()), Current()) && book == NoteAll(resolver.fields, old(book), refs).value
      ensures r.Ok? ==> NodesOfRefs(ids, refs, r.value)
      decreases Canonicals(resolver.fields) - ids.Keys, 2, |refs|
    {
      hide Inv, Extends, Note, Canonicals;
      ghost var before := Current();
      GainsSelf(before);
      if refs == [] {
        return Ok([]);
      }
      SameKeys(before);
      var first := AddField(refs[0]);
      if first.Err? {
        return Err(first.error);
      }
      ghost var middle := Current();
      SameKeys(middle);
      FewerLeft(resolver.fields, before.ids.Keys, middle.ids.Keys);
      var rest := AddFields(refs[1..]);
      if rest.Err? {
        return Err(rest.error);
      }
      GainsTrans(before, middle, Current());
      KeepsField(middle, Current(), refs[0]);
      return Ok([first.value] + rest.value);
    }

    // ------------------------------------------------------------ predicates

    /** Predicates read source rows, not the population they define. */
    method AddPredicateField(f: Field) returns (id: string)
      requires Valid()
      modifies this
      ensures Valid() && Grows(old(Current()), Current()) && bindings == old(bindings)
      ensures Describes(table, slots, id, RowFieldDesc(f))
    {
      hide Inv, Extends, Name;
      var n := SemanticNode(Name('n', next), FieldKindName(f), Some(Canonical(f)), None, Some("row"),
                            [], None, [], Some(f.cube), [], "");
      assert OfBindings(slots, []) == [];
      id := AddNode(n);
      assert OfBindings(slots, []) == [];
    }

    /** The node under an identifier, searched in the node list. */
    method Lookup(id: string) returns (n: SemanticNode)
      requires Valid() && id in table
      ensures n == table[id]
    {
      hide Inv;
      TableIs(Current());
      n := SemanticNode("", "", None, None, None, [], None, [], None, [], "");
      for i := 0 to |nodes|
        invariant id in Compare.Table(nodes[..i], Compare.NodeId) ==> n == Compare.Table(nodes[..i], Compare.NodeId)[id]
      {
        assert nodes[..i + 1] == nodes[..i] + [nodes[i]];
        TableAppend(nodes[..i], nodes[i], Compare.NodeId);
        if nodes[i].id == id {
          n := nodes[i];
        }
      }
      assert nodes[..|nodes|] == nodes;
    }

    /** A filter's node and, when it binds values, its slot. */
    method AddTargetFilter(f: Filter, stage: string, target: string, reference: Option<string>, source: Option<string>)
      returns (id: string)
      requires Valid() && target in table
      requires if stage == "having" then IsField(table[target]) || IsDerived(table[target]) else IsRow(table[target])
      modifies this
      ensures Valid() && Grows(old(Current()), Current())
      ensures id !in old(table) && table == old(table)[id := FilterNode(id, f, stage, target, reference, source, |old(bindings)| + 1)]
      ensures Arity(f) > 0 ==> slots == old(slots)[Name('b', |old(bindings)| + 1) :=
                FilterBinding(f, stage, reference, |old(bindings)| + 1)]
      ensures Arity(f) == 0 ==> slots == old(slots)
    {
      hide Inv, Extends, Name, NodeOk;
      ghost var before := Current();
      var k := |bindings| + 1;
      GrowsSelf(before);
      if Arity(f) > 0 {
        AddBinding(FilterBinding(f, stage, reference, k));
      }
      ghost var middle := Current();
      var n := FilterNode(Name('n', next), f, stage, target, reference, source, k);
      InvIsNumbered(middle);
      FilterNodeOk(middle, n, target);
      id := AddNode(n);
      GrowsTrans(before, middle, Current());
    }

    method AddFilter(f: Filter) returns (r: Result<string, string>)
      requires Valid()
      modifies this
      ensures r.Ok? <==> Resolve(resolver, f.dimension).Some?
      ensures r.Ok? ==> Valid() && Grows(old(Current()), Current())
      ensures r.Ok? ==> Describes(table, slots, r.value, FilterDesc(f, Resolve(resolver, f.dimension).value, "where"))
    {
      hide Inv, Extends, Name, Resolve, Describes;
      var found := Resolve(resolver, f.dimension);
      if found.None? {
        return Err(f.dimension);
      }
      var field := found.value;
      ghost var before := Current();
      var target := AddPredicateField(field);
      ghost var middle := Current();
      DescribesRow(table, slots, target, RowFieldDesc(field));
      var id := AddTargetFilter(f, "where", target, Some(Canonical(field)), Some(field.cube));
      GrowsTrans(before, middle, Current());
      DescribesGrows(middle, Current(), target, RowFieldDesc(field));
      FilterDescribed(Current(), f, field, target, id, |middle.bindings| + 1);
      return Ok(id);
    }

    method AddBool(e: Expr) returns (r: Result<string, string>)
      requires Valid()
      modifies this
      ensures r.Ok? <==> Resolves(resolver, e)
      ensures r.Ok? ==> Valid() && Grows(old(Current()), Current())
      ensures r.Ok? ==> Describes(table, slots, r.value, ExprDesc(resolver, e, "where"))
      decreases e, 0
    {
      hide Inv, Extends, Name, Resolve, Describes, FilterDesc;
      match e {
        case Leaf(f) => r := AddFilter(f);
        case Node(op, cs) =>
          ghost var before := Current();
          var children := AddBools(cs);
          if children.Err? {
            return Err(children.error);
          }
          ghost var middle := Current();
          var id := AddJunction(op, children.value, ExprDescs(resolver, cs, "where"));
          GrowsTrans(before, middle, Current());
          return Ok(id);
      }
    }

    method AddBools(es: seq<Expr>) returns (r: Result<seq<string>, string>)
      requires Valid()
      modifies this
      ensures r.Ok? <==> forall e | e in es :: Resolves(resolver, e)
      ensures r.Ok? ==> Valid() && Grows(old(Current()), Current())
      ensures r.Ok? ==> DescribeAll(table, slots, r.value, ExprDescs(resolver, es, "where"))
      decreases es, 1
    {
      hide Inv, Extends, Describes, Resolve, ExprDesc;
      ghost var before := Current();
      GrowsSelf(before);
      if es == [] {
        return Ok([]);
      }
      assert forall e :: e in es <==> e == es[0] || e in es[1..];
      var first := AddBool(es[0]);
      if first.Err? {
        return Err(first.error);
      }
      ghost var middle := Current();
      var rest := AddBools(es[1..]);
      if rest.Err? {
        return Err(rest.error);
      }
      GrowsTrans(before, middle, Current());
      DescribesGrows(middle, Current(), first.value, ExprDesc(resolver, es[0], "where"));
      return Ok([first.value] + rest.value);
    }

    /** An AND / OR / NOT node over predicate nodes already added. */
    method AddJunction(op: BoolOp, operands: seq<string>, ghost descs: seq<Desc>) returns (id: string)
      requires Valid() && DescribeAll(table, slots, operands, descs)
      modifies this
      ensures Valid() && Grows(old(Current()), Current())
      ensures Describes(table, slots, id, BoolDesc(op, "where", descs))
    {
      hide Inv, Extends, Name, Describes, NodeOk;
      var n := SemanticNode(Name('n', next), "predicate", None, Some(BoolName(op)), Some("where"),
                            operands, None, [], None, [], "");
      ghost var before := Current();
      InvIsNumbered(before);
      JunctionOk(before, n, descs);
      id := AddNode(n);
      DescribeAllGrows(before, Current(), operands, descs);
      JunctionDescribed(Current(), op, operands, descs, id);
    }
  }

  /** The nodes of references in use. */
  ghost predicate NodesOfRefs(ids: map<string, string>, refs: seq<string>, nodes: seq<string>) {
    |nodes| == |refs| && forall i | 0 <= i < |refs| :: refs[i] in ids && nodes[i] == ids[refs[i]]
  }

  function FilterNode(id: string, f: Filter, stage: string, target: string, reference: Option<string>, source: Option<string>, k: nat): SemanticNode {
    SemanticNode(id, "predicate", reference, Some(OpName(f.op)), Some(stage), [target], None,
                 if Arity(f) > 0 then [Name('b', k)] else [], source, [], "")
  }

  function FilterBinding(f: Filter, stage: string, reference: Option<string>, k: nat): Binding {
    Binding(Name('b', k), "filter_value", reference, Some(OpName(f.op)), Some(stage), Some(Arity(f)))
  }

  ghost predicate DescribeAll(t: map<string, SemanticNode>, slots: map<string, Binding>, ids: seq<string>, ds: seq<Desc>) {
    |ids| == |ds| && forall i | 0 <= i < |ids| :: Describes(t, slots, ids[i], ds[i])
  }

  lemma DescribeAllGrows(d: Draft, e: Draft, ids: seq<string>, ds: seq<Desc>)
    requires DescribeAll(d.table, d.slots, ids, ds) && Extends(d, e)
    ensures DescribeAll(e.table, e.slots, ids, ds)
  {
    forall i | 0 <= i < |ids| ensures Describes(e.table, e.slots, ids[i], ds[i]) {
      DescribesGrows(d, e, ids[i], ds[i]);
    }
  }

  lemma DescribesRow(t: map<string, SemanticNode>, slots: map<string, Binding>, id: string, d: Desc)
    requires Describes(t, slots, id, d)
    ensures id in t && IsRow(t[id])
  {
  }

  lemma FilterNodeOk(d: Draft, n: SemanticNode, target: string)
    requires Numbered(d) && n.id == Name('n', d.next) && n.operands == [target] && target in d.table
    requires n.population.None? && forall s | s in n.bindings :: s in d.slots
    requires if n.stage == Some("having") then IsField(d.table[target]) || IsDerived(d.table[target]) else IsRow(d.table[target])
    ensures NodeOk(d, n)
  {
    CounterOfName('n', d.next);
    assert Made(target, d.next);
  }

  lemma FilterDescribed(d: Draft, f: Filter, field: Field, target: string, id: string, k: nat)
    requires Describes(d.table, d.slots, target, RowFieldDesc(field)) && id in d.table
    requires d.table[id] == FilterNode(id, f, "where", target, Some(Canonical(field)), Some(field.cube), k)
    requires Arity(f) > 0 ==> Name('b', k) in d.slots && d.slots[Name('b', k)] == FilterBinding(f, "where", Some(Canonical(field)), k)
    ensures Describes(d.table, d.slots, id, FilterDesc(f, field, "where"))
  {
    hide Name;
    if Arity(f) > 0 {
      assert OfBindings(d.slots, [Name('b', k)]) == [OfBinding(d.slots[Name('b', k)])];
    } else {
      assert OfBindings(d.slots, []) == [];
    }
  }

  lemma JunctionOk(d: Draft, n: SemanticNode, ds: seq<Desc>)
    requires Numbered(d) && n.id == Name('n', d.next) && DescribeAll(d.table, d.slots, n.operands, ds)
    requires n.population.None? && n.stage == Some("where") && n.bindings == []
    ensures NodeOk(d, n)
  {
    CounterOfName('n', d.next);
    forall o | o in n.operands ensures o in d.table && IsRow(d.table[o]) && Counter(o) < d.next {
      var i :| 0 <= i < |n.operands| && n.operands[i] == o;
      DescribesRow(d.table, d.slots, n.operands[i], ds[i]);
      assert Made(o, d.next);
    }
  }

  lemma JunctionDescribed(d: Draft, op: BoolOp, operands: seq<string>, ds: seq<Desc>, id: string)
    requires DescribeAll(d.table, d.slots, operands, ds) && id in d.table
    requires d.table[id] == SemanticNode(id, "predicate", None, Some(BoolName(op)), Some("where"), operands, None, [], None, [], "")
    ensures Describes(d.table, d.slots, id, BoolDesc(op, "where", ds))
  {
    assert OfBindings(d.slots, []) == [];
  }

  lemma InvIsNumbered(d: Draft)
    requires Inv(d)
    ensures Numbered(d) && Linked(d)
  {
  }

  lemma TableIs(d: Draft)
    requires Inv(d)
    ensures d.table == Compare.Table(d.nodes, Compare.NodeId)
  {
  }

  lemma SameKeys(d: Draft)
    requires Inv(d)
    ensures d.ids.Keys == d.book.target.Keys
  {
  }

  lemma PendingUsed(d: Draft)
    requires Inv(d)
    ensures d.pending <= d.ids.Keys
  {
    OwnersUsed(d);
  }

  lemma KeepsField(d: Draft, e: Draft, ref: string)
    requires Extends(d, e) && ref in d.ids
    ensures ref in e.ids && e.ids[ref] == d.ids[ref]
    ensures ref in d.book.owner ==> ref in e.book.owner && e.book.owner[ref] == d.book.owner[ref]
  {
  }

  lemma FieldStands(style: Style, id: string, f: Field, ids: map<string, string>, operands: seq<string>)
    requires NodesOfRefs(ids, OperandRefs(f), operands)
    ensures StandsFor(style, f, ids, FieldNode(style, id, f, operands))
  {
  }

  lemma FewerLeft(fields: Registry, used: set<string>, more: set<string>)
    requires used <= more
    ensures Canonicals(fields) - more <= Canonicals(fields) - used
  {
  }

  /** Reserved, supplied with operands and settled, a field has only added nodes. */
  lemma ReservedGains(before: Draft, reserved: Draft, ready: Draft, settled: Draft, c: string)
    requires Extends(before, reserved) && GainsFields(reserved, ready) && Extends(ready, settled)
    requires c !in before.pending && reserved.pending == before.pending + {c} && settled.pending == ready.pending - {c}
    requires reserved.bindings == before.bindings && reserved.slots == before.slots
    requires settled.bindings == ready.bindings && settled.slots == ready.slots
    ensures GainsFields(before, settled)
  {
    hide Extends;
    ExtendsTrans(before, reserved, ready);
    ExtendsTrans(before, ready, settled);
  }
}
