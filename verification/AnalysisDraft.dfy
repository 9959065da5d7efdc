/**
  The semantic graph while it is being built: what each kind of node may refer
  to, the steps that add nodes and binding slots, and the facts that every one
  of those steps keeps.
*/
module AnalysisDraft {
  import opened Wrappers
  import opened SemanticGraph
  import opened Naming
  import Compare

  // ------------------------------------------------------------ resolved fields

  datatype FieldKind = Measure(agg: string, operands: seq<string>) | Dimension | TimeDimension

  /** A resolved field on its cube; a ratio measure names its operands. */
  datatype Field = Field(cube: string, name: string, kind: FieldKind, details: string)

  type Registry = map<string, Field>

  function Canonical(f: Field): string {
    f.cube + "." + f.name
  }

  function NodeKind(f: Field): string {
    if f.kind.Measure? then "aggregate" else if f.kind.TimeDimension? then "time" else "dimension"
  }

  predicate IsRatio(f: Field) {
    f.kind.Measure? && f.kind.agg == "ratio"
  }

  /** The references a ratio measure is computed from, on its own cube. */
  function OperandRefs(f: Field): seq<string> {
    if IsRatio(f) then
      seq(|f.kind.operands|, i requires 0 <= i < |f.kind.operands| => f.cube + "." + f.kind.operands[i])
    else []
  }

  function Canonicals(fields: Registry): set<string> {
    set ref | ref in fields :: Canonical(fields[ref])
  }

  // ------------------------------------------------- which field a node stands for

  /**
    The references in use: the name each resolves to, and the field whose node
    has that name.  Fields of one name share the node of the first.
  */
  datatype Book = Book(target: map<string, string>, owner: map<string, Field>)

  const EMPTY := Book(map[], map[])

  function Noted(book: Book, ref: string, f: Field): Book {
    Book(book.target[Canonical(f) := Canonical(f)][ref := Canonical(f)], book.owner[Canonical(f) := f])
  }

  /** Use a reference and, when its field is new, the field's operands; or the reference nothing is registered for. */
  function Note(fields: Registry, book: Book, ref: string): (r: Result<Book, string>)
    ensures r.Ok? ==> book.target.Keys <= r.value.target.Keys && ref in r.value.target
    decreases Canonicals(fields) - book.target.Keys, 1, 0
  {
    if ref in book.target then Ok(book)
    else if ref !in fields then Err(ref)
    else if Canonical(fields[ref]) in book.target then Ok(book.(target := book.target[ref := book.target[Canonical(fields[ref])]]))
    else
      NotedFewer(fields, book, ref);
      NoteAll(fields, Noted(book, ref, fields[ref]), OperandRefs(fields[ref]))
  }

  function NoteAll(fields: Registry, book: Book, refs: seq<string>): (r: Result<Book, string>)
    ensures r.Ok? ==> book.target.Keys <= r.value.target.Keys && forall ref | ref in refs :: ref in r.value.target
    decreases Canonicals(fields) - book.target.Keys, 2, |refs|
  {
    if refs == [] then Ok(book) else
      var first := Note(fields, book, refs[0]);
      if first.Err? then first else NoteAll(fields, first.value, refs[1..])
  }

  lemma NotedFewer(fields: Registry, book: Book, ref: string)
    requires ref in fields && Canonical(fields[ref]) !in book.target
    ensures Canonicals(fields) - Noted(book, ref, fields[ref]).target.Keys < Canonicals(fields) - book.target.Keys
  {
    assert Canonical(fields[ref]) in Canonicals(fields) - book.target.Keys;
  }

  lemma {:induction false} NoteAllSplits(fields: Registry, book: Book, refs: seq<string>, more: seq<string>)
    ensures NoteAll(fields, book, refs + more) ==
            if NoteAll(fields, book, refs).Err? then NoteAll(fields, book, refs) else NoteAll(fields, NoteAll(fields, book, refs).value, more)
    decreases |refs|
  {
    hide Note;
    if refs == [] {
      assert refs + more == more;
    } else {
      assert (refs + more)[1..] == refs[1..] + more;
      var first := Note(fields, book, refs[0]);
      if first.Ok? {
        NoteAllSplits(fields, first.value, refs[1..], more);
      }
    }
  }

  /** Nothing already noted changes. */
  predicate Keeps(book: Book, more: Book) {
    && (forall ref | ref in book.target :: ref in more.target && more.target[ref] == book.target[ref])
    && (forall c | c in book.owner :: c in more.owner && more.owner[c] == book.owner[c])
  }

  predicate OwnersNoted(book: Book) {
    forall c | c in book.owner :: c in book.target
  }

  lemma {:induction false} NoteKeeps(fields: Registry, book: Book, ref: string)
    requires OwnersNoted(book) && Note(fields, book, ref).Ok?
    ensures Keeps(book, Note(fields, book, ref).value) && OwnersNoted(Note(fields, book, ref).value)
    decreases Canonicals(fields) - book.target.Keys, 1, 0
  {
    if ref !in book.target && Canonical(fields[ref]) !in book.target {
      NotedFewer(fields, book, ref);
      NoteAllKeeps(fields, Noted(book, ref, fields[ref]), OperandRefs(fields[ref]));
    }
  }

  lemma {:induction false} NoteAllKeeps(fields: Registry, book: Book, refs: seq<string>)
    requires OwnersNoted(book) && NoteAll(fields, book, refs).Ok?
    ensures Keeps(book, NoteAll(fields, book, refs).value) && OwnersNoted(NoteAll(fields, book, refs).value)
    decreases Canonicals(fields) - book.target.Keys, 2, |refs|
  {
    hide Note;
    if refs != [] {
      var first := Note(fields, book, refs[0]).value;
      NoteKeeps(fields, book, refs[0]);
      assert Canonicals(fields) - first.target.Keys <= Canonicals(fields) - book.target.Keys;
      NoteAllKeeps(fields, first, refs[1..]);
    }
  }

  /** Noting a list one reference after the other. */
  lemma NoteNext(fields: Registry, book: Book, refs: seq<string>, i: nat)
    requires i < |refs| && OwnersNoted(book) && NoteAll(fields, book, refs[..i]).Ok?
    ensures var so := NoteAll(fields, book, refs[..i]).value;
            OwnersNoted(so) && NoteAll(fields, book, refs[..i + 1]) == Note(fields, so, refs[i]) &&
            (NoteAll(fields, book, refs).Ok? ==>
               Note(fields, so, refs[i]).Ok? && Keeps(Note(fields, so, refs[i]).value, NoteAll(fields, book, refs).value))
  {
    hide Note;
    var so := NoteAll(fields, book, refs[..i]).value;
    assert refs[..i + 1] == refs[..i] + [refs[i]] && refs == refs[..i + 1] + refs[i + 1..];
    NoteAllSplits(fields, book, refs[..i], [refs[i]]);
    NoteAllSplits(fields, book, refs[..i + 1], refs[i + 1..]);
    NoteAllKeeps(fields, book, refs[..i]);
    OneNoted(fields, so, refs[i]);
    if NoteAll(fields, book, refs).Ok? {
      NoteKeeps(fields, so, refs[i]);
      NoteAllKeeps(fields, Note(fields, so, refs[i]).value, refs[i + 1..]);
    }
  }

  lemma OneNoted(fields: Registry, book: Book, ref: string)
    ensures NoteAll(fields, book, [ref]) == Note(fields, book, ref)
  {
    hide Note;
    assert [ref][1..] == [];
  }

  // -------------------------------------------------------------------- drafts

  /** What a query does to its fields: their stages, and the grain they are grouped by. */
  datatype Style = Style(ungrouped: bool, bucketed: bool, grain: seq<string>)

  function FieldStage(style: Style, f: Field): string {
    if f.kind.Measure? then "event_to_group"
    else if style.ungrouped then "row"
    else if f.kind.TimeDimension? && style.bucketed then "time_bucket"
    else "group_by"
  }

  function FieldNode(style: Style, id: string, f: Field, operands: seq<string>): SemanticNode {
    SemanticNode(id, NodeKind(f), Some(Canonical(f)), if f.kind.Measure? then Some(f.kind.agg) else None, Some(FieldStage(style, f)),
                 operands, Some("p1"), [], None, style.grain, f.details)
  }

  /**
    `ids` maps references to field nodes; `pending` names the fields whose
    identifier is taken but whose node is not yet appended.  `table` and `slots`
    are the dictionaries of the two lists.
  */
  datatype Draft = Draft(
    style: Style, next: nat, nodes: seq<SemanticNode>, bindings: seq<Binding>, ids: map<string, string>, book: Book, pending: set<string>,
    table: map<string, SemanticNode>, slots: map<string, Binding>)

  ghost predicate Linked(d: Draft) {
    && d.table == Compare.Table(d.nodes, Compare.NodeId) && |d.table| == |d.nodes|
    && d.slots == Compare.Table(d.bindings, Compare.Slot) && |d.slots| == |d.bindings|
  }

  predicate Made(id: string, next: nat) {
    1 <= Counter(id) < next && id == Name('n', Counter(id))
  }

  // Four strata, by the fields of a node.

  predicate IsRow(n: SemanticNode) {
    n.population.None? && n.stage != Some("having")
  }

  predicate IsField(n: SemanticNode) {
    n.population == Some("p1") && n.kind in {"aggregate", "dimension", "time"}
  }

  predicate IsDerived(n: SemanticNode) {
    n.population == Some("p1") && n.kind in {"arithmetic", "comparison"}
  }

  predicate IsHaving(n: SemanticNode) {
    n.population.None? && n.stage == Some("having")
  }

  ghost predicate RowOperands(t: map<string, SemanticNode>, n: SemanticNode) {
    forall o | o in n.operands :: o in t && IsRow(t[o]) && Counter(o) < Counter(n.id)
  }

  ghost predicate DerivedOperands(t: map<string, SemanticNode>, n: SemanticNode) {
    forall o | o in n.operands :: o in t && (IsField(t[o]) || (IsDerived(t[o]) && Counter(o) < Counter(n.id)))
  }

  ghost predicate HavingOperands(t: map<string, SemanticNode>, n: SemanticNode) {
    forall o | o in n.operands :: o in t && (IsField(t[o]) || IsDerived(t[o]))
  }

  /** Some field in use has its node under the identifier. */
  ghost predicate Owned(d: Draft, id: string) {
    exists c | c in d.book.owner :: c in d.ids && d.ids[c] == id
  }

  /** The node is a field's: all its attributes, and its operands' nodes. */
  ghost predicate StandsFor(style: Style, f: Field, ids: map<string, string>, n: SemanticNode) {
    && n == FieldNode(style, n.id, f, n.operands) && |n.operands| == |OperandRefs(f)|
    && forall i | 0 <= i < |n.operands| :: OperandRefs(f)[i] in ids && n.operands[i] == ids[OperandRefs(f)[i]]
  }

  ghost predicate NodeOk(d: Draft, n: SemanticNode) {
    && (forall s | s in n.bindings :: s in d.slots)
    && (IsRow(n) || IsField(n) || IsDerived(n) || IsHaving(n))
    && (IsRow(n) ==> RowOperands(d.table, n))
    && (IsDerived(n) ==> DerivedOperands(d.table, n))
    && (IsHaving(n) ==> HavingOperands(d.table, n))
    && (IsField(n) ==> Owned(d, n.id))
  }

  /** A field in use: its identifier, and its node unless that is still pending. */
  ghost predicate OwnerOk(d: Draft, c: string)
    requires c in d.book.owner
  {
    && c in d.ids && c in d.book.target && d.book.target[c] == c && Canonical(d.book.owner[c]) == c
    && Made(d.ids[c], d.next)
    && if c in d.pending then d.ids[c] !in d.table
       else d.ids[c] in d.table && StandsFor(d.style, d.book.owner[c], d.ids, d.table[d.ids[c]])
  }

  ghost predicate Targeted(ids: map<string, string>, book: Book, ref: string)
    requires ref in book.target
  {
    var c := book.target[ref];
    c in book.owner && ref in ids && c in ids && ids[ref] == ids[c]
  }

  /** Every reference in use has the node of the name it resolves to. */
  ghost predicate TargetsOk(ids: map<string, string>, book: Book) {
    forall ref | ref in book.target :: Targeted(ids, book, ref)
  }

  ghost predicate OwnersOk(d: Draft) {
    forall c | c in d.book.owner :: OwnerOk(d, c)
  }

  /** Different names in use have different nodes. */
  ghost predicate NodesApart(d: Draft) {
    forall b, c | b in d.book.owner && c in d.book.owner && b in d.ids && c in d.ids && d.ids[b] == d.ids[c] :: b == c
  }

  ghost predicate Booked(d: Draft) {
    && d.ids.Keys == d.book.target.Keys && d.pending <= d.book.owner.Keys
    && TargetsOk(d.ids, d.book) && OwnersOk(d) && NodesApart(d)
  }

  ghost predicate Numbered(d: Draft) {
    && d.next >= 1
    && (forall id | id in d.table :: Made(id, d.next) && d.table[id].id == id)
    && (forall s | s in d.slots :: 1 <= Counter(s) <= |d.bindings| && s == Name('b', Counter(s)))
  }

  ghost predicate NodesOk(d: Draft) {
    forall id | id in d.table :: NodeOk(d, d.table[id])
  }

  ghost predicate Inv(d: Draft) {
    Linked(d) && Numbered(d) && NodesOk(d) && Booked(d)
  }

  /** Nothing already in the draft changes. */
  ghost predicate Extends(d: Draft, e: Draft) {
    && d.next <= e.next && d.style == e.style
    && (forall id | id in d.table :: id in e.table && e.table[id] == d.table[id])
    && (forall s | s in d.slots :: s in e.slots && e.slots[s] == d.slots[s])
    && (forall ref | ref in d.ids :: ref in e.ids && e.ids[ref] == d.ids[ref])
    && (forall ref | ref in d.book.target :: ref in e.book.target && e.book.target[ref] == d.book.target[ref])
    && (forall c | c in d.book.owner :: c in e.book.owner && e.book.owner[c] == d.book.owner[c])
  }

  lemma ExtendsTrans(a: Draft, b: Draft, c: Draft)
    requires Extends(a, b) && Extends(b, c)
    ensures Extends(a, c)
  {
  }

  // --------------------------------------------------------------------- steps

  /** The next node identifier. */
  function Fresh(d: Draft): string {
    Name('n', d.next)
  }

  /** Take an identifier and append its node at once. */
  function Added(d: Draft, n: SemanticNode): Draft {
    d.(next := d.next + 1, nodes := d.nodes + [n], table := d.table[n.id := n])
  }

  function AddSlot(d: Draft, b: Binding): Draft {
    d.(bindings := d.bindings + [b], slots := d.slots[b.slot := b])
  }

  lemma TableAppend<T>(xs: seq<T>, x: T, id: T -> string)
    ensures Compare.Table(xs + [x], id) == Compare.Table(xs, id)[id(x) := x]
  {
    assert (xs + [x])[..|xs|] == xs;
  }

  lemma NodeOkGrows(d: Draft, e: Draft, n: SemanticNode)
    requires NodeOk(d, n) && Extends(d, e)
    ensures NodeOk(e, n)
  {
    if IsField(n) {
      var c :| c in d.book.owner && c in d.ids && d.ids[c] == n.id;
      assert c in e.book.owner && e.ids[c] == n.id;
    }
  }

  lemma NodesOkGrows(d: Draft, e: Draft)
    requires NodesOk(d) && Extends(d, e)
    requires forall id | id in e.table && id !in d.table :: NodeOk(e, e.table[id])
    ensures NodesOk(e)
  {
    forall id | id in e.table ensures NodeOk(e, e.table[id]) {
      if id in d.table {
        NodeOkGrows(d, e, d.table[id]);
      }
    }
  }

  lemma StandsGrows(style: Style, f: Field, ids: map<string, string>, more: map<string, string>, n: SemanticNode)
    requires StandsFor(style, f, ids, n) && forall ref | ref in ids :: ref in more && more[ref] == ids[ref]
    ensures StandsFor(style, f, more, n)
  {
  }

  lemma FreshIsNew(d: Draft)
    requires Numbered(d)
    ensures Fresh(d) !in d.table && Made(Fresh(d), d.next + 1) && Counter(Fresh(d)) == d.next
    ensures forall id | Made(id, d.next) :: id != Fresh(d)
  {
    CounterOfName('n', d.next);
  }

  /** Steps that use no new reference and settle nothing keep the book in order. */
  lemma BookedStays(d: Draft, e: Draft)
    requires Booked(d) && Extends(d, e)
    requires e.ids == d.ids && e.pending == d.pending && e.book == d.book
    requires forall id | id in e.table && id !in d.table :: !Made(id, d.next)
    ensures Booked(e)
  {
    hide StandsFor, Name, Counter;
    forall c | c in e.book.owner ensures OwnerOk(e, c) {
      assert OwnerOk(d, c);
    }
  }

  lemma SlotNumbered(d: Draft, b: Binding)
    requires Linked(d) && Numbered(d) && b.slot == Name('b', |d.bindings| + 1)
    ensures Linked(AddSlot(d, b)) && Numbered(AddSlot(d, b)) && Extends(d, AddSlot(d, b))
  {
    TableAppend(d.bindings, b, Compare.Slot);
    CounterOfName('b', |d.bindings| + 1);
    assert b.slot !in d.slots;
  }

  lemma AddSlotKeeps(d: Draft, b: Binding)
    requires Inv(d) && b.slot == Name('b', |d.bindings| + 1)
    ensures Inv(AddSlot(d, b)) && Extends(d, AddSlot(d, b))
  {
    hide Booked, NodeOk;
    var e := AddSlot(d, b);
    SlotNumbered(d, b);
    assert NodesOk(e) by { NodesOkGrows(d, e); }
    assert Booked(e) by { BookedStays(d, e); }
  }

  lemma AddedNumbered(d: Draft, n: SemanticNode)
    requires Linked(d) && Numbered(d) && n.id == Fresh(d)
    ensures Linked(Added(d, n)) && Numbered(Added(d, n)) && Extends(d, Added(d, n)) && n.id !in d.table && !Made(n.id, d.next)
  {
    FreshIsNew(d);
    TableAppend(d.nodes, n, Compare.NodeId);
  }

  /** Appending a node with operands it may have. */
  lemma AddedKeeps(d: Draft, n: SemanticNode)
    requires Inv(d) && n.id == Fresh(d) && NodeOk(d, n)
    ensures Inv(Added(d, n)) && Extends(d, Added(d, n)) && n.id !in d.table
  {
    hide Booked, Linked, Numbered, NodeOk, Name, Counter, Made;
    var e := Added(d, n);
    AddedNumbered(d, n);
    assert NodesOk(e) by {
      NodeOkGrows(d, e, n);
      NodesOkGrows(d, e);
    }
    assert Booked(e) by { BookedStays(d, e); }
  }

  /** Using a new field: its identifier is taken and its node pending. */
  function Reserve(d: Draft, ref: string, f: Field): Draft {
    var id := Fresh(d);
    d.(next := d.next + 1, ids := d.ids[Canonical(f) := id][ref := id], book := Noted(d.book, ref, f), pending := d.pending + {Canonical(f)})
  }

  lemma OwnersUsed(d: Draft)
    requires OwnersOk(d)
    ensures forall c | c in d.book.owner :: c in d.ids
  {
    forall c | c in d.book.owner ensures c in d.ids {
      assert OwnerOk(d, c);
    }
  }

  lemma ReserveExtends(d: Draft, ref: string, f: Field)
    requires Numbered(d) && d.ids.Keys == d.book.target.Keys && ref !in d.ids && Canonical(f) !in d.ids && Canonical(f) !in d.book.owner
    ensures Extends(d, Reserve(d, ref, f)) && Numbered(Reserve(d, ref, f))
  {
    hide Canonical, Name, Counter;
  }

  lemma ReserveOwners(d: Draft, ref: string, f: Field)
    requires Numbered(d) && OwnersOk(d) && Extends(d, Reserve(d, ref, f)) && ref !in d.ids && Canonical(f) !in d.ids && Canonical(f) !in d.book.owner
    ensures OwnersOk(Reserve(d, ref, f)) && (NodesApart(d) ==> NodesApart(Reserve(d, ref, f)))
  {
    hide StandsFor, Name, Counter, Canonical;
    var e := Reserve(d, ref, f);
    FreshIsNew(d);
    forall c | c in e.book.owner ensures OwnerOk(e, c) {
      if c in d.book.owner {
        assert OwnerOk(d, c);
        if c !in d.pending {
          StandsGrows(d.style, d.book.owner[c], d.ids, e.ids, d.table[d.ids[c]]);
        }
      }
    }
    if NodesApart(d) {
      ReserveApart(d, ref, f);
    }
  }

  lemma ReserveApart(d: Draft, ref: string, f: Field)
    requires NodesApart(d) && Numbered(d) && OwnersOk(d) && ref !in d.ids && Canonical(f) !in d.ids
    ensures NodesApart(Reserve(d, ref, f))
  {
    hide StandsFor, Name, Counter, Canonical;
    var e := Reserve(d, ref, f);
    FreshIsNew(d);
    forall b, c | b in e.book.owner && c in e.book.owner && b in e.ids && c in e.ids && e.ids[b] == e.ids[c] ensures b == c {
      if b in d.book.owner { assert OwnerOk(d, b); }
      if c in d.book.owner { assert OwnerOk(d, c); }
    }
  }

  lemma NotedTargets(ids: map<string, string>, book: Book, ref: string, f: Field, id: string)
    requires TargetsOk(ids, book) && ids.Keys == book.target.Keys && ref !in ids && Canonical(f) !in ids
    ensures TargetsOk(ids[Canonical(f) := id][ref := id], Noted(book, ref, f))
  {
    hide Canonical;
    var more, noted := ids[Canonical(f) := id][ref := id], Noted(book, ref, f);
    forall r | r in noted.target ensures Targeted(more, noted, r) {
      if r in book.target {
        assert Targeted(ids, book, r);
      }
    }
  }

  lemma ReserveKeeps(d: Draft, ref: string, f: Field)
    requires Inv(d) && ref !in d.ids && Canonical(f) !in d.ids
    ensures Inv(Reserve(d, ref, f)) && Extends(d, Reserve(d, ref, f))
  {
    hide Extends, Numbered, NodeOk, OwnersOk, TargetsOk, NodesApart, Canonical, Name;
    var e := Reserve(d, ref, f);
    OwnersUsed(d);
    ReserveExtends(d, ref, f);
    ReserveOwners(d, ref, f);
    NotedTargets(d.ids, d.book, ref, f, Fresh(d));
    NodesOkGrows(d, e);
  }

  /** Another reference to a name already in use. */
  function WithAlias(d: Draft, ref: string, c: string): Draft
    requires c in d.ids && c in d.book.target
  {
    d.(ids := d.ids[ref := d.ids[c]], book := d.book.(target := d.book.target[ref := d.book.target[c]]))
  }

  lemma AliasTargets(ids: map<string, string>, book: Book, ref: string, c: string)
    requires TargetsOk(ids, book) && ids.Keys == book.target.Keys && ref !in ids && c in ids
    ensures TargetsOk(ids[ref := ids[c]], book.(target := book.target[ref := book.target[c]]))
  {
    var more, noted := ids[ref := ids[c]], book.(target := book.target[ref := book.target[c]]);
    forall r | r in noted.target ensures Targeted(more, noted, r) {
      assert Targeted(ids, book, if r == ref then c else r);
    }
  }

  lemma AliasOwners(d: Draft, ref: string, c: string)
    requires OwnersOk(d) && ref !in d.ids && c in d.ids && c in d.book.target && ref !in d.book.target
    ensures OwnersOk(WithAlias(d, ref, c)) && (NodesApart(d) ==> NodesApart(WithAlias(d, ref, c)))
  {
    hide StandsFor, Made, Canonical;
    var e := WithAlias(d, ref, c);
    OwnersUsed(d);
    forall x | x in e.book.owner ensures OwnerOk(e, x) {
      assert OwnerOk(d, x);
      if x !in d.pending {
        StandsGrows(d.style, d.book.owner[x], d.ids, e.ids, d.table[d.ids[x]]);
      }
    }
  }

  lemma AliasExtends(d: Draft, ref: string, c: string)
    requires ref !in d.ids && c in d.ids && c in d.book.target && ref !in d.book.target
    ensures Extends(d, WithAlias(d, ref, c))
  {
  }

  lemma AliasKeeps(d: Draft, ref: string, c: string)
    requires Inv(d) && ref !in d.ids && c in d.ids && c in d.book.target
    ensures Inv(WithAlias(d, ref, c)) && Extends(d, WithAlias(d, ref, c))
  {
    hide OwnersOk, TargetsOk, NodesApart, NodeOk, Extends;
    AliasExtends(d, ref, c);
    AliasTargets(d.ids, d.book, ref, c);
    AliasOwners(d, ref, c);
    NodesOkGrows(d, WithAlias(d, ref, c));
  }

  /** A pending field's node is appended. */
  function Settle(d: Draft, c: string, n: SemanticNode): Draft {
    d.(nodes := d.nodes + [n], table := d.table[n.id := n], pending := d.pending - {c})
  }

  lemma SettleNumbered(d: Draft, c: string, n: SemanticNode)
    requires Linked(d) && Numbered(d) && Made(n.id, d.next) && n.id !in d.table
    ensures Linked(Settle(d, c, n)) && Numbered(Settle(d, c, n)) && Extends(d, Settle(d, c, n))
  {
    hide Name, Counter;
    TableAppend(d.nodes, n, Compare.NodeId);
  }

  lemma SettleNodes(d: Draft, c: string, n: SemanticNode)
    requires NodesOk(d) && Extends(d, Settle(d, c, n)) && c in d.book.owner && c in d.ids && n.id == d.ids[c]
    requires StandsFor(d.style, d.book.owner[c], d.ids, n) && n.id !in d.table
    ensures NodesOk(Settle(d, c, n))
  {
    hide Extends;
    var e := Settle(d, c, n);
    assert Owned(e, n.id);
    NodesOkGrows(d, e);
  }

  lemma SettleBooked(d: Draft, c: string, n: SemanticNode)
    requires Booked(d) && c in d.pending && c in d.ids && n.id == d.ids[c] && StandsFor(d.style, d.book.owner[c], d.ids, n)
    ensures Booked(Settle(d, c, n))
  {
    hide StandsFor, Name, Counter, Canonical;
    var e := Settle(d, c, n);
    forall x | x in e.book.owner ensures OwnerOk(e, x) {
      assert OwnerOk(d, x);
    }
  }

  lemma SettleKeeps(d: Draft, c: string, n: SemanticNode)
    requires Inv(d) && c in d.pending && c in d.ids && n.id == d.ids[c] && StandsFor(d.style, d.book.owner[c], d.ids, n)
    ensures Inv(Settle(d, c, n)) && Extends(d, Settle(d, c, n))
  {
    hide StandsFor, Linked, Numbered, NodesOk, Extends, Made;
    assert OwnerOk(d, c);
    SettleNumbered(d, c, n);
    SettleNodes(d, c, n);
    SettleBooked(d, c, n);
  }

  /** Once nothing is pending, every reference in use has its field's node. */
  lemma FieldSettled(d: Draft, ref: string)
    requires Inv(d) && d.pending == {} && ref in d.ids
    ensures ref in d.book.target && d.book.target[ref] in d.book.owner && d.ids[ref] in d.table
    ensures StandsFor(d.style, d.book.owner[d.book.target[ref]], d.ids, d.table[d.ids[ref]]) && IsField(d.table[d.ids[ref]])
    ensures Canonical(d.book.owner[d.book.target[ref]]) == d.book.target[ref]
  {
    assert Targeted(d.ids, d.book, ref);
    assert OwnerOk(d, d.book.target[ref]);
  }

  /** Two references share a node exactly when they resolve to one name. */
  lemma SameNode(d: Draft, ref: string, other: string)
    requires Inv(d) && ref in d.ids && other in d.ids
    ensures ref in d.book.target && other in d.book.target
    ensures d.ids[ref] == d.ids[other] <==> d.book.target[ref] == d.book.target[other]
  {
    assert Targeted(d.ids, d.book, ref) && Targeted(d.ids, d.book, other);
  }
}
