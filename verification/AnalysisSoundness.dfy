/**
  What holds of every analysis the builder returns: its graph is closed, its
  layers only read downwards, and the reader accepts it exactly when the ratio
  measures it uses bottom out.
*/
module AnalysisSoundness {
  import opened Sequences
  import opened Wrappers
  import opened SemanticGraph
  import opened Naming
  import opened AnalysisDraft
  import opened GraphReader
  import opened AnalysisBuilder
  import opened AnalysisAssembly
  import opened AnalysisResult
  import opened AnalysisBuild
  import Compare

  // ------------------------------------------------------------------- layers

  /** The reader's tables over a finished draft and its one population. */
  ghost predicate Layered(d: Draft, t: Tables) {
    && Inv(d) && d.pending == {}
    && t.nodes == d.table && t.bindings == d.slots
    && t.populations.Keys == {"p1"} && AllRows(d.table, t.populations["p1"].predicates)
  }

  lemma BuiltIsLayered(d: Draft, a: Analysis, private: Option<map<string, string>>)
    requires BuiltFrom(d, a)
    ensures Layered(d, Compare.TablesOf(a, private))
  {
    hide OutcomeOk, Numbered, NodesOk, Booked;
    var p := a.populations[0];
    assert a.populations == [p] && a.populations[..0] == [];
    assert Compare.Table(a.populations, Compare.PopulationId) == map["p1" := p];
  }

  /** Row nodes, then the population, then fields, computed nodes and post-aggregate predicates. */
  function Stratum(t: Tables, key: Key): nat {
    match key
    case PopulationKey(_) => 1
    case NodeKey(id) =>
      if id !in t.nodes || IsRow(t.nodes[id]) then 0
      else if IsField(t.nodes[id]) then 2
      else if IsDerived(t.nodes[id]) then 3
      else 4
  }

  /** One ratio measure in use reads another field, by the names of their nodes. */
  ghost predicate RatioEdge(book: Book, x: string, y: string) {
    x in book.owner && y in book.owner && exists o | o in OperandRefs(book.owner[x]) :: o in book.target && book.target[o] == y
  }

  ghost predicate RatioPath(book: Book, p: seq<string>) {
    |p| > 0 && forall i | 0 <= i < |p| - 1 :: RatioEdge(book, p[i], p[i + 1])
  }

  /** No ratio measure in use reaches itself through its operands. */
  ghost predicate RatiosBottomOut(book: Book) {
    forall p | RatioPath(book, p) && |p| >= 2 :: p[0] != p[|p| - 1]
  }

  /** What one step from a key to a key it reads may do. */
  ghost predicate Downward(book: Book, t: Tables, key: Key, child: Key) {
    && key in KeysOf(t) && Present(t, child) && Stratum(t, child) <= Stratum(t, key)
    && (Stratum(t, child) == Stratum(t, key) ==>
          key.NodeKey? && child.NodeKey? &&
          match Stratum(t, key)
          case 0 => Counter(child.id) < Counter(key.id)
          case 2 => t.nodes[key.id].catalogRef.Some? && t.nodes[child.id].catalogRef.Some? &&
                    RatioEdge(book, t.nodes[key.id].catalogRef.value, t.nodes[child.id].catalogRef.value)
          case 3 => Counter(child.id) < Counter(key.id)
          case _ => false)
  }

  lemma KeysPresent(d: Draft, t: Tables, key: Key)
    requires Layered(d, t) && key in KeysOf(t)
    ensures Present(t, key)
  {
    if key.NodeKey? {
      assert NodeOk(d, d.table[key.id]);
    }
  }

  lemma NodeIsOk(d: Draft, t: Tables, id: string)
    requires Layered(d, t) && id in t.nodes
    ensures NodeOk(d, t.nodes[id]) && t.nodes[id].id == id
  {
  }

  lemma NodeChild(t: Tables, id: string, child: Key)
    requires id in t.nodes && child in Children(t, NodeKey(id))
    ensures (child.NodeKey? && child.id in t.nodes[id].operands) ||
            (t.nodes[id].population.Some? && child == PopulationKey(t.nodes[id].population.value))
  {
  }

  lemma OperandIsChild(t: Tables, id: string, o: string)
    requires id in t.nodes && o in t.nodes[id].operands
    ensures NodeKey(o) in Children(t, NodeKey(id))
  {
    var i :| 0 <= i < |t.nodes[id].operands| && t.nodes[id].operands[i] == o;
    assert Children(t, NodeKey(id))[i] == NodeKey(o);
  }

  /** A field node stands for the field of its own name, and its operands are the nodes of the references that field names. */
  lemma FieldOperand(d: Draft, t: Tables, id: string)
    requires Layered(d, t) && id in t.nodes && IsField(t.nodes[id])
    ensures t.nodes[id].catalogRef.Some?
    ensures var x := t.nodes[id].catalogRef.value;
            x in d.book.owner && x in d.ids && d.ids[x] == id && StandsFor(d.style, d.book.owner[x], d.ids, t.nodes[id])
  {
    hide IsField, IsRow, IsDerived, IsHaving, RowOperands, DerivedOperands, HavingOperands, Made;
    NodeIsOk(d, t, id);
    var c :| c in d.book.owner && c in d.ids && d.ids[c] == id;
    assert OwnerOk(d, c);
  }

  /** The node of a name in use. */
  lemma OwnedNode(d: Draft, c: string)
    requires Inv(d) && d.pending == {} && c in d.book.owner
    ensures c in d.ids && d.ids[c] in d.table && IsField(d.table[d.ids[c]]) && d.table[d.ids[c]].catalogRef == Some(c)
    ensures StandsFor(d.style, d.book.owner[c], d.ids, d.table[d.ids[c]])
  {
    assert OwnerOk(d, c);
  }

  lemma FieldStep(d: Draft, t: Tables, id: string, o: string)
    requires Layered(d, t) && id in t.nodes && IsField(t.nodes[id]) && o in t.nodes[id].operands
    ensures o in t.nodes && IsField(t.nodes[o]) && t.nodes[o].catalogRef.Some?
    ensures t.nodes[id].catalogRef.Some? && RatioEdge(d.book, t.nodes[id].catalogRef.value, t.nodes[o].catalogRef.value)
  {
    hide Inv, IsField, OperandRefs;
    FieldOperand(d, t, id);
    var x := t.nodes[id].catalogRef.value;
    var i :| 0 <= i < |t.nodes[id].operands| && t.nodes[id].operands[i] == o;
    var ref := OperandRefs(d.book.owner[x])[i];
    FieldSettled(d, ref);
    assert ref in OperandRefs(d.book.owner[x]);
  }

  lemma StepDown(d: Draft, t: Tables, key: Key, child: Key)
    requires Layered(d, t) && key in KeysOf(t) && child in Children(t, key)
    ensures Downward(d.book, t, key, child)
  {
    hide Inv, StandsFor, RatioEdge, Owned, Children;
    if key.PopulationKey? {
      PopulationStep(d, t, child);
    } else {
      NodeIsOk(d, t, key.id);
      NodeChild(t, key.id, child);
      if child.NodeKey? && IsField(t.nodes[key.id]) {
        FieldStep(d, t, key.id, child.id);
      }
    }
    KeysPresent(d, t, child);
  }

  lemma PopulationStep(d: Draft, t: Tables, child: Key)
    requires Layered(d, t) && child in Children(t, PopulationKey("p1"))
    ensures child.NodeKey? && child.id in t.nodes && IsRow(t.nodes[child.id])
  {
    hide Inv;
  }

  // -------------------------------------------------------- acyclic and closed

  lemma {:induction false} PathStays(d: Draft, t: Tables, p: seq<Key>, j: nat)
    requires Layered(d, t) && IsPath(t, p) && p[0] in KeysOf(t) && j < |p|
    ensures p[j] in KeysOf(t)
  {
    hide Layered, Downward, Children;
    if j > 0 {
      PathStays(d, t, p, j - 1);
      assert p[j - 1 + 1] in Children(t, p[j - 1]);
      StepDown(d, t, p[j - 1], p[j]);
      DownwardStays(d.book, t, p[j - 1], p[j]);
    }
  }

  lemma DownwardStays(book: Book, t: Tables, key: Key, child: Key)
    requires Downward(book, t, key, child)
    ensures child in KeysOf(t) && Stratum(t, child) <= Stratum(t, key)
  {
  }

  lemma {:induction false} PathFalls(d: Draft, t: Tables, p: seq<Key>, i: nat, j: nat)
    requires Layered(d, t) && IsPath(t, p) && p[0] in KeysOf(t) && i <= j < |p|
    ensures Stratum(t, p[j]) <= Stratum(t, p[i])
    decreases j
  {
    hide Layered, Downward, Children, Stratum;
    if i < j {
      PathFalls(d, t, p, i, j - 1);
      PathStep(d, t, p, j - 1);
      DownwardStays(d.book, t, p[j - 1], p[j]);
    }
  }

  lemma PathStep(d: Draft, t: Tables, p: seq<Key>, i: nat)
    requires Layered(d, t) && IsPath(t, p) && p[0] in KeysOf(t) && i + 1 < |p|
    ensures Downward(d.book, t, p[i], p[i + 1])
  {
    hide Layered, Downward, Children;
    PathStays(d, t, p, i);
    StepDown(d, t, p[i], p[i + 1]);
  }

  /** On a closed path every step stays in one layer. */
  lemma CycleIsLevel(d: Draft, t: Tables, p: seq<Key>, i: nat)
    requires Layered(d, t) && IsPath(t, p) && p[0] in KeysOf(t) && i < |p| && p[0] == p[|p| - 1]
    ensures Stratum(t, p[i]) == Stratum(t, p[0])
  {
    hide Layered, IsPath, Stratum;
    PathFalls(d, t, p, 0, i);
    PathFalls(d, t, p, i, |p| - 1);
  }

  lemma {:induction false} CounterFalls(d: Draft, t: Tables, p: seq<Key>, j: nat)
    requires Layered(d, t) && IsPath(t, p) && p[0] in KeysOf(t) && p[0] == p[|p| - 1] && j < |p|
    requires p[0].NodeKey? && Stratum(t, p[0]) in {0, 3}
    ensures p[j].NodeKey? && Counter(p[j].id) <= Counter(p[0].id) - j
  {
    hide Layered, IsPath, Stratum, KeysOf, Counter;
    if j > 0 {
      CounterFalls(d, t, p, j - 1);
      CycleIsLevel(d, t, p, j - 1);
      CycleIsLevel(d, t, p, j);
      PathStep(d, t, p, j - 1);
    }
  }

  function FieldName(t: Tables, key: Key): string {
    if key.NodeKey? && key.id in t.nodes && t.nodes[key.id].catalogRef.Some? then t.nodes[key.id].catalogRef.value else ""
  }

  function FieldNames(t: Tables, p: seq<Key>): (names: seq<string>)
    ensures |names| == |p| && forall i | 0 <= i < |p| :: names[i] == FieldName(t, p[i])
  {
    seq(|p|, i requires 0 <= i < |p| => FieldName(t, p[i]))
  }

  /** A cycle among field nodes is a ratio measure that reaches itself. */
  lemma FieldCycle(d: Draft, t: Tables, p: seq<Key>)
    requires Layered(d, t) && IsPath(t, p) && p[0] in KeysOf(t) && p[0] == p[|p| - 1] && |p| >= 2
    requires Stratum(t, p[0]) == 2
    ensures !RatiosBottomOut(d.book)
  {
    hide Layered, IsPath, KeysOf, RatioEdge;
    var names := FieldNames(t, p);
    forall i | 0 <= i < |p| - 1 ensures RatioEdge(d.book, names[i], names[i + 1]) {
      hide RatioPath;
      CycleIsLevel(d, t, p, i);
      CycleIsLevel(d, t, p, i + 1);
      PathStep(d, t, p, i);
    }
    assert RatioPath(d.book, names);
  }

  lemma NoCycle(d: Draft, t: Tables, p: seq<Key>)
    requires Layered(d, t) && RatiosBottomOut(d.book)
    requires IsPath(t, p) && p[0] in KeysOf(t) && |p| >= 2
    ensures p[0] != p[|p| - 1]
  {
    hide Layered, RatiosBottomOut, IsPath, KeysOf, Counter;
    if p[0] == p[|p| - 1] {
      PathStep(d, t, p, 0);
      CycleIsLevel(d, t, p, 1);
      if Stratum(t, p[0]) == 2 {
        FieldCycle(d, t, p);
      } else {
        CounterFalls(d, t, p, |p| - 1);
      }
    }
  }

  /** When ratio measures bottom out, everything in the graph is closed and acyclic. */
  lemma BottomingOutIsSound(d: Draft, t: Tables, key: Key)
    requires Layered(d, t) && RatiosBottomOut(d.book) && key in KeysOf(t)
    ensures Sound(t, key)
  {
    hide Layered, RatiosBottomOut, Children, KeysOf, Present;
    forall p | IsPath(t, p) && p[0] == key ensures Distinct(p) && forall x | x in p :: Present(t, x) {
      forall i, j | 0 <= i < j < |p| ensures p[i] != p[j] {
        PathStays(d, t, p, i);
        NoCycle(d, t, p[i..j + 1]);
      }
      forall x | x in p ensures Present(t, x) {
        var j :| 0 <= j < |p| && p[j] == x;
        PathStays(d, t, p, j);
        KeysPresent(d, t, x);
      }
    }
  }

  // ------------------------------------------------- a ratio cycle is a graph cycle

  /** A ratio's operand is in use, and its node is read from the ratio's. */
  lemma RatioStep(d: Draft, t: Tables, x: string, y: string)
    requires Layered(d, t) && RatioEdge(d.book, x, y)
    ensures x in d.ids && y in d.ids && NodeKey(d.ids[y]) in Children(t, NodeKey(d.ids[x]))
  {
    hide Inv, IsField, OperandRefs, Children;
    OwnedNode(d, x);
    OwnedNode(d, y);
    var id := d.ids[x];
    var o :| o in OperandRefs(d.book.owner[x]) && o in d.book.target && d.book.target[o] == y;
    var i :| 0 <= i < |OperandRefs(d.book.owner[x])| && OperandRefs(d.book.owner[x])[i] == o;
    assert t.nodes[id].operands[i] == d.ids[o];
    SameNode(d, o, y);
    OwnTarget(d, y);
    OperandIsChild(t, id, d.ids[o]);
  }

  lemma OwnTarget(d: Draft, c: string)
    requires Inv(d) && c in d.book.owner
    ensures c in d.book.target && d.book.target[c] == c
  {
    assert OwnerOk(d, c);
  }

  lemma RatioCycleIsUnsound(d: Draft, t: Tables, p: seq<string>)
    requires Layered(d, t) && RatioPath(d.book, p) && |p| >= 2 && p[0] == p[|p| - 1]
    ensures p[0] in d.ids && NodeKey(d.ids[p[0]]) in KeysOf(t) && !Sound(t, NodeKey(d.ids[p[0]]))
  {
    hide Inv, AllRows, Children, OperandRefs;
    forall i | 0 <= i < |p| ensures p[i] in d.ids && d.ids[p[i]] in d.table {
      assert RatioEdge(d.book, p[0], p[0 + 1]);
      if i < |p| - 1 {
        assert RatioEdge(d.book, p[i], p[i + 1]);
      }
      OwnedNode(d, p[i]);
    }
    var keys := seq(|p|, i requires 0 <= i < |p| => NodeKey(d.ids[p[i]]));
    forall i | 0 <= i < |keys| - 1 ensures keys[i + 1] in Children(t, keys[i]) {
      RatioStep(d, t, p[i], p[i + 1]);
    }
    assert IsPath(t, keys);
    assert keys[0] == keys[|p| - 1];
  }

  /** The graph is closed and acyclic exactly when the ratio measures in use bottom out. */
  lemma SoundIffRatiosBottomOut(d: Draft, t: Tables)
    requires Layered(d, t)
    ensures (forall key | key in KeysOf(t) :: Sound(t, key)) <==> RatiosBottomOut(d.book)
  {
    hide Layered, Sound, KeysOf, RatioPath;
    if RatiosBottomOut(d.book) {
      forall key | key in KeysOf(t) ensures Sound(t, key) {
        BottomingOutIsSound(d, t, key);
      }
    } else {
      var p :| RatioPath(d.book, p) && |p| >= 2 && p[0] == p[|p| - 1];
      RatioCycleIsUnsound(d, t, p);
    }
  }

  // ------------------------------------------------------ ratios over plain measures

  /** No operand of a ratio is a ratio: what compilation insists on before anything is built. */
  predicate OperandsArePlain(book: Book) {
    forall x | x in book.owner :: forall o | o in OperandRefs(book.owner[x]) ::
      o in book.target && book.target[o] in book.owner ==> !IsRatio(book.owner[book.target[o]])
  }

  /** Then ratios bottom out at once. */
  lemma PlainOperandsBottomOut(book: Book)
    requires OperandsArePlain(book)
    ensures RatiosBottomOut(book)
  {
    forall p | RatioPath(book, p) && |p| >= 2 ensures p[0] != p[|p| - 1] {
      assert RatioEdge(book, p[0], p[0 + 1]) && IsRatio(book.owner[p[0]]);
      assert RatioEdge(book, p[|p| - 2], p[|p| - 2 + 1]) && !IsRatio(book.owner[p[|p| - 1]]);
    }
  }

  /** A name that means a field of that name, and no ratio has it. */
  predicate PlainName(fields: Registry, o: string) {
    o in fields && Canonical(fields[o]) == o && forall g | g in fields && Canonical(fields[g]) == o :: !IsRatio(fields[g])
  }

  /** Fields in use are registered ones, and names that mean their own field are their own targets. */
  predicate BookOf(fields: Registry, book: Book) {
    && (forall c | c in book.owner :: Canonical(book.owner[c]) == c && exists g | g in fields :: fields[g] == book.owner[c])
    && forall ref | ref in book.target && ref in fields && Canonical(fields[ref]) == ref :: book.target[ref] == ref
  }

  lemma {:induction false} NoteIsOf(fields: Registry, book: Book, ref: string)
    requires BookOf(fields, book) && Note(fields, book, ref).Ok?
    ensures BookOf(fields, Note(fields, book, ref).value)
    decreases Canonicals(fields) - book.target.Keys, 1, 0
  {
    hide OperandRefs, NoteAll, Canonical;
    if ref !in book.target && Canonical(fields[ref]) !in book.target {
      NotedFewer(fields, book, ref);
      assert BookOf(fields, Noted(book, ref, fields[ref]));
      NoteAllIsOf(fields, Noted(book, ref, fields[ref]), OperandRefs(fields[ref]));
    }
  }

  lemma {:induction false} NoteAllIsOf(fields: Registry, book: Book, refs: seq<string>)
    requires BookOf(fields, book) && NoteAll(fields, book, refs).Ok?
    ensures BookOf(fields, NoteAll(fields, book, refs).value)
    decreases Canonicals(fields) - book.target.Keys, 2, |refs|
  {
    hide Note, BookOf;
    if refs != [] {
      var first := Note(fields, book, refs[0]).value;
      NoteIsOf(fields, book, refs[0]);
      assert Canonicals(fields) - first.target.Keys <= Canonicals(fields) - book.target.Keys;
      NoteAllIsOf(fields, first, refs[1..]);
    }
  }

  /** When the operands of the ratios in use are measures by their own names and no ratios, ratios bottom out. */
  lemma PlainNamesBottomOut(q: Query, r: Resolved, plan: Plan)
    requires LinedUp(q, r) && UsedBook(q, r, plan).Ok?
    requires var book := UsedBook(q, r, plan).value;
             forall x | x in book.owner :: forall o | o in OperandRefs(book.owner[x]) :: PlainName(RegistryOf(q, r), o)
    ensures OperandsArePlain(UsedBook(q, r, plan).value) && RatiosBottomOut(UsedBook(q, r, plan).value)
  {
    hide NoteAll, RegistryOf, AllRefs, OperandRefs, RatiosBottomOut;
    var fields, book := RegistryOf(q, r), UsedBook(q, r, plan).value;
    NoteAllIsOf(fields, EMPTY, AllRefs(q, r, plan));
    PlainOperandsBottomOut(book);
  }
}
