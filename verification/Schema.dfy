/** Projecting a JSON Schema with local definitions to a strict one. */
module Schema {

  /*
    Tuple schemas are rewritten to plain arrays, definitions that take part in a
    reference cycle are removed together with the properties that reach them, and
    definitions left unreachable are pruned.
  */

  import opened Sequences
  import opened Wrappers

  /** The keyword through which a subschema hangs off its parent object. */
  datatype Keyword =
    | Property(name: string) | Items | PrefixItem | AnyOf | OneOf | AllOf
    | Other(keyword: string)

  /** A schema object: its place, its local reference, required names and subschemas. */
  datatype Node = Node(place: Keyword, ref: Option<string>, required: seq<string>, children: seq<Node>)

  /** A document: the root without its definitions, and the definitions. */
  datatype Document = Document(root: Node, defs: map<string, Node>)

  // ------------------------------------------------------------- references

  function OwnRef(n: Node): set<string> {
    match n.ref case Some(name) => {name} case None => {}
  }

  /** Every definition name referenced anywhere inside a schema. */
  function Refs(n: Node): set<string>
    decreases n, 0
  {
    OwnRef(n) + RefsOf(n.children)
  }

  function RefsOf(ns: seq<Node>): set<string>
    decreases ns, 1
  {
    if ns == [] then {} else Refs(ns[0]) + RefsOf(ns[1..])
  }

  lemma {:induction false} RefsOfMember(ns: seq<Node>)
    ensures forall name :: name in RefsOf(ns) <==> exists n | n in ns :: name in Refs(n)
  {
    if ns != [] {
      RefsOfMember(ns[1..]);
      assert ns == [ns[0]] + ns[1..];
      assert RefsOf(ns) == Refs(ns[0]) + RefsOf(ns[1..]);
      forall name ensures name in RefsOf(ns) <==> exists n | n in ns :: name in Refs(n) {
        if name in RefsOf(ns[1..]) {
          var n :| n in ns[1..] && name in Refs(n);
          assert n in ns;
        }
      }
    }
  }

  lemma RefsOfCons(n: Node, ns: seq<Node>)
    ensures RefsOf([n] + ns) == Refs(n) + RefsOf(ns)
  {
    assert ([n] + ns)[1..] == ns;
  }

  type Graph = map<string, set<string>>

  function Edges(defs: map<string, Node>): Graph {
    map name | name in defs :: Refs(defs[name])
  }

  function Successors(g: Graph, name: string): set<string> {
    if name in g then g[name] else {}
  }

  // ------------------------------------------------------------ cycle search

  /** The search inside `_cyclic_def_names`: it never goes on from a name it has passed. */
  predicate Reaches(g: Graph, node: string, target: string, seen: set<string>)
    decreases g.Keys - seen
  {
    if node == target && seen != {} then true
    else if node in seen then false
    else exists next | next in Successors(g, node) :: Reaches(g, next, target, seen + {node})
  }

  function CyclicDefNames(g: Graph): set<string> {
    set name | name in g && exists next | next in g[name] :: Reaches(g, next, name, {})
  }

  predicate IsPath(g: Graph, p: seq<string>) {
    |p| > 0 && forall i | 0 <= i < |p| - 1 :: p[i + 1] in Successors(g, p[i])
  }

  ghost predicate PathBetween(g: Graph, p: seq<string>, from: string, to: string) {
    IsPath(g, p) && p[0] == from && p[|p| - 1] == to
  }

  /** A definition lies on a cycle when a path of at least one edge leads back to it. */
  ghost predicate OnCycle(g: Graph, name: string) {
    exists p :: |p| >= 2 && PathBetween(g, p, name, name)
  }

  lemma PathTail(g: Graph, p: seq<string>)
    requires IsPath(g, p) && |p| >= 2
    ensures IsPath(g, p[1..])
  {
    forall i | 0 <= i < |p| - 2 ensures p[1..][i + 1] in Successors(g, p[1..][i]) {
      assert p[i + 1 + 1] in Successors(g, p[i + 1]);
    }
  }

  lemma PathCons(g: Graph, a: string, p: seq<string>)
    requires IsPath(g, p) && p[0] in Successors(g, a)
    ensures IsPath(g, [a] + p)
  {
    var q := [a] + p;
    forall i | 0 <= i < |q| - 1 ensures q[i + 1] in Successors(g, q[i]) {
      if i > 0 {
        assert p[i - 1 + 1] in Successors(g, p[i - 1]);
      }
    }
  }

  lemma {:induction false} ReachesGivesPath(g: Graph, node: string, target: string, seen: set<string>) returns (p: seq<string>)
    requires Reaches(g, node, target, seen)
    ensures PathBetween(g, p, node, target)
    decreases g.Keys - seen
  {
    if node == target && seen != {} {
      p := [node];
    } else {
      var next :| next in Successors(g, node) && Reaches(g, next, target, seen + {node});
      var q := ReachesGivesPath(g, next, target, seen + {node});
      PathCons(g, node, q);
      p := [node] + q;
    }
  }

  /** The search finds every path whose inner nodes are new and distinct. */
  lemma {:induction false} SimplePathIsFound(g: Graph, p: seq<string>, target: string, seen: set<string>)
    requires IsPath(g, p) && p[|p| - 1] == target
    requires Distinct(p[..|p| - 1]) && forall i | 0 <= i < |p| - 1 :: p[i] !in seen
    requires |p| >= 2 || seen != {}
    ensures Reaches(g, p[0], target, seen)
    decreases |p|
  {
    if !(p[0] == target && seen != {}) {
      var q := p[1..];
      PathTail(g, p);
      assert p[0 + 1] in Successors(g, p[0]);
      forall i, j | 0 <= i < j < |q| - 1 ensures q[i] != q[j] {
        assert p[..|p| - 1][i + 1] != p[..|p| - 1][j + 1];
      }
      forall i | 0 <= i < |q| - 1 ensures q[i] !in seen + {p[0]} {
        assert p[..|p| - 1][0] != p[..|p| - 1][i + 1];
      }
      SimplePathIsFound(g, q, target, seen + {p[0]});
    }
  }

  /** A path can be cut down until its inner nodes are distinct. */
  lemma {:induction false} Shorten(g: Graph, p: seq<string>) returns (q: seq<string>)
    requires IsPath(g, p) && |p| >= 2
    ensures IsPath(g, q) && |q| >= 2 && q[0] == p[0] && q[|q| - 1] == p[|p| - 1]
    ensures Distinct(q[..|q| - 1])
    decreases |p|
  {
    if Distinct(p[..|p| - 1]) {
      q := p;
    } else {
      var i, j :| 0 <= i < j < |p| - 1 && p[..|p| - 1][i] == p[..|p| - 1][j];
      var r := p[..i] + p[j..];
      forall k | 0 <= k < |r| - 1 ensures r[k + 1] in Successors(g, r[k]) {
        if k < i {
          assert p[k + 1] in Successors(g, p[k]);
        } else {
          assert p[k + (j - i) + 1] in Successors(g, p[k + (j - i)]);
        }
      }
      q := Shorten(g, r);
    }
  }

  /** The search returns exactly the definitions on a reference cycle. */
  lemma CyclicDefNamesExact(g: Graph, name: string)
    ensures name in CyclicDefNames(g) <==> name in g && OnCycle(g, name)
  {
    if name in CyclicDefNames(g) {
      var next :| next in g[name] && Reaches(g, next, name, {});
      var p := ReachesGivesPath(g, next, name, {});
      PathCons(g, name, p);
      assert PathBetween(g, [name] + p, name, name);
    }
    if name in g && OnCycle(g, name) {
      var c :| |c| >= 2 && PathBetween(g, c, name, name);
      assert c[0 + 1] in Successors(g, c[0]);
      PathTail(g, c);
      if |c| == 2 {
        PathCons(g, name, [name]);
        SimplePathIsFound(g, [name, name], name, {});
      } else {
        var q := Shorten(g, c[1..]);
        SimplePathIsFound(g, q, name, {});
      }
    }
  }

  // ------------------------------------------------------- tuples to arrays

  /** A tuple position whose schema did not occur at an earlier position. */
  predicate FirstPosition(ns: seq<Node>, i: nat)
    requires i < |ns|
  {
    ns[i].place == PrefixItem && forall j | 0 <= j < i :: ns[j] != ns[i]
  }

  /** The single item schema: the shared one, or a choice between the distinct ones. */
  function ItemSchema(distinct: seq<Node>): Node {
    if |distinct| == 1 then distinct[0].(place := Items)
    else Node(Items, None, [], seq(|distinct|, i requires 0 <= i < |distinct| => distinct[i].(place := AnyOf)))
  }

  /** Tuple nodes become arrays, at every depth; an old `items` beside a tuple is overwritten. */
  function Inline(n: Node): Node
    decreases n, 0
  {
    if forall c | c in n.children :: c.place != PrefixItem then
      n.(children := InlineAll(n.children))
    else
      n.(children := InlineBeside(n.children) + [ItemSchema(InlinePositions(n.children, 0))])
  }

  function InlineAll(ns: seq<Node>): seq<Node>
    decreases ns, 1
  {
    if ns == [] then [] else [Inline(ns[0])] + InlineAll(ns[1..])
  }

  function InlineBeside(ns: seq<Node>): seq<Node>
    decreases ns, 1
  {
    if ns == [] then [] else
      var rest := InlineBeside(ns[1..]);
      if ns[0].place == PrefixItem || ns[0].place == Items then rest else [Inline(ns[0])] + rest
  }

  function InlinePositions(ns: seq<Node>, i: nat): seq<Node>
    requires i <= |ns|
    decreases ns, 1, |ns| - i
  {
    if i == |ns| then [] else
      var rest := InlinePositions(ns, i + 1);
      if FirstPosition(ns, i) then [Inline(ns[i])] + rest else rest
  }

  predicate NoTuples(n: Node) {
    forall c | c in n.children :: c.place != PrefixItem && NoTuples(c)
  }

  /** No `prefixItems` remains, and no reference appears that was not there. */
  lemma {:induction false} InlineResult(n: Node)
    ensures NoTuples(Inline(n)) && Refs(Inline(n)) <= Refs(n)
    decreases n, 0
  {
    if forall c | c in n.children :: c.place != PrefixItem {
      InlineAllResult(n.children);
    } else {
      InlineBesideResult(n.children);
      InlinePositionsResult(n.children, 0);
      var beside, item := InlineBeside(n.children), ItemSchema(InlinePositions(n.children, 0));
      ItemSchemaResult(InlinePositions(n.children, 0));
      RefsOfAppend(beside, item);
    }
  }

  lemma {:induction false} InlineAllResult(ns: seq<Node>)
    requires forall n | n in ns :: n.place != PrefixItem
    ensures forall m | m in InlineAll(ns) :: NoTuples(m) && m.place != PrefixItem
    ensures RefsOf(InlineAll(ns)) <= RefsOf(ns)
    decreases ns, 1
  {
    if ns != [] {
      InlineResult(ns[0]);
      InlineAllResult(ns[1..]);
      RefsOfCons(Inline(ns[0]), InlineAll(ns[1..]));
    }
  }

  lemma {:induction false} InlineBesideResult(ns: seq<Node>)
    ensures forall m | m in InlineBeside(ns) :: NoTuples(m) && m.place != PrefixItem
    ensures RefsOf(InlineBeside(ns)) <= RefsOf(ns)
    decreases ns, 1
  {
    if ns != [] {
      InlineResult(ns[0]);
      InlineBesideResult(ns[1..]);
      RefsOfCons(Inline(ns[0]), InlineBeside(ns[1..]));
    }
  }

  lemma {:induction false} InlinePositionsResult(ns: seq<Node>, i: nat)
    requires i <= |ns|
    ensures forall m | m in InlinePositions(ns, i) :: NoTuples(m)
    ensures RefsOf(InlinePositions(ns, i)) <= RefsOf(ns)
    decreases ns, 1, |ns| - i
  {
    if i < |ns| {
      InlineResult(ns[i]);
      InlinePositionsResult(ns, i + 1);
      RefsOfCons(Inline(ns[i]), InlinePositions(ns, i + 1));
      RefsOfMember(ns);
      assert ns[i] in ns;
    }
  }

  lemma {:induction false} RefsOfAppend(ns: seq<Node>, n: Node)
    ensures RefsOf(ns + [n]) == RefsOf(ns) + Refs(n)
  {
    if ns == [] {
      assert [] + [n] == [n];
    } else {
      RefsOfAppend(ns[1..], n);
      assert (ns + [n])[1..] == ns[1..] + [n];
    }
  }

  lemma ItemSchemaResult(distinct: seq<Node>)
    requires forall m | m in distinct :: NoTuples(m)
    ensures NoTuples(ItemSchema(distinct)) && ItemSchema(distinct).place == Items
    ensures Refs(ItemSchema(distinct)) <= RefsOf(distinct)
  {
    RefsOfMember(distinct);
    var item := ItemSchema(distinct);
    if |distinct| == 1 {
      assert distinct[0] in distinct;
      assert Refs(item) == Refs(distinct[0]);
    } else {
      RefsOfMember(item.children);
      forall c | c in item.children ensures NoTuples(c) && Refs(c) <= RefsOf(distinct) {
        var i :| 0 <= i < |distinct| && item.children[i] == c;
        assert distinct[i] in distinct && c.children == distinct[i].children;
      }
    }
  }

  // ------------------------------------------------------ stripping properties

  predicate IsThrough(k: Keyword) {
    k == Items || k == AnyOf || k == OneOf || k == AllOf
  }

  /** A reference to a banned name, directly or through items / anyOf / oneOf / allOf. */
  predicate ReferencesAny(n: Node, banned: set<string>) {
    OwnRef(n) * banned != {} || exists c | c in n.children :: IsThrough(c.place) && ReferencesAny(c, banned)
  }

  predicate Dropped(c: Node, banned: set<string>) {
    c.place.Property? && ReferencesAny(c, banned)
  }

  function DroppedNames(ns: seq<Node>, banned: set<string>): set<string> {
    set c | c in ns && Dropped(c, banned) :: c.place.name
  }

  function Undropped(required: seq<string>, dropped: set<string>): seq<string> {
    if required == [] then [] else
      var rest := Undropped(required[1..], dropped);
      if required[0] in dropped then rest else [required[0]] + rest
  }

  /** Delete every property that references a banned name, at every depth. */
  function Strip(n: Node, banned: set<string>): Node
    decreases n, 0
  {
    Node(n.place, n.ref, Undropped(n.required, DroppedNames(n.children, banned)), StripAll(n.children, banned))
  }

  function StripAll(ns: seq<Node>, banned: set<string>): seq<Node>
    decreases ns, 1
  {
    if ns == [] then [] else
      var rest := StripAll(ns[1..], banned);
      if Dropped(ns[0], banned) then rest else [Strip(ns[0], banned)] + rest
  }

  /** Each banned reference sits below a property that the projection deletes. */
  predicate Guarded(n: Node, banned: set<string>) {
    OwnRef(n) * banned == {} && forall c | c in n.children :: Dropped(c, banned) || Guarded(c, banned)
  }

  /** Stripping removes all banned references iff each sits below a deleted property. */
  lemma {:induction false} StripRemovesIffGuarded(n: Node, banned: set<string>)
    ensures Refs(Strip(n, banned)) <= Refs(n)
    ensures Refs(Strip(n, banned)) !! banned <==> Guarded(n, banned)
    decreases n, 0
  {
    StripAllRemoves(n.children, banned);
  }

  lemma {:induction false} StripAllRemoves(ns: seq<Node>, banned: set<string>)
    ensures RefsOf(StripAll(ns, banned)) <= RefsOf(ns)
    ensures RefsOf(StripAll(ns, banned)) !! banned <==> forall c | c in ns :: Dropped(c, banned) || Guarded(c, banned)
    decreases ns, 1
  {
    if ns != [] {
      StripRemovesIffGuarded(ns[0], banned);
      StripAllRemoves(ns[1..], banned);
      RefsOfCons(Strip(ns[0], banned), StripAll(ns[1..], banned));
      assert ns == [ns[0]] + ns[1..];
    }
  }

  lemma {:induction false} StripKeepsNoTuples(n: Node, banned: set<string>)
    requires NoTuples(n)
    ensures NoTuples(Strip(n, banned))
    decreases n, 0
  {
    StripAllKeepsNoTuples(n.children, banned);
  }

  lemma {:induction false} StripAllKeepsNoTuples(ns: seq<Node>, banned: set<string>)
    requires forall c | c in ns :: c.place != PrefixItem && NoTuples(c)
    ensures forall c | c in StripAll(ns, banned) :: c.place != PrefixItem && NoTuples(c)
    decreases ns, 1
  {
    if ns != [] {
      StripKeepsNoTuples(ns[0], banned);
      StripAllKeepsNoTuples(ns[1..], banned);
    }
  }

  /** Every required name is a declared property, at every depth. */
  predicate RequiredDeclared(n: Node) {
    && (forall r | r in n.required :: exists c | c in n.children :: c.place == Property(r))
    && forall c | c in n.children :: RequiredDeclared(c)
  }

  lemma {:induction false} UndroppedMembers(required: seq<string>, dropped: set<string>)
    ensures forall r :: r in Undropped(required, dropped) <==> r in required && r !in dropped
  {
    if required != [] {
      UndroppedMembers(required[1..], dropped);
      assert required == [required[0]] + required[1..];
    }
  }

  lemma {:induction false} StripAllMembers(ns: seq<Node>, banned: set<string>)
    ensures forall c | c in ns && !Dropped(c, banned) :: Strip(c, banned) in StripAll(ns, banned)
    ensures forall m | m in StripAll(ns, banned) :: exists c | c in ns :: !Dropped(c, banned) && m == Strip(c, banned)
  {
    if ns != [] {
      StripAllMembers(ns[1..], banned);
      assert ns == [ns[0]] + ns[1..];
    }
  }

  /** A property and its `required` entry are removed together. */
  lemma {:induction false} StripKeepsRequiredDeclared(n: Node, banned: set<string>)
    requires RequiredDeclared(n)
    ensures RequiredDeclared(Strip(n, banned))
    decreases n
  {
    var dropped := DroppedNames(n.children, banned);
    UndroppedMembers(n.required, dropped);
    StripAllMembers(n.children, banned);
    forall r | r in Strip(n, banned).required
      ensures exists c | c in Strip(n, banned).children :: c.place == Property(r)
    {
      var c :| c in n.children && c.place == Property(r);
      assert c.place.name == r;
      assert Strip(c, banned).place == Property(r);
    }
    forall m | m in Strip(n, banned).children ensures RequiredDeclared(m) {
      var c :| c in n.children && !Dropped(c, banned) && m == Strip(c, banned);
      StripKeepsRequiredDeclared(c, banned);
    }
  }

  // -------------------------------------------------------------- pruning

  /** What is referenced inside the root; a reference that is the root itself does not count. */
  function Starts(root: Node): set<string> {
    RefsOf(root.children)
  }

  /** A definition reached from inside the root through definitions that exist. */
  ghost predicate Reachable(root: Node, defs: map<string, Node>, name: string) {
    exists p :: |p| > 0 && PathBetween(Edges(defs), p, p[0], name) && p[0] in Starts(root)
                && forall x | x in p :: x in defs
  }

  lemma RootRefReachable(root: Node, defs: map<string, Node>, name: string)
    requires name in Starts(root) && name in defs
    ensures Reachable(root, defs, name)
  {
    assert PathBetween(Edges(defs), [name], name, name);
  }

  lemma ReachableStep(root: Node, defs: map<string, Node>, name: string, next: string)
    requires Reachable(root, defs, name) && next in Refs(defs[name]) && next in defs
    requires name in defs
    ensures Reachable(root, defs, next)
  {
    var p :| |p| > 0 && PathBetween(Edges(defs), p, p[0], name) && p[0] in Starts(root)
             && forall x | x in p :: x in defs;
    var q := p + [next];
    forall i | 0 <= i < |q| - 1 ensures q[i + 1] in Successors(Edges(defs), q[i]) {
      if i < |p| - 1 {
        assert p[i + 1] in Successors(Edges(defs), p[i]);
      }
    }
    assert PathBetween(Edges(defs), q, q[0], next);
  }

  /** The worklist: everything seen is reachable, and what is done has its successors seen. */
  ghost predicate Worklist(root: Node, defs: map<string, Node>, done: set<string>, frontier: set<string>) {
    && done <= defs.Keys
    && (forall name | name in frontier + done && name in defs :: Reachable(root, defs, name))
    && (forall name | name in Starts(root) && name in defs :: name in frontier + done)
    && forall name | name in done :: SeenAfter(defs, name, frontier + done)
  }

  ghost predicate SeenAfter(defs: map<string, Node>, name: string, seen: set<string>)
    requires name in defs
  {
    forall next | next in Refs(defs[name]) && next in defs :: next in seen
  }

  lemma WorklistStart(root: Node, defs: map<string, Node>)
    ensures Worklist(root, defs, {}, Starts(root))
  {
    forall name | name in Starts(root) && name in defs {
      RootRefReachable(root, defs, name);
    }
  }

  lemma WorklistVisit(root: Node, defs: map<string, Node>, done: set<string>, frontier: set<string>, name: string)
    requires Worklist(root, defs, done, frontier) && name in frontier && name in defs
    ensures Worklist(root, defs, done + {name}, frontier - {name} + Refs(defs[name]))
  {
    forall next | next in Refs(defs[name]) && next in defs ensures Reachable(root, defs, next) {
      ReachableStep(root, defs, name, next);
    }
    var done', frontier' := done + {name}, frontier - {name} + Refs(defs[name]);
    forall x | x in done' ensures SeenAfter(defs, x, frontier' + done') {
      if x != name {
        assert SeenAfter(defs, x, frontier + done);
      }
    }
  }

  lemma WorklistSkip(root: Node, defs: map<string, Node>, done: set<string>, frontier: set<string>, name: string)
    requires Worklist(root, defs, done, frontier) && (name in done || name !in defs)
    ensures Worklist(root, defs, done, frontier - {name})
  {
    forall x | x in done ensures SeenAfter(defs, x, frontier - {name} + done) {
      assert SeenAfter(defs, x, frontier + done);
    }
  }

  /** With the frontier empty, what is done holds every path from the root. */
  lemma {:induction false} DoneHoldsPath(root: Node, defs: map<string, Node>, done: set<string>, p: seq<string>, k: nat)
    requires Worklist(root, defs, done, {}) && k < |p| && p[0] in Starts(root)
    requires IsPath(Edges(defs), p) && forall x | x in p :: x in defs
    ensures p[k] in done
  {
    assert p[k] in p;
    if k > 0 {
      DoneHoldsPath(root, defs, done, p, k - 1);
      assert p[k - 1 + 1] in Successors(Edges(defs), p[k - 1]);
      assert SeenAfter(defs, p[k - 1], {} + done);
    }
  }

  lemma DoneIsReachable(root: Node, defs: map<string, Node>, done: set<string>)
    requires Worklist(root, defs, done, {})
    ensures forall name | name in defs :: name in done <==> Reachable(root, defs, name)
  {
    forall name | name in defs && Reachable(root, defs, name) ensures name in done {
      var p :| |p| > 0 && PathBetween(Edges(defs), p, p[0], name) && p[0] in Starts(root)
               && forall x | x in p :: x in defs;
      DoneHoldsPath(root, defs, done, p, |p| - 1);
    }
  }

  /** The worklist of `_prune_unreachable_defs`, taking an arbitrary name each round. */
  method PruneUnreachable(root: Node, defs: map<string, Node>) returns (kept: map<string, Node>)
    ensures forall name :: name in kept <==> name in defs && Reachable(root, defs, name)
    ensures forall name | name in kept :: kept[name] == defs[name]
  {
    var done: set<string> := {};
    var frontier := Starts(root);
    WorklistStart(root, defs);
    while frontier != {}
      invariant Worklist(root, defs, done, frontier)
      decreases defs.Keys - done, |frontier|
    {
      var name :| name in frontier;
      if name in done || name !in defs {
        WorklistSkip(root, defs, done, frontier, name);
        frontier := frontier - {name};
      } else {
        WorklistVisit(root, defs, done, frontier, name);
        frontier := frontier - {name} + Refs(defs[name]);
        done := done + {name};
      }
    }
    DoneIsReachable(root, defs, done);
    kept := map name | name in defs && name in done :: defs[name];
  }

  // ------------------------------------------------------------ the projection

  function MapInline(defs: map<string, Node>): map<string, Node> {
    map name | name in defs :: Inline(defs[name])
  }

  function StripDefs(defs: map<string, Node>, banned: set<string>): map<string, Node> {
    map name | name in defs && name !in banned :: Strip(defs[name], banned)
  }

  ghost predicate Acyclic(defs: map<string, Node>) {
    forall name | name in defs :: !OnCycle(Edges(defs), name)
  }

  /** Every reference names an existing definition. */
  predicate NoDangling(doc: Document) {
    Refs(doc.root) <= doc.defs.Keys && forall name | name in doc.defs :: Refs(doc.defs[name]) <= doc.defs.Keys
  }

  /** Fewer definitions with fewer references have no cycle through a name not on one before. */
  lemma CyclesShrink(before: map<string, Node>, after: map<string, Node>, name: string)
    requires forall x | x in after :: x in before && Refs(after[x]) <= Refs(before[x])
    requires OnCycle(Edges(after), name)
    ensures OnCycle(Edges(before), name) && name in after
  {
    var p :| |p| >= 2 && PathBetween(Edges(after), p, name, name);
    assert p[0 + 1] in Successors(Edges(after), p[0]);
    forall i | 0 <= i < |p| - 1 ensures p[i + 1] in Successors(Edges(before), p[i]) {
      assert p[i + 1] in Successors(Edges(after), p[i]);
    }
    assert PathBetween(Edges(before), p, name, name);
  }

  /** The inlined document the cycle search looks at. */
  function Inlined(doc: Document): Document {
    Document(Inline(doc.root), MapInline(doc.defs))
  }

  /** The document once cyclic definitions and the properties that reach them are gone. */
  function Stripped(doc: Document): Document {
    var cyclic := CyclicDefNames(Edges(doc.defs));
    Document(Strip(doc.root, cyclic), StripDefs(doc.defs, cyclic))
  }

  /** What `ToLlmSafe` is specified to return. */
  ghost predicate IsLlmSafe(doc: Document, out: Document) {
    var mid := Inlined(doc);
    if CyclicDefNames(Edges(mid.defs)) == {} then out == mid
    else
      var cut := Stripped(mid);
      && out.root == cut.root
      && (forall name :: name in out.defs <==> name in cut.defs && Reachable(cut.root, cut.defs, name))
      && forall name | name in out.defs :: out.defs[name] == cut.defs[name]
  }

  method ToLlmSafe(doc: Document) returns (out: Document)
    ensures IsLlmSafe(doc, out)
  {
    var root, defs := Inline(doc.root), MapInline(doc.defs);
    var cyclic := CyclicDefNames(Edges(defs));
    if cyclic != {} {
      root, defs := Strip(root, cyclic), StripDefs(defs, cyclic);
      defs := PruneUnreachable(root, defs);
    }
    out := Document(root, defs);
  }

  function CyclicOf(doc: Document): set<string> {
    CyclicDefNames(Edges(Inlined(doc).defs))
  }

  lemma InlinedResult(doc: Document)
    ensures NoTuples(Inlined(doc).root) && forall name | name in doc.defs :: NoTuples(Inlined(doc).defs[name])
    ensures NoDangling(doc) ==> NoDangling(Inlined(doc))
  {
    InlineResult(doc.root);
    forall name | name in doc.defs { InlineResult(doc.defs[name]); }
  }

  /** The projection leaves no tuple schema anywhere. */
  lemma NoTuplesRemain(doc: Document, out: Document)
    requires IsLlmSafe(doc, out)
    ensures NoTuples(out.root) && forall name | name in out.defs :: NoTuples(out.defs[name])
  {
    InlinedResult(doc);
    var mid, cyclic := Inlined(doc), CyclicOf(doc);
    if cyclic != {} {
      StripKeepsNoTuples(mid.root, cyclic);
      forall name | name in out.defs ensures NoTuples(out.defs[name]) {
        StripKeepsNoTuples(mid.defs[name], cyclic);
      }
    }
  }

  /** The projection leaves no reference cycle. */
  lemma NoCyclesRemain(doc: Document, out: Document)
    requires IsLlmSafe(doc, out)
    ensures Acyclic(out.defs)
  {
    var mid, cyclic := Inlined(doc), CyclicOf(doc);
    forall name | name in out.defs ensures !OnCycle(Edges(out.defs), name) {
      CyclicDefNamesExact(Edges(mid.defs), name);
      if cyclic != {} && OnCycle(Edges(out.defs), name) {
        forall x | x in out.defs ensures x in mid.defs && Refs(out.defs[x]) <= Refs(mid.defs[x]) {
          StripRemovesIffGuarded(mid.defs[x], cyclic);
        }
        CyclesShrink(mid.defs, out.defs, name);
      }
    }
  }

  /** When a cycle was found, what is kept is exactly what the result's root reaches. */
  lemma KeptIsReachable(doc: Document, out: Document, name: string)
    requires IsLlmSafe(doc, out) && CyclicOf(doc) != {}
    ensures name in out.defs <==> Reachable(out.root, out.defs, name)
  {
    var cut := Stripped(Inlined(doc));
    if name in out.defs {
      var p :| |p| > 0 && PathBetween(Edges(cut.defs), p, p[0], name) && p[0] in Starts(cut.root)
               && forall x | x in p :: x in cut.defs;
      forall k | 0 <= k < |p| ensures Reachable(cut.root, cut.defs, p[k]) {
        PrefixReachable(cut.root, cut.defs, p, k);
      }
      forall i | 0 <= i < |p| - 1 ensures p[i + 1] in Successors(Edges(out.defs), p[i]) {
        assert p[i] in p && p[i + 1] in Successors(Edges(cut.defs), p[i]);
      }
      assert PathBetween(Edges(out.defs), p, p[0], name);
    }
  }

  lemma {:induction false} PrefixReachable(root: Node, defs: map<string, Node>, p: seq<string>, k: nat)
    requires k < |p| && IsPath(Edges(defs), p) && p[0] in Starts(root) && forall x | x in p :: x in defs
    ensures Reachable(root, defs, p[k])
  {
    assert p[k] in p;
    if k == 0 {
      RootRefReachable(root, defs, p[0]);
    } else {
      PrefixReachable(root, defs, p, k - 1);
      assert p[k - 1] in p && p[k - 1 + 1] in Successors(Edges(defs), p[k - 1]);
      ReachableStep(root, defs, p[k - 1], p[k]);
    }
  }

  /** A definition the projection keeps: on no cycle and, if there is a cycle, still reached from the root once cyclic definitions are gone. */
  ghost predicate Survives(doc: Document, name: string) {
    var cut := Stripped(Inlined(doc));
    name in cut.defs && (CyclicOf(doc) != {} ==> Reachable(cut.root, cut.defs, name))
  }

  /**
    From a document without dangling references, the result dangles nowhere iff in the root
    and in every surviving definition each cyclic reference sits below a deleted property,
    and a root that is itself a reference names a surviving definition.
  */
  lemma DanglingIffUnguarded(doc: Document, out: Document)
    requires IsLlmSafe(doc, out) && NoDangling(doc)
    ensures NoDangling(out) <==>
            && Guarded(Inlined(doc).root, CyclicOf(doc))
            && (forall name | Survives(doc, name) :: Guarded(Inlined(doc).defs[name], CyclicOf(doc)))
            && (doc.root.ref.Some? ==> Survives(doc, doc.root.ref.value))
  {
    hide Refs, Guarded, Strip, Inline, CyclicDefNames, Reachable;
    assert forall name :: name in out.defs <==> Survives(doc, name);
    InlinedResult(doc);
    var mid, cyclic := Inlined(doc), CyclicOf(doc);
    StripRemovesIffGuarded(mid.root, cyclic);
    OwnRefKept(doc);
    if cyclic == {} {
      forall name | name in out.defs { StripRemovesIffGuarded(mid.defs[name], cyclic); }
    } else {
      RootRefsKept(doc, out);
      forall name | name in out.defs
        ensures Refs(out.defs[name]) <= out.defs.Keys <==> Guarded(mid.defs[name], cyclic)
      {
        StripRemovesIffGuarded(mid.defs[name], cyclic);
        DefRefsKept(doc, out, name);
      }
    }
  }

  /** The root's own reference passes through both rewrites. */
  lemma OwnRefKept(doc: Document)
    ensures var cut := Stripped(Inlined(doc));
            Inlined(doc).root.ref == doc.root.ref == cut.root.ref && Refs(Inlined(doc).root) == OwnRef(doc.root) + Starts(Inlined(doc).root) &&
            Refs(cut.root) == OwnRef(doc.root) + Starts(cut.root)
  {
    hide InlineAll, InlineBeside, InlinePositions, StripAll, CyclicDefNames;
  }

  lemma RootRefsKept(doc: Document, out: Document)
    requires IsLlmSafe(doc, out) && NoDangling(Inlined(doc)) && CyclicOf(doc) != {}
    ensures Refs(out.root) <= out.defs.Keys <==>
            Refs(out.root) !! CyclicOf(doc) && (doc.root.ref.Some? ==> Survives(doc, doc.root.ref.value))
  {
    hide Refs, Starts, CyclicDefNames, Inline, Strip, Reachable;
    var mid, cut := Inlined(doc), Stripped(Inlined(doc));
    StripRemovesIffGuarded(mid.root, CyclicOf(doc));
    OwnRefKept(doc);
    forall x | x in Starts(out.root) ensures x in out.defs <==> x !in CyclicOf(doc) {
      if x in cut.defs {
        RootRefReachable(cut.root, cut.defs, x);
      }
    }
  }

  /** A root that is nothing but a reference keeps no definition, as soon as there is a cycle anywhere. */
  lemma RootRefIsPruned(doc: Document, out: Document)
    requires IsLlmSafe(doc, out) && CyclicOf(doc) != {} && doc.root.ref.Some? && doc.root.children == []
    ensures out.defs == map[] && !NoDangling(out)
  {
    hide Refs, CyclicDefNames;
    OwnRefKept(doc);
    var cut := Stripped(Inlined(doc));
    assert Starts(cut.root) == {} by { LeafStarts(doc.root, CyclicOf(doc)); }
    forall name ensures name !in out.defs {
      hide IsPath;
      assert !Reachable(cut.root, cut.defs, name);
    }
  }

  lemma LeafStarts(n: Node, banned: set<string>)
    requires n.children == []
    ensures Starts(Strip(Inline(n), banned)) == {}
  {
  }

  lemma DefRefsKept(doc: Document, out: Document, name: string)
    requires IsLlmSafe(doc, out) && NoDangling(Inlined(doc)) && CyclicOf(doc) != {} && name in out.defs
    ensures Refs(out.defs[name]) <= out.defs.Keys <==> Refs(out.defs[name]) !! CyclicOf(doc)
  {
    var mid, cut := Inlined(doc), Stripped(Inlined(doc));
    StripRemovesIffGuarded(mid.defs[name], CyclicOf(doc));
    forall x | x in Refs(out.defs[name]) ensures x in out.defs <==> x !in CyclicOf(doc) {
      if x in cut.defs {
        ReachableStep(cut.root, cut.defs, name, x);
      }
    }
  }
}
