/** The reader of a semantic graph, with its table of descriptors. */
module GraphReader {

  /*
    It follows local references to build canonical descriptors, rejecting cycles
    and dangling references.  A tuple the reader sorts by a canonical key is
    represented as a multiset.
  */

  import opened Sequences
  import opened Wrappers
  import opened SemanticGraph

  // -------------------------------------------------------------- descriptors

  datatype BindingDesc = BindingDesc(
    kind: string, reference: Option<string>, operator: Option<string>, stage: Option<string>, arity: Option<nat>,
    private: Option<string>)

  datatype Desc =
    | NodeDesc(kind: string, catalogRef: Option<string>, aggregate: Option<string>, stage: Option<string>,
               operands: seq<Desc>, population: Option<Desc>, bindings: multiset<BindingDesc>,
               source: Option<string>, grainRefs: multiset<string>, details: string)
    | PopulationDesc(inclusion: string, predicates: multiset<Desc>, sources: multiset<string>, policies: multiset<string>)

  datatype Fault =
    | InvalidNodeIds | InvalidPopulationIds | InvalidBindingIds | InvalidOutputIds | DuplicateAlias
    | CyclicGraph | DanglingNode | DanglingPopulation | DanglingBinding | DanglingEnrichment
    | DuplicateOutput

  datatype Key = NodeKey(id: string) | PopulationKey(id: string)

  /** The reader's dictionaries, with private values when a bound context is compared. */
  datatype Tables = Tables(
    nodes: map<string, SemanticNode>, populations: map<string, Population>, bindings: map<string, Binding>,
    private: Option<map<string, string>>)

  function KeysOf(t: Tables): set<Key> {
    (set id | id in t.nodes :: NodeKey(id)) + (set id | id in t.populations :: PopulationKey(id))
  }

  function BindingDescriptor(t: Tables, slot: string): Result<BindingDesc, Fault> {
    if slot !in t.bindings then Err(DanglingBinding) else
      var b := t.bindings[slot];
      var private := match t.private
        case None => None
        case Some(values) => if slot in values then Some(values[slot]) else None;
      Ok(BindingDesc(b.kind, b.reference, b.operator, b.stage, b.arity, private))
  }

  function BindingDescriptors(t: Tables, slots: seq<string>): Result<seq<BindingDesc>, Fault> {
    if slots == [] then Ok([]) else
      var d :- BindingDescriptor(t, slots[0]);
      var ds :- BindingDescriptors(t, slots[1..]);
      Ok([d] + ds)
  }

  /** The references followed from a key, in reading order. */
  function Children(t: Tables, key: Key): seq<Key> {
    match key
    case NodeKey(id) =>
      if id !in t.nodes then [] else
        NodeKeys(t.nodes[id].operands) +
        (match t.nodes[id].population case None => [] case Some(p) => [PopulationKey(p)])
    case PopulationKey(id) =>
      if id !in t.populations then [] else NodeKeys(t.populations[id].predicates)
  }

  function NodeKeys(ids: seq<string>): (ks: seq<Key>)
    ensures |ks| == |ids| && forall i | 0 <= i < |ids| :: ks[i] == NodeKey(ids[i])
  {
    seq(|ids|, i requires 0 <= i < |ids| => NodeKey(ids[i]))
  }

  /** The descriptor of an existing key from its children's descriptors. */
  function Assemble(t: Tables, key: Key, children: seq<Desc>): Result<Desc, Fault>
    requires key in KeysOf(t) && |children| == |Children(t, key)|
  {
    match key
    case NodeKey(id) =>
      var n := t.nodes[id];
      var k := |n.operands|;
      var bindings :- BindingDescriptors(t, n.bindings);
      Ok(NodeDesc(n.kind, n.catalogRef, n.aggregate, n.stage, children[..k],
                  if n.population.Some? then Some(children[k]) else None,
                  multiset(bindings), n.source, multiset(n.grainRefs), n.details))
    case PopulationKey(id) =>
      var p := t.populations[id];
      Ok(PopulationDesc(p.inclusion, multiset(children), multiset(p.sources), multiset(p.policies)))
  }

  // ------------------------------------------------------- the walk, unmemoised

  /** Read a key's descriptor while `active` keys are being read further out. */
  function Walk(t: Tables, key: Key, active: set<Key>): Result<Desc, Fault>
    decreases KeysOf(t) - active, 0, 0
  {
    if key in active then Err(CyclicGraph)
    else if key !in KeysOf(t) then Err(if key.NodeKey? then DanglingNode else DanglingPopulation)
    else
      var children :- WalkAll(t, Children(t, key), active + {key});
      Assemble(t, key, children)
  }

  function WalkAll(t: Tables, keys: seq<Key>, active: set<Key>): (r: Result<seq<Desc>, Fault>)
    ensures r.Ok? ==> |r.value| == |keys|
    decreases KeysOf(t) - active, 1, |keys|
  {
    if keys == [] then Ok([]) else
      var d :- Walk(t, keys[0], active);
      var ds :- WalkAll(t, keys[1..], active);
      Ok([d] + ds)
  }

  // --------------------------------------------------------------- paths

  predicate IsPath(t: Tables, p: seq<Key>) {
    |p| > 0 && forall i | 0 <= i < |p| - 1 :: p[i + 1] in Children(t, p[i])
  }

  lemma PathTail(t: Tables, p: seq<Key>)
    requires IsPath(t, p) && |p| > 1
    ensures IsPath(t, p[1..]) && p[1] in Children(t, p[0])
  {
    assert p[0 + 1] in Children(t, p[0]);
    forall i | 0 <= i < |p| - 2 ensures p[1..][i + 1] in Children(t, p[1..][i]) {
      assert p[i + 1 + 1] in Children(t, p[i + 1]);
    }
  }

  lemma PathJoin(t: Tables, p: seq<Key>, q: seq<Key>)
    requires IsPath(t, p) && IsPath(t, q) && p[|p| - 1] == q[0]
    ensures IsPath(t, p + q[1..]) && (p + q[1..])[|p| + |q| - 2] == q[|q| - 1]
  {
    var r := p + q[1..];
    forall i | 0 <= i < |r| - 1 ensures r[i + 1] in Children(t, r[i]) {
      if i < |p| - 1 {
        assert p[i + 1] in Children(t, p[i]);
      } else {
        assert q[i - (|p| - 1) + 1] in Children(t, q[i - (|p| - 1)]);
      }
    }
  }

  /** The bindings a key's own descriptor reads all exist. */
  predicate BindingsExist(t: Tables, key: Key) {
    key.NodeKey? && key.id in t.nodes ==> forall b | b in t.nodes[key.id].bindings :: b in t.bindings
  }

  predicate Present(t: Tables, key: Key) {
    key in KeysOf(t) && BindingsExist(t, key)
  }

  /** No path from the key repeats a key, leaves the artifact, or reads a missing slot. */
  ghost predicate Sound(t: Tables, key: Key) {
    forall p | IsPath(t, p) && p[0] == key ::
      Distinct(p) && forall x | x in p :: Present(t, x)
  }

  lemma {:induction false} BindingDescriptorsOk(t: Tables, slots: seq<string>)
    ensures BindingDescriptors(t, slots).Ok? <==> forall b | b in slots :: b in t.bindings
  {
    if slots != [] {
      BindingDescriptorsOk(t, slots[1..]);
      assert slots == [slots[0]] + slots[1..];
    }
  }

  /** A list is read iff each member is, with the members' own descriptors. */
  lemma {:induction false} WalkAllAt(t: Tables, keys: seq<Key>, active: set<Key>)
    ensures WalkAll(t, keys, active).Ok? <==> forall k | k in keys :: Walk(t, k, active).Ok?
    ensures WalkAll(t, keys, active).Ok? ==>
              forall i | 0 <= i < |keys| :: Walk(t, keys[i], active) == Ok(WalkAll(t, keys, active).value[i])
  {
    if keys != [] {
      WalkAllAt(t, keys[1..], active);
      assert keys == [keys[0]] + keys[1..];
      assert WalkAll(t, keys, active).Ok? <==>
             Walk(t, keys[0], active).Ok? && WalkAll(t, keys[1..], active).Ok?;
      assert keys[0] in keys;
    }
  }

  lemma WalkOk(t: Tables, key: Key, active: set<Key>)
    requires Walk(t, key, active).Ok?
    ensures key !in active && Present(t, key)
    ensures forall c | c in Children(t, key) :: Walk(t, c, active + {key}).Ok?
  {
    WalkAllAt(t, Children(t, key), active + {key});
    if key.NodeKey? {
      BindingDescriptorsOk(t, t.nodes[key.id].bindings);
    }
  }

  /** A successful walk meets no active key and nothing missing, on any path. */
  lemma {:induction false} WalkAvoids(t: Tables, active: set<Key>, p: seq<Key>)
    requires IsPath(t, p) && Walk(t, p[0], active).Ok?
    ensures forall x | x in p :: x !in active && Present(t, x)
    ensures Distinct(p)
    decreases |p|
  {
    var k, tail := p[0], p[1..];
    WalkOk(t, k, active);
    assert p == [k] + tail;
    if tail != [] {
      PathTail(t, p);
      WalkAvoids(t, active + {k}, tail);
      DistinctCons(k, tail);
    }
  }

  /** A failed walk has a path to its cause. */
  lemma {:induction false} WalkFails(t: Tables, key: Key, active: set<Key>) returns (p: seq<Key>)
    requires Walk(t, key, active).Err?
    ensures IsPath(t, p) && p[0] == key
    ensures var last := p[|p| - 1];
            last in active || last in p[..|p| - 1] || !Present(t, last)
    decreases KeysOf(t) - active
  {
    if key in active || key !in KeysOf(t) {
      p := [key];
    } else {
      var children := Children(t, key);
      WalkAllAt(t, children, active + {key});
      if c :| c in children && Walk(t, c, active + {key}).Err? {
        var q := WalkFails(t, c, active + {key});
        assert IsPath(t, [key, c]);
        PathJoin(t, [key, c], q);
        p := [key] + q;
        assert [key, c] + q[1..] == p;
        assert p[..|p| - 1] == [key] + q[..|q| - 1];
      } else {
        p := [key];
        if key.NodeKey? {
          BindingDescriptorsOk(t, t.nodes[key.id].bindings);
        }
      }
    }
  }

  /** The reader accepts a key exactly when what it reaches is acyclic and closed. */
  lemma WalkSucceedsIffSound(t: Tables, key: Key)
    ensures Walk(t, key, {}).Ok? <==> Sound(t, key)
  {
    if Walk(t, key, {}).Ok? {
      forall p | IsPath(t, p) && p[0] == key
        ensures Distinct(p) && forall x | x in p :: Present(t, x)
      {
        WalkAvoids(t, {}, p);
      }
    } else {
      var p := WalkFails(t, key, {});
      assert p[|p| - 1] in p;
    }
  }

  // ------------------------------------------------------------- memoisation

  /** No path from the key ends in the set. */
  ghost predicate NeverMeets(t: Tables, key: Key, away: set<Key>) {
    forall p | IsPath(t, p) && p[0] == key :: p[|p| - 1] !in away
  }

  lemma NeverMeetsBelow(t: Tables, key: Key, child: Key, away: set<Key>)
    requires NeverMeets(t, key, away) && child in Children(t, key)
    ensures NeverMeets(t, child, away)
  {
    forall p | IsPath(t, p) && p[0] == child ensures p[|p| - 1] !in away {
      assert IsPath(t, [key, child]);
      PathJoin(t, [key, child], p);
      var q := [key, child] + p[1..];
      assert IsPath(t, q) && q[0] == key;
      assert q[|q| - 1] !in away;
    }
  }

  lemma NeverMeetsSelf(t: Tables, key: Key, away: set<Key>)
    requires NeverMeets(t, key, away)
    ensures key !in away
  {
    var p := [key];
    assert IsPath(t, p) && p[0] == key;
    assert p[|p| - 1] !in away;
  }

  /** A walk's descriptor does not depend on active keys it never meets. */
  lemma {:induction false} WalkIgnores(t: Tables, key: Key, small: set<Key>, large: set<Key>)
    requires small <= large && Walk(t, key, small).Ok? && NeverMeets(t, key, large - small)
    ensures Walk(t, key, large) == Walk(t, key, small)
    decreases KeysOf(t) - small, 0, 0
  {
    WalkOk(t, key, small);
    NeverMeetsSelf(t, key, large - small);
    forall c | c in Children(t, key) ensures NeverMeets(t, c, (large + {key}) - (small + {key})) {
      NeverMeetsBelow(t, key, c, large - small);
    }
    WalkAllIgnores(t, Children(t, key), small + {key}, large + {key});
  }

  lemma {:induction false} WalkAllIgnores(t: Tables, keys: seq<Key>, small: set<Key>, large: set<Key>)
    requires small <= large && WalkAll(t, keys, small).Ok?
    requires forall k | k in keys :: NeverMeets(t, k, large - small)
    ensures WalkAll(t, keys, large) == WalkAll(t, keys, small)
    decreases KeysOf(t) - small, 1, |keys|
  {
    if keys != [] {
      WalkIgnores(t, keys[0], small, large);
      WalkAllIgnores(t, keys[1..], small, large);
    }
  }

  /** An active key has a path of at least one edge to the key being read. */
  ghost predicate LeadsTo(t: Tables, a: Key, key: Key) {
    exists p :: |p| >= 2 && IsPath(t, p) && p[0] == a && p[|p| - 1] == key
  }

  lemma LeadsToChild(t: Tables, a: Key, key: Key, child: Key)
    requires a == key || LeadsTo(t, a, key)
    requires child in Children(t, key)
    ensures LeadsTo(t, a, child)
  {
    assert IsPath(t, [key, child]);
    if a != key {
      var p :| |p| >= 2 && IsPath(t, p) && p[0] == a && p[|p| - 1] == key;
      PathJoin(t, p, [key, child]);
    }
  }

  /** What was read on its own may be reused below any keys that lead to it. */
  lemma MemoIsReusable(t: Tables, key: Key, active: set<Key>)
    requires Walk(t, key, {}).Ok?
    requires forall a | a in active :: LeadsTo(t, a, key)
    ensures Walk(t, key, active) == Walk(t, key, {})
  {
    forall p | IsPath(t, p) && p[0] == key ensures p[|p| - 1] !in active {
      if p[|p| - 1] in active {
        var back :| |back| >= 2 && IsPath(t, back) && back[0] == p[|p| - 1] && back[|back| - 1] == key;
        PathJoin(t, p, back);
        WalkAvoids(t, {}, p + back[1..]);
        assert false;
      }
    }
    assert active - {} == active;
    WalkIgnores(t, key, {}, active);
  }

  /** A successful walk below active keys is the walk on its own. */
  lemma WalkStandsAlone(t: Tables, key: Key, active: set<Key>)
    requires Walk(t, key, active).Ok?
    ensures Walk(t, key, {}) == Walk(t, key, active)
  {
    if Walk(t, key, {}).Err? {
      var p := WalkFails(t, key, {});
      WalkAvoids(t, active, p);
      assert false;
    }
    forall p | IsPath(t, p) && p[0] == key ensures p[|p| - 1] !in active {
      WalkAvoids(t, active, p);
    }
    assert active - {} == active;
    WalkIgnores(t, key, {}, active);
  }

  /** The reader object: an active set and a memo table over fixed dictionaries. */
  class Graph {
    const tables: Tables
    var active: set<Key>
    var memo: map<Key, Desc>

    constructor (t: Tables)
      ensures tables == t && active == {} && memo == map[]
    {
      tables := t;
      active, memo := {}, map[];
    }

    ghost predicate Remembered()
      reads this
    {
      forall k | k in memo :: Walk(tables, k, {}) == Ok(memo[k])
    }

    /** The memoised visit returns what the plain walk returns, success or fault. */
    method Visit(key: Key) returns (r: Result<Desc, Fault>)
      requires Remembered()
      requires forall a | a in active :: LeadsTo(tables, a, key)
      modifies this
      ensures r == Walk(tables, key, active)
      ensures active == old(active) && Remembered()
      decreases KeysOf(tables) - active, 0, 0
    {
      if key in active {
        return Err(CyclicGraph);
      }
      if key in memo {
        MemoIsReusable(tables, key, active);
        return Ok(memo[key]);
      }
      if key !in KeysOf(tables) {
        return Err(if key.NodeKey? then DanglingNode else DanglingPopulation);
      }
      forall c, a | c in Children(tables, key) && a in active + {key} ensures LeadsTo(tables, a, c) {
        LeadsToChild(tables, a, key, c);
      }
      active := active + {key};
      var children := VisitAll(Children(tables, key));
      active := active - {key};
      assert active == old(active);
      if children.Err? {
        return Err(children.error);
      }
      r := Assemble(tables, key, children.value);
      if r.Ok? {
        WalkStandsAlone(tables, key, active);
        memo := memo[key := r.value];
      }
    }

    method VisitAll(keys: seq<Key>) returns (r: Result<seq<Desc>, Fault>)
      requires Remembered()
      requires forall k, a | k in keys && a in active :: LeadsTo(tables, a, k)
      modifies this
      ensures r == WalkAll(tables, keys, active)
      ensures active == old(active) && Remembered()
      decreases KeysOf(tables) - active, 1, |keys|
    {
      if keys == [] {
        return Ok([]);
      }
      var first := Visit(keys[0]);
      if first.Err? {
        return Err(first.error);
      }
      var rest := VisitAll(keys[1..]);
      if rest.Err? {
        return Err(rest.error);
      }
      return Ok([first.value] + rest.value);
    }
  }
}
