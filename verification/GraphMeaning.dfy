/** What equal descriptors mean. */
module GraphMeaning {

  /*
    Descriptors are trees written down in full. They are equal exactly when the two
    graphs can be followed side by side, whatever their identifiers.
  */

  import opened Wrappers
  import opened SemanticGraph
  import opened GraphReader
  import opened CompareResults

  type Pairs = set<(Key, Key)>

  // --------------------------------------------------------------- side by side

  predicate SamePopulation(l: Population, r: Population) {
    l.inclusion == r.inclusion && |l.predicates| == |r.predicates| && multiset(l.sources) == multiset(r.sources) &&
    multiset(l.policies) == multiset(r.policies)
  }

  function SlotsOf(t: Tables, slots: seq<string>): (bs: seq<Option<Bound>>)
    ensures |bs| == |slots| && forall i | 0 <= i < |bs| :: bs[i] == BoundAt(t, slots[i])
  {
    seq(|slots|, i requires 0 <= i < |slots| => BoundAt(t, slots[i]))
  }

  /** What a node says itself; its slots and grain in any order. */
  predicate SameNode(lt: Tables, l: SemanticNode, rt: Tables, r: SemanticNode) {
    && l.kind == r.kind && l.catalogRef == r.catalogRef && l.aggregate == r.aggregate && l.stage == r.stage
    && l.source == r.source && l.details == r.details && multiset(l.grainRefs) == multiset(r.grainRefs)
    && multiset(SlotsOf(lt, l.bindings)) == multiset(SlotsOf(rt, r.bindings))
  }

  /** Each position of a list paired with a different position of the other. */
  predicate Pairing(at: seq<nat>, n: nat) {
    |at| == n && (forall i | 0 <= i < n :: at[i] < n) && forall i, j | 0 <= i < j < n :: at[i] != at[j]
  }

  /** Operands follow each other in order, and so do the populations. */
  predicate NodesFollow(pairs: Pairs, l: SemanticNode, r: SemanticNode) {
    && |l.operands| == |r.operands| && (forall i | 0 <= i < |l.operands| :: (NodeKey(l.operands[i]), NodeKey(r.operands[i])) in pairs)
    && l.population.Some? == r.population.Some?
    && (l.population.Some? ==> (PopulationKey(l.population.value), PopulationKey(r.population.value)) in pairs)
  }

  /** Predicates follow each other in any order. */
  ghost predicate PopulationsFollow(pairs: Pairs, l: Population, r: Population) {
    |l.predicates| == |r.predicates| &&
    exists at :: Pairing(at, |l.predicates|) && forall i | 0 <= i < |at| :: (NodeKey(l.predicates[i]), NodeKey(r.predicates[at[i]])) in pairs
  }

  ghost predicate Follows(lt: Tables, x: Key, rt: Tables, y: Key, pairs: Pairs) {
    match (x, y)
    case (NodeKey(a), NodeKey(b)) =>
      a in lt.nodes && b in rt.nodes && SameNode(lt, lt.nodes[a], rt, rt.nodes[b]) && NodesFollow(pairs, lt.nodes[a], rt.nodes[b])
    case (PopulationKey(a), PopulationKey(b)) =>
      a in lt.populations && b in rt.populations && SamePopulation(lt.populations[a], rt.populations[b]) &&
      PopulationsFollow(pairs, lt.populations[a], rt.populations[b])
    case _ => false
  }

  /** Pairs that say the same of themselves and whose references are pairs again. */
  ghost predicate SideBySide(lt: Tables, rt: Tables, pairs: Pairs) {
    forall p | p in pairs :: Follows(lt, p.0, rt, p.1, pairs)
  }

  // -------------------------------------------------------------------- pairings

  function Without<T>(ys: seq<T>, k: nat): (others: seq<T>)
    requires k < |ys|
    ensures |others| == |ys| - 1 && forall i | 0 <= i < |others| :: others[i] == if i < k then ys[i] else ys[i + 1]
  {
    ys[..k] + ys[k + 1..]
  }

  lemma WithoutCounts<T>(ys: seq<T>, k: nat)
    requires k < |ys|
    ensures multiset(ys) == multiset(Without(ys, k)) + multiset{ys[k]}
  {
    assert ys == ys[..k] + [ys[k]] + ys[k + 1..];
  }

  lemma LastCounts<T>(xs: seq<T>)
    requires xs != []
    ensures multiset(xs) == multiset(xs[..|xs| - 1]) + multiset{xs[|xs| - 1]}
  {
    assert xs == xs[..|xs| - 1] + [xs[|xs| - 1]];
  }

  /** Positions once one is left out. */
  function Narrowed(at: seq<nat>, k: nat): (out: seq<nat>)
    ensures |out| == |at| && forall i | 0 <= i < |at| :: out[i] == if at[i] <= k then at[i] else at[i] - 1
  {
    seq(|at|, i requires 0 <= i < |at| => if at[i] <= k then at[i] else at[i] - 1)
  }

  lemma NarrowedIs(at: seq<nat>, n: nat)
    requires Pairing(at, n + 1)
    ensures Pairing(Narrowed(at[..n], at[n]), n)
    ensures forall i | 0 <= i < n :: at[i] != at[n]
  {
    var out := Narrowed(at[..n], at[n]);
    forall i | 0 <= i < n ensures out[i] < n {
      assert at[i] != at[n];
    }
    forall i, j | 0 <= i < j < n ensures out[i] != out[j] {
      assert at[i] != at[j] && at[i] != at[n] && at[j] != at[n];
    }
  }

  lemma {:induction false} PairingKeepsCounts<T>(xs: seq<T>, ys: seq<T>, at: seq<nat>)
    requires |xs| == |ys| && Pairing(at, |xs|) && forall i | 0 <= i < |xs| :: xs[i] == ys[at[i]]
    ensures multiset(xs) == multiset(ys)
  {
    if xs != [] {
      var n := |xs| - 1;
      NarrowedIs(at, n);
      PairingKeepsCounts(xs[..n], Without(ys, at[n]), Narrowed(at[..n], at[n]));
      LastCounts(xs);
      WithoutCounts(ys, at[n]);
    }
  }

  lemma {:induction false} CountsPair<T>(xs: seq<T>, ys: seq<T>) returns (at: seq<nat>)
    requires multiset(xs) == multiset(ys)
    ensures |xs| == |ys| && Pairing(at, |xs|) && forall i | 0 <= i < |xs| :: xs[i] == ys[at[i]]
    decreases |xs|
  {
    hide Pairing;
    if xs == [] {
      assert |multiset(ys)| == |ys|;
      at := [];
      assert Pairing(at, 0) by { NothingPaired(); }
    } else {
      var k := PartnerOfLast(xs, ys);
      var rest := CountsPair(xs[..|xs| - 1], Without(ys, k));
      at := Widened(rest, k) + [k];
      PairedLast(xs, ys, rest, k);
    }
  }

  lemma PartnerOfLast<T>(xs: seq<T>, ys: seq<T>) returns (k: nat)
    requires multiset(xs) == multiset(ys) && xs != []
    ensures |xs| == |ys| && k < |ys| && ys[k] == xs[|xs| - 1] && multiset(xs[..|xs| - 1]) == multiset(Without(ys, k))
  {
    assert |multiset(xs)| == |xs| && |multiset(ys)| == |ys|;
    assert xs[|xs| - 1] in multiset(ys);
    k :| 0 <= k < |ys| && ys[k] == xs[|xs| - 1];
    LastCounts(xs);
    WithoutCounts(ys, k);
    Minus(multiset(xs[..|xs| - 1]), multiset(Without(ys, k)), multiset{xs[|xs| - 1]});
  }

  lemma PairedLast<T>(xs: seq<T>, ys: seq<T>, rest: seq<nat>, k: nat)
    requires |xs| == |ys| > 0 && k < |ys| && ys[k] == xs[|xs| - 1]
    requires Pairing(rest, |xs| - 1) && forall i | 0 <= i < |xs| - 1 :: xs[..|xs| - 1][i] == Without(ys, k)[rest[i]]
    ensures Pairing(Widened(rest, k) + [k], |xs|)
    ensures forall i | 0 <= i < |xs| :: xs[i] == ys[(Widened(rest, k) + [k])[i]]
  {
    WidenedIs(rest, k, |xs| - 1);
    WidenedReads(xs[..|xs| - 1], ys, rest, k);
    assert forall i | 0 <= i < |xs| - 1 :: xs[i] == xs[..|xs| - 1][i];
  }

  lemma NothingPaired()
    ensures Pairing([], 0)
  {
  }

  lemma Minus<T>(a: multiset<T>, b: multiset<T>, c: multiset<T>)
    requires a + c == b + c
    ensures a == b
  {
    assert a == a + c - c;
  }

  /** Positions around one that is left out. */
  function Widened(at: seq<nat>, k: nat): (out: seq<nat>)
    ensures |out| == |at| && forall i | 0 <= i < |at| :: out[i] == if at[i] < k then at[i] else at[i] + 1
  {
    seq(|at|, i requires 0 <= i < |at| => if at[i] < k then at[i] else at[i] + 1)
  }

  lemma WidenedIs(at: seq<nat>, k: nat, n: nat)
    requires Pairing(at, n) && k <= n
    ensures Pairing(Widened(at, k) + [k], n + 1) && |at| == n
  {
  }

  lemma WidenedReads<T>(xs: seq<T>, ys: seq<T>, at: seq<nat>, k: nat)
    requires |ys| == |xs| + 1 && k < |ys| && Pairing(at, |xs|) && forall i | 0 <= i < |xs| :: xs[i] == Without(ys, k)[at[i]]
    ensures forall i | 0 <= i < |xs| :: Widened(at, k)[i] < |ys| && xs[i] == ys[Widened(at, k)[i]]
  {
  }

  // ---------------------------------------------------------------- one step

  lemma {:induction false} SlotsAre(t: Tables, slots: seq<string>)
    requires BindingDescriptors(t, slots).Ok?
    ensures var ds := BindingDescriptors(t, slots).value;
            |ds| == |slots| && forall i | 0 <= i < |slots| :: SlotsOf(t, slots)[i] == Some(AsBound(ds[i]))
  {
    if slots != [] {
      SlotsAre(t, slots[1..]);
      var ds := BindingDescriptors(t, slots).value;
      forall i | 0 <= i < |slots| ensures SlotsOf(t, slots)[i] == Some(AsBound(ds[i])) {
        if i > 0 {
          assert SlotsOf(t, slots[1..])[i - 1] == Some(AsBound(ds[1..][i - 1]));
        }
      }
    }
  }

  function AsBound(d: BindingDesc): Bound {
    Bound(d.kind, d.reference, d.operator, d.stage, d.arity, d.private)
  }

  /** Distinct descriptors stay distinct as slots, so both count the same. */
  lemma SlotsAgreeIff(ds: seq<BindingDesc>, ls: seq<Option<Bound>>, es: seq<BindingDesc>, rs: seq<Option<Bound>>)
    requires |ls| == |ds| && forall i | 0 <= i < |ds| :: ls[i] == Some(AsBound(ds[i]))
    requires |rs| == |es| && forall i | 0 <= i < |es| :: rs[i] == Some(AsBound(es[i]))
    ensures multiset(ls) == multiset(rs) <==> multiset(ds) == multiset(es)
  {
    if multiset(ls) == multiset(rs) {
      var at := CountsPair(ls, rs);
      forall i | 0 <= i < |ds| ensures ds[i] == es[at[i]] {
        assert ls[i] == rs[at[i]];
      }
      PairingKeepsCounts(ds, es, at);
    }
    if multiset(ds) == multiset(es) {
      var at := CountsPair(ds, es);
      PairingKeepsCounts(ls, rs, at);
    }
  }

  /** The descriptors read at each of a key's references, on their own. */
  predicate ReadAs(t: Tables, keys: seq<Key>, ds: seq<Desc>) {
    |ds| == |keys| && forall i | 0 <= i < |keys| :: Walk(t, keys[i], {}) == Ok(ds[i])
  }

  lemma ReadBelow(t: Tables, key: Key, active: set<Key>) returns (ds: seq<Desc>)
    requires Walk(t, key, active).Ok?
    ensures key in KeysOf(t) && ReadAs(t, Children(t, key), ds) && WalkAll(t, Children(t, key), active + {key}) == Ok(ds)
    ensures Walk(t, key, active) == Assemble(t, key, ds)
  {
    hide Assemble, Children;
    WalkAllAt(t, Children(t, key), active + {key});
    ds := WalkAll(t, Children(t, key), active + {key}).value;
    forall i | 0 <= i < |Children(t, key)| ensures Walk(t, Children(t, key)[i], {}) == Ok(ds[i]) {
      WalkStandsAlone(t, Children(t, key)[i], active + {key});
    }
  }

  lemma NodesAssemble(lt: Tables, a: string, ds: seq<Desc>, rt: Tables, b: string, es: seq<Desc>)
    requires a in lt.nodes && b in rt.nodes
    requires |ds| == |Children(lt, NodeKey(a))| && |es| == |Children(rt, NodeKey(b))|
    requires Assemble(lt, NodeKey(a), ds).Ok? && Assemble(rt, NodeKey(b), es).Ok?
    ensures Assemble(lt, NodeKey(a), ds) == Assemble(rt, NodeKey(b), es) <==>
            SameNode(lt, lt.nodes[a], rt, rt.nodes[b]) && |lt.nodes[a].operands| == |rt.nodes[b].operands| &&
            lt.nodes[a].population.Some? == rt.nodes[b].population.Some? && ds == es
  {
    var l, r := lt.nodes[a], rt.nodes[b];
    SlotsAre(lt, l.bindings);
    SlotsAre(rt, r.bindings);
    SlotsAgreeIff(BindingDescriptors(lt, l.bindings).value, SlotsOf(lt, l.bindings), BindingDescriptors(rt, r.bindings).value, SlotsOf(rt, r.bindings));
    hide BindingDescriptors, SlotsOf;
    if Assemble(lt, NodeKey(a), ds) == Assemble(rt, NodeKey(b), es) {
      var k := |l.operands|;
      assert ds[..k] == es[..k] && |r.operands| == k;
      assert l.population.Some? ==> ds == ds[..k] + [ds[k]] && es == es[..k] + [es[k]];
      assert l.population.None? ==> ds == ds[..k] && es == es[..k];
    }
  }

  // -------------------------------------------------------------- the main result

  /** Keys that read the same. */
  function SameReadings(lt: Tables, rt: Tables): Pairs {
    set x, y | x in KeysOf(lt) && y in KeysOf(rt) && Walk(lt, x, {}).Ok? && Walk(lt, x, {}) == Walk(rt, y, {}) :: (x, y)
  }

  lemma ReadPair(lt: Tables, x: Key, rt: Tables, y: Key, d: Desc)
    requires Walk(lt, x, {}) == Ok(d) && Walk(rt, y, {}) == Ok(d)
    ensures (x, y) in SameReadings(lt, rt)
  {
    WalkOk(lt, x, {});
    WalkOk(rt, y, {});
  }

  lemma SameFollow(lt: Tables, x: Key, rt: Tables, y: Key)
    requires Walk(lt, x, {}).Ok? && Walk(lt, x, {}) == Walk(rt, y, {})
    ensures Follows(lt, x, rt, y, SameReadings(lt, rt))
  {
    hide Walk, SameReadings, SameNode;
    var ds := ReadBelow(lt, x, {});
    var es := ReadBelow(rt, y, {});
    if x.NodeKey? && y.NodeKey? {
      NodesAssemble(lt, x.id, ds, rt, y.id, es);
      NodesPair(lt, x.id, ds, rt, y.id);
    } else if x.PopulationKey? && y.PopulationKey? {
      var at := CountsPair(ds, es);
      PopulationsPair(lt, x.id, ds, rt, y.id, es, at);
    } else {
      assert false;
    }
  }

  lemma NodesPair(lt: Tables, a: string, ds: seq<Desc>, rt: Tables, b: string)
    requires a in lt.nodes && b in rt.nodes && ReadAs(lt, Children(lt, NodeKey(a)), ds) && ReadAs(rt, Children(rt, NodeKey(b)), ds)
    requires |lt.nodes[a].operands| == |rt.nodes[b].operands| && lt.nodes[a].population.Some? == rt.nodes[b].population.Some?
    ensures NodesFollow(SameReadings(lt, rt), lt.nodes[a], rt.nodes[b])
  {
    hide Walk, SameReadings;
    var xs, ys := Children(lt, NodeKey(a)), Children(rt, NodeKey(b));
    forall i | 0 <= i < |ds| ensures (xs[i], ys[i]) in SameReadings(lt, rt) {
      ReadPair(lt, xs[i], rt, ys[i], ds[i]);
    }
    var l, r := lt.nodes[a], rt.nodes[b];
    forall i | 0 <= i < |l.operands| ensures (NodeKey(l.operands[i]), NodeKey(r.operands[i])) in SameReadings(lt, rt) {
      assert xs[i] == NodeKey(l.operands[i]) && ys[i] == NodeKey(r.operands[i]);
    }
    if l.population.Some? {
      assert xs[|l.operands|] == PopulationKey(l.population.value) && ys[|l.operands|] == PopulationKey(r.population.value);
    }
  }

  lemma PopulationsPair(lt: Tables, a: string, ds: seq<Desc>, rt: Tables, b: string, es: seq<Desc>, at: seq<nat>)
    requires a in lt.populations && b in rt.populations
    requires ReadAs(lt, Children(lt, PopulationKey(a)), ds) && ReadAs(rt, Children(rt, PopulationKey(b)), es)
    requires |ds| == |es| && Pairing(at, |ds|) && forall i | 0 <= i < |ds| :: ds[i] == es[at[i]]
    ensures PopulationsFollow(SameReadings(lt, rt), lt.populations[a], rt.populations[b])
  {
    hide Walk, SameReadings;
    var xs, ys := Children(lt, PopulationKey(a)), Children(rt, PopulationKey(b));
    var l, r := lt.populations[a], rt.populations[b];
    forall i | 0 <= i < |at| ensures (NodeKey(l.predicates[i]), NodeKey(r.predicates[at[i]])) in SameReadings(lt, rt) {
      ReadPair(lt, xs[i], rt, ys[at[i]], ds[i]);
    }
  }

  /** Keys that can be followed side by side read the same. */
  lemma {:induction false} FollowedRead(lt: Tables, x: Key, active: set<Key>, rt: Tables, y: Key, others: set<Key>, pairs: Pairs)
    requires SideBySide(lt, rt, pairs) && (x, y) in pairs && Walk(lt, x, active).Ok? && Walk(rt, y, others).Ok?
    ensures Walk(lt, x, active) == Walk(rt, y, others)
    decreases KeysOf(lt) - active
  {
    hide SameNode, Assemble;
    WalkOk(lt, x, active);
    WalkOk(rt, y, others);
    var xs, ys := Children(lt, x), Children(rt, y);
    forall i, j | 0 <= i < |xs| && 0 <= j < |ys| && (xs[i], ys[j]) in pairs ensures Walk(lt, xs[i], {}) == Walk(rt, ys[j], {}) {
      FollowedRead(lt, xs[i], active + {x}, rt, ys[j], others + {y}, pairs);
      WalkStandsAlone(lt, xs[i], active + {x});
      WalkStandsAlone(rt, ys[j], others + {y});
    }
    FollowedAssemble(lt, x, active, rt, y, others, pairs);
  }

  lemma FollowedAssemble(lt: Tables, x: Key, active: set<Key>, rt: Tables, y: Key, others: set<Key>, pairs: Pairs)
    requires Follows(lt, x, rt, y, pairs) && Walk(lt, x, active).Ok? && Walk(rt, y, others).Ok?
    requires var xs, ys := Children(lt, x), Children(rt, y);
             forall i, j | 0 <= i < |xs| && 0 <= j < |ys| && (xs[i], ys[j]) in pairs :: Walk(lt, xs[i], {}) == Walk(rt, ys[j], {})
    ensures Walk(lt, x, active) == Walk(rt, y, others)
  {
    hide Walk, SameNode, Assemble, NodesFollow, PopulationsFollow, Children;
    var ds := ReadBelow(lt, x, active);
    var es := ReadBelow(rt, y, others);
    var xs, ys := Children(lt, x), Children(rt, y);
    assert forall i, j | 0 <= i < |xs| && 0 <= j < |ys| && (xs[i], ys[j]) in pairs :: ds[i] == es[j];
    if x.NodeKey? {
      NodesMatch(lt, x.id, ds, rt, y.id, es, pairs);
    } else {
      PopulationsMatch(lt, x.id, ds, rt, y.id, es, pairs);
    }
  }

  lemma NodesMatch(lt: Tables, a: string, ds: seq<Desc>, rt: Tables, b: string, es: seq<Desc>, pairs: Pairs)
    requires Follows(lt, NodeKey(a), rt, NodeKey(b), pairs)
    requires var xs, ys := Children(lt, NodeKey(a)), Children(rt, NodeKey(b));
             |ds| == |xs| && |es| == |ys| && forall i, j | 0 <= i < |xs| && 0 <= j < |ys| && (xs[i], ys[j]) in pairs :: ds[i] == es[j]
    requires Assemble(lt, NodeKey(a), ds).Ok? && Assemble(rt, NodeKey(b), es).Ok?
    ensures Assemble(lt, NodeKey(a), ds) == Assemble(rt, NodeKey(b), es)
  {
    hide SameNode, Assemble;
    NodesAssemble(lt, a, ds, rt, b, es);
    var xs, ys := Children(lt, NodeKey(a)), Children(rt, NodeKey(b));
    forall i | 0 <= i < |xs| ensures ds[i] == es[i] {
      assert (xs[i], ys[i]) in pairs;
    }
  }

  lemma PopulationsMatch(lt: Tables, a: string, ds: seq<Desc>, rt: Tables, b: string, es: seq<Desc>, pairs: Pairs)
    requires Follows(lt, PopulationKey(a), rt, PopulationKey(b), pairs)
    requires var xs, ys := Children(lt, PopulationKey(a)), Children(rt, PopulationKey(b));
             |ds| == |xs| && |es| == |ys| && forall i, j | 0 <= i < |xs| && 0 <= j < |ys| && (xs[i], ys[j]) in pairs :: ds[i] == es[j]
    ensures Assemble(lt, PopulationKey(a), ds) == Assemble(rt, PopulationKey(b), es)
  {
    var l, r := lt.populations[a], rt.populations[b];
    var xs, ys := Children(lt, PopulationKey(a)), Children(rt, PopulationKey(b));
    var at: seq<nat> :| Pairing(at, |l.predicates|) && forall i | 0 <= i < |at| :: (NodeKey(l.predicates[i]), NodeKey(r.predicates[at[i]])) in pairs;
    forall i | 0 <= i < |ds| ensures ds[i] == es[at[i]] {
      assert (xs[i], ys[at[i]]) in pairs;
    }
    PairingKeepsCounts(ds, es, at);
  }

  /** Two keys that are read have the same descriptor iff the graphs can be followed from them side by side. */
  lemma SameDescriptorIff(lt: Tables, x: Key, rt: Tables, y: Key)
    requires Walk(lt, x, {}).Ok? && Walk(rt, y, {}).Ok?
    ensures Walk(lt, x, {}) == Walk(rt, y, {}) <==> exists pairs :: (x, y) in pairs && SideBySide(lt, rt, pairs)
  {
    hide Walk, Follows, SameReadings;
    if Walk(lt, x, {}) == Walk(rt, y, {}) {
      var pairs := SameReadings(lt, rt);
      ReadPair(lt, x, rt, y, Walk(lt, x, {}).value);
      forall p | p in pairs ensures Follows(lt, p.0, rt, p.1, pairs) {
        PairRead(lt, rt, p);
        SameFollow(lt, p.0, rt, p.1);
      }
      assert SideBySide(lt, rt, pairs);
    }
    if pairs :| (x, y) in pairs && SideBySide(lt, rt, pairs) {
      FollowedRead(lt, x, {}, rt, y, {}, pairs);
    }
  }

  lemma PairRead(lt: Tables, rt: Tables, p: (Key, Key))
    requires p in SameReadings(lt, rt)
    ensures Walk(lt, p.0, {}).Ok? && Walk(lt, p.0, {}) == Walk(rt, p.1, {})
  {
  }
}
