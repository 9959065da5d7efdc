/** The joins of a bridge merge, in the order they are planned, and when there are any. */
module MergeJoins {

  /*
    Every backend runs one fragment, for all of its cubes.  Starting from the
    primary fragment, each bridge joins one further fragment; a bridge that leads
    nowhere new is an error.
  */

  import opened Sequences
  import opened Wrappers
  import opened AutoPlan
  import opened AutoPlanMeaning

  type Backends = map<string, string>

  /** A joined fragment's column, the new fragment's, and whether rows without a partner are dropped. */
  datatype MergeJoin = MergeJoin(host: string, hostKey: string, added: string, addedKey: string, inner: bool)

  predicate AllPlaced(backends: Backends, bridges: seq<Bridge>) {
    forall b | b in bridges :: b.leftCube in backends && b.rightCube in backends
  }

  /** The backends the bridges touch. */
  function Ends(backends: Backends, bridges: seq<Bridge>): set<string>
    requires AllPlaced(backends, bridges)
  {
    (set b | b in bridges :: backends[b.leftCube]) + set b | b in bridges :: backends[b.rightCube]
  }

  /** No bridge leads out of these backends. */
  predicate Closed(backends: Backends, bridges: seq<Bridge>, part: set<string>)
    requires AllPlaced(backends, bridges)
  {
    forall b | b in bridges :: backends[b.leftCube] in part <==> backends[b.rightCube] in part
  }

  /** From the primary backend, bridges lead to everything they touch. */
  ghost predicate Linked(backends: Backends, bridges: seq<Bridge>, primary: string)
    requires AllPlaced(backends, bridges)
  {
    forall part | primary in part && Closed(backends, bridges, part) :: Ends(backends, bridges) <= part
  }

  /** The bridges form a tree of backends around the primary one. */
  ghost predicate TreeFrom(backends: Backends, bridges: seq<Bridge>, primary: string)
    requires AllPlaced(backends, bridges)
  {
    Linked(backends, bridges, primary) && |{primary} + Ends(backends, bridges)| == |bridges| + 1
  }

  function LeftRef(b: Bridge): string {
    b.leftCube + "." + b.leftKey
  }

  function RightRef(b: Bridge): string {
    b.rightCube + "." + b.rightKey
  }

  /** A filtered cube's fragment restricts the rows it joins. */
  predicate Restricts(backends: Backends, restricting: set<string>, backend: string) {
    exists c | c in restricting :: c in backends && backends[c] == backend
  }

  /** A join along one bridge, in either direction. */
  predicate Along(backends: Backends, restricting: set<string>, b: Bridge, j: MergeJoin)
    requires b.leftCube in backends && b.rightCube in backends
  {
    && j.inner == Restricts(backends, restricting, j.added)
    && (j == MergeJoin(backends[b.leftCube], LeftRef(b), backends[b.rightCube], RightRef(b), j.inner) ||
        j == MergeJoin(backends[b.rightCube], RightRef(b), backends[b.leftCube], LeftRef(b), j.inner))
  }

  function Added(joins: seq<MergeJoin>): set<string> {
    set j | j in joins :: j.added
  }

  /** The host of a join is joined before, the added fragment is not. */
  predicate InOrder(primary: string, joins: seq<MergeJoin>) {
    forall i | 0 <= i < |joins| ::
      joins[i].host in {primary} + Added(joins[..i]) && joins[i].added !in {primary} + Added(joins[..i])
  }

  /** One join along each bridge, each from fragments joined before to a new one. */
  predicate IsJoinPlan(
    backends: Backends, bridges: seq<Bridge>, primary: string, restricting: set<string>, joins: seq<MergeJoin>, used: seq<Bridge>)
    requires AllPlaced(backends, bridges)
  {
    && multiset(used) == multiset(bridges) && |used| == |joins| && InOrder(primary, joins)
    && forall i | 0 <= i < |used| :: used[i] in bridges && Along(backends, restricting, used[i], joins[i])
  }

  // ------------------------------------------------------------------- the loop

  /** What is joined after some bridges: each reached one new backend. */
  ghost predicate Reached(backends: Backends, primary: string, restricting: set<string>, joined: set<string>, joins: seq<MergeJoin>, used: seq<Bridge>) {
    && AllPlaced(backends, used) && |used| == |joins| && InOrder(primary, joins)
    && joined == {primary} + Added(joins) == {primary} + Ends(backends, used)
    && |joined| == |used| + 1 && Linked(backends, used, primary)
    && forall i | 0 <= i < |used| :: Along(backends, restricting, used[i], joins[i])
  }

  lemma NothingReached(backends: Backends, primary: string, restricting: set<string>)
    ensures Reached(backends, primary, restricting, {primary}, [], [])
  {
  }

  lemma EndsMore(backends: Backends, used: seq<Bridge>, b: Bridge)
    requires AllPlaced(backends, used) && b.leftCube in backends && b.rightCube in backends
    ensures AllPlaced(backends, used + [b])
    ensures Ends(backends, used + [b]) == Ends(backends, used) + {backends[b.leftCube], backends[b.rightCube]}
  {
    var bs := used + [b];
    assert b in bs;
    forall e | e in Ends(backends, used) ensures e in Ends(backends, bs) {
      var x :| x in used && (backends[x.leftCube] == e || backends[x.rightCube] == e);
      assert x in bs;
    }
  }

  lemma OrderMore(primary: string, joins: seq<MergeJoin>, j: MergeJoin)
    requires InOrder(primary, joins) && j.host in {primary} + Added(joins) && j.added !in {primary} + Added(joins)
    ensures InOrder(primary, joins + [j]) && Added(joins + [j]) == Added(joins) + {j.added}
  {
    var js := joins + [j];
    forall i | 0 <= i < |js| ensures js[i].host in {primary} + Added(js[..i]) && js[i].added !in {primary} + Added(js[..i]) {
      assert js[..i] == if i < |joins| then joins[..i] else joins;
    }
    assert j in js;
    forall x | x in joins ensures x in js {
    }
  }

  lemma LinkedMore(backends: Backends, used: seq<Bridge>, b: Bridge, primary: string)
    requires AllPlaced(backends, used) && b.leftCube in backends && b.rightCube in backends && Linked(backends, used, primary)
    requires backends[b.leftCube] in {primary} + Ends(backends, used) || backends[b.rightCube] in {primary} + Ends(backends, used)
    ensures AllPlaced(backends, used + [b]) && Linked(backends, used + [b], primary)
  {
    hide Ends;
    var bs := used + [b];
    EndsMore(backends, used, b);
    forall part | primary in part && Closed(backends, bs, part) ensures Ends(backends, bs) <= part {
      ClosedFewer(backends, used, bs, part);
      assert b in bs;
    }
  }

  lemma ClosedFewer(backends: Backends, few: seq<Bridge>, many: seq<Bridge>, part: set<string>)
    requires AllPlaced(backends, few) && AllPlaced(backends, many) && Closed(backends, many, part) && forall b | b in few :: b in many
    ensures Closed(backends, few, part)
  {
  }

  lemma ReachMore(
    backends: Backends, primary: string, restricting: set<string>, joined: set<string>, joins: seq<MergeJoin>, used: seq<Bridge>, b: Bridge,
    j: MergeJoin)
    requires Reached(backends, primary, restricting, joined, joins, used)
    requires b.leftCube in backends && b.rightCube in backends && Along(backends, restricting, b, j)
    requires j.host in joined && j.added !in joined
    ensures Reached(backends, primary, restricting, joined + {j.added}, joins + [j], used + [b])
  {
    hide Restricts, Ends, Added, InOrder, Linked;
    EndsMore(backends, used, b);
    OrderMore(primary, joins, j);
    LinkedMore(backends, used, b, primary);
    assert {backends[b.leftCube], backends[b.rightCube]} == {j.host, j.added};
  }

  /** With no bridge left, the bridges were a tree. */
  lemma AllReached(
    backends: Backends, bridges: seq<Bridge>, primary: string, restricting: set<string>, joined: set<string>, joins: seq<MergeJoin>,
    used: seq<Bridge>)
    requires Reached(backends, primary, restricting, joined, joins, used) && multiset(used) == multiset(bridges)
    ensures AllPlaced(backends, bridges) && TreeFrom(backends, bridges, primary)
    ensures IsJoinPlan(backends, bridges, primary, restricting, joins, used)
  {
    hide Along, InOrder, Ends, Closed;
    SameMembers(used, bridges);
    EndsGrow(backends, used, bridges);
    EndsGrow(backends, bridges, used);
    assert Ends(backends, used) == Ends(backends, bridges);
    forall part | primary in part && Closed(backends, bridges, part) ensures Ends(backends, bridges) <= part {
      ClosedFewer(backends, used, bridges, part);
    }
  }

  lemma SameMembers<T>(xs: seq<T>, ys: seq<T>)
    requires multiset(xs) == multiset(ys)
    ensures |xs| == |ys| && forall x :: x in xs <==> x in ys
  {
    assert |multiset(xs)| == |xs| && |multiset(ys)| == |ys|;
    forall x ensures x in xs <==> x in ys {
      assert x in multiset(xs) <==> x in multiset(ys);
    }
  }

  /** If every bridge left has both ends joined or neither, the bridges are no tree. */
  lemma Stuck(
    backends: Backends, bridges: seq<Bridge>, primary: string, restricting: set<string>, joined: set<string>, joins: seq<MergeJoin>,
    used: seq<Bridge>, pending: seq<Bridge>)
    requires AllPlaced(backends, bridges) && Reached(backends, primary, restricting, joined, joins, used)
    requires pending != [] && multiset(used + pending) == multiset(bridges)
    requires forall b | b in pending :: b.leftCube in backends && b.rightCube in backends && (backends[b.leftCube] in joined <==> backends[b.rightCube] in joined)
    ensures !TreeFrom(backends, bridges, primary)
  {
    hide Along, InOrder;
    SameMembers(used + pending, bridges);
    assert |used| + |pending| == |bridges|;
    if Linked(backends, bridges, primary) {
      StuckIsClosed(backends, bridges, joined, used, pending);
      assert {primary} + Ends(backends, bridges) == joined by {
        EndsGrow(backends, used, bridges);
        assert primary in joined && Ends(backends, bridges) <= joined;
      }
    }
  }

  lemma EndsGrow(backends: Backends, few: seq<Bridge>, many: seq<Bridge>)
    requires AllPlaced(backends, few) && AllPlaced(backends, many) && forall b | b in few :: b in many
    ensures Ends(backends, few) <= Ends(backends, many)
  {
  }

  lemma StuckIsClosed(backends: Backends, bridges: seq<Bridge>, joined: set<string>, used: seq<Bridge>, pending: seq<Bridge>)
    requires AllPlaced(backends, bridges) && AllPlaced(backends, used) && Ends(backends, used) <= joined
    requires forall b | b in bridges :: b in used || b in pending
    requires forall b | b in pending :: b.leftCube in backends && b.rightCube in backends && (backends[b.leftCube] in joined <==> backends[b.rightCube] in joined)
    ensures Closed(backends, bridges, joined)
  {
    forall b | b in bridges ensures backends[b.leftCube] in joined <==> backends[b.rightCube] in joined {
      if b in used {
        assert backends[b.leftCube] in Ends(backends, used) && backends[b.rightCube] in Ends(backends, used);
      }
    }
  }

  function Oriented(backends: Backends, restricting: set<string>, b: Bridge, fromLeft: bool): MergeJoin
    requires b.leftCube in backends && b.rightCube in backends
  {
    if fromLeft
    then MergeJoin(backends[b.leftCube], LeftRef(b), backends[b.rightCube], RightRef(b), Restricts(backends, restricting, backends[b.rightCube]))
    else MergeJoin(backends[b.rightCube], RightRef(b), backends[b.leftCube], LeftRef(b), Restricts(backends, restricting, backends[b.leftCube]))
  }

  /** Bridges used, put back and not yet looked at are all the bridges. */
  predicate Shared(bridges: seq<Bridge>, used: seq<Bridge>, remaining: seq<Bridge>, ahead: seq<Bridge>) {
    multiset(used) + multiset(remaining) + multiset(ahead) == multiset(bridges)
  }

  predicate NoneFits(backends: Backends, joined: set<string>, bridges: seq<Bridge>)
    requires AllPlaced(backends, bridges)
  {
    forall b | b in bridges :: backends[b.leftCube] in joined <==> backends[b.rightCube] in joined
  }

  lemma TakeBridge(bridges: seq<Bridge>, used: seq<Bridge>, remaining: seq<Bridge>, ahead: seq<Bridge>)
    requires ahead != [] && Shared(bridges, used, remaining, ahead)
    ensures Shared(bridges, used + [ahead[0]], remaining, ahead[1..]) && Shared(bridges, used, remaining + [ahead[0]], ahead[1..])
  {
    assert ahead == [ahead[0]] + ahead[1..];
  }

  lemma PassEnds(bridges: seq<Bridge>, used: seq<Bridge>, remaining: seq<Bridge>)
    ensures Shared(bridges, used, remaining, []) <==> multiset(used + remaining) == multiset(bridges)
    ensures Shared(bridges, used, [], remaining) <==> multiset(used + remaining) == multiset(bridges)
  {
  }

  /** Joins are planned exactly when the bridges form a tree around the primary backend. */
  method BuildMergeJoins(backends: Backends, bridges: seq<Bridge>, primary: string, restricting: set<string>)
    returns (r: Result<seq<MergeJoin>, string>, ghost used: seq<Bridge>)
    requires AllPlaced(backends, bridges)
    ensures r.Ok? <==> TreeFrom(backends, bridges, primary)
    ensures r.Ok? ==> IsJoinPlan(backends, bridges, primary, restricting, r.value, used)
    ensures r.Err? ==> r.error == "disconnected_partitions"
  {
    hide Reached, TreeFrom, IsJoinPlan, Shared;
    var joins: seq<MergeJoin>, joined, pending := [], {primary}, bridges;
    used := [];
    NothingReached(backends, primary, restricting);
    assert used + pending == bridges;
    while pending != []
      invariant Reached(backends, primary, restricting, joined, joins, used) && AllPlaced(backends, pending)
      invariant multiset(used + pending) == multiset(bridges)
      decreases |pending|
    {
      PassEnds(bridges, used, pending);
      var progress;
      used, joins, joined, pending, progress := Pass(backends, bridges, primary, restricting, joined, joins, used, pending);
      PassEnds(bridges, used, pending);
      if !progress && pending != [] {
        Stuck(backends, bridges, primary, restricting, joined, joins, used, pending);
        return Err("disconnected_partitions"), used;
      }
    }
    assert used + pending == used;
    AllReached(backends, bridges, primary, restricting, joined, joins, used);
    return Ok(joins), used;
  }

  /** One pass over the pending bridges: those that lead somewhere new are joined, the others put back. */
  method Pass(
    backends: Backends, ghost bridges: seq<Bridge>, primary: string, restricting: set<string>, joined0: set<string>, joins0: seq<MergeJoin>,
    ghost used0: seq<Bridge>, pending: seq<Bridge>)
    returns (ghost used: seq<Bridge>, joins: seq<MergeJoin>, joined: set<string>, remaining: seq<Bridge>, progress: bool)
    requires Reached(backends, primary, restricting, joined0, joins0, used0) && AllPlaced(backends, pending)
    requires Shared(bridges, used0, [], pending)
    ensures Reached(backends, primary, restricting, joined, joins, used) && AllPlaced(backends, remaining)
    ensures Shared(bridges, used, remaining, [])
    ensures |remaining| <= |pending| && (progress ==> |remaining| < |pending|)
    ensures !progress ==> NoneFits(backends, joined, remaining)
  {
    hide Reached, Shared;
    used, joins, joined, progress, remaining := used0, joins0, joined0, false, [];
    assert pending[0..] == pending;
    for i := 0 to |pending|
      invariant Reached(backends, primary, restricting, joined, joins, used) && AllPlaced(backends, remaining)
      invariant Shared(bridges, used, remaining, pending[i..])
      invariant |remaining| <= i && (progress ==> |remaining| < i)
      invariant !progress ==> NoneFits(backends, joined, remaining)
    {
      var b := pending[i];
      TakeBridge(bridges, used, remaining, pending[i..]);
      assert pending[i..][1..] == pending[i + 1..];
      if backends[b.leftCube] in joined && backends[b.rightCube] !in joined {
        used, joins, joined := Join(backends, primary, restricting, joined, joins, used, b, true);
        progress := true;
      } else if backends[b.rightCube] in joined && backends[b.leftCube] !in joined {
        used, joins, joined := Join(backends, primary, restricting, joined, joins, used, b, false);
        progress := true;
      } else {
        remaining := remaining + [b];
      }
    }
    assert pending[|pending|..] == [];
  }

  method Join(
    backends: Backends, primary: string, restricting: set<string>, joined0: set<string>, joins0: seq<MergeJoin>, ghost used0: seq<Bridge>,
    b: Bridge, fromLeft: bool)
    returns (ghost used: seq<Bridge>, joins: seq<MergeJoin>, joined: set<string>)
    requires Reached(backends, primary, restricting, joined0, joins0, used0) && b.leftCube in backends && b.rightCube in backends
    requires Oriented(backends, restricting, b, fromLeft).host in joined0 && Oriented(backends, restricting, b, fromLeft).added !in joined0
    ensures Reached(backends, primary, restricting, joined, joins, used) && used == used0 + [b]
  {
    hide Reached, Restricts;
    var j := Oriented(backends, restricting, b, fromLeft);
    ReachMore(backends, primary, restricting, joined0, joins0, used0, b, j);
    return used0 + [b], joins0 + [j], joined0 + {j.added};
  }
}
