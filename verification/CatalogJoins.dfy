/** Joins implied by foreign keys. */
module CatalogJoins {

  import opened Wrappers
  import opened Catalog

  /** A column of a cube, as join conditions write it. */
  function Column(cube: Cube, column: string): string {
    "{" + cube.alias + "}." + column
  }

  /** Many to one, on the foreign key of the cube and the primary key of the cube it names. */
  ghost predicate JoinsKeys(byName: ByName, cube: Cube, dim: Field, j: Join) {
    exists target, key :: dim.foreignKey == Some(target) && target in byName && byName[target].primaryKey == Some(key) &&
      j.to == target && j.relationship == "many_to_one" && j.condition == Column(cube, dim.name) + " = " + Column(byName[target], key)
  }

  predicate Explicit(cube: Cube, target: string) {
    exists j :: j in cube.joins && j.to == target
  }

  /** The dimension's foreign key names a cube that no explicit join goes to. */
  predicate Implies(cube: Cube, dim: Field) {
    dim.foreignKey.Some? && !Explicit(cube, dim.foreignKey.value)
  }

  predicate Broken(byName: ByName, dim: Field, fault: Fault) {
    match dim.foreignKey
    case None => false
    case Some(target) =>
      if target in byName then byName[target].primaryKey == None && fault == NoPrimaryKey(dim.name) else fault == UnknownTarget(dim.name)
  }

  predicate Sound(byName: ByName, dim: Field) {
    dim.foreignKey.Some? ==> dim.foreignKey.value in byName && byName[dim.foreignKey.value].primaryKey.Some?
  }

  /** The positions of the dimensions that imply a join, in order. */
  predicate Implying(cube: Cube, dims: seq<Field>, at: seq<nat>) {
    && (forall k | 0 <= k < |at| :: at[k] < |dims|) && (forall j, k | 0 <= j < k < |at| :: at[j] < at[k])
    && forall i: nat | i < |dims| :: i in at <==> Implies(cube, dims[i])
  }

  /** One join for each of them. */
  ghost predicate OneJoinEach(byName: ByName, cube: Cube, dims: seq<Field>, at: seq<nat>, joins: seq<Join>)
    requires forall k | 0 <= k < |at| :: at[k] < |dims|
  {
    |joins| == |at| && forall k | 0 <= k < |joins| :: JoinsKeys(byName, cube, dims[at[k]], joins[k])
  }

  lemma ImplyingMore(cube: Cube, dims: seq<Field>, at: seq<nat>)
    requires dims != [] && Implying(cube, dims[..|dims| - 1], at)
    ensures Implying(cube, dims, if Implies(cube, dims[|dims| - 1]) then at + [|dims| - 1] else at)
  {
    hide Implies;
    var n := |dims| - 1;
    assert forall i: nat | i < n :: dims[..n][i] == dims[i];
    assert forall i | i in at :: i < n;
  }

  lemma LastJoin(byName: ByName, cube: Cube, dims: seq<Field>)
    requires dims != []
    ensures var n := |dims| - 1;
            var before, all := Inferred(byName, cube, dims[..n]), Inferred(byName, cube, dims);
            && (before.Err? ==> all == before)
            && (before.Ok? ==> (all.Ok? <==> Sound(byName, dims[n])) && (all.Err? ==> Broken(byName, dims[n], all.error)))
            && (all.Ok? ==> before.Ok? && if Implies(cube, dims[n])
                                          then |all.value| == |before.value| + 1 && all.value[..|before.value|] == before.value &&
                                               JoinsKeys(byName, cube, dims[n], all.value[|before.value|])
                                          else all == before)
  {
    var n := |dims| - 1;
    var dim := dims[n];
    assert dim.foreignKey.Some? ==> (Explicit(cube, dim.foreignKey.value) <==> dim.foreignKey.value in Targets(cube.joins));
    if Inferred(byName, cube, dims).Ok? && Implies(cube, dim) {
      var target := byName[dim.foreignKey.value];
      var j := InferredJoin(cube, dim, dim.foreignKey.value, target, target.primaryKey.value);
      assert j.condition == Column(cube, dim.name) + " = " + Column(target, target.primaryKey.value) by {
        Condition(cube.alias, dim.name, target.alias, target.primaryKey.value);
      }
      assert JoinsKeys(byName, cube, dim, j);
    }
  }

  lemma Condition(a: string, b: string, c: string, d: string)
    ensures "{" + a + "}." + b + " = {" + c + "}." + d == ("{" + a + "}." + b) + " = " + ("{" + c + "}." + d)
  {
    assert " = {" == " = " + "{";
  }

  /** One join, in the order of the dimensions, for every foreign key without an explicit one. */
  ghost predicate JoinsEach(byName: ByName, cube: Cube, dims: seq<Field>, joins: seq<Join>) {
    (forall i: nat | i < |dims| :: Sound(byName, dims[i])) && exists at :: Implying(cube, dims, at) && OneJoinEach(byName, cube, dims, at, joins)
  }

  /** The first foreign key that names no cube with a primary key. */
  predicate FirstBroken(byName: ByName, dims: seq<Field>, fault: Fault) {
    exists i: nat :: i < |dims| && Broken(byName, dims[i], fault) && forall j | 0 <= j < i :: Sound(byName, dims[j])
  }

  lemma JoinsMore(byName: ByName, cube: Cube, dims: seq<Field>, before: seq<Join>, joins: seq<Join>)
    requires dims != [] && JoinsEach(byName, cube, dims[..|dims| - 1], before) && Sound(byName, dims[|dims| - 1])
    requires if Implies(cube, dims[|dims| - 1])
             then |joins| == |before| + 1 && joins[..|before|] == before && JoinsKeys(byName, cube, dims[|dims| - 1], joins[|before|])
             else joins == before
    ensures JoinsEach(byName, cube, dims, joins)
  {
    hide Implies, Sound, JoinsKeys, Implying, OneJoinEach;
    var n := |dims| - 1;
    assert forall i: nat | i < n :: dims[..n][i] == dims[i];
    var at := TheImplying(byName, cube, dims[..n], before);
    ImplyingMore(cube, dims, at);
    EachMore(byName, cube, dims, at, before, joins);
    BelowLength(cube, dims, if Implies(cube, dims[n]) then at + [n] else at);
  }

  lemma TheImplying(byName: ByName, cube: Cube, dims: seq<Field>, joins: seq<Join>) returns (at: seq<nat>)
    requires JoinsEach(byName, cube, dims, joins)
    ensures Implying(cube, dims, at) && (forall k | 0 <= k < |at| :: at[k] < |dims|) && OneJoinEach(byName, cube, dims, at, joins)
  {
    hide Implies, Sound, JoinsKeys;
    at :| Implying(cube, dims, at) && OneJoinEach(byName, cube, dims, at, joins);
  }

  lemma EachMore(byName: ByName, cube: Cube, dims: seq<Field>, at: seq<nat>, before: seq<Join>, joins: seq<Join>)
    requires dims != [] && (forall k | 0 <= k < |at| :: at[k] < |dims| - 1) && OneJoinEach(byName, cube, dims[..|dims| - 1], at, before)
    requires if Implies(cube, dims[|dims| - 1])
             then |joins| == |before| + 1 && joins[..|before|] == before && JoinsKeys(byName, cube, dims[|dims| - 1], joins[|before|])
             else joins == before
    ensures OneJoinEach(byName, cube, dims, if Implies(cube, dims[|dims| - 1]) then at + [|dims| - 1] else at, joins)
  {
    hide Implies, JoinsKeys;
    assert forall k | 0 <= k < |before| :: joins[k] == before[k];
  }

  lemma BelowLength(cube: Cube, dims: seq<Field>, at: seq<nat>)
    requires Implying(cube, dims, at)
    ensures forall k | 0 <= k < |at| :: at[k] < |dims|
  {
  }

  /** Inference gives those joins, or fails at the first foreign key that names no cube with a primary key. */
  lemma {:induction false} InferredAre(byName: ByName, cube: Cube, dims: seq<Field>)
    ensures match Inferred(byName, cube, dims)
            case Ok(joins) => JoinsEach(byName, cube, dims, joins)
            case Err(fault) => FirstBroken(byName, dims, fault)
  {
    hide Implies, Broken, Sound, JoinsKeys, Inferred, JoinsEach;
    if dims == [] {
      NothingInferred(byName, cube);
    } else {
      var n := |dims| - 1;
      InferredAre(byName, cube, dims[..n]);
      LastJoin(byName, cube, dims);
      if Inferred(byName, cube, dims).Ok? {
        JoinsMore(byName, cube, dims, Inferred(byName, cube, dims[..n]).value, Inferred(byName, cube, dims).value);
      } else {
        LastFault(byName, cube, dims, Inferred(byName, cube, dims[..n]), Inferred(byName, cube, dims).error);
      }
    }
  }

  lemma LastFault(byName: ByName, cube: Cube, dims: seq<Field>, before: Result<seq<Join>, Fault>, fault: Fault)
    requires dims != []
    requires if before.Err? then FirstBroken(byName, dims[..|dims| - 1], fault)
             else JoinsEach(byName, cube, dims[..|dims| - 1], before.value) && Broken(byName, dims[|dims| - 1], fault)
    ensures FirstBroken(byName, dims, fault)
  {
    hide Broken, Sound;
    assert forall i: nat | i < |dims| - 1 :: dims[..|dims| - 1][i] == dims[i];
  }

  lemma NothingInferred(byName: ByName, cube: Cube)
    ensures Inferred(byName, cube, []) == Ok([]) && JoinsEach(byName, cube, [], [])
  {
    assert Implying(cube, [], []) && OneJoinEach(byName, cube, [], [], []);
  }

  /** An augmented cube has its own joins first and then one for each foreign key without an explicit join. */
  lemma AugmentedJoins(byName: ByName, c: Cube, out: Cube)
    requires AugmentOne(byName, c) == Ok(out)
    ensures out.(joins := c.joins) == c && |out.joins| >= |c.joins| && out.joins[..|c.joins|] == c.joins
    ensures JoinsEach(byName, c, c.lists.dimensions, out.joins[|c.joins|..])
  {
    hide Inferred, JoinsEach;
    InferredAre(byName, c, c.lists.dimensions);
    assert out.joins[|c.joins|..] == Inferred(byName, c, c.lists.dimensions).value;
  }
}
