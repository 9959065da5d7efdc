/** Building a catalog's cubes: inheritance and inferred joins. */
module Catalog {

  /*
    Reflection cubes are appended, `extends` chains flattened, and joins inferred
    from foreign keys.
  */

  import opened Wrappers

  datatype Field = Field(name: string, foreignKey: Option<string>, details: string)

  /** The inherited lists of a cube. */
  datatype Lists = Lists(measures: seq<Field>, dimensions: seq<Field>, times: seq<Field>, segments: seq<Field>)

  datatype Join = Join(to: string, relationship: string, condition: string)

  datatype Cube = Cube(
    name: string, alias: string, extends_: Option<string>, primaryKey: Option<string>, lists: Lists, joins: seq<Join>, details: string)

  type ByName = map<string, Cube>

  /** A dictionary of cubes; a later cube of the same name wins. */
  function Index(cubes: seq<Cube>): ByName {
    if cubes == [] then map[] else Index(cubes[..|cubes| - 1])[cubes[|cubes| - 1].name := cubes[|cubes| - 1]]
  }

  // ----------------------------------------------------------- merging by name

  function NamesOf(fs: seq<Field>): (ns: seq<string>)
    ensures |ns| == |fs| && forall i | 0 <= i < |fs| :: ns[i] == fs[i].name
  {
    seq(|fs|, i requires 0 <= i < |fs| => fs[i].name)
  }

  /** Assign in an insertion-ordered dictionary: replace in place, or append. */
  function Put(fs: seq<Field>, f: Field): seq<Field> {
    if fs == [] then [f]
    else if fs[0].name == f.name then [f] + fs[1..]
    else [fs[0]] + Put(fs[1..], f)
  }

  function PutAll(fs: seq<Field>, more: seq<Field>): seq<Field> {
    if more == [] then fs else Put(PutAll(fs, more[..|more| - 1]), more[|more| - 1])
  }

  /** The parent's fields by name, overridden or extended by the child's. */
  function Merge(parent: seq<Field>, child: seq<Field>): seq<Field> {
    PutAll(PutAll([], parent), child)
  }

  method MergeByName(parent: seq<Field>, child: seq<Field>) returns (fields: seq<Field>)
    ensures fields == Merge(parent, child)
  {
    fields := [];
    for i := 0 to |parent|
      invariant fields == PutAll([], parent[..i])
    {
      assert parent[..i + 1][..i] == parent[..i];
      fields := Put(fields, parent[i]);
    }
    assert parent[..|parent|] == parent;
    for i := 0 to |child|
      invariant fields == PutAll(PutAll([], parent), child[..i])
    {
      assert child[..i + 1][..i] == child[..i];
      fields := Put(fields, child[i]);
    }
    assert child[..|child|] == child;
  }

  function MergeLists(parent: Lists, child: Lists): Lists {
    Lists(Merge(parent.measures, child.measures), Merge(parent.dimensions, child.dimensions),
          Merge(parent.times, child.times), Merge(parent.segments, child.segments))
  }

  // ----------------------------------------------------------------- flattening

  datatype Fault = ExtendsCycle(name: string) | UnknownParent(name: string) | DuplicateNames
                 | UnknownTarget(name: string) | NoPrimaryKey(name: string)

  function Members(s: seq<string>): set<string> {
    set x | x in s
  }

  /** A cube with its ancestors' fields; `stack` holds the descendants being flattened. */
  function Flatten(byName: ByName, name: string, stack: seq<string>): Result<Cube, Fault>
    requires name in byName && name !in stack
    decreases byName.Keys - Members(stack)
  {
    var cube := byName[name];
    if cube.extends_.None? then Ok(cube)
    else if cube.extends_.value == name || cube.extends_.value in stack then Err(ExtendsCycle(name))
    else if cube.extends_.value !in byName then Err(UnknownParent(name))
    else
      assert name in byName.Keys - Members(stack) && name !in byName.Keys - Members(stack + [name]);
      var parent :- Flatten(byName, cube.extends_.value, stack + [name]);
      Ok(cube.(lists := MergeLists(parent.lists, cube.lists)))
  }

  method FlattenCube(byName: ByName, name: string, stack: seq<string>) returns (r: Result<Cube, Fault>)
    requires name in byName && name !in stack
    ensures r == Flatten(byName, name, stack)
    decreases byName.Keys - Members(stack)
  {
    var cube := byName[name];
    if cube.extends_.None? {
      return Ok(cube);
    }
    if cube.extends_.value == name || cube.extends_.value in stack {
      return Err(ExtendsCycle(name));
    }
    if cube.extends_.value !in byName {
      return Err(UnknownParent(name));
    }
    assert name in byName.Keys - Members(stack) && name !in byName.Keys - Members(stack + [name]);
    var parent := FlattenCube(byName, cube.extends_.value, stack + [name]);
    if parent.Err? {
      return Err(parent.error);
    }
    var measures := MergeByName(parent.value.lists.measures, cube.lists.measures);
    var dimensions := MergeByName(parent.value.lists.dimensions, cube.lists.dimensions);
    var times := MergeByName(parent.value.lists.times, cube.lists.times);
    var segments := MergeByName(parent.value.lists.segments, cube.lists.segments);
    return Ok(cube.(lists := Lists(measures, dimensions, times, segments)));
  }

  function ResolveOne(byName: ByName, c: Cube): Result<Cube, Fault> {
    if c.extends_.None? || c.name !in byName then Ok(c) else Flatten(byName, c.name, [])
  }

  function Resolve(byName: ByName, cubes: seq<Cube>): Result<seq<Cube>, Fault> {
    if cubes == [] then Ok([]) else
      var before :- Resolve(byName, cubes[..|cubes| - 1]);
      var c :- ResolveOne(byName, cubes[|cubes| - 1]);
      Ok(before + [c])
  }

  lemma {:induction false} IndexHas(cubes: seq<Cube>)
    ensures forall c | c in cubes :: c.name in Index(cubes)
    ensures forall n | n in Index(cubes) :: Index(cubes)[n] in cubes && Index(cubes)[n].name == n
  {
    if cubes != [] {
      IndexHas(cubes[..|cubes| - 1]);
      assert cubes == cubes[..|cubes| - 1] + [cubes[|cubes| - 1]];
    }
  }

  lemma {:induction false} ResolveFails(byName: ByName, cubes: seq<Cube>, i: nat, error: Fault)
    requires i <= |cubes| && Resolve(byName, cubes[..i]) == Err(error)
    ensures Resolve(byName, cubes) == Err(error)
    decreases |cubes|
  {
    hide ResolveOne;
    if i == |cubes| {
      assert cubes[..i] == cubes;
    } else {
      assert cubes[..|cubes| - 1][..i] == cubes[..i];
      ResolveFails(byName, cubes[..|cubes| - 1], i, error);
    }
  }

  method ResolveExtends(cubes: seq<Cube>) returns (r: Result<seq<Cube>, Fault>)
    ensures r == Resolve(Index(cubes), cubes)
  {
    hide Flatten, Index;
    var byName := Index(cubes);
    IndexHas(cubes);
    var resolved: seq<Cube> := [];
    for i := 0 to |cubes|
      invariant Resolve(byName, cubes[..i]) == Ok(resolved)
    {
      assert cubes[..i + 1][..i] == cubes[..i];
      if cubes[i].extends_.None? {
        resolved := resolved + [cubes[i]];
      } else {
        var flat := FlattenCube(byName, cubes[i].name, []);
        if flat.Err? {
          ResolveFails(byName, cubes, i + 1, flat.error);
          return Err(flat.error);
        }
        resolved := resolved + [flat.value];
      }
    }
    assert cubes[..|cubes|] == cubes;
    return Ok(resolved);
  }

  // -------------------------------------------------------------- inferred joins

  function Targets(joins: seq<Join>): set<string> {
    set j | j in joins :: j.to
  }

  function InferredJoin(cube: Cube, dim: Field, to: string, target: Cube, key: string): Join {
    Join(to, "many_to_one", "{" + cube.alias + "}." + dim.name + " = {" + target.alias + "}." + key)
  }

  /** The joins a cube's foreign keys imply; explicit joins to the same cube win. */
  function Inferred(byName: ByName, cube: Cube, dims: seq<Field>): Result<seq<Join>, Fault> {
    if dims == [] then Ok([]) else
      var n := |dims| - 1;
      var before :- Inferred(byName, cube, dims[..n]);
      var key := dims[n].foreignKey;
      if key.None? then Ok(before)
      else if key.value !in byName then Err(UnknownTarget(dims[n].name))
      else if byName[key.value].primaryKey.None? then Err(NoPrimaryKey(dims[n].name))
      else if key.value in Targets(cube.joins) then Ok(before)
      else Ok(before + [InferredJoin(cube, dims[n], key.value, byName[key.value], byName[key.value].primaryKey.value)])
  }

  function AugmentOne(byName: ByName, c: Cube): Result<Cube, Fault> {
    var joins :- Inferred(byName, c, c.lists.dimensions);
    Ok(c.(joins := c.joins + joins))
  }

  function Augment(byName: ByName, cubes: seq<Cube>): Result<seq<Cube>, Fault> {
    if cubes == [] then Ok([]) else
      var before :- Augment(byName, cubes[..|cubes| - 1]);
      var c :- AugmentOne(byName, cubes[|cubes| - 1]);
      Ok(before + [c])
  }

  lemma {:induction false} InferredFails(byName: ByName, cube: Cube, dims: seq<Field>, i: nat, error: Fault)
    requires i <= |dims| && Inferred(byName, cube, dims[..i]) == Err(error)
    ensures Inferred(byName, cube, dims) == Err(error)
    decreases |dims|
  {
    if i == |dims| {
      assert dims[..i] == dims;
    } else {
      assert dims[..|dims| - 1][..i] == dims[..i];
      InferredFails(byName, cube, dims[..|dims| - 1], i, error);
    }
  }

  lemma {:induction false} AugmentFails(byName: ByName, cubes: seq<Cube>, i: nat, error: Fault)
    requires i <= |cubes| && Augment(byName, cubes[..i]) == Err(error)
    ensures Augment(byName, cubes) == Err(error)
    decreases |cubes|
  {
    hide AugmentOne;
    if i == |cubes| {
      assert cubes[..i] == cubes;
    } else {
      assert cubes[..|cubes| - 1][..i] == cubes[..i];
      AugmentFails(byName, cubes[..|cubes| - 1], i, error);
    }
  }

  method InferJoins(byName: ByName, cube: Cube) returns (r: Result<seq<Join>, Fault>)
    ensures r == Inferred(byName, cube, cube.lists.dimensions)
  {
    var dims := cube.lists.dimensions;
    var joins: seq<Join> := [];
    var explicit := Targets(cube.joins);
    for i := 0 to |dims|
      invariant Inferred(byName, cube, dims[..i]) == Ok(joins)
    {
      assert dims[..i + 1][..i] == dims[..i];
      var key := dims[i].foreignKey;
      if key.Some? {
        if key.value !in byName {
          InferredFails(byName, cube, dims, i + 1, UnknownTarget(dims[i].name));
          return Err(UnknownTarget(dims[i].name));
        }
        var target := byName[key.value];
        if target.primaryKey.None? {
          InferredFails(byName, cube, dims, i + 1, NoPrimaryKey(dims[i].name));
          return Err(NoPrimaryKey(dims[i].name));
        }
        if key.value !in explicit {
          joins := joins + [InferredJoin(cube, dims[i], key.value, target, target.primaryKey.value)];
        }
      }
    }
    assert dims[..|dims|] == dims;
    return Ok(joins);
  }

  /** Entries are replaced as their joins are inferred; keys and aliases come from the cubes before. */
  method AugmentCubes(cubes: seq<Cube>) returns (r: Result<seq<Cube>, Fault>)
    ensures r == Augment(Index(cubes), cubes)
  {
    hide Index, Inferred;
    var byName := Index(cubes);
    var out := cubes;
    for i := 0 to |cubes|
      invariant |out| == |cubes| && out[i..] == cubes[i..]
      invariant Augment(byName, cubes[..i]) == Ok(out[..i])
    {
      assert cubes[..i + 1][..i] == cubes[..i];
      var cube := out[i];
      assert cube == out[i..][0] == cubes[i..][0];
      var joins := InferJoins(byName, cube);
      if joins.Err? {
        AugmentFails(byName, cubes, i + 1, joins.error);
        return Err(joins.error);
      }
      ghost var before := out;
      if joins.value != [] {
        out := out[i := cube.(joins := cube.joins + joins.value)];
      } else {
        assert cube.joins + joins.value == cube.joins;
      }
      assert out[..i + 1] == before[..i] + [cube.(joins := cube.joins + joins.value)];
      assert out[i + 1..] == before[i..][1..] == cubes[i..][1..];
    }
    assert cubes[..|cubes|] == cubes && out[..|cubes|] == out;
    return Ok(out);
  }

  // --------------------------------------------------------------- construction

  function CubeNames(cubes: seq<Cube>): set<string> {
    set c | c in cubes :: c.name
  }

  predicate NamesDiffer(cubes: seq<Cube>) {
    forall i, j | 0 <= i < j < |cubes| :: cubes[i].name != cubes[j].name
  }

  /** The reflection cubes whose names are not taken, in order. */
  function Missing(cubes: seq<Cube>, metas: seq<Cube>): seq<Cube> {
    if metas == [] then [] else
      var n := |metas| - 1;
      var before := Missing(cubes, metas[..n]);
      if metas[n].name in CubeNames(cubes + before) then before else before + [metas[n]]
  }

  /** Flattened, checked for duplicate names, and augmented. */
  function Complete(cubes: seq<Cube>): Result<seq<Cube>, Fault> {
    var resolved :- Resolve(Index(cubes), cubes);
    if !NamesDiffer(resolved) then Err(DuplicateNames) else Augment(Index(resolved), resolved)
  }

  function Build(cubes: seq<Cube>, metas: seq<Cube>): Result<seq<Cube>, Fault> {
    Complete(cubes + Missing(cubes, metas))
  }

  method AppendMissing(cubes: seq<Cube>, metas: seq<Cube>) returns (merged: seq<Cube>)
    ensures merged == cubes + Missing(cubes, metas)
  {
    var existing := CubeNames(cubes);
    merged := cubes;
    for i := 0 to |metas|
      invariant merged == cubes + Missing(cubes, metas[..i]) && existing == CubeNames(merged)
    {
      assert metas[..i + 1][..i] == metas[..i];
      if metas[i].name !in existing {
        merged := merged + [metas[i]];
        existing := existing + {metas[i].name};
      }
    }
    assert metas[..|metas|] == metas;
  }

  method Construct(cubes: seq<Cube>, metas: seq<Cube>) returns (r: Result<seq<Cube>, Fault>)
    ensures r == Build(cubes, metas)
  {
    hide Resolve, Augment, Index, Missing;
    var merged := AppendMissing(cubes, metas);
    var resolved := ResolveExtends(merged);
    if resolved.Err? {
      return Err(resolved.error);
    }
    if !NamesDiffer(resolved.value) {
      return Err(DuplicateNames);
    }
    r := AugmentCubes(resolved.value);
  }

  /** The cubes a catalog's own specification carries. */
  function SpecCubes(built: seq<Cube>, metas: seq<Cube>): seq<Cube> {
    if built == [] then [] else
      var n := |built| - 1;
      SpecCubes(built[..n], metas) + if built[n].name in CubeNames(metas) then [] else [built[n]]
  }
}
