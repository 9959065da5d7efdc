/**
  A catalog rebuilt from the cubes of its own specification is the same catalog.
*/
module CatalogRoundTrip {
  import opened Sequences
  import opened Wrappers
  import opened Catalog
  import opened CatalogMeaning

  // ------------------------------------------------------ merging is idempotent

  lemma {:induction false} DedupPresent(xs: seq<string>, ys: seq<string>)
    requires forall y | y in ys :: y in xs
    ensures Dedup(xs + ys) == Dedup(xs)
  {
    hide Dedup, Distinct;
    if ys == [] {
      assert xs + ys == xs;
    } else {
      var n := |ys| - 1;
      DedupPresent(xs, ys[..n]);
      DedupSnoc(xs + ys[..n], ys[n]);
      assert xs + ys[..n] + [ys[n]] == xs + ys;
      assert ys[n] in xs;
    }
  }

  lemma {:induction false} DedupPrefix(xs: seq<string>, ys: seq<string>)
    ensures Dedup(xs) <= Dedup(xs + ys)
  {
    hide Dedup, Distinct;
    if ys == [] {
      assert xs + ys == xs;
    } else {
      var n := |ys| - 1;
      DedupPrefix(xs, ys[..n]);
      DedupSnoc(xs + ys[..n], ys[n]);
      assert xs + ys[..n] + [ys[n]] == xs + ys;
    }
  }

  lemma DedupTwice(xs: seq<string>, ys: seq<string>)
    ensures Dedup(xs + Dedup(xs + ys)) == Dedup(xs + ys)
  {
    hide Dedup, Distinct;
    var once := Dedup(xs + ys);
    DedupPrefix(xs, ys);
    DedupIs(xs);
    DedupIs(xs + ys);
    var new_ := once[|Dedup(xs)|..];
    assert once == Dedup(xs) + new_;
    assert xs + once == xs + Dedup(xs) + new_;
    DedupAppend(xs + Dedup(xs), new_);
    DedupPresent(xs, Dedup(xs));
    DedupOfDistinct(once);
  }

  lemma {:induction false} FindAt(fs: seq<Field>, i: nat)
    requires Distinct(NamesOf(fs)) && i < |fs|
    ensures Find(fs, fs[i].name) == Some(fs[i])
  {
    var n := |fs| - 1;
    if i < n {
      assert NamesOf(fs)[i] != NamesOf(fs)[n];
      assert NamesOf(fs[..n]) == NamesOf(fs)[..n];
      FindAt(fs[..n], i);
    }
  }

  lemma SameFields(xs: seq<Field>, ys: seq<Field>)
    requires Distinct(NamesOf(xs)) && NamesOf(xs) == NamesOf(ys) && forall name :: Find(xs, name) == Find(ys, name)
    ensures xs == ys
  {
    forall i | 0 <= i < |xs| ensures xs[i] == ys[i] {
      FindAt(xs, i);
      FindAt(ys, i);
      assert NamesOf(xs)[i] == NamesOf(ys)[i];
    }
  }

  /** Merging a parent into what it was already merged into changes nothing. */
  lemma MergeTwice(parent: seq<Field>, child: seq<Field>)
    ensures Merge(parent, Merge(parent, child)) == Merge(parent, child)
  {
    hide Merge, NamesOf, Find, Dedup, Distinct;
    var once := Merge(parent, child);
    MergeIs(parent, child);
    MergeIs(parent, once);
    DedupTwice(NamesOf(parent), NamesOf(child));
    forall name ensures Find(Merge(parent, once), name) == Find(once, name) {
    }
    SameFields(Merge(parent, once), once);
  }

  lemma MergeListsTwice(parent: Lists, child: Lists)
    ensures MergeLists(parent, MergeLists(parent, child)) == MergeLists(parent, child)
  {
    hide Merge;
    MergeTwice(parent.measures, child.measures);
    MergeTwice(parent.dimensions, child.dimensions);
    MergeTwice(parent.times, child.times);
    MergeTwice(parent.segments, child.segments);
  }

  // --------------------------------------------------------- flattening again

  lemma {:induction false} FlattenIgnores(byName: ByName, name: string, small: seq<string>, large: seq<string>)
    requires name in byName && name !in large && Members(small) <= Members(large) && Flatten(byName, name, large).Ok?
    ensures name !in small && Flatten(byName, name, small) == Flatten(byName, name, large)
    decreases byName.Keys - Members(large)
  {
    assert name !in Members(small);
    var next := byName[name].extends_;
    if next.Some? {
      assert next.value !in Members(large);
      assert name in byName.Keys - Members(large) && name !in byName.Keys - Members(large + [name]);
      assert Members(small + [name]) == Members(small) + {name} && Members(large + [name]) == Members(large) + {name};
      FlattenIgnores(byName, next.value, small + [name], large + [name]);
    }
  }

  /** A flattened child is its flattened parent merged with its own lists. */
  lemma FlattenStep(byName: ByName, name: string, stack: seq<string>)
    requires name in byName && name !in stack && Flatten(byName, name, stack).Ok?
    ensures Flatten(byName, name, []) == Flatten(byName, name, stack)
    ensures var next := byName[name].extends_;
            next.Some? ==>
              next.value in byName && next.value !in stack + [name] && Flatten(byName, next.value, stack + [name]).Ok? &&
              Flatten(byName, next.value, []) == Flatten(byName, next.value, stack + [name]) &&
              Flatten(byName, name, []).value.lists == MergeLists(Flatten(byName, next.value, []).value.lists, byName[name].lists)
  {
    FlattenIgnores(byName, name, [], stack);
    var next := byName[name].extends_;
    if next.Some? {
      FlattenIgnores(byName, next.value, [], stack + [name]);
    }
  }

  /** The same cubes, some still as declared and some already flattened. */
  ghost predicate Rebuilt(byName: ByName, again: ByName) {
    again.Keys == byName.Keys && forall n | n in byName ::
      again[n].extends_ == byName[n].extends_ && Flatten(byName, n, []).Ok? &&
      (again[n].lists == byName[n].lists || again[n].lists == Flatten(byName, n, []).value.lists)
  }

  lemma {:induction false} FlattenAgain(byName: ByName, again: ByName, name: string, stack: seq<string>)
    requires Rebuilt(byName, again) && name in byName && name !in stack && Flatten(byName, name, stack).Ok?
    ensures Flatten(again, name, stack) == Ok(again[name].(lists := Flatten(byName, name, []).value.lists))
    decreases byName.Keys - Members(stack)
  {
    hide MergeLists;
    FlattenStep(byName, name, stack);
    var next := byName[name].extends_;
    if next.Some? {
      assert name in byName.Keys - Members(stack) && name !in byName.Keys - Members(stack + [name]);
      FlattenAgain(byName, again, next.value, stack + [name]);
      MergeListsTwice(Flatten(byName, next.value, []).value.lists, byName[name].lists);
    }
  }

  // ------------------------------------------------------------ cube by cube

  lemma {:induction false} IndexAt(cubes: seq<Cube>)
    requires NamesDiffer(cubes)
    ensures Index(cubes).Keys == CubeNames(cubes)
    ensures forall i | 0 <= i < |cubes| :: Index(cubes)[cubes[i].name] == cubes[i]
  {
    if cubes != [] {
      var n := |cubes| - 1;
      IndexAt(cubes[..n]);
      assert cubes == cubes[..n] + [cubes[n]];
      assert CubeNames(cubes) == CubeNames(cubes[..n]) + {cubes[n].name};
      forall i | 0 <= i < |cubes| ensures Index(cubes)[cubes[i].name] == cubes[i] {
        if i < n {
          assert cubes[..n][i] == cubes[i];
        }
      }
    }
  }

  lemma {:induction false} ResolveAt(byName: ByName, cubes: seq<Cube>)
    ensures Resolve(byName, cubes).Ok? <==> forall i | 0 <= i < |cubes| :: ResolveOne(byName, cubes[i]).Ok?
    ensures Resolve(byName, cubes).Ok? ==>
              |Resolve(byName, cubes).value| == |cubes| &&
              forall i | 0 <= i < |cubes| :: Resolve(byName, cubes).value[i] == ResolveOne(byName, cubes[i]).value
  {
    hide ResolveOne;
    if cubes != [] {
      var n := |cubes| - 1;
      ResolveAt(byName, cubes[..n]);
      assert forall i | 0 <= i < n :: cubes[..n][i] == cubes[i];
    }
  }

  lemma {:induction false} AugmentAt(byName: ByName, cubes: seq<Cube>)
    ensures Augment(byName, cubes).Ok? <==> forall i | 0 <= i < |cubes| :: AugmentOne(byName, cubes[i]).Ok?
    ensures Augment(byName, cubes).Ok? ==>
              |Augment(byName, cubes).value| == |cubes| &&
              forall i | 0 <= i < |cubes| :: Augment(byName, cubes).value[i] == AugmentOne(byName, cubes[i]).value
  {
    hide AugmentOne;
    if cubes != [] {
      var n := |cubes| - 1;
      AugmentAt(byName, cubes[..n]);
      assert forall i | 0 <= i < n :: cubes[..n][i] == cubes[i];
    }
  }

  lemma ResolveOneIs(byName: ByName, c: Cube)
    requires c.name in byName && byName[c.name] == c && ResolveOne(byName, c).Ok?
    ensures Flatten(byName, c.name, []).Ok?
    ensures ResolveOne(byName, c) == Ok(c.(lists := Flatten(byName, c.name, []).value.lists))
  {
  }

  // --------------------------------------------------------- inferring again

  /** The parts of the cubes that joins are inferred from. */
  predicate SameTargets(a: ByName, b: ByName) {
    a.Keys == b.Keys && forall n | n in a :: a[n].alias == b[n].alias && a[n].primaryKey == b[n].primaryKey
  }

  lemma {:induction false} InferredSame(a: ByName, b: ByName, c: Cube, dims: seq<Field>)
    requires SameTargets(a, b)
    ensures Inferred(a, c, dims) == Inferred(b, c, dims)
  {
    if dims != [] {
      InferredSame(a, b, c, dims[..|dims| - 1]);
    }
  }

  /** Once the inferred joins are there, every foreign key's target is an explicit one. */
  lemma {:induction false} InferredAgain(byName: ByName, c: Cube, dims: seq<Field>, more: seq<Join>)
    requires Inferred(byName, c, dims).Ok? && Targets(Inferred(byName, c, dims).value) <= Targets(more)
    ensures Inferred(byName, c.(joins := c.joins + more), dims) == Ok([])
  {
    var all := c.joins + more;
    assert Targets(all) == Targets(c.joins) + Targets(more);
    if dims != [] {
      var n := |dims| - 1;
      var before := Inferred(byName, c, dims[..n]).value;
      var joins := Inferred(byName, c, dims).value;
      assert forall j | j in before :: j in joins;
      assert Targets(before) <= Targets(joins);
      InferredAgain(byName, c, dims[..n], more);
      var key := dims[n].foreignKey;
      if key.Some? && key.value !in Targets(c.joins) {
        assert joins[|before|].to == key.value;
        assert joins[|before|] in joins;
      }
    }
  }

  lemma AugmentAgain(a: ByName, b: ByName, c: Cube)
    requires SameTargets(a, b) && AugmentOne(a, c).Ok?
    ensures AugmentOne(b, c) == AugmentOne(a, c)
    ensures AugmentOne(b, AugmentOne(a, c).value) == AugmentOne(a, c)
  {
    hide Inferred;
    var joins := Inferred(a, c, c.lists.dimensions).value;
    InferredSame(a, b, c, c.lists.dimensions);
    InferredAgain(a, c, c.lists.dimensions, joins);
    InferredSame(a, b, c.(joins := c.joins + joins), c.lists.dimensions);
    assert c.joins + joins + [] == c.joins + joins;
  }

  // ---------------------------------------------------------------- the round trip

  lemma {:induction false} SpecAppend(xs: seq<Cube>, ys: seq<Cube>, metas: seq<Cube>)
    ensures SpecCubes(xs + ys, metas) == SpecCubes(xs, metas) + SpecCubes(ys, metas)
  {
    hide CubeNames;
    if ys == [] {
      assert xs + ys == xs;
    } else {
      var n := |ys| - 1;
      SpecAppend(xs, ys[..n], metas);
      assert (xs + ys)[..|xs| + n] == xs + ys[..n];
    }
  }

  lemma {:induction false} SpecAll(xs: seq<Cube>, metas: seq<Cube>)
    ensures (forall c | c in xs :: c.name !in CubeNames(metas)) ==> SpecCubes(xs, metas) == xs
    ensures (forall c | c in xs :: c.name in CubeNames(metas)) ==> SpecCubes(xs, metas) == []
  {
    hide CubeNames;
    if xs != [] {
      var n := |xs| - 1;
      SpecAll(xs[..n], metas);
      assert xs == xs[..n] + [xs[n]];
    }
  }

  lemma {:induction false} MissingAll(cubes: seq<Cube>, metas: seq<Cube>)
    requires NamesDiffer(metas) && forall m | m in metas :: m.name !in CubeNames(cubes)
    ensures Missing(cubes, metas) == metas
  {
    if metas != [] {
      var n := |metas| - 1;
      MissingAll(cubes, metas[..n]);
      assert metas == metas[..n] + [metas[n]];
      assert metas[n] in metas;
      forall c | c in cubes + metas[..n] ensures c.name != metas[n].name {
        if c in cubes {
          assert c.name in CubeNames(cubes);
        }
      }
    }
  }

  /** Same names in the same places. */
  predicate SameNames(xs: seq<Cube>, ys: seq<Cube>) {
    |xs| == |ys| && forall i | 0 <= i < |xs| :: xs[i].name == ys[i].name
  }

  lemma SameNamesDiffer(xs: seq<Cube>, ys: seq<Cube>)
    requires SameNames(xs, ys)
    ensures CubeNames(xs) == CubeNames(ys) && NamesDiffer(xs) == NamesDiffer(ys)
  {
    forall c | c in xs ensures c.name in CubeNames(ys) {
      var i :| 0 <= i < |xs| && xs[i] == c;
      assert ys[i] in ys;
    }
    forall c | c in ys ensures c.name in CubeNames(xs) {
      var i :| 0 <= i < |ys| && ys[i] == c;
      assert xs[i] in xs;
    }
  }

  /** What a successful completion did to each cube. */
  lemma CompletedAt(cubes: seq<Cube>)
    requires Complete(cubes).Ok?
    ensures Resolve(Index(cubes), cubes).Ok? && forall i | 0 <= i < |cubes| :: cubes[i].name in Index(cubes)
    ensures var resolved, built := Resolve(Index(cubes), cubes).value, Complete(cubes).value;
            NamesDiffer(cubes) && SameNames(cubes, resolved) && SameNames(cubes, built) &&
            Augment(Index(resolved), resolved) == Ok(built) &&
            forall i | 0 <= i < |cubes| ::
              Flatten(Index(cubes), cubes[i].name, []).Ok? &&
              resolved[i] == cubes[i].(lists := Flatten(Index(cubes), cubes[i].name, []).value.lists) &&
              AugmentOne(Index(resolved), resolved[i]) == Ok(built[i])
  {
    hide Flatten, Inferred, Index, NamesDiffer;
    var resolved, built := Resolve(Index(cubes), cubes).value, Complete(cubes).value;
    ResolveAt(Index(cubes), cubes);
    ResolvedNames(cubes);
    SameNamesDiffer(cubes, resolved);
    IndexAt(cubes);
    AugmentAt(Index(resolved), resolved);
    forall i | 0 <= i < |cubes|
      ensures Flatten(Index(cubes), cubes[i].name, []).Ok?
      ensures resolved[i] == cubes[i].(lists := Flatten(Index(cubes), cubes[i].name, []).value.lists)
    {
      assert cubes[i].name in CubeNames(cubes);
      ResolveOneIs(Index(cubes), cubes[i]);
    }
  }

  lemma ResolvedNames(cubes: seq<Cube>)
    requires Resolve(Index(cubes), cubes).Ok?
    ensures SameNames(cubes, Resolve(Index(cubes), cubes).value)
  {
    hide Flatten;
    ResolveAt(Index(cubes), cubes);
    IndexHas(cubes);
    forall i | 0 <= i < |cubes| ensures ResolveOne(Index(cubes), cubes[i]).value.name == cubes[i].name {
      FlattenNamed(cubes, cubes[i]);
    }
  }

  lemma FlattenNamed(cubes: seq<Cube>, c: Cube)
    requires c in cubes && ResolveOne(Index(cubes), c).Ok?
    ensures ResolveOne(Index(cubes), c).value.name == c.name
  {
    IndexHas(cubes);
  }

  /** Some cubes already built, the rest as declared. */
  predicate PartlyBuilt(cubes: seq<Cube>, again: seq<Cube>) {
    |again| == |cubes| && Complete(cubes).Ok? && |Complete(cubes).value| == |cubes| &&
    forall i | 0 <= i < |cubes| :: again[i] == cubes[i] || again[i] == Complete(cubes).value[i]
  }

  lemma PartlyAt(cubes: seq<Cube>, again: seq<Cube>, i: nat)
    requires PartlyBuilt(cubes, again) && i < |cubes|
    ensures again[i].name == cubes[i].name && again[i].extends_ == cubes[i].extends_
    ensures cubes[i].name in Index(cubes) && Flatten(Index(cubes), cubes[i].name, []).Ok?
    ensures again[i].lists == cubes[i].lists || again[i].lists == Flatten(Index(cubes), cubes[i].name, []).value.lists
  {
    hide Flatten, Inferred, Index, NamesDiffer, Complete;
    CompletedAt(cubes);
  }

  lemma PartlyRebuilt(cubes: seq<Cube>, again: seq<Cube>)
    requires PartlyBuilt(cubes, again)
    ensures SameNames(cubes, again) && NamesDiffer(again) && Rebuilt(Index(cubes), Index(again))
  {
    hide Flatten, Index, NamesDiffer, PartlyBuilt, Complete, CubeNames;
    assert |again| == |cubes| && NamesDiffer(cubes) by { PartlyNames(cubes, again); }
    forall i | 0 <= i < |cubes| ensures again[i].name == cubes[i].name {
      PartlyAt(cubes, again, i);
    }
    SameNamesDiffer(cubes, again);
    IndexAt(cubes);
    IndexAt(again);
    IndexHas(cubes);
    forall n | n in Index(cubes)
      ensures Index(again)[n].extends_ == Index(cubes)[n].extends_ && Flatten(Index(cubes), n, []).Ok?
      ensures Index(again)[n].lists == Index(cubes)[n].lists || Index(again)[n].lists == Flatten(Index(cubes), n, []).value.lists
    {
      var i :| 0 <= i < |cubes| && cubes[i] == Index(cubes)[n];
      PartlyAt(cubes, again, i);
      assert Index(again)[again[i].name] == again[i];
    }
  }

  lemma PartlyNames(cubes: seq<Cube>, again: seq<Cube>)
    requires PartlyBuilt(cubes, again)
    ensures |again| == |cubes| && NamesDiffer(cubes)
  {
    hide Flatten, Inferred, Index, NamesDiffer, Complete;
    CompletedAt(cubes);
  }

  /** Flattening again leaves built cubes as they are and flattens the others as before. */
  lemma ResolvedAgain(cubes: seq<Cube>, again: seq<Cube>, i: nat)
    requires PartlyBuilt(cubes, again) && i < |cubes|
    ensures cubes[i].name in Index(cubes) && Flatten(Index(cubes), cubes[i].name, []).Ok?
    ensures ResolveOne(Index(again), again[i]) ==
            Ok(again[i].(lists := Flatten(Index(cubes), cubes[i].name, []).value.lists))
  {
    hide Inferred, Index, NamesDiffer, Complete;
    CompletedAt(cubes);
    PartlyRebuilt(cubes, again);
    IndexAt(cubes);
    IndexAt(again);
    assert again[i].name in CubeNames(again);
    var name := cubes[i].name;
    assert name in CubeNames(cubes);
    FlattenAgain(Index(cubes), Index(again), name, []);
  }

  lemma CompleteAgain(cubes: seq<Cube>, again: seq<Cube>)
    requires PartlyBuilt(cubes, again)
    ensures Complete(again) == Complete(cubes)
  {
    hide Inferred, Index, NamesDiffer, Complete, Flatten, ResolveOne, Resolve, Augment;
    CompletedAt(cubes);
    var resolved, built := Resolve(Index(cubes), cubes).value, Complete(cubes).value;
    PartlyRebuilt(cubes, again);
    forall i | 0 <= i < |cubes|
      ensures ResolveOne(Index(again), again[i]).Ok?
      ensures ResolveOne(Index(again), again[i]).value == if again[i] == built[i] then built[i] else resolved[i]
    {
      ResolvedAgain(cubes, again, i);
    }
    ResolveAt(Index(again), again);
    var resolved2 := Resolve(Index(again), again).value;
    SameNamesDiffer(again, resolved2);
    assert SameTargets(Index(resolved), Index(resolved2)) by { TargetsKept(cubes, again, resolved, resolved2); }
    forall i | 0 <= i < |cubes| ensures AugmentOne(Index(resolved2), resolved2[i]) == Ok(built[i]) {
      AugmentAgain(Index(resolved), Index(resolved2), resolved[i]);
    }
    AugmentAt(Index(resolved2), resolved2);
    assert Augment(Index(resolved2), resolved2).value == built;
    CompleteIs(again, resolved2);
  }

  lemma CompleteIs(cubes: seq<Cube>, resolved: seq<Cube>)
    requires Resolve(Index(cubes), cubes) == Ok(resolved) && NamesDiffer(resolved)
    ensures Complete(cubes) == Augment(Index(resolved), resolved)
  {
  }

  lemma TargetsKept(cubes: seq<Cube>, again: seq<Cube>, resolved: seq<Cube>, resolved2: seq<Cube>)
    requires PartlyBuilt(cubes, again) && Resolve(Index(cubes), cubes) == Ok(resolved)
    requires |resolved2| == |cubes| == |resolved| && NamesDiffer(resolved2)
    requires forall i | 0 <= i < |cubes| :: resolved2[i] == Complete(cubes).value[i] || resolved2[i] == resolved[i]
    ensures SameTargets(Index(resolved), Index(resolved2))
  {
    hide Inferred, Index, NamesDiffer, Complete, Flatten, Resolve, SameTargets;
    CompletedAt(cubes);
    assert SameNames(resolved, resolved2);
    SameNamesDiffer(resolved, resolved2);
    TargetsOf(resolved, resolved2);
  }

  lemma TargetsOf(xs: seq<Cube>, ys: seq<Cube>)
    requires SameNames(xs, ys) && NamesDiffer(xs) && NamesDiffer(ys) && CubeNames(xs) == CubeNames(ys)
    requires forall i | 0 <= i < |xs| :: xs[i].alias == ys[i].alias && xs[i].primaryKey == ys[i].primaryKey
    ensures SameTargets(Index(xs), Index(ys))
  {
    hide Index, NamesDiffer;
    IndexAt(xs);
    IndexAt(ys);
    IndexHas(xs);
    forall n | n in Index(xs)
      ensures Index(xs)[n].alias == Index(ys)[n].alias && Index(xs)[n].primaryKey == Index(ys)[n].primaryKey
    {
      var i :| 0 <= i < |xs| && xs[i] == Index(xs)[n];
      assert Index(ys)[ys[i].name] == ys[i];
    }
  }

  /**
    When no user cube takes a reflection cube's name, a catalog built from the
    specification of a catalog has exactly its cubes.
  */
  lemma RoundTrip(cubes: seq<Cube>, metas: seq<Cube>)
    requires NamesDiffer(metas) && (forall c | c in cubes :: c.name !in CubeNames(metas)) && Build(cubes, metas).Ok?
    ensures Build(SpecCubes(Build(cubes, metas).value, metas), metas) == Build(cubes, metas)
  {
    hide Complete, NamesDiffer, CubeNames, Missing, SpecCubes;
    var built := Build(cubes, metas).value;
    Apart(cubes, metas);
    MissingAll(cubes, metas);
    BuiltSplits(cubes, metas, built);
    var users := built[..|cubes|];
    MissingAll(users, metas);
    CompleteAgain(cubes + metas, users + metas);
  }

  lemma BuiltNamed(merged: seq<Cube>, built: seq<Cube>)
    requires Complete(merged) == Ok(built)
    ensures SameNames(merged, built)
  {
    hide Complete, NamesDiffer, Flatten, Resolve, Augment, AugmentOne, Index;
    CompletedAt(merged);
  }

  lemma BuiltSplits(cubes: seq<Cube>, metas: seq<Cube>, built: seq<Cube>)
    requires Complete(cubes + metas) == Ok(built) && forall c | c in cubes :: c.name !in CubeNames(metas)
    ensures |built| == |cubes| + |metas| && SpecCubes(built, metas) == built[..|cubes|]
    ensures forall m | m in metas :: m.name !in CubeNames(built[..|cubes|])
    ensures PartlyBuilt(cubes + metas, built[..|cubes|] + metas)
  {
    hide Complete, SpecCubes, CubeNames;
    BuiltNamed(cubes + metas, built);
    NamesSplit(cubes, metas, built);
    var users, rest := built[..|cubes|], built[|cubes|..];
    assert SpecCubes(built, metas) == users by {
      SpecSplit(cubes, metas, users, rest);
      assert built == users + rest;
    }
    assert CubeNames(cubes) == CubeNames(users) by { SameNamesDiffer(cubes, users); }
    Apart(cubes, metas);
  }

  lemma Apart(cubes: seq<Cube>, metas: seq<Cube>)
    requires forall c | c in cubes :: c.name !in CubeNames(metas)
    ensures forall m | m in metas :: m.name !in CubeNames(cubes)
  {
  }

  lemma NamesSplit(cubes: seq<Cube>, metas: seq<Cube>, built: seq<Cube>)
    requires SameNames(cubes + metas, built)
    ensures SameNames(cubes, built[..|cubes|]) && SameNames(metas, built[|cubes|..])
  {
    var merged := cubes + metas;
    assert forall i | 0 <= i < |cubes| :: merged[i] == cubes[i];
    assert forall i | 0 <= i < |metas| :: merged[|cubes| + i] == metas[i];
  }

  lemma SpecSplit(cubes: seq<Cube>, metas: seq<Cube>, users: seq<Cube>, rest: seq<Cube>)
    requires SameNames(cubes, users) && SameNames(metas, rest) && forall c | c in cubes :: c.name !in CubeNames(metas)
    ensures SpecCubes(users + rest, metas) == users
  {
    SpecAppend(users, rest, metas);
    forall c | c in users ensures c.name !in CubeNames(metas) {
      var i :| 0 <= i < |users| && users[i] == c;
      assert cubes[i] in cubes;
    }
    forall c | c in rest ensures c.name in CubeNames(metas) {
      var i :| 0 <= i < |rest| && rest[i] == c;
      assert metas[i] in metas;
    }
    SpecAll(users, metas);
    SpecAll(rest, metas);
  }

  // --------------------------------------------------------------- taken names

  /** Neither a parent to inherit from nor a foreign key to infer a join for, as every reflection cube is. */
  predicate Plain(c: Cube) {
    c.extends_.None? && forall f | f in c.lists.dimensions :: f.foreignKey.None?
  }

  lemma {:induction false} PlainInfers(byName: ByName, c: Cube, dims: seq<Field>)
    requires forall f | f in dims :: f.foreignKey.None?
    ensures Inferred(byName, c, dims) == Ok([])
  {
    if dims != [] {
      var n := |dims| - 1;
      assert dims[n] in dims;
      PlainInfers(byName, c, dims[..n]);
    }
  }

  /** Plain cubes are built as declared. */
  lemma PlainIsBuilt(cubes: seq<Cube>, i: nat)
    requires Complete(cubes).Ok? && i < |cubes| && Plain(cubes[i])
    ensures |Complete(cubes).value| == |cubes| && Complete(cubes).value[i] == cubes[i]
  {
    hide Inferred, NamesDiffer, Complete, Resolve, Augment, Index;
    CompletedAt(cubes);
    IndexAt(cubes);
    assert cubes[i].name in CubeNames(cubes);
    assert Flatten(Index(cubes), cubes[i].name, []) == Ok(cubes[i]);
    PlainInfers(Index(Resolve(Index(cubes), cubes).value), cubes[i], cubes[i].lists.dimensions);
    assert cubes[i].joins + [] == cubes[i].joins;
  }

  lemma {:induction false} SpecIsUntaken(built: seq<Cube>, metas: seq<Cube>)
    ensures forall c | c in SpecCubes(built, metas) :: c.name !in CubeNames(metas)
  {
    hide CubeNames;
    if built != [] {
      SpecIsUntaken(built[..|built| - 1], metas);
    }
  }

  /** A rebuilt catalog holds what the specification carries and every reflection cube, taken or not. */
  lemma RebuiltFrom(built: seq<Cube>, metas: seq<Cube>)
    requires NamesDiffer(metas)
    ensures Build(SpecCubes(built, metas), metas) == Complete(SpecCubes(built, metas) + metas)
  {
    hide Complete, NamesDiffer;
    SpecIsUntaken(built, metas);
    MissingAll(SpecCubes(built, metas), metas);
  }

  /**
    So a catalog is rebuilt exactly when the reflection cubes stand unchanged
    at its end: a cube of its own under such a name is lost unless it is one.
  */
  lemma RebuiltIff(cubes: seq<Cube>, metas: seq<Cube>)
    requires NamesDiffer(metas) && (forall m | m in metas :: Plain(m)) && Build(cubes, metas).Ok?
    ensures var built := Build(cubes, metas).value;
            Build(SpecCubes(built, metas), metas) == Ok(built) <==> built == SpecCubes(built, metas) + metas
  {
    hide Complete, NamesDiffer, Missing, SpecCubes, Plain;
    var merged, built := cubes + Missing(cubes, metas), Build(cubes, metas).value;
    var kept := SpecCubes(built, metas);
    RebuiltFrom(built, metas);
    BuiltNamed(merged, built);
    if built == kept + metas {
      CompleteAgain(merged, built);
    }
    if Complete(kept + metas) == Ok(built) {
      EndsInMetas(kept, metas, built);
      SpecIsUntaken(built, metas);
      NamesSplit(kept, metas, built);
      SpecSplit(kept, metas, built[..|kept|], metas);
    }
  }

  lemma EndsInMetas(kept: seq<Cube>, metas: seq<Cube>, built: seq<Cube>)
    requires Complete(kept + metas) == Ok(built) && forall m | m in metas :: Plain(m)
    ensures SameNames(kept + metas, built) && built == built[..|kept|] + metas
  {
    hide Complete, Plain;
    BuiltNamed(kept + metas, built);
    forall i | 0 <= i < |metas| ensures built[|kept| + i] == metas[i] {
      assert metas[i] in metas;
      PlainIsBuilt(kept + metas, |kept| + i);
    }
  }

  /** A user cube under a reflection cube's name is replaced by the reflection cube on rebuilding. */
  lemma TakenNameIsLost()
    ensures var none := Lists([], [], [], []);
            var user, meta := Cube("fields", "u", None, None, none, [], "user"), Cube("fields", "m", None, None, none, [], "meta");
            Build([user], [meta]) == Ok([user]) && SpecCubes([user], [meta]) == [] && Build([], [meta]) == Ok([meta])
  {
    var none := Lists([], [], [], []);
    var user, meta := Cube("fields", "u", None, None, none, [], "user"), Cube("fields", "m", None, None, none, [], "meta");
    assert [meta][..0] == [] && [user][..0] == [];
    assert user in [user] && user in [user] + [];
    assert [user] + Missing([user], [meta]) == [user];
    assert [] + Missing([], [meta]) == [meta];
    assert meta in [meta];
    CompleteSingle(user);
    CompleteSingle(meta);
  }

  lemma CompleteSingle(c: Cube)
    requires c.extends_.None? && c.lists.dimensions == []
    ensures Complete([c]) == Ok([c])
  {
    assert [c][..0] == [];
    assert c.joins + [] == c.joins;
    assert Inferred(Index([c]), c, []) == Ok([]);
    assert c.(joins := c.joins) == c;
    assert AugmentOne(Index([c]), c) == Ok(c);
    assert Resolve(Index([c]), []) == Ok([]) && Augment(Index([c]), []) == Ok([]);
    assert ResolveOne(Index([c]), c) == Ok(c) && [] + [c] == [c];
    assert Resolve(Index([c]), [c]) == Ok([c]);
    assert Augment(Index([c]), [c]) == Ok([c]);
  }
}
