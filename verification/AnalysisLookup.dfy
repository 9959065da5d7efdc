/** Which field a reference of a query means, in terms of the lists the resolver hands over. */
module AnalysisLookup {

  import opened Wrappers
  import opened AnalysisDraft
  import opened AnalysisBuilder
  import opened AnalysisAssembly

  /** A field is also known by its own name. */
  predicate Owns(f: Field, ref: string) {
    ref == f.cube + "." + f.name
  }

  // ------------------------------------------------------------- registrations

  /** The last field of a list that has the reference, or is known by it. */
  ghost predicate LastIn(refs: seq<string>, fs: seq<Field>, ref: string, f: Field)
    requires |refs| == |fs|
  {
    exists i :: 0 <= i < |fs| && fs[i] == f && (refs[i] == ref || Owns(fs[i], ref)) && forall j | i < j < |fs| :: refs[j] != ref && !Owns(fs[j], ref)
  }

  /** A pair that has the reference, with none after it. */
  predicate PairAt(pairs: seq<(string, Field)>, ref: string, i: int) {
    && 0 <= i < |pairs| && (pairs[i].0 == ref || Owns(pairs[i].1, ref))
    && forall j | i < j < |pairs| :: pairs[j].0 != ref && !Owns(pairs[j].1, ref)
  }

  ghost predicate LastPair(pairs: seq<(string, Field)>, ref: string, f: Field) {
    exists i :: PairAt(pairs, ref, i) && pairs[i].1 == f
  }

  /** A touched cube's field that owns the reference, with none after it. */
  predicate LastAt(cubes: seq<Cube>, ref: string, c: int, i: int) {
    && 0 <= c < |cubes| && 0 <= i < |cubes[c].fields| && Owns(cubes[c].fields[i], ref)
    && (forall j | i < j < |cubes[c].fields| :: !Owns(cubes[c].fields[j], ref))
    && forall d, j | c < d < |cubes| && 0 <= j < |cubes[d].fields| :: !Owns(cubes[d].fields[j], ref)
  }

  /** The last field of the last touched cube that owns the reference. */
  ghost predicate LastTouched(cubes: seq<Cube>, ref: string, f: Field) {
    exists c, i :: LastAt(cubes, ref, c, i) && cubes[c].fields[i] == f
  }

  ghost predicate IsTime(q: Query, r: Resolved, ref: string, f: Field) {
    q.time.Some? && r.time == Some(f) && (q.time.value.dimension == ref || Owns(f, ref))
  }


  lemma {:induction false} LastNamedIff(pairs: seq<(string, Field)>, ref: string, f: Field)
    ensures LastNamed(pairs, ref) == Some(f) <==> LastPair(pairs, ref, f)
  {
    if pairs != [] {
      var n := |pairs| - 1;
      LastNamedIff(pairs[..n], ref, f);
      if NamedBy(pairs[n], ref) {
        assert PairAt(pairs, ref, n);
        assert forall i | PairAt(pairs, ref, i) :: i == n;
      } else {
        LastPairPrefix(pairs, ref, f);
      }
    }
  }

  lemma PairAtPrefix(pairs: seq<(string, Field)>, ref: string, i: int)
    requires pairs != [] && !NamedBy(pairs[|pairs| - 1], ref)
    ensures PairAt(pairs, ref, i) <==> PairAt(pairs[..|pairs| - 1], ref, i)
  {
    var n := |pairs| - 1;
    assert forall j | 0 <= j < n :: pairs[..n][j] == pairs[j];
    if PairAt(pairs[..n], ref, i) {
      forall j | i < j < |pairs| ensures pairs[j].0 != ref && !Owns(pairs[j].1, ref) {
        if j < n {
          assert pairs[..n][j] == pairs[j];
        }
      }
    }
  }

  lemma LastPairPrefix(pairs: seq<(string, Field)>, ref: string, f: Field)
    requires pairs != [] && !NamedBy(pairs[|pairs| - 1], ref)
    ensures LastPair(pairs, ref, f) <==> LastPair(pairs[..|pairs| - 1], ref, f)
  {
    var before := pairs[..|pairs| - 1];
    assert forall j | 0 <= j < |before| :: before[j] == pairs[j];
    if i :| PairAt(pairs, ref, i) && pairs[i].1 == f {
      PairAtPrefix(pairs, ref, i);
    }
    if i :| PairAt(before, ref, i) && before[i].1 == f {
      PairAtPrefix(pairs, ref, i);
    }
  }

  lemma {:induction false} LastNamedAppend(xs: seq<(string, Field)>, ys: seq<(string, Field)>, ref: string)
    ensures LastNamed(xs + ys, ref) == if LastNamed(ys, ref).Some? then LastNamed(ys, ref) else LastNamed(xs, ref)
    decreases |ys|
  {
    if ys == [] {
      assert xs + ys == xs;
    } else {
      var n := |ys| - 1;
      LastNamedAppend(xs, ys[..n], ref);
      assert (xs + ys)[..|xs| + n] == xs + ys[..n];
    }
  }

  lemma PairsAre(refs: seq<string>, fs: seq<Field>, ref: string, f: Field)
    requires |refs| == |fs|
    ensures LastPair(Pairs(refs, fs), ref, f) <==> LastIn(refs, fs, ref, f)
  {
    var pairs := Pairs(refs, fs);
    assert forall i | 0 <= i < |fs| :: pairs[i] == (refs[i], fs[i]);
    if i :| 0 <= i < |fs| && fs[i] == f && (refs[i] == ref || Owns(fs[i], ref)) && forall j | i < j < |fs| :: refs[j] != ref && !Owns(fs[j], ref) {
      assert PairAt(pairs, ref, i) && pairs[i].1 == f;
    }
  }

  lemma OwnAre(fs: seq<Field>, ref: string, f: Field)
    ensures LastPair(Own(fs), ref, f) <==>
            exists i :: 0 <= i < |fs| && fs[i] == f && Owns(f, ref) && forall j | i < j < |fs| :: !Owns(fs[j], ref)
  {
    var pairs := Own(fs);
    assert forall i | 0 <= i < |fs| :: pairs[i] == (fs[i].cube + "." + fs[i].name, fs[i]);
    if i :| 0 <= i < |fs| && fs[i] == f && Owns(f, ref) && forall j | i < j < |fs| :: !Owns(fs[j], ref) {
      assert PairAt(pairs, ref, i) && pairs[i].1 == f;
    }
  }

  lemma {:induction false} TouchedAre(cubes: seq<Cube>, ref: string, f: Field)
    ensures LastNamed(OfCubes(cubes), ref) == Some(f) <==> LastTouched(cubes, ref, f)
    ensures LastNamed(OfCubes(cubes), ref).None? ==> forall c, j | 0 <= c < |cubes| && 0 <= j < |cubes[c].fields| :: !Owns(cubes[c].fields[j], ref)
  {
    if cubes != [] {
      TouchedAre(cubes[1..], ref, f);
      LastNamedAppend(Own(cubes[0].fields), OfCubes(cubes[1..]), ref);
      LastNamedIff(Own(cubes[0].fields), ref, f);
      OwnAre(cubes[0].fields, ref, f);
      NoneOwned(cubes[0].fields, ref);
      if LastNamed(OfCubes(cubes[1..]), ref).Some? {
        TouchedLater(cubes, ref, f, LastNamed(OfCubes(cubes[1..]), ref).value);
      } else {
        TouchedFirst(cubes, ref, f);
      }
    }
  }

  lemma NoneOwned(fs: seq<Field>, ref: string)
    ensures LastNamed(Own(fs), ref).None? ==> forall j | 0 <= j < |fs| :: !Owns(fs[j], ref)
    decreases |fs|
  {
    if fs != [] {
      var n := |fs| - 1;
      NoneOwned(fs[..n], ref);
      assert Own(fs)[..n] == Own(fs[..n]);
      assert Own(fs)[n] == (fs[n].cube + "." + fs[n].name, fs[n]);
      assert forall j | 0 <= j < n :: fs[..n][j] == fs[j];
    }
  }

  lemma LastAtNext(cubes: seq<Cube>, ref: string, c: int, i: int)
    requires cubes != [] && c >= 0
    ensures LastAt(cubes[1..], ref, c, i) <==> LastAt(cubes, ref, c + 1, i)
  {
    assert forall d | 0 <= d < |cubes| - 1 :: cubes[1..][d] == cubes[d + 1];
    if LastAt(cubes[1..], ref, c, i) {
      forall d, j | c + 1 < d < |cubes| && 0 <= j < |cubes[d].fields| ensures !Owns(cubes[d].fields[j], ref) {
        assert cubes[1..][d - 1] == cubes[d];
      }
    }
  }

  lemma TouchedLater(cubes: seq<Cube>, ref: string, f: Field, g: Field)
    requires cubes != [] && LastNamed(OfCubes(cubes[1..]), ref) == Some(g)
    ensures LastTouched(cubes, ref, f) <==> LastTouched(cubes[1..], ref, f)
  {
    TouchedAre(cubes[1..], ref, g);
    var e, k :| LastAt(cubes[1..], ref, e, k) && cubes[1..][e].fields[k] == g;
    LastAtNext(cubes, ref, e, k);
    if c, i :| LastAt(cubes, ref, c, i) && cubes[c].fields[i] == f {
      assert c > 0;
      LastAtNext(cubes, ref, c - 1, i);
    }
    if c, i :| LastAt(cubes[1..], ref, c, i) && cubes[1..][c].fields[i] == f {
      LastAtNext(cubes, ref, c, i);
    }
  }

  lemma TouchedFirst(cubes: seq<Cube>, ref: string, f: Field)
    requires cubes != [] && forall c, j | 0 <= c < |cubes[1..]| && 0 <= j < |cubes[1..][c].fields| :: !Owns(cubes[1..][c].fields[j], ref)
    ensures LastTouched(cubes, ref, f) <==>
            exists i :: 0 <= i < |cubes[0].fields| && cubes[0].fields[i] == f && Owns(f, ref) && forall j | i < j < |cubes[0].fields| :: !Owns(cubes[0].fields[j], ref)
  {
    forall d, j | 0 < d < |cubes| && 0 <= j < |cubes[d].fields| ensures !Owns(cubes[d].fields[j], ref) {
      assert cubes[1..][d - 1] == cubes[d];
    }
    if i :| 0 <= i < |cubes[0].fields| && cubes[0].fields[i] == f && Owns(f, ref) && forall j | i < j < |cubes[0].fields| :: !Owns(cubes[0].fields[j], ref) {
      assert LastAt(cubes, ref, 0, i);
    }
  }

  /**
    A registered reference means, of the lists in which something has it or is known by it, what the
    last one says last: the time dimension, then touched cubes, tree leaves, flat filters, operands,
    dimensions and measures.
  */
  ghost predicate Means(q: Query, r: Resolved, ref: string, f: Field)
    requires LinedUp(q, r)
  {
    var time, touched := (exists g :: IsTime(q, r, ref, g)), (exists g :: LastTouched(r.touched, ref, g));
    var leaves, filters := (exists g :: LastPair(r.leaves, ref, g)), (exists g :: LastPair(r.filters, ref, g));
    var operands := exists g :: LastIn(OperandsOf(q.derived), r.operands, ref, g);
    var dimensions := exists g :: LastIn(q.dimensions, r.dimensions, ref, g);
    if time then IsTime(q, r, ref, f)
    else if touched then LastTouched(r.touched, ref, f)
    else if leaves then LastPair(r.leaves, ref, f)
    else if filters then LastPair(r.filters, ref, f)
    else if operands then LastIn(OperandsOf(q.derived), r.operands, ref, f)
    else if dimensions then LastIn(q.dimensions, r.dimensions, ref, f)
    else LastIn(q.measures, r.measures, ref, f)
  }

  lemma RegisteredMeans(q: Query, r: Resolved, ref: string, f: Field)
    requires LinedUp(q, r)
    ensures ref in RegistryOf(q, r) && RegistryOf(q, r)[ref] == f <==> Means(q, r, ref, f)
  {
    hide LastNamed, OfCubes, Pairs, Register, LastIn, LastPair, LastTouched, OperandsOf;
    var measures, dimensions, operands := Pairs(q.measures, r.measures), Pairs(q.dimensions, r.dimensions), Pairs(OperandsOf(q.derived), r.operands);
    var time := if q.time.Some? && r.time.Some? then [(q.time.value.dimension, r.time.value)] else [];
    var touched := OfCubes(r.touched);
    RegisteredIsLast(Registrations(q, r), ref);
    assert Registrations(q, r) == measures + dimensions + operands + r.filters + r.leaves + touched + time;
    LastNamedAppend(measures, dimensions, ref);
    LastNamedAppend(measures + dimensions, operands, ref);
    LastNamedAppend(measures + dimensions + operands, r.filters, ref);
    LastNamedAppend(measures + dimensions + operands + r.filters, r.leaves, ref);
    LastNamedAppend(measures + dimensions + operands + r.filters + r.leaves, touched, ref);
    LastNamedAppend(measures + dimensions + operands + r.filters + r.leaves + touched, time, ref);
    forall g
      ensures LastNamed(measures, ref) == Some(g) <==> LastIn(q.measures, r.measures, ref, g)
      ensures LastNamed(dimensions, ref) == Some(g) <==> LastIn(q.dimensions, r.dimensions, ref, g)
      ensures LastNamed(operands, ref) == Some(g) <==> LastIn(OperandsOf(q.derived), r.operands, ref, g)
      ensures LastNamed(r.filters, ref) == Some(g) <==> LastPair(r.filters, ref, g)
      ensures LastNamed(r.leaves, ref) == Some(g) <==> LastPair(r.leaves, ref, g)
      ensures LastNamed(touched, ref) == Some(g) <==> LastTouched(r.touched, ref, g)
      ensures LastNamed(time, ref) == Some(g) <==> IsTime(q, r, ref, g)
    {
      LastNamedIff(measures, ref, g);
      PairsAre(q.measures, r.measures, ref, g);
      LastNamedIff(dimensions, ref, g);
      PairsAre(q.dimensions, r.dimensions, ref, g);
      LastNamedIff(operands, ref, g);
      PairsAre(OperandsOf(q.derived), r.operands, ref, g);
      LastNamedIff(r.filters, ref, g);
      LastNamedIff(r.leaves, ref, g);
      TouchedAre(r.touched, ref, g);
      TimeIs(q, r, ref, g);
    }
  }

  lemma TimeIs(q: Query, r: Resolved, ref: string, g: Field)
    ensures LastNamed(if q.time.Some? && r.time.Some? then [(q.time.value.dimension, r.time.value)] else [], ref) == Some(g) <==> IsTime(q, r, ref, g)
  {
    if q.time.Some? && r.time.Some? {
      var pair := (q.time.value.dimension, r.time.value);
      assert [pair][..0] == [];
    }
  }

  // ---------------------------------------------------------- filter references

  ghost predicate LastLeaf(leaves: seq<(string, Field)>, ref: string, f: Field) {
    exists i :: 0 <= i < |leaves| && leaves[i] == (ref, f) && forall j | i < j < |leaves| :: leaves[j].0 != ref
  }

  ghost predicate FirstOf(filters: seq<(string, Field)>, ref: string, f: Field) {
    exists i :: 0 <= i < |filters| && filters[i] == (ref, f) && forall j | 0 <= j < i :: filters[j].0 != ref
  }

  predicate Has(pairs: seq<(string, Field)>, ref: string) {
    exists i :: 0 <= i < |pairs| && pairs[i].0 == ref
  }

  lemma {:induction false} DictionaryIs(pairs: seq<(string, Field)>, ref: string, f: Field)
    ensures ref in Dictionary(pairs) <==> Has(pairs, ref)
    ensures ref in Dictionary(pairs) && Dictionary(pairs)[ref] == f <==> LastLeaf(pairs, ref, f)
  {
    if pairs != [] {
      var n := |pairs| - 1;
      DictionaryIs(pairs[..n], ref, f);
      assert forall i | 0 <= i < n :: pairs[..n][i] == pairs[i];
      if i :| 0 <= i < n && pairs[..n][i].0 == ref {
        assert pairs[i].0 == ref;
      }
      if pairs[n].0 == ref {
        assert pairs[n] == (ref, pairs[n].1);
      } else if i :| 0 <= i < n && pairs[..n][i] == (ref, f) && forall j | i < j < n :: pairs[..n][j].0 != ref {
        assert pairs[i] == (ref, f);
      }
    }
  }

  lemma {:induction false} FirstFilterIs(pairs: seq<(string, Field)>, ref: string, f: Field)
    ensures FirstFilter(pairs, ref).Some? <==> Has(pairs, ref)
    ensures FirstFilter(pairs, ref) == Some(f) <==> FirstOf(pairs, ref, f)
  {
    if pairs != [] {
      var rest := pairs[1..];
      FirstFilterIs(rest, ref, f);
      assert forall i | 0 < i < |pairs| :: pairs[i] == rest[i - 1];
      if i :| 0 <= i < |rest| && rest[i].0 == ref {
        assert pairs[i + 1].0 == ref;
      }
      if pairs[0].0 == ref {
        assert pairs[0] == (ref, pairs[0].1);
      } else if i :| 0 <= i < |rest| && rest[i] == (ref, f) && forall j | 0 <= j < i :: rest[j].0 != ref {
        assert pairs[i + 1] == (ref, f);
      }
    }
  }

  /** A filter's reference means the last tree leaf that has it, else the first flat filter, else what is registered. */
  lemma ResolveMeans(q: Query, r: Resolved, ref: string, f: Field)
    requires LinedUp(q, r)
    ensures Resolve(ResolverOf(q, r), ref) == Some(f) <==>
            if Has(r.leaves, ref) then LastLeaf(r.leaves, ref, f)
            else if Has(r.filters, ref) then FirstOf(r.filters, ref, f)
            else Means(q, r, ref, f)
  {
    hide Means, RegistryOf, Dictionary, FirstFilter, LastLeaf, FirstOf, Has;
    DictionaryIs(r.leaves, ref, f);
    FirstFilterIs(r.filters, ref, f);
    RegisteredMeans(q, r, ref, f);
  }
}
