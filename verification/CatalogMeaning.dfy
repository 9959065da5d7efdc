/** When flattening a cube or resolving a whole catalog fails, and what a flattened cube inherits. */
module CatalogMeaning {
  import opened Sequences
  import opened Wrappers
  import opened Catalog

  // ---------------------------------------------------------- when it fails

  /** Following `extends` from a cube; the last name may be unknown or repeated. */
  predicate IsChain(byName: ByName, p: seq<string>) {
    |p| > 0 && forall i | 0 <= i < |p| - 1 :: p[i] in byName && byName[p[i]].extends_ == Some(p[i + 1])
  }

  /** The chain from a cube leaves the catalog or enters a cycle. */
  ghost predicate Broken(byName: ByName, name: string) {
    exists p :: IsChain(byName, p) && p[0] == name && (p[|p| - 1] !in byName || !Distinct(p))
  }

  /** A failure has a chain to its cause. */
  lemma {:induction false} FlattenFails(byName: ByName, name: string, stack: seq<string>) returns (p: seq<string>)
    requires name in byName && name !in stack && Flatten(byName, name, stack).Err?
    ensures IsChain(byName, p) && p[0] == name
    ensures var last := p[|p| - 1]; last !in byName || last in stack || last in p[..|p| - 1]
    decreases byName.Keys - Members(stack)
  {
    var next := byName[name].extends_.value;
    if next == name || next in stack || next !in byName {
      p := [name, next];
    } else {
      assert name in byName.Keys - Members(stack) && name !in byName.Keys - Members(stack + [name]);
      var q := FlattenFails(byName, next, stack + [name]);
      p := [name] + q;
      assert p[..|p| - 1] == [name] + q[..|q| - 1];
    }
  }

  /** A success meets nothing unknown and nothing twice. */
  lemma {:induction false} FlattenMeets(byName: ByName, name: string, stack: seq<string>, p: seq<string>)
    requires name in byName && name !in stack && Flatten(byName, name, stack).Ok?
    requires IsChain(byName, p) && p[0] == name
    ensures p[|p| - 1] in byName && Distinct(p) && forall x | x in p :: x !in stack
    decreases |p|
  {
    assert p == [p[0]] + p[1..];
    if |p| > 1 {
      FlattenMeets(byName, p[1], stack + [name], p[1..]);
      forall i, j | 0 <= i < j < |p| ensures p[i] != p[j] {
        if i == 0 {
          assert p[1..][j - 1] in p[1..];
          assert name in stack + [name];
        } else {
          assert p[1..][i - 1] != p[1..][j - 1];
        }
      }
      forall x | x in p ensures x !in stack {
        if x in p[1..] {
          assert x !in stack + [name];
        }
      }
    }
  }

  /** Flattening a cube fails exactly when its parent chain is broken. */
  lemma FlattenFailsIffBroken(byName: ByName, name: string)
    requires name in byName
    ensures Flatten(byName, name, []).Err? <==> Broken(byName, name)
  {
    hide Flatten;
    if Flatten(byName, name, []).Err? {
      var p := FlattenFails(byName, name, []);
      assert p[|p| - 1] in p[..|p| - 1] ==> !Distinct(p);
    } else if Broken(byName, name) {
      var p :| IsChain(byName, p) && p[0] == name && (p[|p| - 1] !in byName || !Distinct(p));
      FlattenMeets(byName, name, [], p);
    }
  }

  lemma {:induction false} ResolveFailsIff(byName: ByName, cubes: seq<Cube>)
    requires forall c | c in cubes :: c.name in byName
    ensures Resolve(byName, cubes).Err? <==> exists c :: c in cubes && c.extends_.Some? && Broken(byName, c.name)
  {
    hide Flatten, Broken;
    if cubes != [] {
      var n := |cubes| - 1;
      ResolveFailsIff(byName, cubes[..n]);
      FlattenFailsIffBroken(byName, cubes[n].name);
      assert cubes == cubes[..n] + [cubes[n]];
      assert cubes[n] in cubes;
    }
  }

  // -------------------------------------------------------- what is inherited

  /** The field a list declares under a name; a later one wins. */
  function Find(fs: seq<Field>, name: string): Option<Field> {
    if fs == [] then None
    else if fs[|fs| - 1].name == name then Some(fs[|fs| - 1])
    else Find(fs[..|fs| - 1], name)
  }

  lemma NamesCons(f: Field, fs: seq<Field>)
    ensures NamesOf([f] + fs) == [f.name] + NamesOf(fs)
  {
  }

  lemma NamesSnoc(fs: seq<Field>, f: Field)
    ensures NamesOf(fs + [f]) == NamesOf(fs) + [f.name]
  {
  }

  lemma HeadTail(fs: seq<Field>)
    requires fs != []
    ensures fs == [fs[0]] + fs[1..] && NamesOf(fs) == [fs[0].name] + NamesOf(fs[1..])
    ensures Distinct(NamesOf(fs)) <==> fs[0].name !in NamesOf(fs[1..]) && Distinct(NamesOf(fs[1..]))
  {
    hide Distinct;
    NamesCons(fs[0], fs[1..]);
    assert fs == [fs[0]] + fs[1..];
    DistinctCons(fs[0].name, NamesOf(fs[1..]));
  }

  lemma {:induction false} PutNames(fs: seq<Field>, f: Field)
    requires Distinct(NamesOf(fs))
    ensures NamesOf(Put(fs, f)) == if f.name in NamesOf(fs) then NamesOf(fs) else NamesOf(fs) + [f.name]
  {
    hide NamesOf, Distinct;
    if fs == [] {
      NamesSnoc([], f);
      assert [] + [f] == [f];
    } else {
      HeadTail(fs);
      if fs[0].name == f.name {
        NamesCons(f, fs[1..]);
      } else {
        PutNames(fs[1..], f);
        NamesCons(fs[0], Put(fs[1..], f));
      }
    }
  }

  lemma {:induction false} FindFirst(f: Field, fs: seq<Field>, name: string)
    ensures Find([f] + fs, name) == if Find(fs, name).Some? then Find(fs, name) else if f.name == name then Some(f) else None
  {
    var all := [f] + fs;
    if fs == [] {
      assert all[..0] == [];
    } else {
      assert all[..|all| - 1] == [f] + fs[..|fs| - 1];
      FindFirst(f, fs[..|fs| - 1], name);
    }
  }

  lemma {:induction false} FindNames(fs: seq<Field>, name: string)
    ensures Find(fs, name).Some? <==> name in NamesOf(fs)
    ensures Find(fs, name).Some? ==> Find(fs, name).value in fs && Find(fs, name).value.name == name
  {
    if fs != [] {
      var n := |fs| - 1;
      FindNames(fs[..n], name);
      assert NamesOf(fs) == NamesOf(fs[..n]) + [fs[n].name];
      assert fs == fs[..n] + [fs[n]];
    }
  }

  lemma {:induction false} PutFinds(fs: seq<Field>, f: Field, name: string)
    requires Distinct(NamesOf(fs))
    ensures Find(Put(fs, f), name) == if name == f.name then Some(f) else Find(fs, name)
  {
    hide NamesOf, Distinct;
    if fs == [] {
      assert [f][..0] == [];
    } else {
      HeadTail(fs);
      FindFirst(fs[0], fs[1..], name);
      if fs[0].name == f.name {
        FindFirst(f, fs[1..], name);
        FindNames(fs[1..], name);
      } else {
        PutFinds(fs[1..], f, name);
        FindFirst(fs[0], Put(fs[1..], f), name);
      }
    }
  }

  predicate Overrides(after: seq<Field>, base: seq<Field>, fs: seq<Field>, name: string) {
    Find(after, name) == if Find(fs, name).Some? then Find(fs, name) else Find(base, name)
  }

  lemma PutOverrides(before: seq<Field>, base: seq<Field>, fs: seq<Field>, f: Field, name: string)
    requires Distinct(NamesOf(before)) && Overrides(before, base, fs, name)
    ensures Overrides(Put(before, f), base, fs + [f], name)
  {
    hide NamesOf, Distinct;
    PutFinds(before, f, name);
    assert (fs + [f])[..|fs|] == fs;
  }

  lemma PutDistinct(before: seq<Field>, f: Field)
    requires Distinct(NamesOf(before))
    ensures Distinct(NamesOf(Put(before, f)))
  {
    hide NamesOf;
    PutNames(before, f);
  }

  /** The dictionary after assigning a list: names by first appearance, the last value of each. */
  lemma {:induction false} PutAllIs(base: seq<Field>, fs: seq<Field>)
    requires Distinct(NamesOf(base))
    ensures Distinct(NamesOf(PutAll(base, fs)))
    ensures NamesOf(PutAll(base, fs)) == Dedup(NamesOf(base) + NamesOf(fs))
    ensures forall name :: Overrides(PutAll(base, fs), base, fs, name)
  {
    hide Distinct, Overrides, Put, NamesOf;
    if fs == [] {
      assert NamesOf(base) + NamesOf(fs) == NamesOf(base) by { NoNames(); }
      DedupOfDistinct(NamesOf(base));
      forall name ensures Overrides(base, base, fs, name) { NothingOverridden(base, name); }
    } else {
      var n := |fs| - 1;
      PutAllIs(base, fs[..n]);
      var before := PutAll(base, fs[..n]);
      PutNames(before, fs[n]);
      PutDistinct(before, fs[n]);
      NamesSnoc(fs[..n], fs[n]);
      assert fs[..n] + [fs[n]] == fs;
      var names := NamesOf(base) + NamesOf(fs);
      assert names[..|names| - 1] == NamesOf(base) + NamesOf(fs[..n]);
      forall name ensures Overrides(PutAll(base, fs), base, fs, name) {
        PutOverrides(before, base, fs[..n], fs[n], name);
      }
    }
  }

  lemma NoNames()
    ensures NamesOf([]) == []
  {
  }

  lemma NothingOverridden(base: seq<Field>, name: string)
    ensures Overrides(base, base, [], name)
  {
  }

  lemma DedupSnoc(names: seq<string>, x: string)
    ensures Dedup(names + [x]) == if x in names then Dedup(names) else Dedup(names) + [x]
  {
    hide Distinct;
    DedupIs(names);
    assert (names + [x])[..|names|] == names;
  }

  lemma {:induction false} DedupAppend(xs: seq<string>, ys: seq<string>)
    ensures Dedup(Dedup(xs) + ys) == Dedup(xs + ys)
  {
    hide Distinct, Dedup;
    if ys == [] {
      assert Dedup(xs) + ys == Dedup(xs) && xs + ys == xs;
      assert Dedup(Dedup(xs)) == Dedup(xs) by { DedupIs(xs); DedupOfDistinct(Dedup(xs)); }
    } else {
      var n := |ys| - 1;
      DedupAppend(xs, ys[..n]);
      DedupSnoc(Dedup(xs) + ys[..n], ys[n]);
      DedupSnoc(xs + ys[..n], ys[n]);
      assert Dedup(xs) + ys[..n] + [ys[n]] == Dedup(xs) + ys;
      assert xs + ys[..n] + [ys[n]] == xs + ys;
      DedupIs(xs);
    }
  }

  /** Merging: the parent's names first, and the child's declaration where it has one. */
  lemma MergeIs(parent: seq<Field>, child: seq<Field>)
    ensures Distinct(NamesOf(Merge(parent, child)))
    ensures NamesOf(Merge(parent, child)) == Dedup(NamesOf(parent) + NamesOf(child))
    ensures forall name :: Find(Merge(parent, child), name) == if Find(child, name).Some? then Find(child, name) else Find(parent, name)
  {
    hide Dedup, Find;
    PutAllIs([], parent);
    PutAllIs(PutAll([], parent), child);
    assert NamesOf([]) + NamesOf(parent) == NamesOf(parent);
    DedupAppend(NamesOf(parent), NamesOf(child));
    forall name
      ensures Find(Merge(parent, child), name) == if Find(child, name).Some? then Find(child, name) else Find(parent, name)
    {
      FindNothing(name);
      assert Overrides(PutAll([], parent), [], parent, name);
      assert Overrides(Merge(parent, child), PutAll([], parent), child, name);
    }
  }

  lemma FindNothing(name: string)
    ensures Find([], name) == None
  {
  }

  // Each kind of field, along a chain.

  datatype Kind = Measures | Dimensions | Times | Segments

  function Of(lists: Lists, kind: Kind): seq<Field> {
    match kind case Measures => lists.measures case Dimensions => lists.dimensions case Times => lists.times case Segments => lists.segments
  }

  /** A cube and its ancestors, nearest first, ending at a cube that extends nothing. */
  predicate IsLineage(byName: ByName, p: seq<string>) {
    IsChain(byName, p) && p[|p| - 1] in byName && byName[p[|p| - 1]].extends_.None?
  }

  /** The nearest declaration of a name. */
  function Nearest(byName: ByName, p: seq<string>, kind: Kind, name: string): Option<Field>
    requires forall x | x in p :: x in byName
  {
    if p == [] then None
    else if Find(Of(byName[p[0]].lists, kind), name).Some? then Find(Of(byName[p[0]].lists, kind), name)
    else Nearest(byName, p[1..], kind, name)
  }

  /** All declared names, the furthest ancestor's first. */
  function RootFirst(byName: ByName, p: seq<string>, kind: Kind): seq<string>
    requires forall x | x in p :: x in byName
  {
    if p == [] then [] else RootFirst(byName, p[1..], kind) + NamesOf(Of(byName[p[0]].lists, kind))
  }

  lemma MergeListsOf(parent: Lists, child: Lists, kind: Kind)
    ensures Of(MergeLists(parent, child), kind) == Merge(Of(parent, kind), Of(child, kind))
  {
  }

  /** Every flattened cube has a lineage. */
  lemma {:induction false} FlattenLineage(byName: ByName, name: string, stack: seq<string>) returns (p: seq<string>)
    requires name in byName && name !in stack && Flatten(byName, name, stack).Ok?
    ensures IsLineage(byName, p) && p[0] == name
    decreases byName.Keys - Members(stack)
  {
    if byName[name].extends_.None? {
      p := [name];
    } else {
      assert name in byName.Keys - Members(stack) && name !in byName.Keys - Members(stack + [name]);
      var q := FlattenLineage(byName, byName[name].extends_.value, stack + [name]);
      p := [name] + q;
    }
  }

  /**
    A flattened cube's field under each name is the nearest declaration along
    its parent chain, and a cube that extends lists each name once, ancestors'
    first.
  */
  lemma {:induction false} InheritsNearest(byName: ByName, p: seq<string>, stack: seq<string>, kind: Kind)
    requires IsLineage(byName, p) && p[0] in byName && p[0] !in stack && Flatten(byName, p[0], stack).Ok?
    ensures forall x | x in p :: x in byName
    ensures var flat := Of(Flatten(byName, p[0], stack).value.lists, kind);
            (forall name :: Find(flat, name) == Nearest(byName, p, kind, name)) &&
            (if |p| > 1 then NamesOf(flat) == Dedup(RootFirst(byName, p, kind)) else NamesOf(flat) == RootFirst(byName, p, kind))
    decreases |p|
  {
    hide Dedup, Find, Of, Merge;
    var own := byName[p[0]].lists;
    if |p| > 1 {
      InheritsNearest(byName, p[1..], stack + [p[0]], kind);
      var parent := Flatten(byName, p[1], stack + [p[0]]).value.lists;
      MergeListsOf(parent, own, kind);
      MergeIs(Of(parent, kind), Of(own, kind));
      if |p| > 2 {
        DedupAppend(RootFirst(byName, p[1..], kind), NamesOf(Of(own, kind)));
      }
    } else {
      assert RootFirst(byName, p[1..], kind) == [] && Nearest(byName, p[1..], kind, "") == None;
      assert RootFirst(byName, p, kind) == NamesOf(Of(own, kind));
      forall name ensures Find(Of(own, kind), name) == Nearest(byName, p, kind, name) {
        assert Nearest(byName, p[1..], kind, name) == None;
      }
    }
  }
}
