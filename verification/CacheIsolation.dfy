/** Copy-in and copy-out isolation of the result cache. */
module CacheIsolation {

  /*
    Mutable containers live at addresses of an explicit heap; a result is a list
    of rows whose cells may refer to containers.  A run interleaves executions,
    cache hits, evictions and arbitrary mutations by the callers who received
    results.
  */

  /** A tuple is immutable; a reference points at a mutable container. */
  datatype Cell = Scalar(value: int) | Tuple(cells: seq<Cell>) | Ref(address: nat)

  type Heap = map<nat, seq<Cell>>

  type Rows = seq<Cell>

  // --------------------------------------------------------- copying

  predicate RefsIn(cs: seq<Cell>, region: set<nat>)
    decreases cs
  {
    forall c | c in cs :: CellRefsIn(c, region)
  }

  predicate CellRefsIn(c: Cell, region: set<nat>)
    decreases c
  {
    match c
    case Scalar(_) => true
    case Tuple(cells) => forall x | x in cells :: CellRefsIn(x, region)
    case Ref(a) => a in region
  }

  /** Every container in the region refers only into the region. */
  ghost predicate Closed(heap: Heap, region: set<nat>) {
    region <= heap.Keys && forall a | a in region :: RefsIn(heap[a], region)
  }

  /** The same cell with every container replaced by its fresh duplicate. */
  function Shift(c: Cell, base: nat): Cell
    decreases c, 0
  {
    match c
    case Scalar(_) => c
    case Tuple(cells) => Tuple(ShiftAll(cells, base))
    case Ref(a) => Ref(base + a)
  }

  function ShiftAll(cs: seq<Cell>, base: nat): (r: seq<Cell>)
    ensures |r| == |cs|
    decreases cs, 1
  {
    if cs == [] then [] else [Shift(cs[0], base)] + ShiftAll(cs[1..], base)
  }

  function Copies(region: set<nat>, base: nat): set<nat> {
    set a | a in region :: base + a
  }

  /** The heap after duplicating a region at fresh addresses. */
  function Duplicate(heap: Heap, region: set<nat>, base: nat): Heap
    requires region <= heap.Keys
  {
    heap + map b | b in Copies(region, base) :: Duplicated(heap, region, base, b)
  }

  function Duplicated(heap: Heap, region: set<nat>, base: nat, b: nat): seq<Cell>
    requires region <= heap.Keys && b in Copies(region, base)
  {
    ShiftAll(heap[b - base], base)
  }

  // ------------------------------------------------------- what a reader sees

  /** The value read from a cell by following containers to a given depth. */
  datatype Tree = Atom(value: int) | Row(parts: seq<Tree>) | Container(items: seq<Tree>) | Beyond

  ghost function View(heap: Heap, c: Cell, depth: nat): Tree
    decreases depth, c, 0
  {
    match c
    case Scalar(v) => Atom(v)
    case Tuple(cells) => Row(ViewAll(heap, cells, depth))
    case Ref(a) =>
      if depth == 0 || a !in heap then Beyond else Container(ViewAll(heap, heap[a], depth - 1))
  }

  ghost function ViewAll(heap: Heap, cs: seq<Cell>, depth: nat): (r: seq<Tree>)
    ensures |r| == |cs|
    decreases depth, cs, 1
  {
    if cs == [] then [] else [View(heap, cs[0], depth)] + ViewAll(heap, cs[1..], depth)
  }

  /** What is read inside a closed region depends on that region alone. */
  lemma {:induction false} ViewFrame(before: Heap, after: Heap, region: set<nat>, cs: seq<Cell>, depth: nat)
    requires Closed(before, region) && RefsIn(cs, region)
    requires region <= after.Keys && forall a | a in region :: after[a] == before[a]
    ensures ViewAll(after, cs, depth) == ViewAll(before, cs, depth)
    decreases depth, cs
  {
    if cs != [] {
      assert CellRefsIn(cs[0], region);
      match cs[0] {
        case Scalar(_) =>
        case Tuple(cells) => ViewFrame(before, after, region, cells, depth);
        case Ref(a) =>
          if depth > 0 {
            ViewFrame(before, after, region, before[a], depth - 1);
          }
      }
      ViewFrame(before, after, region, cs[1..], depth);
    }
  }

  /** A duplicate reads exactly as the original. */
  lemma {:induction false} ViewOfCopy(heap: Heap, region: set<nat>, base: nat, cs: seq<Cell>, depth: nat)
    requires Closed(heap, region) && RefsIn(cs, region)
    requires forall a | a in heap :: a < base
    ensures ViewAll(Duplicate(heap, region, base), ShiftAll(cs, base), depth) == ViewAll(heap, cs, depth)
    decreases depth, cs
  {
    if cs != [] {
      assert CellRefsIn(cs[0], region);
      var heap' := Duplicate(heap, region, base);
      match cs[0] {
        case Scalar(_) =>
        case Tuple(cells) => ViewOfCopy(heap, region, base, cells, depth);
        case Ref(a) =>
          assert base + a in Copies(region, base);
          assert heap'[base + a] == ShiftAll(heap[a], base);
          if depth > 0 {
            ViewOfCopy(heap, region, base, heap[a], depth - 1);
          }
      }
      ViewOfCopy(heap, region, base, cs[1..], depth);
      assert ShiftAll(cs, base)[1..] == ShiftAll(cs[1..], base);
    }
  }

  lemma {:induction false} ShiftedRefs(cs: seq<Cell>, region: set<nat>, base: nat)
    requires RefsIn(cs, region)
    ensures RefsIn(ShiftAll(cs, base), Copies(region, base))
    decreases cs
  {
    if cs != [] {
      assert CellRefsIn(cs[0], region);
      match cs[0] {
        case Scalar(_) =>
        case Tuple(cells) => ShiftedRefs(cells, region, base);
        case Ref(a) => assert base + a in Copies(region, base);
      }
      ShiftedRefs(cs[1..], region, base);
    }
  }

  lemma DuplicateIsClosed(heap: Heap, region: set<nat>, base: nat)
    requires Closed(heap, region)
    requires forall a | a in heap :: a < base
    ensures Closed(Duplicate(heap, region, base), Copies(region, base))
    ensures forall a | a in heap :: Duplicate(heap, region, base)[a] == heap[a]
    ensures forall b | b in Copies(region, base) :: b !in heap
  {
    var heap' := Duplicate(heap, region, base);
    forall b | b in Copies(region, base)
      ensures b in heap' && RefsIn(heap'[b], Copies(region, base))
    {
      ShiftedRefs(heap[b - base], region, base);
    }
  }

  // ------------------------------------------------- copying a result row by row

  /** Every row is copied on its own: containers two rows share are duplicated for each. */
  function CopyRows(heap: Heap, region: set<nat>, bases: seq<nat>): Heap
    requires region <= heap.Keys
    decreases |bases|
  {
    if bases == [] then heap else CopyRows(Duplicate(heap, region, bases[0]), region, bases[1..])
  }

  function ShiftRows(rows: Rows, bases: seq<nat>): (r: Rows)
    requires |rows| == |bases|
    ensures |r| == |rows|
  {
    if rows == [] then [] else [Shift(rows[0], bases[0])] + ShiftRows(rows[1..], bases[1..])
  }

  function AllCopies(region: set<nat>, bases: seq<nat>): set<nat> {
    if bases == [] then {} else Copies(region, bases[0]) + AllCopies(region, bases[1..])
  }

  /** Each copy goes to addresses above everything allocated so far. */
  ghost predicate Unused(heap: Heap, region: set<nat>, bases: seq<nat>)
    requires region <= heap.Keys
    decreases |bases|
  {
    bases != [] ==> (forall a | a in heap :: a < bases[0]) && Unused(Duplicate(heap, region, bases[0]), region, bases[1..])
  }

  lemma {:induction false} RefsInLarger(cs: seq<Cell>, small: set<nat>, large: set<nat>)
    requires RefsIn(cs, small) && small <= large
    ensures RefsIn(cs, large)
    decreases cs
  {
    forall c | c in cs ensures CellRefsIn(c, large) {
      match c {
        case Scalar(_) =>
        case Tuple(cells) => RefsInLarger(cells, small, large);
        case Ref(_) =>
      }
    }
  }

  lemma ClosedAfter(before: Heap, after: Heap, region: set<nat>)
    requires Closed(before, region) && region <= after.Keys && forall a | a in region :: after[a] == before[a]
    ensures Closed(after, region)
  {
  }

  lemma ClosedTogether(heap: Heap, one: set<nat>, other: set<nat>)
    requires Closed(heap, one) && Closed(heap, other)
    ensures Closed(heap, one + other)
  {
    forall a | a in one + other ensures RefsIn(heap[a], one + other) {
      RefsInLarger(heap[a], if a in one then one else other, one + other);
    }
  }

  /** The copies refer only to copies, take new addresses and leave the heap as it was. */
  lemma {:induction false} CopyRowsIsClosed(heap: Heap, region: set<nat>, bases: seq<nat>)
    requires Closed(heap, region) && Unused(heap, region, bases)
    ensures Closed(CopyRows(heap, region, bases), AllCopies(region, bases))
    ensures heap.Keys <= CopyRows(heap, region, bases).Keys && AllCopies(region, bases) !! heap.Keys
    ensures forall a | a in heap :: CopyRows(heap, region, bases)[a] == heap[a]
    decreases |bases|
  {
    hide Duplicate, Copies, RefsIn;
    if bases != [] {
      var next, one, rest := Duplicate(heap, region, bases[0]), Copies(region, bases[0]), AllCopies(region, bases[1..]);
      DuplicateIsClosed(heap, region, bases[0]);
      assert heap.Keys <= next.Keys by { DuplicateKeeps(heap, region, bases[0]); }
      ClosedAfter(heap, next, region);
      CopyRowsIsClosed(next, region, bases[1..]);
      ClosedAfter(next, CopyRows(heap, region, bases), one);
      ClosedTogether(CopyRows(heap, region, bases), one, rest);
    }
  }

  lemma DuplicateKeeps(heap: Heap, region: set<nat>, base: nat)
    requires region <= heap.Keys
    ensures heap.Keys <= Duplicate(heap, region, base).Keys
  {
  }

  lemma {:induction false} ShiftedRows(rows: Rows, region: set<nat>, bases: seq<nat>)
    requires |rows| == |bases| && RefsIn(rows, region)
    ensures RefsIn(ShiftRows(rows, bases), AllCopies(region, bases))
  {
    if rows != [] {
      var one, rest := Copies(region, bases[0]), AllCopies(region, bases[1..]);
      assert [rows[0]][1..] == [];
      ShiftedRefs([rows[0]], region, bases[0]);
      ShiftedRows(rows[1..], region, bases[1..]);
      assert ShiftAll([rows[0]], bases[0]) == [Shift(rows[0], bases[0])];
      RefsInLarger([Shift(rows[0], bases[0])], one, one + rest);
      RefsInLarger(ShiftRows(rows[1..], bases[1..]), rest, one + rest);
    }
  }

  /** Copied row by row, a result reads exactly as the original. */
  lemma {:induction false} ViewOfRows(heap: Heap, region: set<nat>, bases: seq<nat>, rows: Rows, depth: nat)
    requires Closed(heap, region) && RefsIn(rows, region) && |rows| == |bases| && Unused(heap, region, bases)
    ensures ViewAll(CopyRows(heap, region, bases), ShiftRows(rows, bases), depth) == ViewAll(heap, rows, depth)
    decreases |rows|
  {
    hide Duplicate, Copies, CellRefsIn, View, Shift;
    if rows != [] {
      var next, after, row := Duplicate(heap, region, bases[0]), CopyRows(heap, region, bases), ShiftAll([rows[0]], bases[0]);
      DuplicateIsClosed(heap, region, bases[0]);
      DuplicateKeeps(heap, region, bases[0]);
      ClosedAfter(heap, next, region);
      CopyRowsIsClosed(next, region, bases[1..]);
      assert [rows[0]][1..] == [] && row == [Shift(rows[0], bases[0])] && row[1..] == [];
      ShiftedRefs([rows[0]], region, bases[0]);
      ViewOfCopy(heap, region, bases[0], [rows[0]], depth);
      ViewFrame(next, after, Copies(region, bases[0]), row, depth);
      ViewOfRows(next, region, bases[1..], rows[1..], depth);
      ViewFrame(heap, next, region, rows[1..], depth);
      assert ViewAll(after, row, depth)[0] == ViewAll(heap, [rows[0]], depth)[0];
      assert ShiftRows(rows, bases)[1..] == ShiftRows(rows[1..], bases[1..]);
    }
  }

  // ---------------------------------------------------------- the engine's runs

  /**
    `known` over-approximates the containers anyone outside the cache can
    reach; `owned` are the containers made by copying into the cache.
  */
  datatype State<K> = State(heap: Heap, cache: map<K, Rows>, known: set<nat>, owned: set<nat>)

  datatype Step<K> =
    | Execute(key: K, rows: Rows, copyable: bool, region: set<nat>, bases: seq<nat>)
    | Hit(key: K, region: set<nat>, bases: seq<nat>)
    | Evict(key: K)
    | Mutate(address: nat, contents: seq<Cell>)

  /** Every row is copied with a closed region covering the rows, at unused addresses. */
  ghost predicate CanCopy(heap: Heap, rows: Rows, region: set<nat>, bases: seq<nat>) {
    Closed(heap, region) && RefsIn(rows, region) && |bases| == |rows| && Unused(heap, region, bases)
  }

  ghost predicate Enabled<K>(s: State<K>, step: Step<K>) {
    match step
    case Execute(_, rows, _, region, bases) => RefsIn(rows, s.known) && CanCopy(s.heap, rows, region, bases)
    case Hit(key, region, bases) => key in s.cache && CanCopy(s.heap, s.cache[key], region, bases)
    case Evict(_) => true
    // Callers write containers they can reach, or allocate, with contents they can reach.
    case Mutate(a, contents) => (a in s.known || a !in s.heap) && RefsIn(contents, s.known + {a})
  }

  /** A copying step has one base for each row it copies. */
  predicate Sized<K>(s: State<K>, step: Step<K>) {
    match step
    case Execute(_, rows, _, region, bases) => region <= s.heap.Keys && |bases| == |rows|
    case Hit(key, region, bases) => key in s.cache && region <= s.heap.Keys && |bases| == |s.cache[key]|
    case _ => true
  }

  /** An execution hands out its own rows and stores a copy; a hit hands out a copy. */
  function Apply<K>(s: State<K>, step: Step<K>): State<K>
    requires Sized(s, step)
  {
    match step
    case Execute(key, rows, copyable, region, bases) =>
      if copyable then
        State(CopyRows(s.heap, region, bases), s.cache[key := ShiftRows(rows, bases)],
              s.known, s.owned + AllCopies(region, bases))
      else s
    case Hit(key, region, bases) =>
      s.(heap := CopyRows(s.heap, region, bases), known := s.known + AllCopies(region, bases))
    case Evict(key) => s.(cache := s.cache - {key})
    case Mutate(a, contents) => s.(heap := s.heap[a := contents], known := s.known + {a})
  }

  /** The rows a call returns. */
  function Returned<K>(s: State<K>, step: Step<K>): Rows
    requires (step.Execute? || step.Hit?) && Sized(s, step)
  {
    match step
    case Execute(_, rows, _, _, _) => rows
    case Hit(key, _, bases) => ShiftRows(s.cache[key], bases)
  }

  ghost predicate Isolated<K(!new)>(s: State<K>) {
    && Closed(s.heap, s.known) && Closed(s.heap, s.owned) && s.known !! s.owned
    && forall k | k in s.cache :: RefsIn(s.cache[k], s.owned)
  }

  lemma CopyInKeepsIsolation<K(!new)>(s: State<K>, step: Step<K>)
    requires Isolated(s) && Enabled(s, step) && step.Execute? && step.copyable
    ensures Isolated(Apply(s, step))
  {
    var s', added := Apply(s, step), AllCopies(step.region, step.bases);
    CopyRowsIsClosed(s.heap, step.region, step.bases);
    ShiftedRows(step.rows, step.region, step.bases);
    forall a | a in s'.owned ensures a in s'.heap && RefsIn(s'.heap[a], s'.owned) {
      RefsInLarger(s'.heap[a], if a in added then added else s.owned, s'.owned);
    }
    forall k | k in s'.cache ensures RefsIn(s'.cache[k], s'.owned) {
      RefsInLarger(s'.cache[k], if k == step.key then added else s.owned, s'.owned);
    }
  }

  lemma CopyOutKeepsIsolation<K(!new)>(s: State<K>, step: Step<K>)
    requires Isolated(s) && Enabled(s, step) && step.Hit?
    ensures Isolated(Apply(s, step)) && RefsIn(Returned(s, step), Apply(s, step).known)
  {
    var s', added := Apply(s, step), AllCopies(step.region, step.bases);
    CopyRowsIsClosed(s.heap, step.region, step.bases);
    ShiftedRows(s.cache[step.key], step.region, step.bases);
    RefsInLarger(Returned(s, step), added, s'.known);
    forall a | a in s'.known ensures a in s'.heap && RefsIn(s'.heap[a], s'.known) {
      RefsInLarger(s'.heap[a], if a in added then added else s.known, s'.known);
    }
  }

  lemma StepKeepsIsolation<K(!new)>(s: State<K>, step: Step<K>)
    requires Isolated(s) && Enabled(s, step)
    ensures Isolated(Apply(s, step))
  {
    match step
    case Execute(_, _, copyable, _, _) => if copyable { CopyInKeepsIsolation(s, step); }
    case Hit(_, _, _) => CopyOutKeepsIsolation(s, step);
    case Evict(_) =>
    case Mutate(a, contents) =>
      var s' := Apply(s, step);
      forall b | b in s'.known ensures b in s'.heap && RefsIn(s'.heap[b], s'.known) {
        if b != a { RefsInLarger(s.heap[b], s.known, s'.known); }
      }
  }

  ghost predicate IsRun<K(!new)>(states: seq<State<K>>, steps: seq<Step<K>>) {
    && |states| == |steps| + 1 && states[0] == State(map[], map[], {}, {})
    && forall i | 0 <= i < |steps| :: Enabled(states[i], steps[i]) && states[i + 1] == Apply(states[i], steps[i])
  }

  lemma {:induction false} AlwaysIsolated<K(!new)>(states: seq<State<K>>, steps: seq<Step<K>>, m: nat)
    requires IsRun(states, steps) && m <= |steps|
    ensures Isolated(states[m])
  {
    if m > 0 {
      AlwaysIsolated(states, steps, m - 1);
      StepKeepsIsolation(states[m - 1], steps[m - 1]);
    }
  }

  /** Results ever returned and entries now cached reach disjoint sets of containers. */
  lemma {:induction false} NothingShared<K(!new)>(states: seq<State<K>>, steps: seq<Step<K>>, i: nat, m: nat)
    requires IsRun(states, steps) && i < m <= |steps| && (steps[i].Execute? || steps[i].Hit?)
    ensures RefsIn(Returned(states[i], steps[i]), states[m].known) && Closed(states[m].heap, states[m].known)
    ensures forall k | k in states[m].cache :: RefsIn(states[m].cache[k], states[m].owned)
    ensures Closed(states[m].heap, states[m].owned) && states[m].known !! states[m].owned
    decreases m
  {
    AlwaysIsolated(states, steps, m);
    AlwaysIsolated(states, steps, m - 1);
    if i == m - 1 {
      if steps[i].Hit? { CopyOutKeepsIsolation(states[i], steps[i]); }
    } else {
      NothingShared(states, steps, i, m - 1);
      RefsInLarger(Returned(states[i], steps[i]), states[m - 1].known, states[m].known);
    }
  }

  /** A step leaves what is read from a cached entry alone, unless it replaces the entry. */
  lemma StepKeepsEntry<K(!new)>(s: State<K>, step: Step<K>, key: K, depth: nat)
    requires Isolated(s) && Enabled(s, step) && key in s.cache && key in Apply(s, step).cache
    requires !(step.Execute? && step.copyable && step.key == key)
    ensures Apply(s, step).cache[key] == s.cache[key]
    ensures ViewAll(Apply(s, step).heap, s.cache[key], depth) == ViewAll(s.heap, s.cache[key], depth)
  {
    if step.Hit? || (step.Execute? && step.copyable) {
      CopyRowsIsClosed(s.heap, step.region, step.bases);
    }
    ViewFrame(s.heap, Apply(s, step).heap, s.owned, s.cache[key], depth);
  }

  /** Between a store and a later hit no interleaving changes what the entry reads as. */
  lemma {:induction false} EntryReadsAsStored<K(!new)>(states: seq<State<K>>, steps: seq<Step<K>>, i: nat, m: nat, depth: nat)
    requires IsRun(states, steps) && i < m <= |steps| && steps[i].Execute? && steps[i].copyable
    requires forall j | i < j < m :: !(steps[j].Execute? && steps[j].copyable && steps[j].key == steps[i].key)
    requires steps[i].key in states[m].cache
    ensures ViewAll(states[m].heap, states[m].cache[steps[i].key], depth) == ViewAll(states[i].heap, steps[i].rows, depth)
    decreases m
  {
    if i == m - 1 {
      ViewOfRows(states[i].heap, steps[i].region, steps[i].bases, steps[i].rows, depth);
    } else {
      AlwaysIsolated(states, steps, m - 1);
      EntryReadsAsStored(states, steps, i, m - 1, depth);
      StepKeepsEntry(states[m - 1], steps[m - 1], steps[i].key, depth);
    }
  }

  /** A hit returns rows reading exactly as the execution that stored the entry produced them. */
  lemma HitReadsAsStored<K(!new)>(states: seq<State<K>>, steps: seq<Step<K>>, i: nat, j: nat, depth: nat)
    requires IsRun(states, steps) && i < j < |steps| && steps[i].Execute? && steps[i].copyable
    requires steps[j].Hit? && steps[j].key == steps[i].key
    requires forall m | i < m < j :: !(steps[m].Execute? && steps[m].copyable && steps[m].key == steps[i].key)
    ensures ViewAll(states[j + 1].heap, Returned(states[j], steps[j]), depth) == ViewAll(states[i].heap, steps[i].rows, depth)
  {
    EntryReadsAsStored(states, steps, i, j, depth);
    ViewOfRows(states[j].heap, steps[j].region, steps[j].bases, states[j].cache[steps[j].key], depth);
  }

  /** What an execution stored stays there until it is evicted. */
  lemma {:induction false} EntryStays<K(!new)>(states: seq<State<K>>, steps: seq<Step<K>>, i: nat, m: nat)
    requires IsRun(states, steps) && i < m <= |steps| && steps[i].Execute? && steps[i].copyable
    requires forall j | i < j < m :: steps[j] != Evict(steps[i].key)
    ensures steps[i].key in states[m].cache
    decreases m
  {
    if i < m - 1 {
      EntryStays(states, steps, i, m - 1);
    }
  }
}
