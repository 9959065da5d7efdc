/** What the in-memory row backend answers. */
module RowMeaning {

  import opened RowAdapter
  import opened Wrappers

  /** NULL comes first ascending and last descending; values by size. */
  predicate InSense(direction: Direction, first: Cell, second: Cell) {
    match direction
    case Asc => if second.None? then first.None? else first.None? || first.value <= second.value
    case Desc => if first.None? then second.None? else second.None? || first.value >= second.value
  }

  predicate Agree(order: seq<(string, Direction)>, k: nat, a: Row, b: Row)
    requires k <= |order|
  {
    forall m | 0 <= m < k :: Get(a, order[m].0) == Get(b, order[m].0)
  }

  /** On the first key that tells two rows apart, and on every key before it, they are in its sense. */
  predicate InKeyOrder(order: seq<(string, Direction)>, a: Row, b: Row) {
    forall k: nat | k < |order| && Agree(order, k, a, b) :: InSense(order[k].1, Get(a, order[k].0), Get(b, order[k].0))
  }

  /** In key order, and rows that agree on every key in table order. */
  predicate Precedes(order: seq<(string, Direction)>, i: nat, a: Row, j: nat, b: Row) {
    InKeyOrder(order, a, b) && (Agree(order, |order|, a, b) ==> i < j)
  }

  lemma AgreeCons(key: (string, Direction), rest: seq<(string, Direction)>, k: nat, a: Row, b: Row)
    requires k <= |rest|
    ensures Agree([key] + rest, k + 1, a, b) <==> Get(a, key.0) == Get(b, key.0) && Agree(rest, k, a, b)
  {
    var order := [key] + rest;
    if Agree(order, k + 1, a, b) {
      assert order[0] == key;
      forall m | 0 <= m < k ensures Get(a, rest[m].0) == Get(b, rest[m].0) {
        assert order[m + 1] == rest[m];
      }
    }
  }

  lemma {:induction false} BeforeMeans(order: seq<(string, Direction)>, x: Item, y: Item)
    requires Before(order, x, y)
    ensures Precedes(order, x.0, x.1, y.0, y.1)
  {
    if order != [] {
      var key, rest := order[0], order[1..];
      var a, b := x.1, y.1;
      assert [key] + rest == order;
      assert InSense(key.1, Get(a, key.0), Get(b, key.0));
      if Get(a, key.0) == Get(b, key.0) {
        BeforeMeans(rest, x, y);
      }
      AgreeCons(key, rest, |rest|, a, b);
      forall k: nat | 0 < k < |order| && Agree(order, k, a, b) ensures InSense(order[k].1, Get(a, order[k].0), Get(b, order[k].0)) {
        AgreeCons(key, rest, k - 1, a, b);
        assert order[k] == rest[k - 1];
      }
    }
  }

  // ------------------------------------------------------------ the answer

  /** The column's cell is the bound value, one of the bound values, or at least the start and below the end. */
  ghost predicate Meets(row: Row, p: Pred, params: map<string, Bound>) {
    var cell := if p.column in row then row[p.column] else None;
    match p
    case Equal(_, value) => (value, One(cell)) in params.Items
    case Among(_, list) => exists cells :: (list, Many(cells)) in params.Items && cell in cells
    case Within(_, start, end) =>
      exists low, high :: (start, One(Some(low))) in params.Items && (end, One(Some(high))) in params.Items &&
                          cell.Some? && cell.value >= low && !(cell.value >= high)
  }

  lemma MatchesIs(row: Row, p: Pred, params: map<string, Bound>)
    requires Binds(params, p)
    ensures Matches(row, p, params) <==> Meets(row, p, params)
  {
    match p
    case Equal(_, value) =>
      assert params[value] == One(params[value].cell);
    case Among(_, list) =>
      assert params[list] == Many(params[list].cells);
    case Within(_, start, end) =>
      assert params[start] == One(Some(params[start].cell.value)) && params[end] == One(Some(params[end].cell.value));
  }

  /** All the rows on which every predicate holds, by position, in order. */
  ghost predicate Arranges(rows: seq<Row>, ps: seq<Pred>, params: map<string, Bound>, order: seq<(string, Direction)>, at: seq<nat>)
  {
    && (forall k | 0 <= k < |at| :: at[k] < |rows|)
    && (forall i: nat | i < |rows| :: i in at <==> forall p | p in ps :: Meets(rows[i], p, params))
    && forall j, k | 0 <= j < k < |at| :: at[j] != at[k] && Precedes(order, at[j], rows[at[j]], at[k], rows[at[k]])
  }

  /** The cells a plan names, of as many of the arranged rows as the slice takes. */
  predicate Shows(rows: seq<Row>, columns: seq<string>, limit: int, at: seq<nat>, out: seq<seq<Cell>>)
    requires forall k | 0 <= k < |at| :: at[k] < |rows|
  {
    && |out| == (if limit < 0 then if |at| + limit < 0 then 0 else |at| + limit else if limit < |at| then limit else |at|)
    && forall k | 0 <= k < |out| :: ShowsRow(rows[at[k]], columns, out[k])
  }

  predicate ShowsRow(row: Row, columns: seq<string>, cells: seq<Cell>) {
    |cells| == |columns| && forall c | 0 <= c < |columns| :: cells[c] == if columns[c] in row then row[columns[c]] else None
  }

  /** The positions of the selected rows, in table order. */
  function KeptAt(rows: seq<Row>, ps: seq<Pred>, params: map<string, Bound>): seq<nat>
    requires forall p | p in ps :: Binds(params, p)
  {
    if rows == [] then [] else
      KeptAt(rows[..|rows| - 1], ps, params) + if Allowed(rows[|rows| - 1], ps, params) then [|rows| - 1] else []
  }

  lemma {:induction false} KeptAtBelow(rows: seq<Row>, ps: seq<Pred>, params: map<string, Bound>)
    requires forall p | p in ps :: Binds(params, p)
    ensures forall i | i in KeptAt(rows, ps, params) :: i < |rows|
    ensures forall j, k | 0 <= j < k < |KeptAt(rows, ps, params)| :: KeptAt(rows, ps, params)[j] < KeptAt(rows, ps, params)[k]
    ensures forall i: nat | i < |rows| :: i in KeptAt(rows, ps, params) <==> Allowed(rows[i], ps, params)
  {
    hide Allowed, Binds;
    if rows != [] {
      KeptAtBelow(rows[..|rows| - 1], ps, params);
      var before := KeptAt(rows[..|rows| - 1], ps, params);
      assert forall k | 0 <= k < |before| :: before[k] in before;
    }
  }

  lemma {:induction false} KeptAtRows(rows: seq<Row>, ps: seq<Pred>, params: map<string, Bound>)
    requires forall p | p in ps :: Binds(params, p)
    ensures |KeptAt(rows, ps, params)| == |Selected(rows, ps, params)|
    ensures forall k | 0 <= k < |KeptAt(rows, ps, params)| ::
              KeptAt(rows, ps, params)[k] < |rows| && Selected(rows, ps, params)[k] == rows[KeptAt(rows, ps, params)[k]]
  {
    hide Allowed, Binds;
    if rows != [] {
      KeptAtRows(rows[..|rows| - 1], ps, params);
    }
  }

  lemma ItemsAreTagged(rows: seq<Row>, items: seq<Item>)
    requires multiset(items) == multiset(Tag(rows))
    ensures forall k | 0 <= k < |items| :: items[k].0 < |rows| && items[k].1 == rows[items[k].0]
    ensures forall i: nat | i < |rows| :: (i, rows[i]) in items
  {
    forall k | 0 <= k < |items| ensures items[k].0 < |rows| && items[k].1 == rows[items[k].0] {
      assert items[k] in multiset(Tag(rows));
    }
    forall i: nat | i < |rows| ensures (i, rows[i]) in items {
      assert Tag(rows)[i] in multiset(items);
    }
  }

  /** Where the items of the sorted selection were in the table. */
  function Placed(kept: seq<nat>, items: seq<Item>): (at: seq<nat>)
    requires forall k | 0 <= k < |items| :: items[k].0 < |kept|
    ensures |at| == |items| && forall k | 0 <= k < |at| :: at[k] == kept[items[k].0]
  {
    seq(|items|, k requires 0 <= k < |items| => kept[items[k].0])
  }

  /** The sorted selection lists the allowed rows once each, by the keys and then by position. */
  lemma SortedArranges(rows: seq<Row>, ps: seq<Pred>, params: map<string, Bound>, order: seq<(string, Direction)>) returns (at: seq<nat>)
    requires forall p | p in ps :: Binds(params, p)
    ensures Arranges(rows, ps, params, order, at)
    ensures |at| == |Passes(order, Selected(rows, ps, params))|
    ensures forall k | 0 <= k < |at| :: at[k] < |rows| && Passes(order, Selected(rows, ps, params))[k] == rows[at[k]]
  {
    hide Passes, Selected, KeptAt, Matches, Meets, Allowed, Binds, Ordered, Precedes, Tag;
    var kept := KeptAt(rows, ps, params);
    KeptAtBelow(rows, ps, params);
    KeptAtRows(rows, ps, params);
    var selected := Selected(rows, ps, params);
    var items := PassesOrder(order, selected);
    ItemsAreTagged(selected, items);
    at := Placed(kept, items);
    forall i: nat | i < |rows| ensures i in at <==> forall p | p in ps :: Meets(rows[i], p, params) {
      AllowedIs(rows[i], ps, params);
      PlacedHas(selected, kept, items, i);
    }
    forall j, k | 0 <= j < k < |at| ensures at[j] != at[k] && Precedes(order, at[j], rows[at[j]], at[k], rows[at[k]]) {
      PlacedInOrder(order, kept, items, j, k);
    }
  }

  lemma PlacedHas(selected: seq<Row>, kept: seq<nat>, items: seq<Item>, i: nat)
    requires |kept| == |selected| && (forall k | 0 <= k < |items| :: items[k].0 < |kept|) && forall k: nat | k < |selected| :: (k, selected[k]) in items
    ensures i in Placed(kept, items) <==> i in kept
  {
    if i in kept {
      var k: nat :| k < |kept| && kept[k] == i;
      var m :| 0 <= m < |items| && items[m] == (k, selected[k]);
      assert Placed(kept, items)[m] == i;
    }
  }

  lemma PlacedInOrder(order: seq<(string, Direction)>, kept: seq<nat>, items: seq<Item>, j: nat, k: nat)
    requires Ordered(order, items) && j < k < |items| && (forall i | 0 <= i < |items| :: items[i].0 < |kept|)
    requires forall i, m | 0 <= i < m < |kept| :: kept[i] < kept[m]
    requires items[j].0 == items[k].0 ==> items[j].1 == items[k].1
    ensures kept[items[j].0] != kept[items[k].0]
    ensures Precedes(order, kept[items[j].0], items[j].1, kept[items[k].0], items[k].1)
  {
    hide Before, InKeyOrder, Agree;
    var x, y := items[j], items[k];
    assert Before(order, x, y);
    BeforeMeans(order, x, y);
    if kept[x.0] == kept[y.0] {
      BeforeAsymmetric(order, x, y);
    }
  }

  lemma AllowedIs(row: Row, ps: seq<Pred>, params: map<string, Bound>)
    requires forall p | p in ps :: Binds(params, p)
    ensures Allowed(row, ps, params) <==> forall p | p in ps :: Meets(row, p, params)
  {
    hide Matches, Binds, Meets;
    forall p | p in ps { MatchesIs(row, p, params); }
  }

  lemma KeptPrecedes(order: seq<(string, Direction)>, kept: seq<nat>, x: Item, y: Item)
    requires Precedes(order, x.0, x.1, y.0, y.1) && x.0 < |kept| && y.0 < |kept|
    requires forall j, k | 0 <= j < k < |kept| :: kept[j] < kept[k]
    ensures Precedes(order, kept[x.0], x.1, kept[y.0], y.1)
  {
  }

  /**
    The named cells of the rows on which every predicate holds, in the order of the keys, ties in
    table order, as far as the slice goes.
  */
  lemma AnswerIs(rows: seq<Row>, plan: Plan)
    requires AllBound(plan)
    ensures exists at :: Arranges(rows, plan.scope + plan.predicates, plan.params, plan.order, at) &&
                         Shows(rows, plan.columns, plan.limit, at, Answer(rows, plan))
  {
    hide Passes, Selected, Arranges, Binds, Matches, Meets;
    var at := SortedArranges(rows, plan.scope + plan.predicates, plan.params, plan.order);
    assert Shows(rows, plan.columns, plan.limit, at, Answer(rows, plan));
  }

  /** Between any two rows of the sorted table the first key that differs decides, in its direction. */
  lemma PassesInKeyOrder(order: seq<(string, Direction)>, rows: seq<Row>, i: nat, j: nat)
    requires i < j < |Passes(order, rows)|
    ensures InKeyOrder(order, Passes(order, rows)[i], Passes(order, rows)[j])
  {
    var items := PassesOrder(order, rows);
    BeforeMeans(order, items[i], items[j]);
  }

  /** Two windows that meet select, together, what the window over both selects. */
  lemma {:induction false} WindowsMeet(rows: seq<Row>, column: string, params: map<string, Bound>, start: string, middle: string, end: string)
    requires Binds(params, Within(column, start, middle)) && Binds(params, Within(column, middle, end))
    requires params[start].cell.value <= params[middle].cell.value <= params[end].cell.value
    ensures multiset(Filtered(rows, Within(column, start, end), params))
         == multiset(Filtered(rows, Within(column, start, middle), params)) + multiset(Filtered(rows, Within(column, middle, end), params))
  {
    if rows != [] {
      WindowsMeet(rows[..|rows| - 1], column, params, start, middle, end);
    }
  }
}
