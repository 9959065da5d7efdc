/** The in-memory row backend. */
module RowAdapter {

  /*
    Scope and user predicates filter a table, several stable sorts order it, and a
    slice of the projection is returned.
  */

  import opened Wrappers

  /** Column values are ordered; NULL is the absence of one. */
  type Cell = Option<int>

  type Row = map<string, Cell>

  datatype Bound = One(cell: Cell) | Many(cells: seq<Cell>)

  datatype Pred = Equal(column: string, value: string) | Among(column: string, list: string) | Within(column: string, start: string, end: string)

  datatype Direction = Asc | Desc

  datatype Plan = Plan(
    table: string, columns: seq<string>, predicates: seq<Pred>, scope: seq<Pred>, order: seq<(string, Direction)>, limit: int,
    params: map<string, Bound>)

  function Get(row: Row, column: string): Cell {
    if column in row then row[column] else None
  }

  predicate HasOne(params: map<string, Bound>, name: string) {
    name in params && params[name].One?
  }

  /** A plan's parameters are bound, with the shapes its predicates use. */
  predicate Binds(params: map<string, Bound>, p: Pred) {
    match p
    case Equal(_, value) => HasOne(params, value)
    case Among(_, list) => list in params && params[list].Many?
    case Within(_, start, end) =>
      HasOne(params, start) && HasOne(params, end) && params[start].cell.Some? && params[end].cell.Some?
  }

  predicate AllBound(plan: Plan) {
    forall p | p in plan.scope + plan.predicates :: Binds(plan.params, p)
  }

  predicate Matches(row: Row, p: Pred, params: map<string, Bound>)
    requires Binds(params, p)
  {
    match p
    case Equal(column, value) => Get(row, column) == params[value].cell
    case Among(column, list) => Get(row, column) in params[list].cells
    case Within(column, start, end) =>
      Get(row, column).Some? && params[start].cell.value <= Get(row, column).value < params[end].cell.value
  }

  // ------------------------------------------------------------------ filtering

  function Filtered(rows: seq<Row>, p: Pred, params: map<string, Bound>): seq<Row>
    requires Binds(params, p)
  {
    if rows == [] then [] else
      Filtered(rows[..|rows| - 1], p, params) + if Matches(rows[|rows| - 1], p, params) then [rows[|rows| - 1]] else []
  }

  predicate Allowed(row: Row, ps: seq<Pred>, params: map<string, Bound>)
    requires forall p | p in ps :: Binds(params, p)
  {
    forall p | p in ps :: Matches(row, p, params)
  }

  /** The rows on which every predicate holds, in table order. */
  function Selected(rows: seq<Row>, ps: seq<Pred>, params: map<string, Bound>): seq<Row>
    requires forall p | p in ps :: Binds(params, p)
  {
    if rows == [] then [] else
      Selected(rows[..|rows| - 1], ps, params) + if Allowed(rows[|rows| - 1], ps, params) then [rows[|rows| - 1]] else []
  }

  lemma {:induction false} SelectNothing(rows: seq<Row>, params: map<string, Bound>)
    ensures Selected(rows, [], params) == rows
  {
    if rows != [] {
      SelectNothing(rows[..|rows| - 1], params);
    }
  }

  /** Filtering once more narrows the selection by one predicate. */
  lemma {:induction false} FilterSelected(rows: seq<Row>, ps: seq<Pred>, p: Pred, params: map<string, Bound>)
    requires forall q | q in ps + [p] :: Binds(params, q)
    ensures Filtered(Selected(rows, ps, params), p, params) == Selected(rows, ps + [p], params)
  {
    hide Matches, Binds;
    assert forall q | q in ps :: q in ps + [p];
    if rows != [] {
      var n := |rows| - 1;
      FilterSelected(rows[..n], ps, p, params);
      assert Allowed(rows[n], ps + [p], params) <==> Allowed(rows[n], ps, params) && Matches(rows[n], p, params);
      var before := Selected(rows[..n], ps, params);
      if Allowed(rows[n], ps, params) {
        assert (before + [rows[n]])[..|before|] == before;
      } else {
        assert before + [] == before;
      }
    }
  }

  method Filter(rows: seq<Row>, p: Pred, params: map<string, Bound>) returns (out: seq<Row>)
    requires Binds(params, p)
    ensures out == Filtered(rows, p, params)
  {
    out := [];
    for i := 0 to |rows|
      invariant out == Filtered(rows[..i], p, params)
    {
      assert rows[..i + 1][..i] == rows[..i];
      if Matches(rows[i], p, params) {
        out := out + [rows[i]];
      }
    }
    assert rows[..|rows|] == rows;
  }

  // -------------------------------------------------------------- a stable sort

  /** NULL sorts below every value. */
  predicate CellLess(a: Cell, b: Cell) {
    b.Some? && (a.None? || a.value < b.value)
  }

  predicate KeyLess(key: (string, Direction), a: Row, b: Row) {
    match key.1
    case Asc => CellLess(Get(a, key.0), Get(b, key.0))
    case Desc => CellLess(Get(b, key.0), Get(a, key.0))
  }

  /** Put a row after every row that does not sort above it. */
  function Insert(key: (string, Direction), sorted: seq<Row>, row: Row): seq<Row> {
    if sorted == [] then [row]
    else if KeyLess(key, row, sorted[|sorted| - 1]) then
      Insert(key, sorted[..|sorted| - 1], row) + [sorted[|sorted| - 1]]
    else sorted + [row]
  }

  /** The host language's stable sort, by one key in one direction. */
  function StableSort(key: (string, Direction), rows: seq<Row>): seq<Row> {
    if rows == [] then [] else Insert(key, StableSort(key, rows[..|rows| - 1]), rows[|rows| - 1])
  }

  /** One stable pass per key, the last key first. */
  function Passes(order: seq<(string, Direction)>, rows: seq<Row>): seq<Row> {
    if order == [] then rows else StableSort(order[0], Passes(order[1..], rows))
  }

  // ------------------------------------------------------------------ execution

  /** A list slice up to a bound, which may count from the end. */
  function UpTo<T>(xs: seq<T>, limit: int): seq<T> {
    if limit >= |xs| then xs else if limit >= 0 then xs[..limit] else if |xs| + limit > 0 then xs[..|xs| + limit] else []
  }

  function Project(columns: seq<string>, row: Row): seq<Cell> {
    seq(|columns|, i requires 0 <= i < |columns| => Get(row, columns[i]))
  }

  function Projected(columns: seq<string>, rows: seq<Row>): (out: seq<seq<Cell>>)
    ensures |out| == |rows| && forall i | 0 <= i < |rows| :: out[i] == Project(columns, rows[i])
  {
    seq(|rows|, i requires 0 <= i < |rows| => Project(columns, rows[i]))
  }

  /** What a run of a plan over a table returns. */
  function Answer(rows: seq<Row>, plan: Plan): seq<seq<Cell>>
    requires AllBound(plan)
  {
    Projected(plan.columns, UpTo(Passes(plan.order, Selected(rows, plan.scope + plan.predicates, plan.params)), plan.limit))
  }

  method FilterAll(rows: seq<Row>, ps: seq<Pred>, params: map<string, Bound>) returns (out: seq<Row>)
    requires forall p | p in ps :: Binds(params, p)
    ensures out == Selected(rows, ps, params)
  {
    hide Matches, Binds, Selected;
    out := rows;
    SelectNothing(rows, params);
    for i := 0 to |ps|
      invariant forall p | p in ps[..i] :: Binds(params, p)
      invariant out == Selected(rows, ps[..i], params)
    {
      assert ps[..i + 1] == ps[..i] + [ps[i]];
      FilterSelected(rows, ps[..i], ps[i], params);
      out := Filter(out, ps[i], params);
    }
    assert ps[..|ps|] == ps;
  }

  method SortAll(rows: seq<Row>, order: seq<(string, Direction)>) returns (out: seq<Row>)
    ensures out == Passes(order, rows)
  {
    hide StableSort;
    out := rows;
    for i := |order| downto 0
      invariant out == Passes(order[i..], rows)
    {
      assert order[i..][1..] == order[i + 1..];
      out := StableSort(order[i], out);
    }
    assert order[0..] == order;
  }

  /** All scope and user predicates, then every ordering key, then the limit and the projection. */
  method ExecuteRows(tables: map<string, seq<Row>>, plan: Plan) returns (out: seq<seq<Cell>>)
    requires AllBound(plan)
    ensures out == Answer(if plan.table in tables then tables[plan.table] else [], plan)
  {
    hide Binds, Passes, Selected;
    var rows := FilterAll(if plan.table in tables then tables[plan.table] else [], plan.scope + plan.predicates, plan.params);
    rows := SortAll(rows, plan.order);
    rows := UpTo(rows, plan.limit);
    out := [];
    for i := 0 to |rows|
      invariant |out| == i && forall k | 0 <= k < i :: out[k] == Project(plan.columns, rows[k])
    {
      out := out + [Project(plan.columns, rows[i])];
    }
  }

  // ------------------------------------- the stable lexicographic order, once

  /** A row with its position before sorting. */
  type Item = (nat, Row)

  function Untag(items: seq<Item>): (rows: seq<Row>)
    ensures |rows| == |items|
  {
    seq(|items|, i requires 0 <= i < |items| => items[i].1)
  }

  function Tag(rows: seq<Row>): (items: seq<Item>)
    ensures |items| == |rows| && forall i | 0 <= i < |rows| :: items[i] == (i, rows[i])
  {
    seq(|rows|, i requires 0 <= i < |rows| => (i, rows[i]))
  }

  /** Compare by each key in priority order, then by original position. */
  predicate Before(order: seq<(string, Direction)>, a: Item, b: Item) {
    if order == [] then a.0 < b.0
    else KeyLess(order[0], a.1, b.1) || (!KeyLess(order[0], b.1, a.1) && Before(order[1..], a, b))
  }

  predicate Ordered(order: seq<(string, Direction)>, items: seq<Item>) {
    forall i, j | 0 <= i < j < |items| :: Before(order, items[i], items[j])
  }

  lemma {:induction false} BeforeAsymmetric(order: seq<(string, Direction)>, a: Item, b: Item)
    requires Before(order, a, b)
    ensures !Before(order, b, a)
  {
    if order != [] && !KeyLess(order[0], a.1, b.1) {
      BeforeAsymmetric(order[1..], a, b);
    }
  }

  /** At most one arrangement of the same items is in order. */
  lemma {:induction false} OrderIsUnique(order: seq<(string, Direction)>, xs: seq<Item>, ys: seq<Item>)
    requires Ordered(order, xs) && Ordered(order, ys) && multiset(xs) == multiset(ys)
    ensures xs == ys
    decreases |xs|
  {
    assert |multiset(xs)| == |xs| && |multiset(ys)| == |ys|;
    if xs != [] {
      FirstsAgree(order, xs, ys);
      assert xs == [xs[0]] + xs[1..] && ys == [ys[0]] + ys[1..];
      assert multiset(xs[1..]) == multiset(xs) - multiset([xs[0]]);
      assert multiset(ys[1..]) == multiset(ys) - multiset([ys[0]]);
      OrderIsUnique(order, xs[1..], ys[1..]);
    }
  }

  lemma FirstsAgree(order: seq<(string, Direction)>, xs: seq<Item>, ys: seq<Item>)
    requires Ordered(order, xs) && Ordered(order, ys) && multiset(xs) == multiset(ys) && xs != [] && ys != []
    ensures xs[0] == ys[0]
  {
    hide Before;
    assert xs[0] in multiset(ys) && ys[0] in multiset(xs);
    var j :| 0 <= j < |ys| && ys[j] == xs[0];
    var i :| 0 <= i < |xs| && xs[i] == ys[0];
    if j > 0 {
      assert Before(order, ys[0], ys[j]);
      BeforeAsymmetric(order, ys[0], xs[0]);
    }
  }

  function InsertItem(key: (string, Direction), sorted: seq<Item>, item: Item): seq<Item> {
    if sorted == [] then [item]
    else if KeyLess(key, item.1, sorted[|sorted| - 1].1) then
      InsertItem(key, sorted[..|sorted| - 1], item) + [sorted[|sorted| - 1]]
    else sorted + [item]
  }

  function SortItems(key: (string, Direction), items: seq<Item>): seq<Item> {
    if items == [] then [] else InsertItem(key, SortItems(key, items[..|items| - 1]), items[|items| - 1])
  }

  lemma {:induction false} InsertUntags(key: (string, Direction), sorted: seq<Item>, item: Item)
    ensures Untag(InsertItem(key, sorted, item)) == Insert(key, Untag(sorted), item.1)
  {
    hide KeyLess;
    if sorted != [] {
      var n := |sorted| - 1;
      InsertUntags(key, sorted[..n], item);
      assert Untag(sorted)[..n] == Untag(sorted[..n]);
    }
  }

  lemma {:induction false} SortUntags(key: (string, Direction), items: seq<Item>)
    ensures Untag(SortItems(key, items)) == StableSort(key, Untag(items))
  {
    hide KeyLess, InsertItem, Insert;
    if items != [] {
      var n := |items| - 1;
      SortUntags(key, items[..n]);
      assert Untag(items)[..n] == Untag(items[..n]);
      InsertUntags(key, SortItems(key, items[..n]), items[n]);
    }
  }

  lemma {:induction false} InsertMembers(key: (string, Direction), sorted: seq<Item>, item: Item)
    ensures multiset(InsertItem(key, sorted, item)) == multiset(sorted) + multiset{item}
  {
    hide KeyLess;
    if sorted != [] {
      var n := |sorted| - 1;
      InsertMembers(key, sorted[..n], item);
      assert sorted == sorted[..n] + [sorted[n]];
    }
  }

  lemma {:induction false} SortMembers(key: (string, Direction), items: seq<Item>)
    ensures multiset(SortItems(key, items)) == multiset(items)
  {
    hide InsertItem;
    if items != [] {
      var n := |items| - 1;
      SortMembers(key, items[..n]);
      InsertMembers(key, SortItems(key, items[..n]), items[n]);
      assert items == items[..n] + [items[n]];
    }
  }

  predicate AllBefore(order: seq<(string, Direction)>, items: seq<Item>, item: Item) {
    forall x | x in items :: Before(order, x, item)
  }

  lemma OrderedAppend(order: seq<(string, Direction)>, items: seq<Item>, last: Item)
    requires Ordered(order, items) && AllBefore(order, items, last)
    ensures Ordered(order, items + [last])
  {
    hide Before;
  }

  lemma OrderedPrefix(order: seq<(string, Direction)>, items: seq<Item>)
    requires Ordered(order, items) && items != []
    ensures Ordered(order, items[..|items| - 1]) && AllBefore(order, items[..|items| - 1], items[|items| - 1])
  {
    hide Before;
  }

  lemma InsertBefore(order: seq<(string, Direction)>, key: (string, Direction), sorted: seq<Item>, item: Item, last: Item)
    requires AllBefore(order, sorted, last) && Before(order, item, last)
    ensures AllBefore(order, InsertItem(key, sorted, item), last)
  {
    hide Before;
    InsertMembers(key, sorted, item);
    forall x | x in InsertItem(key, sorted, item) ensures Before(order, x, last) {
      assert x in multiset(InsertItem(key, sorted, item));
    }
  }

  /** An item that follows all others under the rest of the order lands in its place under the whole. */
  lemma {:induction false} InsertOrders(key: (string, Direction), rest: seq<(string, Direction)>, sorted: seq<Item>, item: Item)
    requires Ordered([key] + rest, sorted) && AllBefore(rest, sorted, item)
    ensures Ordered([key] + rest, InsertItem(key, sorted, item))
  {
    hide Before, Ordered, KeyLess;
    var order := [key] + rest;
    if sorted == [] {
      assert Ordered(order, [item]) by { OneOrdered(order, item); }
    } else {
      var n := |sorted| - 1;
      var last := sorted[n];
      OrderedPrefix(order, sorted);
      assert sorted[..n] + [last] == sorted;
      if KeyLess(key, item.1, last.1) {
        InsertOrders(key, rest, sorted[..n], item);
        KeyFirst(key, rest, item, last);
        InsertBefore(order, key, sorted[..n], item, last);
        OrderedAppend(order, InsertItem(key, sorted[..n], item), last);
      } else {
        forall x | x in sorted ensures Before(order, x, item) {
          NotAbove(key, rest, x, last, item);
        }
        OrderedAppend(order, sorted, item);
      }
    }
  }

  lemma OneOrdered(order: seq<(string, Direction)>, item: Item)
    ensures Ordered(order, [item])
  {
  }

  lemma KeyFirst(key: (string, Direction), rest: seq<(string, Direction)>, a: Item, b: Item)
    requires KeyLess(key, a.1, b.1)
    ensures Before([key] + rest, a, b)
  {
  }

  /** Nothing at or before an item that does not sort above another does either. */
  lemma NotAbove(key: (string, Direction), rest: seq<(string, Direction)>, x: Item, last: Item, item: Item)
    requires x == last || Before([key] + rest, x, last)
    requires !KeyLess(key, item.1, last.1) && Before(rest, x, item)
    ensures Before([key] + rest, x, item)
  {
    assert ([key] + rest)[1..] == rest;
  }

  lemma {:induction false} SortOrders(key: (string, Direction), rest: seq<(string, Direction)>, items: seq<Item>)
    requires Ordered(rest, items)
    ensures Ordered([key] + rest, SortItems(key, items))
  {
    hide Before, InsertItem;
    if items != [] {
      var n := |items| - 1;
      SortOrders(key, rest, items[..n]);
      SortMembers(key, items[..n]);
      var sorted := SortItems(key, items[..n]);
      forall x | x in sorted ensures Before(rest, x, items[n]) {
        assert x in multiset(items[..n]);
        var i :| 0 <= i < n && items[i] == x;
      }
      InsertOrders(key, rest, sorted, items[n]);
    }
  }

  lemma {:induction false} PassesOrder(order: seq<(string, Direction)>, rows: seq<Row>) returns (items: seq<Item>)
    ensures Untag(items) == Passes(order, rows) && Ordered(order, items) && multiset(items) == multiset(Tag(rows))
  {
    if order == [] {
      items := Tag(rows);
      assert Untag(items) == rows;
    } else {
      var before := PassesOrder(order[1..], rows);
      items := SortItems(order[0], before);
      SortUntags(order[0], before);
      SortMembers(order[0], before);
      SortOrders(order[0], order[1..], before);
      assert [order[0]] + order[1..] == order;
    }
  }

  /**
    The passes produce the one arrangement of the rows that is in lexicographic
    order over the mixed keys with ties in original order: it is such an
    arrangement, and any other is the same.
  */
  lemma PassesAreLexicographic(order: seq<(string, Direction)>, rows: seq<Row>, arrangement: seq<Item>)
    requires multiset(arrangement) == multiset(Tag(rows))
    ensures Ordered(order, arrangement) ==> Untag(arrangement) == Passes(order, rows)
    ensures exists items :: multiset(items) == multiset(Tag(rows)) && Ordered(order, items) && Untag(items) == Passes(order, rows)
  {
    var items := PassesOrder(order, rows);
    if Ordered(order, arrangement) {
      OrderIsUnique(order, arrangement, items);
    }
  }

  /**
    Under an ascending first key no row with a value precedes a NULL row, and
    under a descending one no NULL row precedes a row with a value.
  */
  lemma NullsByDirection(order: seq<(string, Direction)>, rows: seq<Row>, i: nat, j: nat)
    requires order != [] && i < j < |Passes(order, rows)|
    ensures var first, second := Get(Passes(order, rows)[i], order[0].0), Get(Passes(order, rows)[j], order[0].0);
            match order[0].1
            case Asc => second.None? ==> first.None?
            case Desc => first.None? ==> second.None?
  {
    var items := PassesOrder(order, rows);
    assert Before(order, items[i], items[j]);
  }

  /** A row is kept exactly when every scope and user predicate holds on it. */
  lemma {:induction false} SelectedExactly(rows: seq<Row>, ps: seq<Pred>, params: map<string, Bound>)
    requires forall p | p in ps :: Binds(params, p)
    ensures forall row :: multiset(Selected(rows, ps, params))[row] == if Allowed(row, ps, params) then multiset(rows)[row] else 0
  {
    hide Allowed, Binds;
    if rows != [] {
      SelectedExactly(rows[..|rows| - 1], ps, params);
      assert rows == rows[..|rows| - 1] + [rows[|rows| - 1]];
    }
  }
}
