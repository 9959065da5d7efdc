/** Normalising Boolean filters. */
module Cnf {

  /*
    A predicate tree over filters is rewritten to conjunctive normal form by
    pushing NOT inward, flattening, removing duplicates and distributing OR over
    AND.  Filters are SQL predicates, so the meaning of a tree is three-valued.
  */

  import opened Spec
  import opened Sequences

  predicate IsOp(e: Expr, op: BoolOp) {
    e.Node? && e.op == op
  }

  // --------------------------------------------------- three-valued meaning

  datatype Kleene = False | Unknown | True

  function Negate(k: Kleene): Kleene {
    match k case False => True case Unknown => Unknown case True => False
  }

  function Min(a: Kleene, b: Kleene): Kleene {
    if a == False || b == False then False else if a == Unknown then Unknown else b
  }

  function Max(a: Kleene, b: Kleene): Kleene {
    if a == True || b == True then True else if a == Unknown then Unknown else b
  }

  type Row = Filter -> Kleene

  function Eval(e: Expr, row: Row): Kleene
    requires WellFormed(e)
    decreases e, 0
  {
    match e
    case Leaf(f) => row(f)
    case Node(Not, cs) => Negate(Eval(cs[0], row))
    case Node(And, cs) => EvalAnd(cs, row)
    case Node(Or, cs) => EvalOr(cs, row)
  }

  function EvalAnd(es: seq<Expr>, row: Row): Kleene
    requires AllWellFormed(es)
    decreases es, 1
  {
    if es == [] then True else Min(Eval(es[0], row), EvalAnd(es[1..], row))
  }

  function EvalOr(es: seq<Expr>, row: Row): Kleene
    requires AllWellFormed(es)
    decreases es, 1
  {
    if es == [] then False else Max(Eval(es[0], row), EvalOr(es[1..], row))
  }

  /** `k` is at least as true as the threshold: definitely, or possibly. */
  predicate Reaches(k: Kleene, definitely: bool) {
    k == True || (!definitely && k == Unknown)
  }

  /** A Kleene value is determined by the two thresholds it reaches. */
  lemma ThresholdsDetermine(a: Kleene, b: Kleene)
    requires Reaches(a, true) == Reaches(b, true) && Reaches(a, false) == Reaches(b, false)
    ensures a == b
  {
  }

  predicate Holds(e: Expr, row: Row, d: bool)
    requires WellFormed(e)
  {
    Reaches(Eval(e, row), d)
  }

  /** AND reaches a threshold iff every child does; OR iff some child does. */
  lemma {:induction false} AndIsAll(es: seq<Expr>, row: Row, d: bool)
    requires AllWellFormed(es)
    ensures Reaches(EvalAnd(es, row), d) <==> forall e | e in es :: Holds(e, row, d)
  {
    if es != [] {
      AndIsAll(es[1..], row, d);
      assert Reaches(EvalAnd(es, row), d) <==> Holds(es[0], row, d) && Reaches(EvalAnd(es[1..], row), d);
      assert es == [es[0]] + es[1..];
    }
  }

  lemma {:induction false} OrIsSome(es: seq<Expr>, row: Row, d: bool)
    requires AllWellFormed(es)
    ensures Reaches(EvalOr(es, row), d) <==> exists e | e in es :: Holds(e, row, d)
  {
    if es != [] {
      OrIsSome(es[1..], row, d);
      assert Reaches(EvalOr(es, row), d) <==> Holds(es[0], row, d) || Reaches(EvalOr(es[1..], row), d);
      assert es == [es[0]] + es[1..];
    }
  }

  // ------------------------------------------------------- flatten and dedup

  /** Children of same-operator nodes are spliced into the list. */
  function Splice(op: BoolOp, es: seq<Expr>): seq<Expr> {
    if es == [] then [] else
      Splice(op, es[..|es| - 1]) + Parts(op, es[|es| - 1])
  }

  function Parts(op: BoolOp, e: Expr): seq<Expr> {
    if IsOp(e, op) then e.children else [e]
  }

  function FlattenAndDedup(op: BoolOp, es: seq<Expr>): seq<Expr> {
    Dedup(Splice(op, es))
  }

  lemma {:induction false} SpliceElements(op: BoolOp, es: seq<Expr>)
    ensures forall x :: x in Splice(op, es) <==> exists e | e in es :: x in Parts(op, e)
  {
    if es != [] {
      SpliceElements(op, es[..|es| - 1]);
      assert es == es[..|es| - 1] + [es[|es| - 1]];
    }
  }

  lemma FlattenElements(op: BoolOp, es: seq<Expr>)
    ensures Distinct(FlattenAndDedup(op, es))
    ensures forall x :: x in FlattenAndDedup(op, es) <==> exists e | e in es :: x in Parts(op, e)
  {
    SpliceElements(op, es);
    DedupIs(Splice(op, es));
  }

  lemma {:induction false} SpliceOfFlat(op: BoolOp, es: seq<Expr>)
    requires forall e | e in es :: !IsOp(e, op)
    ensures Splice(op, es) == es
  {
    if es != [] {
      SpliceOfFlat(op, es[..|es| - 1]);
      assert es == es[..|es| - 1] + [es[|es| - 1]];
    }
  }

  /** The loop's dedup step on a list and the set of its elements. */
  function Push(kept: seq<Expr>, e: Expr): seq<Expr> {
    if e in kept then kept else kept + [e]
  }

  lemma DedupAppend(es: seq<Expr>, more: seq<Expr>, j: nat)
    requires j < |more|
    ensures Dedup(es + more[..j + 1]) == Push(Dedup(es + more[..j]), more[j])
  {
    assert es + more[..j + 1] == (es + more[..j]) + [more[j]];
    assert (es + more[..j + 1])[..|es| + j] == es + more[..j];
  }

  lemma SpliceAppend(op: BoolOp, es: seq<Expr>, i: nat)
    requires i < |es|
    ensures Splice(op, es[..i + 1]) == Splice(op, es[..i]) + Parts(op, es[i])
  {
    assert es[..i + 1][..i] == es[..i];
  }

  function Elements(es: seq<Expr>): set<Expr> {
    set e | e in es
  }

  /** What `_flatten_and_dedup` does with one child: skip every key already seen. */
  method Absorb(flat0: seq<Expr>, seen0: set<Expr>, more: seq<Expr>, ghost base: seq<Expr>)
    returns (flat: seq<Expr>, seen: set<Expr>)
    requires flat0 == Dedup(base) && seen0 == Elements(flat0)
    ensures flat == Dedup(base + more) && seen == Elements(flat)
  {
    flat, seen := flat0, seen0;
    assert base + more[..0] == base;
    for j := 0 to |more|
      invariant flat == Dedup(base + more[..j]) && seen == Elements(flat)
    {
      DedupAppend(base, more, j);
      if more[j] !in seen {
        seen := seen + {more[j]};
        flat := flat + [more[j]];
      }
    }
    assert more[..|more|] == more;
  }

  /** `_flatten_and_dedup`: a same-operator child contributes its own children. */
  method FlattenAndDedupLoop(op: BoolOp, es: seq<Expr>) returns (flat: seq<Expr>)
    ensures flat == FlattenAndDedup(op, es)
  {
    flat := [];
    var seen: set<Expr> := {};
    for i := 0 to |es|
      invariant flat == Dedup(Splice(op, es[..i])) && seen == Elements(flat)
    {
      SpliceAppend(op, es, i);
      if IsOp(es[i], op) {
        flat, seen := Absorb(flat, seen, es[i].children, Splice(op, es[..i]));
      } else {
        flat, seen := Absorb(flat, seen, [es[i]], Splice(op, es[..i]));
      }
    }
    assert es[..|es|] == es;
  }

  // -------------------------------------------------------- Cartesian product

  function Extend(prefixes: seq<seq<Expr>>, items: seq<Expr>): seq<seq<Expr>> {
    if prefixes == [] then [] else
      Extend(prefixes[..|prefixes| - 1], items) + ExtendOne(prefixes[|prefixes| - 1], items)
  }

  function ExtendOne(prefix: seq<Expr>, items: seq<Expr>): seq<seq<Expr>> {
    seq(|items|, i requires 0 <= i < |items| => prefix + [items[i]])
  }

  function Product(lists: seq<seq<Expr>>): seq<seq<Expr>> {
    if lists == [] then [[]] else
      Extend(Product(lists[..|lists| - 1]), lists[|lists| - 1])
  }

  predicate Picks(combo: seq<Expr>, lists: seq<seq<Expr>>) {
    |combo| == |lists| && forall i | 0 <= i < |lists| :: combo[i] in lists[i]
  }

  lemma {:induction false} ExtendElements(prefixes: seq<seq<Expr>>, items: seq<Expr>)
    ensures forall c :: c in Extend(prefixes, items) <==>
                        |c| > 0 && c[..|c| - 1] in prefixes && c[|c| - 1] in items
  {
    if prefixes != [] {
      var n := |prefixes| - 1;
      ExtendElements(prefixes[..n], items);
      assert prefixes == prefixes[..n] + [prefixes[n]];
      forall c ensures c in ExtendOne(prefixes[n], items) <==>
                       |c| > 0 && c[..|c| - 1] == prefixes[n] && c[|c| - 1] in items
      {
        if |c| > 0 && c[..|c| - 1] == prefixes[n] && c[|c| - 1] in items {
          var k :| 0 <= k < |items| && items[k] == c[|c| - 1];
          assert c == prefixes[n] + [items[k]] == ExtendOne(prefixes[n], items)[k];
        }
      }
    }
  }

  /** The product is exactly the set of one-per-axis choices. */
  lemma {:induction false} ProductIsAllChoices(lists: seq<seq<Expr>>)
    ensures forall c :: c in Product(lists) <==> Picks(c, lists)
  {
    if lists == [] {
      assert forall c: seq<Expr> :: |c| == 0 ==> c == [];
    } else {
      var n := |lists| - 1;
      ProductIsAllChoices(lists[..n]);
      ExtendElements(Product(lists[..n]), lists[n]);
      forall c ensures c in Product(lists) <==> Picks(c, lists) {
        PicksSplits(c, lists);
      }
    }
  }

  lemma PicksSplits(c: seq<Expr>, lists: seq<seq<Expr>>)
    requires lists != []
    ensures var n := |lists| - 1;
            Picks(c, lists) <==> |c| > 0 && Picks(c[..|c| - 1], lists[..n]) && c[|c| - 1] in lists[n]
  {
    var n := |lists| - 1;
    if |c| > 0 && Picks(c[..|c| - 1], lists[..n]) && c[|c| - 1] in lists[n] {
      forall i | 0 <= i < |lists| ensures c[i] in lists[i] {
        if i < n {
          assert c[..n][i] in lists[..n][i];
        }
      }
    }
  }

  method ProductLoop(lists: seq<seq<Expr>>) returns (result: seq<seq<Expr>>)
    ensures result == Product(lists)
  {
    if lists == [] {
      return [[]];
    }
    result := [[]];
    for k := 0 to |lists|
      invariant result == Product(lists[..k])
    {
      var grown: seq<seq<Expr>> := [];
      for p := 0 to |result|
        invariant grown == Extend(result[..p], lists[k])
      {
        ghost var before := grown;
        for i := 0 to |lists[k]|
          invariant grown == before + ExtendOne(result[p], lists[k][..i])
        {
          assert ExtendOne(result[p], lists[k][..i + 1])
              == ExtendOne(result[p], lists[k][..i]) + [result[p] + [lists[k][i]]];
          grown := grown + [result[p] + [lists[k][i]]];
        }
        assert lists[k][..|lists[k]|] == lists[k];
        assert result[..p + 1][..p] == result[..p];
      }
      assert result[..|result|] == result;
      assert lists[..k + 1][..k] == lists[..k];
      result := grown;
    }
    assert lists[..|lists|] == lists;
  }

  // ------------------------------------------------------------ distribution

  function Axis(e: Expr): seq<Expr> {
    Parts(And, e)
  }

  function Axes(es: seq<Expr>): seq<seq<Expr>> {
    seq(|es|, i requires 0 <= i < |es| => Axis(es[i]))
  }

  /** One choice of conjunct per disjunct, joined by OR. */
  function Clause(combo: seq<Expr>): Expr {
    var unique := FlattenAndDedup(Or, combo);
    if |unique| == 1 then unique[0] else Node(Or, unique)
  }

  function Clauses(combos: seq<seq<Expr>>): seq<Expr> {
    seq(|combos|, i requires 0 <= i < |combos| => Clause(combos[i]))
  }

  function DistributeOrOverAnd(es: seq<Expr>): seq<Expr> {
    if es == [] then [] else Clauses(Product(Axes(es)))
  }

  method DistributeLoop(es: seq<Expr>) returns (out: seq<Expr>)
    ensures out == DistributeOrOverAnd(es)
  {
    var axes: seq<seq<Expr>> := [];
    for i := 0 to |es|
      invariant axes == Axes(es[..i])
    {
      assert Axes(es[..i + 1]) == Axes(es[..i]) + [Axis(es[i])];
      if IsOp(es[i], And) {
        axes := axes + [es[i].children];
      } else {
        axes := axes + [[es[i]]];
      }
    }
    assert es[..|es|] == es;
    if axes == [] {
      return [];
    }
    out := [];
    var combos := ProductLoop(axes);
    for i := 0 to |combos|
      invariant out == Clauses(combos[..i])
    {
      assert Clauses(combos[..i + 1]) == Clauses(combos[..i]) + [Clause(combos[i])];
      var unique := FlattenAndDedupLoop(Or, combos[i]);
      if |unique| == 1 {
        out := out + [unique[0]];
      } else {
        out := out + [Node(Or, unique)];
      }
    }
    assert combos[..|combos|] == combos;
  }

  // --------------------------------------------------------------- rebuild

  const TrueFilter := Filter("__true__", Equal, [Truth(true)])

  function Rebuild(op: BoolOp, es: seq<Expr>): Expr {
    if es == [] then (if op == And then Leaf(TrueFilter) else Node(Or, []))
    else if |es| == 1 then es[0]
    else Node(op, es)
  }

  // ---------------------------------------------------------- the normaliser

  /** NOT weighs double, so that pushing it inward makes the tree lighter. */
  function Weight(e: Expr): nat
    ensures Weight(e) > 0
    decreases e, 0
  {
    match e
    case Leaf(_) => 1
    case Node(op, cs) => if op == Not && |cs| == 1 then 2 * Weight(cs[0]) else 1 + WeightAll(cs)
  }

  function WeightAll(es: seq<Expr>): nat
    decreases es, 1
  {
    if es == [] then 0 else Weight(es[0]) + WeightAll(es[1..])
  }

  function NotEach(es: seq<Expr>): (r: seq<Expr>)
    requires AllWellFormed(es)
    ensures |r| == |es| && AllWellFormed(r)
    ensures forall i | 0 <= i < |es| :: r[i] == Node(Not, [es[i]])
  {
    assert forall e | e in es :: WellFormed(Node(Not, [e]));
    seq(|es|, i requires 0 <= i < |es| => Node(Not, [es[i]]))
  }

  lemma {:induction false} WeightOfNotEach(es: seq<Expr>)
    requires AllWellFormed(es)
    ensures WeightAll(NotEach(es)) == 2 * WeightAll(es)
  {
    if es != [] {
      assert NotEach(es)[1..] == NotEach(es[1..]);
      WeightOfNotEach(es[1..]);
    }
  }

  function ToCnf(e: Expr): Expr
    requires WellFormed(e)
    decreases Weight(e), 1
  {
    match e
    case Leaf(_) => e
    case Node(Not, cs) => ToCnfOfNot(cs[0])
    case Node(And, cs) => Rebuild(And, FlattenAndDedup(And, ToCnfAll(cs)))
    case Node(Or, cs) =>
      var disjuncts := FlattenAndDedup(Or, ToCnfAll(cs));
      Rebuild(And, FlattenAndDedup(And, DistributeOrOverAnd(disjuncts)))
  }

  /** The normal form of NOT `inner`: double negation collapses, De Morgan otherwise. */
  function ToCnfOfNot(inner: Expr): Expr
    requires WellFormed(inner)
    decreases 2 * Weight(inner), 0
  {
    match inner
    case Leaf(_) => Node(Not, [inner])
    case Node(Not, cs) => ToCnf(cs[0])
    case Node(And, cs) => WeightOfNotEach(cs); ToCnf(Node(Or, NotEach(cs)))
    case Node(Or, cs) => WeightOfNotEach(cs); ToCnf(Node(And, NotEach(cs)))
  }

  function ToCnfAll(es: seq<Expr>): (r: seq<Expr>)
    requires AllWellFormed(es)
    ensures |r| == |es|
    decreases WeightAll(es), 2
  {
    if es == [] then [] else [ToCnf(es[0])] + ToCnfAll(es[1..])
  }

  // ------------------------------------------------------------------ shape

  predicate IsLiteral(e: Expr) {
    e.Leaf? || (e.op == Not && |e.children| == 1 && e.children[0].Leaf?)
  }

  predicate IsClause(e: Expr) {
    IsLiteral(e) || (IsOp(e, Or) && |e.children| >= 2 && Distinct(e.children) && AllLiterals(e.children))
  }

  predicate AllLiterals(es: seq<Expr>) {
    forall e | e in es :: IsLiteral(e)
  }

  predicate AllClauses(es: seq<Expr>) {
    forall e | e in es :: IsClause(e)
  }

  /** A clause, or a flat AND of at least two distinct clauses. */
  predicate IsCnf(e: Expr) {
    IsClause(e) || (IsOp(e, And) && |e.children| >= 2 && Distinct(e.children) && AllClauses(e.children))
  }

  lemma CnfIsWellFormed(e: Expr)
    requires IsCnf(e)
    ensures WellFormed(e)
  {
    if IsOp(e, And) {
      forall c | c in e.children ensures WellFormed(c) {
        ClauseIsWellFormed(c);
      }
    } else {
      ClauseIsWellFormed(e);
    }
  }

  lemma ClauseIsWellFormed(e: Expr)
    requires IsClause(e)
    ensures WellFormed(e)
  {
  }

  lemma ClauseOfCombo(combo: seq<Expr>)
    requires combo != [] && AllClauses(combo)
    ensures IsClause(Clause(combo)) && WellFormed(Clause(combo))
    ensures Parts(Or, Clause(combo)) == FlattenAndDedup(Or, combo) || IsLiteral(Clause(combo))
    ensures AllLiterals(FlattenAndDedup(Or, combo)) && FlattenAndDedup(Or, combo) != []
  {
    var unique := FlattenAndDedup(Or, combo);
    FlattenElements(Or, combo);
    forall x | x in unique ensures IsLiteral(x) {
      var e :| e in combo && x in Parts(Or, e);
      assert IsClause(e);
    }
    assert IsClause(combo[0]);
    assert Parts(Or, combo[0])[0] in unique;
    ClauseIsWellFormed(Clause(combo));
  }

  /** What a disjunct looks like once its own normal form has been flattened. */
  predicate IsDisjunct(e: Expr) {
    IsCnf(e) && !IsOp(e, Or)
  }

  lemma ChoicesAreClauses(es: seq<Expr>, combo: seq<Expr>)
    requires forall e | e in es :: IsCnf(e)
    requires Picks(combo, Axes(es))
    ensures AllClauses(combo)
  {
    forall x | x in combo ensures IsClause(x) {
      var i :| 0 <= i < |combo| && combo[i] == x;
      assert x in Axes(es)[i] && IsCnf(es[i]);
    }
  }

  /** Distribution yields clauses only, and at least one of them. */
  lemma DistributeShape(es: seq<Expr>)
    requires es != [] && forall e | e in es :: IsCnf(e)
    ensures AllClauses(DistributeOrOverAnd(es)) && DistributeOrOverAnd(es) != []
  {
    var combos := Product(Axes(es));
    ProductIsAllChoices(Axes(es));
    forall i | 0 <= i < |combos| ensures IsClause(Clauses(combos)[i]) {
      assert combos[i] in combos;
      ChoicesAreClauses(es, combos[i]);
      ClauseOfCombo(combos[i]);
    }
    forall i | 0 <= i < |es| ensures Axes(es)[i] != [] {
      assert IsCnf(es[i]);
    }
    var first := seq(|es|, i requires 0 <= i < |es| => Axes(es)[i][0]);
    assert Picks(first, Axes(es));
    assert first in combos;
  }

  /** Flattening normal forms under OR keeps literals and conjunctions. */
  lemma FlattenOrShape(es: seq<Expr>)
    requires es != [] && forall e | e in es :: IsCnf(e)
    ensures FlattenAndDedup(Or, es) != []
    ensures forall x | x in FlattenAndDedup(Or, es) :: IsDisjunct(x)
  {
    FlattenElements(Or, es);
    forall x | x in FlattenAndDedup(Or, es) ensures IsDisjunct(x) {
      var e :| e in es && x in Parts(Or, e);
      assert IsCnf(e);
    }
    assert IsCnf(es[0]);
    assert Parts(Or, es[0])[0] in FlattenAndDedup(Or, es);
  }

  lemma ConjunctionShape(es: seq<Expr>)
    requires es != [] && forall e | e in es :: IsCnf(e)
    ensures IsCnf(Rebuild(And, FlattenAndDedup(And, es)))
  {
    FlattenElements(And, es);
    var flat := FlattenAndDedup(And, es);
    forall x | x in flat ensures IsClause(x) {
      var e :| e in es && x in Parts(And, e);
      assert IsCnf(e);
    }
    assert IsCnf(es[0]);
    assert Parts(And, es[0])[0] in flat;
  }

  /** Every result is in normal form. */
  lemma {:induction false} ToCnfShape(e: Expr)
    requires WellFormed(e)
    ensures IsCnf(ToCnf(e))
    decreases Weight(e), 1
  {
    match e
    case Leaf(_) =>
    case Node(Not, cs) =>
      assert WellFormed(cs[0]) && Weight(e) == 2 * Weight(cs[0]);
      ToCnfOfNotShape(cs[0]);
    case Node(And, cs) =>
      ToCnfAllShape(cs);
      ConjunctionShape(ToCnfAll(cs));
    case Node(Or, cs) =>
      ToCnfAllShape(cs);
      FlattenOrShape(ToCnfAll(cs));
      DistributeShape(FlattenAndDedup(Or, ToCnfAll(cs)));
      ConjunctionShape(DistributeOrOverAnd(FlattenAndDedup(Or, ToCnfAll(cs))));
  }

  lemma {:induction false} ToCnfOfNotShape(inner: Expr)
    requires WellFormed(inner)
    ensures IsCnf(ToCnfOfNot(inner))
    decreases 2 * Weight(inner), 0
  {
    match inner
    case Leaf(_) =>
    case Node(Not, cs) =>
      assert WellFormed(cs[0]);
      ToCnfShape(cs[0]);
    case Node(And, cs) => WeightOfNotEach(cs); ToCnfShape(Node(Or, NotEach(cs)));
    case Node(Or, cs) => WeightOfNotEach(cs); ToCnfShape(Node(And, NotEach(cs)));
  }

  lemma {:induction false} ToCnfAllShape(es: seq<Expr>)
    requires AllWellFormed(es)
    ensures forall x | x in ToCnfAll(es) :: IsCnf(x)
    decreases WeightAll(es), 2
  {
    if es != [] {
      ToCnfShape(es[0]);
      ToCnfAllShape(es[1..]);
    }
  }

  // ---------------------------------------------------------------- meaning

  lemma PartsMeaning(op: BoolOp, e: Expr, row: Row, d: bool)
    requires WellFormed(e) && op != Not
    ensures AllWellFormed(Parts(op, e))
    ensures op == And ==> (Holds(e, row, d) <==> forall x | x in Parts(And, e) :: Holds(x, row, d))
    ensures op == Or ==> (Holds(e, row, d) <==> exists x | x in Parts(Or, e) :: Holds(x, row, d))
  {
    if IsOp(e, op) {
      AndIsAll(e.children, row, d);
      OrIsSome(e.children, row, d);
    } else {
      assert e in Parts(op, e);
    }
  }

  lemma FlattenMeaning(op: BoolOp, es: seq<Expr>, row: Row, d: bool)
    requires AllWellFormed(es) && op != Not
    ensures AllWellFormed(FlattenAndDedup(op, es))
    ensures op == And ==>
      ((forall x | x in FlattenAndDedup(And, es) :: Holds(x, row, d)) <==> forall e | e in es :: Holds(e, row, d))
    ensures op == Or ==>
      ((exists x | x in FlattenAndDedup(Or, es) :: Holds(x, row, d)) <==> exists e | e in es :: Holds(e, row, d))
  {
    FlattenElements(op, es);
    forall e | e in es { PartsMeaning(op, e, row, d); }
  }

  lemma RebuildMeaning(es: seq<Expr>, row: Row, d: bool)
    requires AllWellFormed(es) && es != []
    ensures WellFormed(Rebuild(And, es))
    ensures Holds(Rebuild(And, es), row, d) <==> forall e | e in es :: Holds(e, row, d)
  {
    AndIsAll(es, row, d);
    if |es| == 1 {
      assert es == [es[0]];
    }
  }

  lemma ClauseMeaning(combo: seq<Expr>, row: Row, d: bool)
    requires AllWellFormed(combo) && combo != [] && AllClauses(combo)
    ensures WellFormed(Clause(combo))
    ensures Holds(Clause(combo), row, d) <==> exists x | x in combo :: Holds(x, row, d)
  {
    ClauseOfCombo(combo);
    FlattenMeaning(Or, combo, row, d);
    var unique := FlattenAndDedup(Or, combo);
    OrIsSome(unique, row, d);
    if |unique| == 1 {
      assert unique == [unique[0]];
    }
  }

  ghost function Refuting(e: Expr, row: Row, d: bool): (x: Expr)
    requires WellFormed(e) && !Holds(e, row, d)
    ensures x in Axis(e) && WellFormed(x) && !Holds(x, row, d)
  {
    PartsMeaning(And, e, row, d);
    var x :| x in Axis(e) && !Holds(x, row, d); x
  }

  /** All distributed clauses hold exactly when some disjunct holds. */
  lemma DistributeMeaning(es: seq<Expr>, row: Row, d: bool)
    requires es != [] && AllWellFormed(es) && forall e | e in es :: IsCnf(e)
    ensures AllWellFormed(DistributeOrOverAnd(es))
    ensures (forall c | c in DistributeOrOverAnd(es) :: Holds(c, row, d)) <==> exists e | e in es :: Holds(e, row, d)
  {
    var axes := Axes(es);
    var combos := Product(axes);
    var clauses := DistributeOrOverAnd(es);
    ProductIsAllChoices(axes);
    DistributeShape(es);
    forall c | c in clauses ensures WellFormed(c) {
      ClauseIsWellFormed(c);
    }
    if e :| e in es && Holds(e, row, d) {
      var i :| 0 <= i < |es| && es[i] == e;
      PartsMeaning(And, e, row, d);
      forall c | c in clauses ensures Holds(c, row, d) {
        var k :| 0 <= k < |combos| && clauses[k] == c;
        ChoiceMeaning(es, combos[k], row, d);
        assert combos[k] in combos;
        assert combos[k][i] in axes[i] && combos[k][i] in combos[k];
      }
    } else {
      var bad := seq(|es|, i requires 0 <= i < |es| => Refuting(es[i], row, d));
      assert Picks(bad, axes);
      assert bad in combos;
      var k :| 0 <= k < |combos| && combos[k] == bad;
      ChoiceMeaning(es, bad, row, d);
      assert clauses[k] == Clause(bad) && clauses[k] in clauses;
    }
  }

  lemma ChoiceMeaning(es: seq<Expr>, combo: seq<Expr>, row: Row, d: bool)
    requires es != [] && AllWellFormed(es) && forall e | e in es :: IsCnf(e)
    requires Picks(combo, Axes(es))
    ensures AllWellFormed(combo) && WellFormed(Clause(combo))
    ensures Holds(Clause(combo), row, d) <==> exists x | x in combo :: Holds(x, row, d)
  {
    ChoicesAreClauses(es, combo);
    forall x | x in combo { ClauseIsWellFormed(x); }
    ClauseMeaning(combo, row, d);
  }

  lemma NegateFlips(k: Kleene, d: bool)
    ensures Reaches(Negate(k), d) <==> !Reaches(k, !d)
  {
  }

  lemma {:induction false} NotEachHolds(es: seq<Expr>, row: Row, d: bool)
    requires AllWellFormed(es)
    ensures Reaches(EvalOr(NotEach(es), row), d) <==> !Reaches(EvalAnd(es, row), !d)
    ensures Reaches(EvalAnd(NotEach(es), row), d) <==> !Reaches(EvalOr(es, row), !d)
  {
    if es != [] {
      NotEachHolds(es[1..], row, d);
      assert NotEach(es)[1..] == NotEach(es[1..]);
      NegateFlips(Eval(es[0], row), d);
    }
  }

  /** Normalisation keeps each truth threshold. */
  lemma {:induction false} ToCnfHolds(e: Expr, row: Row, d: bool)
    requires WellFormed(e)
    ensures WellFormed(ToCnf(e))
    ensures Holds(ToCnf(e), row, d) <==> Holds(e, row, d)
    decreases Weight(e), 1
  {
    ToCnfShape(e);
    CnfIsWellFormed(ToCnf(e));
    match e
    case Leaf(_) =>
    case Node(Not, cs) =>
      assert WellFormed(cs[0]) && Weight(e) == 2 * Weight(cs[0]);
      NegateFlips(Eval(cs[0], row), d);
      ToCnfOfNotHolds(cs[0], row, d);
    case Node(And, cs) =>
      ToCnfAllHolds(cs, row, d);
      ToCnfAllShape(cs);
      AndIsAll(cs, row, d);
      ConjunctionHolds(ToCnfAll(cs), row, d);
    case Node(Or, cs) =>
      ToCnfAllHolds(cs, row, d);
      ToCnfAllShape(cs);
      OrIsSome(cs, row, d);
      DisjunctionHolds(ToCnfAll(cs), row, d);
  }

  lemma {:induction false} ToCnfOfNotHolds(inner: Expr, row: Row, d: bool)
    requires WellFormed(inner)
    ensures WellFormed(ToCnfOfNot(inner))
    ensures Holds(ToCnfOfNot(inner), row, d) <==> !Holds(inner, row, !d)
    decreases 2 * Weight(inner), 0
  {
    NegateFlips(Eval(inner, row), d);
    match inner
    case Leaf(_) =>
    case Node(Not, cs) =>
      assert WellFormed(cs[0]);
      ToCnfHolds(cs[0], row, d);
      NegateFlips(Eval(cs[0], row), !d);
    case Node(And, cs) =>
      WeightOfNotEach(cs);
      NotEachHolds(cs, row, d);
      ToCnfHolds(Node(Or, NotEach(cs)), row, d);
    case Node(Or, cs) =>
      WeightOfNotEach(cs);
      NotEachHolds(cs, row, d);
      ToCnfHolds(Node(And, NotEach(cs)), row, d);
  }

  lemma {:induction false} ToCnfAllHolds(es: seq<Expr>, row: Row, d: bool)
    requires AllWellFormed(es)
    ensures AllWellFormed(ToCnfAll(es))
    ensures forall i | 0 <= i < |es| :: Holds(ToCnfAll(es)[i], row, d) <==> Holds(es[i], row, d)
    decreases WeightAll(es), 2
  {
    hide ToCnf, Holds;
    if es != [] {
      ToCnfHolds(es[0], row, d);
      ToCnfAllHolds(es[1..], row, d);
      assert ToCnfAll(es) == [ToCnf(es[0])] + ToCnfAll(es[1..]);
      forall i | 0 <= i < |es| ensures Holds(ToCnfAll(es)[i], row, d) <==> Holds(es[i], row, d) {
        if i > 0 {
          assert es[1..][i - 1] == es[i] && ToCnfAll(es[1..])[i - 1] == ToCnfAll(es)[i];
        }
      }
    }
  }

  lemma ConjunctionHolds(es: seq<Expr>, row: Row, d: bool)
    requires es != [] && AllWellFormed(es) && forall e | e in es :: IsCnf(e)
    ensures WellFormed(Rebuild(And, FlattenAndDedup(And, es)))
    ensures Holds(Rebuild(And, FlattenAndDedup(And, es)), row, d) <==> forall e | e in es :: Holds(e, row, d)
  {
    FlattenMeaning(And, es, row, d);
    FlattenElements(And, es);
    assert IsCnf(es[0]) && Parts(And, es[0])[0] in FlattenAndDedup(And, es);
    RebuildMeaning(FlattenAndDedup(And, es), row, d);
  }

  lemma DisjunctionHolds(es: seq<Expr>, row: Row, d: bool)
    requires es != [] && AllWellFormed(es) && forall e | e in es :: IsCnf(e)
    ensures var r := Rebuild(And, FlattenAndDedup(And, DistributeOrOverAnd(FlattenAndDedup(Or, es))));
            WellFormed(r) && (Holds(r, row, d) <==> exists e | e in es :: Holds(e, row, d))
  {
    var disjuncts := FlattenAndDedup(Or, es);
    FlattenMeaning(Or, es, row, d);
    FlattenOrShape(es);
    DistributeMeaning(disjuncts, row, d);
    DistributeShape(disjuncts);
    ConjunctionHolds(DistributeOrOverAnd(disjuncts), row, d);
  }

  // -------------------------------------------------------------- main results

  /** On every row, under three-valued logic, the normal form means the tree. */
  lemma ToCnfPreservesMeaning(e: Expr, row: Row)
    requires WellFormed(e)
    ensures WellFormed(ToCnf(e)) && Eval(ToCnf(e), row) == Eval(e, row)
  {
    ToCnfHolds(e, row, true);
    ToCnfHolds(e, row, false);
    ThresholdsDetermine(Eval(ToCnf(e), row), Eval(e, row));
  }

  lemma {:induction false} ClausesAreFixed(es: seq<Expr>)
    requires AllClauses(es) && AllWellFormed(es)
    ensures ToCnfAll(es) == es
    decreases WeightAll(es), 1
  {
    if es != [] {
      ClauseIsFixed(es[0]);
      ClausesAreFixed(es[1..]);
    }
  }

  lemma {:induction false} ClauseIsFixed(e: Expr)
    requires IsClause(e) && WellFormed(e)
    ensures ToCnf(e) == e
    decreases Weight(e), 0
  {
    if IsOp(e, Or) {
      var cs := e.children;
      ClausesAreFixed(cs);
      FlatOrIsFixed(cs);
    }
  }

  lemma FlatOrIsFixed(cs: seq<Expr>)
    requires |cs| >= 2 && Distinct(cs) && AllLiterals(cs)
    ensures Rebuild(And, FlattenAndDedup(And, DistributeOrOverAnd(FlattenAndDedup(Or, cs)))) == Node(Or, cs)
  {
    hide Splice, Dedup, Product, Axes;
    FlatListIsFixed(Or, cs);
    SingletonAxes(cs);
    OneClause(cs);
    FlatListIsFixed(And, [Node(Or, cs)]);
  }

  lemma FlatListIsFixed(op: BoolOp, es: seq<Expr>)
    requires Distinct(es) && forall e | e in es :: !IsOp(e, op)
    ensures FlattenAndDedup(op, es) == es
  {
    SpliceOfFlat(op, es);
    DedupOfDistinct(es);
  }

  lemma OneClause(cs: seq<Expr>)
    requires |cs| >= 2 && FlattenAndDedup(Or, cs) == cs
    ensures Clauses([cs]) == [Node(Or, cs)]
  {
    hide FlattenAndDedup;
    assert Clauses([cs])[0] == Clause(cs);
  }

  lemma {:induction false} SingletonAxes(es: seq<Expr>)
    requires forall e | e in es :: !IsOp(e, And)
    ensures Product(Axes(es)) == [es]
  {
    if es != [] {
      var n := |es| - 1;
      SingletonAxes(es[..n]);
      assert Axes(es)[..n] == Axes(es[..n]);
      assert Axes(es)[n] == [es[n]];
      assert Extend([es[..n]], [es[n]]) == Extend([], [es[n]]) + ExtendOne(es[..n], [es[n]]);
      assert es == es[..n] + [es[n]];
    }
  }

  /** The well-formed trees left alone are exactly the normal forms. */
  lemma FixedPointsAreCnf(e: Expr)
    requires WellFormed(e)
    ensures ToCnf(e) == e <==> IsCnf(e)
  {
    ToCnfShape(e);
    if IsCnf(e) {
      if IsOp(e, And) {
        ClausesAreFixed(e.children);
        FlatListIsFixed(And, e.children);
      } else {
        ClauseIsFixed(e);
      }
    }
  }

  lemma ToCnfIdempotent(e: Expr)
    requires WellFormed(e)
    ensures WellFormed(ToCnf(e)) && ToCnf(ToCnf(e)) == ToCnf(e)
  {
    ToCnfShape(e);
    CnfIsWellFormed(ToCnf(e));
    FixedPointsAreCnf(ToCnf(e));
  }

  /** `to_cnf`, which calls the loops above, computes the normal form. */
  method Normalise(e: Expr) returns (r: Expr)
    requires WellFormed(e)
    ensures r == ToCnf(e)
    decreases Weight(e), 1
  {
    match e {
      case Leaf(_) => r := e;
      case Node(Not, cs) =>
        assert WellFormed(cs[0]) && Weight(e) == 2 * Weight(cs[0]);
        r := NormaliseNot(cs[0]);
      case Node(op, cs) =>
        var children := NormaliseAll(cs);
        children := FlattenAndDedupLoop(op, children);
        if op == Or {
          children := DistributeLoop(children);
          children := FlattenAndDedupLoop(And, children);
        }
        r := Rebuild(And, children);
    }
  }

  method NormaliseNot(inner: Expr) returns (r: Expr)
    requires WellFormed(inner)
    ensures r == ToCnfOfNot(inner)
    decreases 2 * Weight(inner), 0
  {
    match inner {
      case Leaf(_) => r := Node(Not, [inner]);
      case Node(Not, cs) =>
        assert WellFormed(cs[0]);
        r := Normalise(cs[0]);
      case Node(And, cs) =>
        WeightOfNotEach(cs);
        r := Normalise(Node(Or, NotEach(cs)));
      case Node(Or, cs) =>
        WeightOfNotEach(cs);
        r := Normalise(Node(And, NotEach(cs)));
    }
  }

  method NormaliseAll(es: seq<Expr>) returns (r: seq<Expr>)
    requires AllWellFormed(es)
    ensures r == ToCnfAll(es)
    decreases WeightAll(es), 2
  {
    r := [];
    if es != [] {
      var first := Normalise(es[0]);
      var rest := NormaliseAll(es[1..]);
      r := [first] + rest;
    }
  }
}
