/** Query predicates: filters and Boolean trees over them. */
module Spec {
  datatype Value = Text(text: string) | Number(num: int) | Truth(truth: bool) | Decimal(digits: string)

  datatype FilterOp =
    | Equal | NotEqual | In | NotIn | Gt | Lt | Gte | Lte | Contains | IsNull | NotNull

  datatype Filter = Filter(dimension: string, op: FilterOp, values: seq<Value>)

  datatype BoolOp = And | Or | Not

  datatype Expr = Leaf(filter: Filter) | Node(op: BoolOp, children: seq<Expr>)

  /** The arity rule every constructed Boolean node is validated against. */
  predicate WellFormed(e: Expr) {
    match e
    case Leaf(_) => true
    case Node(op, children) =>
      && (if op == Not then |children| == 1 else |children| >= 2)
      && forall c | c in children :: WellFormed(c)
  }

  predicate AllWellFormed(es: seq<Expr>) {
    forall e | e in es :: WellFormed(e)
  }
}
