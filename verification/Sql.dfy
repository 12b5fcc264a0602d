/**
 * The part of SQL the list queries use: conditions in three-valued logic, with `%s` placeholders
 * that take their parameters by position.
 */
module Sql {
  import opened StableJson

  /** Identifiers (UUIDs) are their canonical text, whose order is the order of their bytes. */
  datatype Value =
    | Null
    | Truth(b: bool)
    | Text(s: string)
    | Uuid(id: string)
    | Time(t: int)
    | Texts(xs: seq<string>)
    | Row(first: Value, second: Value)

  datatype Column =
    | Id | TenantId | ProjectId | Visible | UpdatedAt | Published
    | VersionDeletedAt | ProjectDeletedAt | VersionEnabled | ProjectEnabled

  datatype UnaryOp = AsText | IsNull | IsTrue

  datatype BinaryOp = And | Or | Eq | Lt | AnyOf | Pair

  datatype Expr =
    | Lit(v: Value)
    | Param
    | Col(c: Column)
    | Unary(op1: UnaryOp, e: Expr)
    | Binary(op: BinaryOp, l: Expr, r: Expr)

  /** How many `%s` the text of the condition holds. */
  function Holes(e: Expr): nat {
    match e
    case Lit(_) => 0
    case Param => 1
    case Col(_) => 0
    case Unary(_, x) => Holes(x)
    case Binary(_, l, r) => Holes(l) + Holes(r)
  }

  function TextValue(v: Value): Value {
    match v
    case Uuid(id) => Text(id)
    case Text(s) => Text(s)
    case _ => Null
  }

  function EqValue(a: Value, b: Value): Value {
    if a.Null? || b.Null? then Null else Truth(a == b)
  }

  function LtValue(a: Value, b: Value): Value {
    match (a, b)
    case (Uuid(x), Uuid(y)) => Truth(Less(x, y))
    case (Text(x), Text(y)) => Truth(Less(x, y))
    case (Time(x), Time(y)) => Truth(x < y)
    case (Row(x, x2), Row(y, y2)) =>
      // Row comparison: the second column decides when the first ties.
      if x.Null? || y.Null? then Null else if x == y then LtValue(x2, y2) else LtValue(x, y)
    case _ => Null
  }

  function AnyOfValue(a: Value, b: Value): Value {
    if a.Text? && b.Texts? then Truth(a.s in b.xs) else Null
  }

  function AndValue(a: Value, b: Value): Value {
    if a == Truth(false) || b == Truth(false) then Truth(false)
    else if a == Truth(true) && b == Truth(true) then Truth(true)
    else Null
  }

  function OrValue(a: Value, b: Value): Value {
    if a == Truth(true) || b == Truth(true) then Truth(true)
    else if a == Truth(false) && b == Truth(false) then Truth(false)
    else Null
  }

  function UnaryValue(op: UnaryOp, a: Value): Value {
    match op
    case AsText => TextValue(a)
    case IsNull => Truth(a.Null?)
    case IsTrue => Truth(a == Truth(true))
  }

  function BinaryValue(op: BinaryOp, a: Value, b: Value): Value {
    match op
    case And => AndValue(a, b)
    case Or => OrValue(a, b)
    case Eq => EqValue(a, b)
    case Lt => LtValue(a, b)
    case AnyOf => AnyOfValue(a, b)
    case Pair => Row(a, b)
  }

  /** The value of a condition on a row whose placeholders take `ps` from left to right. */
  function Eval(e: Expr, row: Column -> Value, ps: seq<Value>): Value
    requires |ps| == Holes(e)
  {
    match e
    case Lit(v) => v
    case Param => ps[0]
    case Col(c) => row(c)
    case Unary(op, x) => UnaryValue(op, Eval(x, row, ps))
    case Binary(op, l, r) => BinaryValue(op, Eval(l, row, ps[..Holes(l)]), Eval(r, row, ps[Holes(l)..]))
  }

  /** WHERE keeps a row exactly when its condition is true: neither false nor unknown. */
  predicate Keeps(e: Expr, row: Column -> Value, ps: seq<Value>)
    requires |ps| == Holes(e)
  {
    Eval(e, row, ps) == Truth(true)
  }

  lemma EvalBinary(op: BinaryOp, l: Expr, r: Expr, row: Column -> Value, ps: seq<Value>, qs: seq<Value>)
    requires |ps| == Holes(l) && |qs| == Holes(r)
    ensures Eval(Binary(op, l, r), row, ps + qs) == BinaryValue(op, Eval(l, row, ps), Eval(r, row, qs))
  {
    assert (ps + qs)[..|ps|] == ps && (ps + qs)[|ps|..] == qs;
  }

  lemma KeepsAnd(l: Expr, r: Expr, row: Column -> Value, ps: seq<Value>, qs: seq<Value>)
    requires |ps| == Holes(l) && |qs| == Holes(r)
    ensures Keeps(Binary(And, l, r), row, ps + qs) <==> Keeps(l, row, ps) && Keeps(r, row, qs)
  {
    EvalBinary(And, l, r, row, ps, qs);
  }

  lemma KeepsAndClosed(l: Expr, r: Expr, row: Column -> Value)
    requires Holes(l) == 0 && Holes(r) == 0
    ensures Keeps(Binary(And, l, r), row, []) <==> Keeps(l, row, []) && Keeps(r, row, [])
  {
    KeepsAnd(l, r, row, [], []);
  }

  lemma KeepsMissing(row: Column -> Value, v: Value)
    ensures Keeps(Unary(IsNull, Param), row, [v]) <==> v.Null?
  {
    assert Eval(Param, row, [v]) == v;
  }

  lemma KeepsOr(l: Expr, r: Expr, row: Column -> Value, ps: seq<Value>, qs: seq<Value>)
    requires |ps| == Holes(l) && |qs| == Holes(r)
    ensures Keeps(Binary(Or, l, r), row, ps + qs) <==> Keeps(l, row, ps) || Keeps(r, row, qs)
  {
    EvalBinary(Or, l, r, row, ps, qs);
  }
}
