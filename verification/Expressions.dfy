/** Expressions over one row, or over a pair of rows in a join. A failed assertion yields no value. */
module Expressions {
  import opened Common
  import opened Values

  type Row = seq<Value>

  datatype Comparison = Equal | NotEqual | LessThan | LessThanOrEqual | GreaterThan | GreaterThanOrEqual

  datatype Arithmetic = Plus | Minus | Multiply | Divide | Modulo

  datatype Logic = And | Or

  datatype Expr =
    | Column(tuple: nat, index: nat)
    | Constant(value: Value)
    | Compare(op: Comparison, left: Expr, right: Expr)
    | Compute(aop: Arithmetic, left: Expr, right: Expr)
    | Combine(lop: Logic, left: Expr, right: Expr)

  function Flip(r: Option<bool>): Option<bool> {
    if r.None? then None else Some(!r.value)
  }

  function AsValue(r: Option<bool>): Option<Value> {
    if r.None? then None else Some(Bool(r.value))
  }

  function Comparing(op: Comparison, a: Value, b: Value): Option<bool> {
    match op
    case Equal => CompareEquals(a, b)
    case NotEqual => Flip(CompareEquals(a, b))
    case LessThan => CompareLessThan(a, b)
    case GreaterThan => CompareLessThan(b, a)
    case LessThanOrEqual => Flip(CompareLessThan(b, a))
    case GreaterThanOrEqual => Flip(CompareLessThan(a, b))
  }

  predicate Fits32(i: int) {
    -0x8000_0000 <= i < 0x8000_0000
  }

  /** Quotient and remainder truncate toward zero. */
  function Quotient(a: int, b: int): int
    requires b != 0
  {
    if (a < 0) == (b < 0) then Abs(a) / Abs(b) else -(Abs(a) / Abs(b))
  }

  /** Integers of 32 bits; an overflow has no defined value. FLOAT arithmetic is not part of this model. */
  function Computing(op: Arithmetic, a: Value, b: Value): Option<Value> {
    if TypeOf(a) != INTEGER || TypeOf(b) != INTEGER then None
    else
      var x, y := Payload(a).i, Payload(b).i;
      if (op.Divide? || op.Modulo?) && y == 0 then None
      else
        var r := match op
                 case Plus => x + y
                 case Minus => x - y
                 case Multiply => x * y
                 case Divide => Quotient(x, y)
                 case Modulo => x - y * Quotient(x, y);
        if Fits32(r) then Some(Int(r)) else None
  }

  function Combining(op: Logic, a: Value, b: Value): Option<Value> {
    if TypeOf(a) != BOOLEAN || TypeOf(b) != BOOLEAN then None
    else Some(Bool(if op.And? then Payload(a).b && Payload(b).b else Payload(a).b || Payload(b).b))
  }

  /** `Evaluate`: the tuple number of a column plays no part. */
  function Evaluate(e: Expr, row: Row): Option<Value> {
    match e
    case Column(_, i) => if i < |row| then Some(row[i]) else None
    case Constant(v) => Some(v)
    case Compare(op, l, r) =>
      var a, b := Evaluate(l, row), Evaluate(r, row);
      if a.None? || b.None? then None else AsValue(Comparing(op, a.value, b.value))
    case Compute(op, l, r) =>
      var a, b := Evaluate(l, row), Evaluate(r, row);
      if a.None? || b.None? then None else Computing(op, a.value, b.value)
    case Combine(op, l, r) =>
      var a, b := Evaluate(l, row), Evaluate(r, row);
      if a.None? || b.None? then None else Combining(op, a.value, b.value)
  }

  /** Several expressions over one row. */
  function EvaluateAll(exprs: seq<Expr>, row: Row): (values: Option<Row>)
    ensures values.Some? ==> |values.value| == |exprs|
  {
    if exprs == [] then Some([])
    else
      var front, v := EvaluateAll(exprs[..|exprs| - 1], row), Evaluate(exprs[|exprs| - 1], row);
      if front.None? || v.None? then None else Some(front.value + [v.value])
  }

  /** `EvaluateJoin`: tuple 0 is the left row, every other number the right one. */
  function EvaluateJoin(e: Expr, left: Row, right: Row): Option<Value> {
    match e
    case Column(t, i) => var row := if t == 0 then left else right; if i < |row| then Some(row[i]) else None
    case Constant(v) => Some(v)
    case Compare(op, l, r) =>
      var a, b := EvaluateJoin(l, left, right), EvaluateJoin(r, left, right);
      if a.None? || b.None? then None else AsValue(Comparing(op, a.value, b.value))
    case Compute(op, l, r) =>
      var a, b := EvaluateJoin(l, left, right), EvaluateJoin(r, left, right);
      if a.None? || b.None? then None else Computing(op, a.value, b.value)
    case Combine(op, l, r) =>
      var a, b := EvaluateJoin(l, left, right), EvaluateJoin(r, left, right);
      if a.None? || b.None? then None else Combining(op, a.value, b.value)
  }

  /** `GetAsBoolean`. */
  function Truth(v: Option<Value>): Option<bool> {
    if v.None? || TypeOf(v.value) != BOOLEAN then None else Some(Payload(v.value).b)
  }

  /** A scan predicate; none means true. */
  function Passes(pred: Option<Expr>, row: Row): Option<bool> {
    if pred.None? then Some(true) else Truth(Evaluate(pred.value, row))
  }

  /** A join predicate; none means true. */
  function Matches(pred: Option<Expr>, left: Row, right: Row): Option<bool> {
    if pred.None? then Some(true) else Truth(EvaluateJoin(pred.value, left, right))
  }
}
