/** What expressions, scans, joins and sorts mean, said of numbers, texts and positions in the input. */
module Meanings {
  import opened Common
  import opened Bags
  import opened Places
  import opened Values
  import opened Expressions
  import opened Scans
  import opened Plans
  import J = Joins
  import A = Aggregation

  // ---------- comparisons ----------

  predicate OnIntegers(op: Comparison, x: int, y: int) {
    match op
    case Equal => x == y
    case NotEqual => x != y
    case LessThan => x < y
    case LessThanOrEqual => x <= y
    case GreaterThan => x > y
    case GreaterThanOrEqual => x >= y
  }

  predicate OnReals(op: Comparison, x: real, y: real) {
    match op
    case Equal => x == y
    case NotEqual => x != y
    case LessThan => x < y
    case LessThanOrEqual => x <= y
    case GreaterThan => x > y
    case GreaterThanOrEqual => x >= y
  }

  /** The order of a dictionary: the first different character decides, and a proper prefix comes first. */
  ghost predicate Precedes(a: string, b: string) {
    exists n: nat :: n <= |a| && n < |b| && a[..n] == b[..n] && (n == |a| || a[n] < b[n])
  }

  ghost predicate OnTexts(op: Comparison, a: string, b: string) {
    match op
    case Equal => a == b
    case NotEqual => a != b
    case LessThan => Precedes(a, b)
    case LessThanOrEqual => Precedes(a, b) || a == b
    case GreaterThan => Precedes(b, a)
    case GreaterThanOrEqual => Precedes(b, a) || a == b
  }

  /** An INTEGER; a null counts as 0. */
  predicate IsInteger(v: Value, i: int) {
    v == Int(i) || (v == Null(INTEGER) && i == 0)
  }

  predicate HasInteger(row: Row, i: nat) {
    i < |row| && (row[i].Int? || row[i] == Null(INTEGER))
  }

  function IntegerAt(row: Row, i: nat): (x: int)
    requires HasInteger(row, i)
    ensures IsInteger(row[i], x)
  {
    if row[i].Int? then row[i].i else 0
  }

  /** A FLOAT; a null counts as 0. */
  predicate IsReal(v: Value, r: real) {
    (v.Float? && r == if v.minus then 0.0 - v.size else v.size) || (v == Null(FLOAT) && r == 0.0)
  }

  /** A VARCHAR; a null counts as the empty text. */
  predicate IsText(v: Value, s: string) {
    v == Str(s) || (v == Null(VARCHAR) && s == "")
  }

  /** A BOOLEAN; a null counts as false. */
  predicate IsTruth(v: Value, b: bool) {
    v == Bool(b) || (v == Null(BOOLEAN) && !b)
  }

  lemma CompareIntegers(op: Comparison, a: Value, b: Value, x: int, y: int)
    requires IsInteger(a, x) && IsInteger(b, y)
    ensures Comparing(op, a, b) == Some(OnIntegers(op, x, y))
  {
  }

  lemma CompareReals(op: Comparison, a: Value, b: Value, x: real, y: real)
    requires IsReal(a, x) && IsReal(b, y)
    ensures Comparing(op, a, b) == Some(OnReals(op, x, y))
  {
  }

  lemma CompareTexts(op: Comparison, a: Value, b: Value, x: string, y: string)
    requires IsText(a, x) && IsText(b, y)
    ensures Comparing(op, a, b) == Some(OnTexts(op, x, y))
  {
    hide StringLess, Precedes;
    LessIsPrecedes(x, y);
    LessIsPrecedes(y, x);
    OneOfThree(x, y);
  }

  /** Truth values are equal or not; they have no order. */
  lemma CompareTruths(op: Comparison, a: Value, b: Value, x: bool, y: bool)
    requires IsTruth(a, x) && IsTruth(b, y)
    ensures Comparing(op, a, b) == match op
                                   case Equal => Some(x == y)
                                   case NotEqual => Some(x != y)
                                   case _ => None
  {
  }

  lemma CompareMixed(op: Comparison, a: Value, b: Value)
    requires TypeOf(a) != TypeOf(b) || TypeOf(a).INVALID?
    ensures Comparing(op, a, b) == None
  {
  }

  lemma {:induction false} LessIsPrecedes(a: string, b: string)
    ensures StringLess(a, b) <==> Precedes(a, b)
  {
    if b == "" {
    } else if a == "" {
      assert a[..0] == b[..0];
    } else if a[0] != b[0] {
      assert a[..0] == b[..0];
      FirstDiffers(a, b);
    } else {
      LessIsPrecedes(a[1..], b[1..]);
      PrecedesTails(a, b);
    }
  }

  lemma FirstDiffers(a: string, b: string)
    requires a != "" && b != "" && a[0] != b[0]
    ensures Precedes(a, b) <==> a[0] < b[0]
  {
    assert a[..0] == b[..0];
    forall n: nat | 0 < n <= |a| && n < |b| ensures a[..n] != b[..n] {
      assert a[..n][0] == a[0] && b[..n][0] == b[0];
    }
  }

  lemma PrecedesTails(a: string, b: string)
    requires a != "" && b != "" && a[0] == b[0]
    ensures Precedes(a, b) <==> Precedes(a[1..], b[1..])
  {
    if Precedes(a, b) {
      var n: nat :| n <= |a| && n < |b| && a[..n] == b[..n] && (n == |a| || a[n] < b[n]);
      assert n > 0 && a[1..][..n - 1] == a[..n][1..] && b[1..][..n - 1] == b[..n][1..];
    }
    if Precedes(a[1..], b[1..]) {
      var m: nat :| m <= |a[1..]| && m < |b[1..]| && a[1..][..m] == b[1..][..m]
        && (m == |a[1..]| || a[1..][m] < b[1..][m]);
      assert a[..m + 1] == [a[0]] + a[1..][..m] && b[..m + 1] == [b[0]] + b[1..][..m];
    }
  }

  /** Of two texts one precedes the other, or they are the same. */
  lemma {:induction false} OneOfThree(a: string, b: string)
    ensures !Precedes(a, b) <==> Precedes(b, a) || a == b
  {
    LessIsPrecedes(a, b);
    LessIsPrecedes(b, a);
    LessTotal(a, b);
  }

  lemma {:induction false} LessTotal(a: string, b: string)
    ensures !StringLess(a, b) <==> StringLess(b, a) || a == b
  {
    if a != "" && b != "" && a[0] == b[0] {
      LessTotal(a[1..], b[1..]);
      assert a == [a[0]] + a[1..] && b == [b[0]] + b[1..];
    }
  }

  // ---------- arithmetic and logic ----------

  /** Division that truncates toward zero: the remainder is smaller than the divisor and has the sign of
      the dividend. */
  predicate Divides(x: int, y: int, q: int, r: int) {
    x == q * y + r && (-y < r < y || y < r < -y) && (r == 0 || (r < 0 <==> x < 0))
  }

  lemma Arithmetics(a: Value, b: Value, x: int, y: int)
    requires IsInteger(a, x) && IsInteger(b, y)
    ensures Computing(Plus, a, b) == InRange(x + y)
    ensures Computing(Minus, a, b) == InRange(x - y)
    ensures Computing(Multiply, a, b) == InRange(x * y)
    ensures y == 0 ==> Computing(Divide, a, b) == None && Computing(Modulo, a, b) == None
    ensures y != 0 ==> exists q, r :: Divides(x, y, q, r) && Computing(Divide, a, b) == InRange(q)
                                      && Computing(Modulo, a, b) == InRange(r)
  {
    hide Quotient, Divides;
    if y != 0 {
      QuotientDivides(x, y);
      assert Divides(x, y, Quotient(x, y), x - y * Quotient(x, y));
    }
  }

  /** An INTEGER of 32 bits, or nothing. */
  function InRange(i: int): Option<Value> {
    if -2147483648 <= i <= 2147483647 then Some(Int(i)) else None
  }

  lemma Signs(a: int, b: int)
    ensures (-a) * b == -(a * b) && a * (-b) == -(a * b) && (-a) * (-b) == a * b && a * b == b * a
  {
  }

  lemma DivMod(n: nat, d: nat)
    requires d > 0
    ensures n == (n / d) * d + n % d
  {
  }

  lemma QuotientDivides(x: int, y: int)
    requires y != 0
    ensures Divides(x, y, Quotient(x, y), x - y * Quotient(x, y))
  {
    var q: int, r: int := Abs(x) / Abs(y), Abs(x) % Abs(y);
    DivMod(Abs(x), Abs(y));
    Truncates(x, y, q, r);
    var q', r' := if (x < 0) == (y < 0) then q else -q, if x < 0 then -r else r;
    assert Quotient(x, y) == q';
    Signs(q', y);
  }

  lemma Truncates(x: int, y: int, q: int, r: int)
    requires y != 0 && 0 <= r < Abs(y) && Abs(x) == q * Abs(y) + r
    ensures Divides(x, y, if (x < 0) == (y < 0) then q else -q, if x < 0 then -r else r)
  {
    Signs(q, y);
    Signs(q, Abs(y));
  }

  /** There is only one such division, so the result is settled. */
  lemma DivisionUnique(x: int, y: int, q: int, r: int, q': int, r': int)
    requires y != 0 && Divides(x, y, q, r) && Divides(x, y, q', r')
    ensures q == q' && r == r'
  {
    var n := q - q';
    assert n * y == q * y - q' * y == r' - r;
    Far(n, y);
  }

  lemma Far(n: int, y: int)
    ensures n >= 1 && y > 0 ==> n * y >= y
    ensures n >= 1 && y < 0 ==> n * y <= y
    ensures n <= -1 && y > 0 ==> n * y <= -y
    ensures n <= -1 && y < 0 ==> n * y >= -y
  {
    if n >= 1 {
      assert n * y == y + (n - 1) * y;
    } else if n <= -1 {
      assert n * y == -y + (n + 1) * y;
    }
  }

  lemma Logics(a: Value, b: Value, x: bool, y: bool)
    requires IsTruth(a, x) && IsTruth(b, y)
    ensures Combining(And, a, b) == Some(Bool(x && y))
    ensures Combining(Or, a, b) == Some(Bool(x || y))
  {
  }

  // ---------- predicates ----------

  /** A BOOLEAN value decides, a null as false; a value of another type is a failed assertion. */
  lemma Decides(pred: Expr, row: Row)
    ensures Evaluate(pred, row).None? ==> Passes(Some(pred), row) == None
    ensures forall v :: Evaluate(pred, row) == Some(v) && !TypeOf(v).BOOLEAN? ==> Passes(Some(pred), row) == None
    ensures forall v, b :: Evaluate(pred, row) == Some(v) && IsTruth(v, b) ==> Passes(Some(pred), row) == Some(b)
  {
  }

  /** Whatever the two sides are: INTEGERs are compared as numbers. */
  lemma IntegersPass(op: Comparison, l: Expr, r: Expr, row: Row, a: Value, b: Value, x: int, y: int)
    requires Evaluate(l, row) == Some(a) && IsInteger(a, x) && Evaluate(r, row) == Some(b) && IsInteger(b, y)
    ensures Passes(Some(Compare(op, l, r)), row) == Some(OnIntegers(op, x, y))
  {
    hide Comparing, OnIntegers;
    CompareIntegers(op, a, b, x, y);
  }

  lemma TextsPass(op: Comparison, l: Expr, r: Expr, row: Row, a: Value, b: Value, x: string, y: string)
    requires Evaluate(l, row) == Some(a) && IsText(a, x) && Evaluate(r, row) == Some(b) && IsText(b, y)
    ensures Passes(Some(Compare(op, l, r)), row) == Some(OnTexts(op, x, y))
  {
    hide Comparing, OnTexts;
    CompareTexts(op, a, b, x, y);
  }

  /** Both sides must have a truth value, also when the first one would settle the matter. */
  lemma CombinationPasses(op: Logic, l: Expr, r: Expr, row: Row)
    ensures var a, b := Passes(Some(l), row), Passes(Some(r), row);
            Passes(Some(Combine(op, l, r)), row) == if a.None? || b.None? then None
                                                    else if op == And then Some(a.value && b.value)
                                                    else Some(a.value || b.value)
  {
  }

  /** The same in a join, where tuple 0 is the left row. */
  lemma IntegersMatch(op: Comparison, i: nat, t: nat, j: nat, left: Row, right: Row, x: int, y: int)
    requires t > 0 && i < |left| && IsInteger(left[i], x) && j < |right| && IsInteger(right[j], y)
    ensures Matches(Some(Compare(op, Column(0, i), Column(t, j))), left, right) == Some(OnIntegers(op, x, y))
    ensures Matches(Some(Compare(op, Column(t, j), Column(0, i))), left, right) == Some(OnIntegers(op, y, x))
  {
    hide Comparing, OnIntegers;
    CompareIntegers(op, left[i], right[j], x, y);
    CompareIntegers(op, right[j], left[i], y, x);
    assert EvaluateJoin(Column(0, i), left, right) == Some(left[i]);
    assert EvaluateJoin(Column(t, j), left, right) == Some(right[j]);
  }

  lemma TextsMatch(op: Comparison, i: nat, t: nat, j: nat, left: Row, right: Row, x: string, y: string)
    requires t > 0 && i < |left| && IsText(left[i], x) && j < |right| && IsText(right[j], y)
    ensures Matches(Some(Compare(op, Column(0, i), Column(t, j))), left, right) == Some(OnTexts(op, x, y))
    ensures Matches(Some(Compare(op, Column(t, j), Column(0, i))), left, right) == Some(OnTexts(op, y, x))
  {
    hide Comparing, OnTexts;
    CompareTexts(op, left[i], right[j], x, y);
    CompareTexts(op, right[j], left[i], y, x);
    assert EvaluateJoin(Column(0, i), left, right) == Some(left[i]);
    assert EvaluateJoin(Column(t, j), left, right) == Some(right[j]);
  }

  lemma CombinationMatches(op: Logic, l: Expr, r: Expr, left: Row, right: Row)
    ensures var a, b := Matches(Some(l), left, right), Matches(Some(r), left, right);
            Matches(Some(Combine(op, l, r)), left, right) == if a.None? || b.None? then None
                                                             else if op == And then Some(a.value && b.value)
                                                             else Some(a.value || b.value)
  {
  }

  // ---------- scans ----------

  /** The rows are those of the records that pass, in heap order; `places` are their positions. */
  ghost predicate Selects(rows: seq<Row>, records: seq<Record>, pred: Option<Expr>, places: seq<nat>) {
    && Ascending(places)
    && (forall i: nat :: i in places <==> i < |records| && Passes(pred, records[i].row) == Some(true))
    && |rows| == |places|
    && forall k :: 0 <= k < |places| ==> places[k] < |records| && rows[k] == records[places[k]].row
  }

  lemma ScanInOrder(records: seq<Record>, pred: Option<Expr>) returns (places: seq<nat>)
    ensures Selects(ScanRows(records, pred), records, pred, places)
  {
    hide Passes, FlatMap, Ascending;
    places := FlatMapPicks(Kept(pred), records);
    forall i | 0 <= i < |records|
      ensures Kept(pred)(records[i]) == if Passes(pred, records[i].row) == Some(true) then [records[i].row] else []
    {
    }
  }

  /** The filter `column op number`, or `number op column`, keeps exactly the records whose number stands in
      that relation. */
  lemma IntegerFilter(records: seq<Record>, col: nat, t: nat, op: Comparison, c: int, swapped: bool)
      returns (places: seq<nat>)
    requires forall x :: x in records ==> HasInteger(x.row, col)
    ensures var pred := Some(if swapped then Compare(op, Constant(Int(c)), Column(t, col))
                             else Compare(op, Column(t, col), Constant(Int(c))));
            AllPass(records, pred) && Selects(ScanRows(records, pred), records, pred, places)
    ensures forall i: nat :: i < |records| ==>
              && HasInteger(records[i].row, col)
              && var x := IntegerAt(records[i].row, col);
                 (i in places <==> if swapped then OnIntegers(op, c, x) else OnIntegers(op, x, c))
  {
    hide Passes, OnIntegers, ScanRows;
    var l, r := Column(t, col), Constant(Int(c));
    var pred := if swapped then Compare(op, r, l) else Compare(op, l, r);
    places := ScanInOrder(records, Some(pred));
    forall z | z in records
      ensures var x := IntegerAt(z.row, col);
              Passes(Some(pred), z.row) == Some(if swapped then OnIntegers(op, c, x) else OnIntegers(op, x, c))
    {
      IntegerPass(z.row, col, t, op, c, swapped, IntegerAt(z.row, col));
    }
  }

  lemma IntegerPass(row: Row, col: nat, t: nat, op: Comparison, c: int, swapped: bool, x: int)
    requires col < |row| && IsInteger(row[col], x)
    ensures var l, r := Column(t, col), Constant(Int(c));
            Passes(Some(if swapped then Compare(op, r, l) else Compare(op, l, r)), row)
            == Some(if swapped then OnIntegers(op, c, x) else OnIntegers(op, x, c))
  {
    hide Passes, OnIntegers;
    var l, r := Column(t, col), Constant(Int(c));
    assert Evaluate(l, row) == Some(row[col]) && Evaluate(r, row) == Some(Int(c));
    if swapped {
      IntegersPass(op, r, l, row, Int(c), row[col], c, x);
    } else {
      IntegersPass(op, l, r, row, row[col], Int(c), x, c);
    }
  }

  /** Without a predicate every record is kept. */
  lemma {:induction false} UnfilteredScan(records: seq<Record>)
    ensures AllPass(records, None) && |ScanRows(records, None)| == |records|
    ensures forall k :: 0 <= k < |records| ==> ScanRows(records, None)[k] == records[k].row
  {
    if records != [] {
      UnfilteredScan(records[..|records| - 1]);
    }
  }

  // ---------- joins ----------

  function Cells(f: (Row, Row) -> seq<Row>): Row -> (Row -> seq<Row>) {
    (l: Row) => OnLeft(f, l)
  }

  /** Nested loops give the pairs that match, left row first, in the order of the left rows and, for one left
      row, in that of the right rows. */
  lemma JoinInOrder(left: seq<Row>, right: seq<Row>, pred: Option<Expr>) returns (places: seq<(nat, nat)>)
    ensures InOrder(places)
    ensures forall i: nat, j: nat :: (i, j) in places <==>
              i < |left| && j < |right| && Matches(pred, left[i], right[j]) == Some(true)
    ensures |J.NestedRows(left, right, pred)| == |places|
    ensures forall k :: 0 <= k < |places| ==>
              && places[k].0 < |left| && places[k].1 < |right|
              && J.NestedRows(left, right, pred)[k] == left[places[k].0] + right[places[k].1]
  {
    hide Matches, FlatMap, InOrder;
    var f := J.Joined(pred);
    places := FlatMapPairs(ByRow(f, right), Cells(f), left, right);
    forall k | 0 <= k < |places|
      ensures f(left[places[k].0], right[places[k].1]) == [left[places[k].0] + right[places[k].1]]
    {
      assert Cells(f)(left[places[k].0])(right[places[k].1]) != [];
    }
  }

  /** Without a predicate every pair matches. */
  lemma UnfilteredJoin(left: seq<Row>, right: seq<Row>) returns (places: seq<(nat, nat)>)
    ensures J.AllDefined(left, right, None) && InOrder(places) && |J.NestedRows(left, right, None)| == |places|
    ensures forall i: nat, j: nat :: (i, j) in places <==> i < |left| && j < |right|
    ensures forall k :: 0 <= k < |places| ==>
              && places[k].0 < |left| && places[k].1 < |right|
              && J.NestedRows(left, right, None)[k] == left[places[k].0] + right[places[k].1]
  {
    hide J.NestedRows, InOrder;
    places := JoinInOrder(left, right, None);
  }

  lemma IntegerJoin(left: seq<Row>, right: seq<Row>, i: nat, t: nat, j: nat, op: Comparison)
      returns (places: seq<(nat, nat)>)
    requires t > 0
    requires (forall l :: l in left ==> HasInteger(l, i)) && forall r :: r in right ==> HasInteger(r, j)
    ensures InOrder(places)
    ensures forall a: nat, b: nat :: a < |left| && b < |right| ==>
              && HasInteger(left[a], i) && HasInteger(right[b], j)
              && ((a, b) in places <==> OnIntegers(op, IntegerAt(left[a], i), IntegerAt(right[b], j)))
    ensures var pred := Some(Compare(op, Column(0, i), Column(t, j)));
            var rows := J.NestedRows(left, right, pred);
            && J.AllDefined(left, right, pred) && |rows| == |places|
            && forall k :: 0 <= k < |places| ==>
                 && places[k].0 < |left| && places[k].1 < |right|
                 && rows[k] == left[places[k].0] + right[places[k].1]
  {
    hide Matches, J.NestedRows, OnIntegers, InOrder;
    var pred := Some(Compare(op, Column(0, i), Column(t, j)));
    places := JoinInOrder(left, right, pred);
    forall l, r | l in left && r in right
      ensures Matches(pred, l, r) == Some(OnIntegers(op, IntegerAt(l, i), IntegerAt(r, j)))
    {
      IntegersMatch(op, i, t, j, l, r, IntegerAt(l, i), IntegerAt(r, j));
    }
  }

  function HashCells(f: (Row, Row) -> seq<Row>): Row -> (Row -> seq<Row>) {
    (r: Row) => OnRight(f, r)
  }

  /** A hash join gives the pairs with the same printed key, left row first as well, but in the order of the
      right rows and, for one right row, in that of the left rows. */
  lemma HashInOrder(left: seq<Row>, right: seq<Row>, leftKey: Expr, rightKey: Expr) returns (places: seq<(nat, nat)>)
    ensures InOrder(places)
    ensures forall j: nat, i: nat :: (j, i) in places <==>
              j < |right| && i < |left| && J.KeyOf(leftKey, left[i]) == J.KeyOf(rightKey, right[j])
    ensures |J.HashRows(left, right, leftKey, rightKey)| == |places|
    ensures forall k :: 0 <= k < |places| ==>
              && places[k].0 < |right| && places[k].1 < |left|
              && J.HashRows(left, right, leftKey, rightKey)[k] == left[places[k].1] + right[places[k].0]
  {
    hide J.KeyOf, FlatMap, InOrder;
    var f := J.Keyed(leftKey, rightKey);
    places := FlatMapPairs(ByColumn(f, left), HashCells(f), right, left);
    forall k | 0 <= k < |places|
      ensures f(left[places[k].1], right[places[k].0]) == [left[places[k].1] + right[places[k].0]]
    {
      assert HashCells(f)(right[places[k].0])(left[places[k].1]) != [];
    }
  }

  // ---------- sorting, limits, projection ----------

  /** The number a sort key has for a row. */
  predicate HasKey(e: Expr, row: Row, x: int) {
    Evaluate(e, row).Some? && IsInteger(Evaluate(e, row).value, x)
  }

  /** Row `a` has the keys `xs` and row `b` the keys `ys`. */
  predicate HasKeys(orders: seq<Order>, row: Row, xs: seq<int>) {
    |xs| == |orders| && forall n :: 0 <= n < |orders| ==> HasKey(orders[n].expr, row, xs[n])
  }

  /** Key `n` is the first that differs, and puts `xs` before `ys`. */
  predicate DecidedBy(orders: seq<Order>, xs: seq<int>, ys: seq<int>, n: nat)
    requires |xs| == |ys| == |orders|
  {
    n < |orders| && xs[..n] == ys[..n] && if orders[n].ascending then xs[n] < ys[n] else xs[n] > ys[n]
  }

  /** The first key that differs decides, ascending or descending as it says. */
  ghost predicate KeysBefore(orders: seq<Order>, xs: seq<int>, ys: seq<int>)
    requires |xs| == |ys| == |orders|
  {
    exists n: nat :: DecidedBy(orders, xs, ys, n)
  }

  lemma {:induction false} BeforeByKeys(orders: seq<Order>, a: Row, b: Row, xs: seq<int>, ys: seq<int>)
    requires HasKeys(orders, a, xs) && HasKeys(orders, b, ys)
    ensures Before(orders, a, b) == Some(KeysBefore(orders, xs, ys))
  {
    if orders != [] {
      BeforeByKeys(orders[1..], a, b, xs[1..], ys[1..]);
      hide DecidedBy;
      FirstKey(orders, xs, ys);
    }
  }

  lemma FirstKey(orders: seq<Order>, xs: seq<int>, ys: seq<int>)
    requires |xs| == |ys| == |orders| > 0
    ensures KeysBefore(orders, xs, ys) <==>
            if xs[0] == ys[0] then KeysBefore(orders[1..], xs[1..], ys[1..])
            else if orders[0].ascending then xs[0] < ys[0]
            else xs[0] > ys[0]
  {
    DecidedFirst(orders, xs, ys);
    if n: nat :| DecidedBy(orders, xs, ys, n) {
      if n > 0 { DecidedLater(orders, xs, ys, n - 1); }
    }
    if m: nat :| DecidedBy(orders[1..], xs[1..], ys[1..], m) {
      DecidedLater(orders, xs, ys, m);
    }
  }

  lemma DecidedFirst(orders: seq<Order>, xs: seq<int>, ys: seq<int>)
    requires |xs| == |ys| == |orders| > 0
    ensures DecidedBy(orders, xs, ys, 0) <==> if orders[0].ascending then xs[0] < ys[0] else xs[0] > ys[0]
  {
    assert xs[..0] == ys[..0];
  }

  lemma DecidedLater(orders: seq<Order>, xs: seq<int>, ys: seq<int>, n: nat)
    requires |xs| == |ys| == |orders| > 0
    ensures DecidedBy(orders, xs, ys, n + 1) <==> xs[0] == ys[0] && DecidedBy(orders[1..], xs[1..], ys[1..], n)
  {
    if n + 1 < |orders| {
      assert xs[..n + 1] == [xs[0]] + xs[1..][..n] && ys[..n + 1] == [ys[0]] + ys[1..][..n];
      assert xs[..n + 1][1..] == xs[1..][..n] && ys[..n + 1][1..] == ys[1..][..n];
    }
  }

  /** Sorted by one key, the numbers rise, or fall. */
  lemma SortedRises(order: Order, given: seq<Row>, rows: seq<Row>, i: nat, j: nat, x: int, y: int)
    requires OperatorYields(Sort([order]), given, rows) && i < j < |rows|
    requires HasKey(order.expr, rows[i], x) && HasKey(order.expr, rows[j], y)
    ensures if order.ascending then x <= y else x >= y
  {
    hide Comparable;
    BeforeByKeys([order], rows[j], rows[i], [y], [x]);
    DecidedFirst([order], [y], [x]);
  }

  /** `xs` may stand in front of `ys`. */
  ghost predicate MayPrecede(orders: seq<Order>, xs: seq<int>, ys: seq<int>)
    requires |xs| == |ys| == |orders|
  {
    !KeysBefore(orders, ys, xs)
  }

  /** Of two key lists one may stand in front of the other, and that is transitive: ties included, the keys
      put the rows in order. */
  lemma {:induction false} KeysInOrder(orders: seq<Order>, xs: seq<int>, ys: seq<int>, zs: seq<int>)
    requires |xs| == |ys| == |zs| == |orders|
    ensures MayPrecede(orders, xs, ys) || MayPrecede(orders, ys, xs)
    ensures MayPrecede(orders, xs, ys) && MayPrecede(orders, ys, zs) ==> MayPrecede(orders, xs, zs)
  {
    if orders == [] {
      assert !KeysBefore(orders, ys, xs) && !KeysBefore(orders, zs, xs);
    } else {
      KeysInOrder(orders[1..], xs[1..], ys[1..], zs[1..]);
      FirstKey(orders, xs, ys);
      FirstKey(orders, ys, xs);
      FirstKey(orders, zs, ys);
      FirstKey(orders, zs, xs);
      hide KeysBefore;
    }
  }

  ghost predicate AllKeyed(orders: seq<Order>, rows: seq<Row>, keys: seq<seq<int>>) {
    |keys| == |rows| && forall i :: 0 <= i < |rows| ==> HasKeys(orders, rows[i], keys[i])
  }

  ghost predicate KeysSorted(orders: seq<Order>, keys: seq<seq<int>>)
    requires forall k :: k in keys ==> |k| == |orders|
  {
    forall i, j :: 0 <= i < j < |keys| ==> MayPrecede(orders, keys[i], keys[j])
  }

  /** The place for one more row in sorted rows. */
  lemma {:induction false} PlaceFor(orders: seq<Order>, keys: seq<seq<int>>, xs: seq<int>) returns (n: nat)
    requires (forall k :: k in keys ==> |k| == |orders|) && KeysSorted(orders, keys) && |xs| == |orders|
    ensures n <= |keys|
    ensures forall i :: 0 <= i < n ==> MayPrecede(orders, keys[i], xs)
    ensures forall i :: n <= i < |keys| ==> MayPrecede(orders, xs, keys[i])
  {
    hide MayPrecede;
    n := |keys|;
    while n > 0 && !MayPrecede(orders, keys[n - 1], xs)
      invariant n <= |keys| && forall i :: n <= i < |keys| ==> MayPrecede(orders, xs, keys[i])
    {
      KeysInOrder(orders, keys[n - 1], xs, xs);
      n := n - 1;
    }
    if n > 0 {
      forall i | 0 <= i < n ensures MayPrecede(orders, keys[i], xs) {
        KeysInOrder(orders, keys[i], keys[n - 1], xs);
      }
    }
  }

  function Inserted<T>(s: seq<T>, n: nat, x: T): seq<T>
    requires n <= |s|
  {
    s[..n] + [x] + s[n..]
  }

  lemma InsertedSorted(orders: seq<Order>, keys: seq<seq<int>>, n: nat, xs: seq<int>)
    requires n <= |keys| && (forall k :: k in keys ==> |k| == |orders|) && KeysSorted(orders, keys) && |xs| == |orders|
    requires forall i :: 0 <= i < n ==> MayPrecede(orders, keys[i], xs)
    requires forall i :: n <= i < |keys| ==> MayPrecede(orders, xs, keys[i])
    ensures (forall k :: k in Inserted(keys, n, xs) ==> |k| == |orders|) && KeysSorted(orders, Inserted(keys, n, xs))
  {
    hide MayPrecede;
    var all := Inserted(keys, n, xs);
    forall i | 0 <= i < |all| ensures |all[i]| == |orders| && all[i] == if i < n then keys[i] else if i == n then xs
                                                                        else keys[i - 1] {
    }
  }

  lemma InsertedKeyed(orders: seq<Order>, rows: seq<Row>, keys: seq<seq<int>>, n: nat, x: Row, xs: seq<int>)
    requires AllKeyed(orders, rows, keys) && HasKeys(orders, x, xs) && n <= |rows|
    ensures n <= |keys| && AllKeyed(orders, Inserted(rows, n, x), Inserted(keys, n, xs))
    ensures multiset(Inserted(rows, n, x)) == multiset(rows) + multiset{x}
  {
    hide HasKeys;
    var all, ks := Inserted(rows, n, x), Inserted(keys, n, xs);
    forall i | 0 <= i < |all| ensures HasKeys(orders, all[i], ks[i]) {
      if i < n {
        assert all[i] == rows[i] && ks[i] == keys[i];
      } else if i > n {
        assert all[i] == rows[i - 1] && ks[i] == keys[i - 1];
      }
    }
    assert rows == rows[..n] + rows[n..];
  }

  /** Rows with INTEGER keys can be sorted: each goes where its keys put it. */
  lemma {:induction false} SortByInserting(orders: seq<Order>, given: seq<Row>, keys: seq<seq<int>>)
      returns (rows: seq<Row>, sorted: seq<seq<int>>)
    requires AllKeyed(orders, given, keys)
    ensures AllKeyed(orders, rows, sorted) && (forall k :: k in sorted ==> |k| == |orders|)
    ensures KeysSorted(orders, sorted) && multiset(rows) == multiset(given)
  {
    rows, sorted := [], [];
    if given != [] {
      hide KeysSorted, HasKeys, Inserted;
      var m := |given| - 1;
      var r, k := SortByInserting(orders, given[..m], keys[..m]);
      KeyLength(orders, given[m], keys[m]);
      var n := PlaceFor(orders, k, keys[m]);
      InsertedSorted(orders, k, n, keys[m]);
      InsertedKeyed(orders, r, k, n, given[m], keys[m]);
      rows, sorted := Inserted(r, n, given[m]), Inserted(k, n, keys[m]);
      assert given == given[..m] + [given[m]];
    }
  }

  lemma KeyLength(orders: seq<Order>, row: Row, xs: seq<int>)
    requires HasKeys(orders, row, xs)
    ensures |xs| == |orders|
  {
  }

  /** A sort by INTEGER keys always has an output. */
  lemma {:induction false} SortSucceeds(orders: seq<Order>, given: seq<Row>, keys: seq<seq<int>>)
    requires AllKeyed(orders, given, keys)
    ensures exists rows :: OperatorYields(Sort(orders), given, rows)
  {
    hide KeysBefore, HasKeys;
    var rows, sorted := SortByInserting(orders, given, keys);
    forall i, j | 0 <= i < j < |rows| ensures Before(orders, rows[j], rows[i]) != Some(true) {
      KeyLength(orders, rows[i], sorted[i]);
      BeforeByKeys(orders, rows[j], rows[i], sorted[j], sorted[i]);
    }
    forall a, b | a in given && b in given ensures Before(orders, a, b).Some? {
      var i, j :| 0 <= i < |given| && 0 <= j < |given| && given[i] == a && given[j] == b;
      BeforeByKeys(orders, a, b, keys[i], keys[j]);
    }
    assert OperatorYields(Sort(orders), given, rows);
  }

  /** What a sort leaves: no row lost or added, one row alone without a comparison, and nothing if two of
      several rows cannot be compared. */
  lemma SortKeepsRows(orders: seq<Order>, given: seq<Row>, rows: seq<Row>)
    requires OperatorYields(Sort(orders), given, rows)
    ensures |rows| == |given| && forall r :: r in rows <==> r in given
    ensures forall r :: multiset(rows)[r] == multiset(given)[r]
    ensures |given| > 1 ==> forall a, b :: a in given && b in given ==> Before(orders, a, b) != None
  {
    assert |rows| == |multiset(rows)| == |multiset(given)| == |given|;
    assert forall r :: r in rows <==> r in multiset(rows);
    assert forall r :: r in given <==> r in multiset(given);
  }

  lemma SortOfOne(orders: seq<Order>, row: Row)
    ensures OperatorYields(Sort(orders), [row], [row])
  {
  }

  /** A limit keeps the first rows. */
  lemma LimitKeepsFirst(n: nat, given: seq<Row>, rows: seq<Row>)
    ensures OperatorYields(Limit(n), given, rows) <==>
            && |rows| == (if |given| <= n then |given| else n)
            && forall i :: 0 <= i < |rows| ==> rows[i] == given[i]
  {
  }

  /** A projection gives every row its values, in order. */
  lemma {:induction false} ProjectsEach(exprs: seq<Expr>, given: seq<Row>, rows: seq<Row>)
    requires OperatorYields(Projection(exprs), given, rows)
    ensures |rows| == |given|
    ensures forall i, k :: 0 <= i < |rows| && 0 <= k < |exprs| ==>
              |rows[i]| == |exprs| && Evaluate(exprs[k], given[i]) == Some(rows[i][k])
  {
    if given != [] {
      var front, last := given[..|given| - 1], given[|given| - 1];
      assert last in given;
      ProjectsEach(exprs, front, FlatMap(Projected(exprs), front));
      forall k | 0 <= k < |exprs|
        ensures Evaluate(exprs[k], last) == Some(EvaluateAll(exprs, last).value[k])
      {
        A.ValueAt(exprs, last, k);
      }
    }
  }

  // ---------- printed numbers ----------

  /** What a text of decimal digits stands for. */
  function Reads(s: string): int {
    if s == "" then 0 else 10 * Reads(s[..|s| - 1]) + (s[|s| - 1] as int - '0' as int)
  }

  lemma DigitReads(k: nat)
    requires k < 10
    ensures Digits[k] as int - '0' as int == k
  {
  }

  /** Printing and reading is a round trip, and nothing but 0 begins with a zero. */
  lemma {:induction false} DecimalReads(n: nat)
    ensures Reads(Decimal(n)) == n && (n > 0 ==> Decimal(n)[0] != '0')
    decreases n
  {
    var front := if n < 10 then "" else Decimal(n / 10);
    assert Decimal(n)[..|Decimal(n)| - 1] == front;
    DigitReads(n % 10);
    if n >= 10 {
      DecimalReads(n / 10);
      assert Decimal(n)[0] == front[0];
    }
  }

  /** An INTEGER prints as its digits, behind a sign if it is negative. */
  lemma IntegerReads(i: int)
    ensures var text := ToString(Int(i));
            && text != "" && (text[0] == '-' <==> i < 0)
            && Reads(if i < 0 then text[1..] else text) == if i < 0 then -i else i
  {
    hide Decimal, Reads;
    DecimalReads(Abs(i));
    assert i >= 0 ==> PrintInt(i)[0] in Digits;
  }

  /** Rounding gives the nearest hundredth, of two the even one. */
  lemma HundredthsNearest(size: Magnitude)
    ensures var off := size * 100.0 - Hundredths(size) as real;
            -0.5 <= off <= 0.5 && (off == 0.5 || off == -0.5 ==> Hundredths(size) % 2 == 0)
  {
  }

  /** A FLOAT prints as its hundredths, with a point before the last two digits and a sign of its own. */
  lemma FloatReads(minus: bool, size: Magnitude)
    ensures var text := ToString(Float(minus, size));
            && text != "" && (text[0] == '-' <==> minus)
            && var t := if minus then text[1..] else text;
               |t| > 3 && t[|t| - 3] == '.' && Reads(t[..|t| - 3] + t[|t| - 2..]) == Hundredths(size)
  {
    hide Hundredths, Decimal, Reads;
    SignedText(minus, size);
    var n := Hundredths(size);
    var t, whole := PrintHundredths(n), Decimal(n / 100);
    assert t[..|t| - 3] + t[|t| - 2..] == whole + [Digits[n % 100 / 10]] + [Digits[n % 10]];
    DecimalReads(n / 100);
    ReadsOneMore(whole, n % 100 / 10);
    ReadsOneMore(whole + [Digits[n % 100 / 10]], n % 10);
    Recomposed(n);
  }

  lemma ReadsOneMore(s: string, k: nat)
    requires k < 10
    ensures Reads(s + [Digits[k]]) == 10 * Reads(s) + k
  {
    DigitReads(k);
    assert (s + [Digits[k]])[..|s|] == s;
  }
}
