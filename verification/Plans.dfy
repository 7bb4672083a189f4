/** Query plans and the outputs an execution of one may have. */
module Plans {
  import opened Common
  import opened Bags
  import opened Values
  import opened Expressions
  import opened Scans
  import J = Joins
  import A = Aggregation

  datatype JoinMethod =
    | NestedLoopJoin(pred: Option<Expr>)
    | HashJoin(leftKey: Expr, rightKey: Expr)

  datatype Operator =
    | Aggregation(groupBys: seq<Expr>, aggregates: seq<Expr>, kinds: seq<A.Kind>)
    | Sort(orders: seq<Order>)
    | Limit(limit: nat)
    | Projection(exprs: seq<Expr>)

  datatype Plan =
    | SeqScan(table: nat, pred: Option<Expr>)
    | IndexScan(table: nat, index: nat, key: Expr, pred: Option<Expr>)
    | Join(how: JoinMethod, left: Plan, right: Plan)
    | Over(op: Operator, child: Plan)

  datatype Order = Order(ascending: bool, expr: Expr)

  /** An index supports point lookups when it is on one INTEGER column. */
  datatype Index = Index(table: nat, column: nat, point: bool, entries: Entries)

  /** The indexes of a table are listed in some order, the one `GetTableIndexes` happens to give. */
  datatype Catalog = Catalog(tables: map<nat, seq<Record>>, indexes: map<nat, Index>, listed: map<nat, seq<nat>>)

  function IndexesOf(cat: Catalog, table: nat): seq<nat> {
    if table in cat.listed then cat.listed[table] else []
  }

  // ---------- projection and sorting ----------

  function Projected(exprs: seq<Expr>): Row -> seq<Row> {
    r => var values := EvaluateAll(exprs, r); if values.None? then [] else [values.value]
  }

  ghost predicate AllProject(exprs: seq<Expr>, rows: seq<Row>) {
    forall r :: r in rows ==> EvaluateAll(exprs, r).Some?
  }

  /** The comparator of `SortExecutor`. */
  function Before(orders: seq<Order>, a: Row, b: Row): Option<bool> {
    if orders == [] then Some(false)
    else
      var x, y := Evaluate(orders[0].expr, a), Evaluate(orders[0].expr, b);
      if x.None? || y.None? then None
      else
        var same := CompareEquals(x.value, y.value);
        if same.None? then None
        else if same.value then Before(orders[1..], a, b)
        else if orders[0].ascending then CompareLessThan(x.value, y.value)
        else CompareLessThan(y.value, x.value)
  }

  ghost predicate Comparable(orders: seq<Order>, rows: seq<Row>) {
    |rows| > 1 ==> forall a, b :: a in rows && b in rows ==> Before(orders, a, b).Some?
  }

  /** What sorting may leave: a permutation in which no row stands behind one it comes before. */
  ghost predicate SortedFrom(orders: seq<Order>, given: seq<Row>, rows: seq<Row>) {
    && Comparable(orders, given) && multiset(rows) == multiset(given)
    && forall i, j :: 0 <= i < j < |rows| ==> Before(orders, rows[j], rows[i]) != Some(true)
  }

  ghost predicate AggregatedFrom(groupBys: seq<Expr>, aggregates: seq<Expr>, kinds: seq<A.Kind>, given: seq<Row>,
      rows: seq<Row>) {
    && |aggregates| == |kinds| && A.AllInputs(groupBys, aggregates, kinds, given)
    && A.Shaped(A.Inputs(groupBys, aggregates, kinds, given), kinds, |groupBys|)
    && exists texts :: A.Keyed(A.Inputs(groupBys, aggregates, kinds, given), kinds, |groupBys|, rows, texts)
  }

  // ---------- executions ----------

  ghost predicate SeqScanYields(cat: Catalog, table: nat, pred: Option<Expr>, rows: seq<Row>) {
    table in cat.tables && AllPass(cat.tables[table], pred) && rows == ScanRows(cat.tables[table], pred)
  }

  /** A missing index, or one without point lookups, gives no rows. */
  ghost predicate IndexScanYields(cat: Catalog, table: nat, index: nat, key: Expr, pred: Option<Expr>, rows: seq<Row>) {
    table in cat.tables &&
    if index !in cat.indexes || !cat.indexes[index].point then rows == []
    else
      var rids := RidsFor(cat.indexes[index].entries, key);
      rids.Some? && AllFetched(cat.tables[table], rids.value, pred)
        && rows == FetchRows(cat.tables[table], rids.value, pred)
  }

  /** What a join makes of the rows of its two sides. */
  ghost predicate JoinYields(how: JoinMethod, a: seq<Row>, b: seq<Row>, rows: seq<Row>) {
    match how
    case NestedLoopJoin(pred) => J.AllDefined(a, b, pred) && rows == J.NestedRows(a, b, pred)
    case HashJoin(leftKey, rightKey) =>
      J.KeysDefined(a, leftKey) && J.KeysDefined(b, rightKey) && rows == J.HashRows(a, b, leftKey, rightKey)
  }

  /** What a node with one child makes of the rows of the child. */
  ghost predicate OperatorYields(op: Operator, given: seq<Row>, rows: seq<Row>) {
    match op
    case Aggregation(groupBys, aggregates, kinds) => AggregatedFrom(groupBys, aggregates, kinds, given, rows)
    case Sort(orders) => SortedFrom(orders, given, rows)
    case Limit(n) => rows == if n < |given| then given[..n] else given
    case Projection(exprs) => AllProject(exprs, given) && rows == FlatMap(Projected(exprs), given)
  }

  /** `rows` is a possible output of the plan. Ties in a sort and the order of hashed groups are open. */
  ghost predicate Yields(cat: Catalog, p: Plan, rows: seq<Row>)
    decreases p
  {
    match p
    case SeqScan(table, pred) => SeqScanYields(cat, table, pred, rows)
    case IndexScan(table, index, key, pred) => IndexScanYields(cat, table, index, key, pred, rows)
    case Join(how, l, r) => exists a, b :: Yields(cat, l, a) && Yields(cat, r, b) && JoinYields(how, a, b, rows)
    case Over(op, c) => exists a :: Yields(cat, c, a) && OperatorYields(op, a, rows)
  }
}
