/** The two rewrite rules, applied bottom-up, and what they keep. */
module Optimizer {
  import opened Common
  import opened Bags
  import opened Values
  import opened Expressions
  import opened Scans
  import opened Plans
  import J = Joins
  import A = Aggregation
  import G = Grouping

  // ---------- the rules ----------

  datatype Lookup = Lookup(column: nat, key: Expr)

  /** `column = constant` in either order, whatever the tuple number. */
  function PointLookup(pred: Option<Expr>): Option<Lookup> {
    if pred.None? || !pred.value.Compare? || pred.value.op != Equal then None
    else
      var l, r := pred.value.left, pred.value.right;
      if l.Column? && r.Constant? then Some(Lookup(l.index, r))
      else if r.Column? && l.Constant? then Some(Lookup(r.index, l))
      else None
  }

  predicate Serves(cat: Catalog, index: nat, column: nat) {
    index in cat.indexes && cat.indexes[index].point && cat.indexes[index].column == column
  }

  function FirstServing(cat: Catalog, indexes: seq<nat>, column: nat): (found: Option<nat>)
    ensures found.Some? ==> found.value in indexes && Serves(cat, found.value, column)
    ensures found.None? ==> forall i :: i in indexes ==> !Serves(cat, i, column)
  {
    if indexes == [] then None
    else if Serves(cat, indexes[0], column) then Some(indexes[0])
    else FirstServing(cat, indexes[1..], column)
  }

  /** The index a sequential scan is rewritten to, if any. */
  function ChosenIndex(cat: Catalog, table: nat, pred: Option<Expr>): Option<nat> {
    var point := PointLookup(pred);
    if point.None? || table !in cat.tables then None
    else FirstServing(cat, IndexesOf(cat, table), point.value.column)
  }

  function SeqScanRule(cat: Catalog, p: Plan): Plan {
    if !p.SeqScan? then p
    else
      var index := ChosenIndex(cat, p.table, p.pred);
      if index.None? then p else IndexScan(p.table, index.value, PointLookup(p.pred).value.key, p.pred)
  }

  /** `OptimizeSeqScanToIndexScan`: the first index that serves. */
  method SeqScanToIndexScan(cat: Catalog, p: Plan) returns (q: Plan)
    ensures q == SeqScanRule(cat, p)
  {
    if !p.SeqScan? || p.pred.None? {
      return p;
    }
    var point := PointLookup(p.pred);
    if point.None? || p.table !in cat.tables {
      return p;
    }
    var indexes := IndexesOf(cat, p.table);
    for i := 0 to |indexes|
      invariant FirstServing(cat, indexes[i..], point.value.column) == ChosenIndex(cat, p.table, p.pred)
    {
      assert indexes[i..][1..] == indexes[i + 1..];
      if Serves(cat, indexes[i], point.value.column) {
        return IndexScan(p.table, indexes[i], point.value.key, p.pred);
      }
    }
    return p;
  }

  datatype JoinColumns = JoinColumns(left: nat, right: nat, swapped: bool)

  /** `left.i = right.j` in either order. */
  function ColumnJoin(pred: Option<Expr>): Option<JoinColumns> {
    if pred.None? || !pred.value.Compare? || pred.value.op != Equal then None
    else
      var l, r := pred.value.left, pred.value.right;
      if !l.Column? || !r.Column? then None
      else if l.tuple == 0 && r.tuple == 1 then Some(JoinColumns(l.index, r.index, false))
      else if l.tuple == 1 && r.tuple == 0 then Some(JoinColumns(r.index, l.index, true))
      else None
  }

  function RewrittenJoin(how: JoinMethod): JoinMethod {
    if !how.NestedLoopJoin? then how
    else
      var columns := ColumnJoin(how.pred);
      if columns.None? then how else HashJoin(Column(0, columns.value.left), Column(0, columns.value.right))
  }

  /** `OptimizeNLJToHashJoin`. */
  function JoinRule(p: Plan): Plan {
    if p.Join? then Join(RewrittenJoin(p.how), p.left, p.right) else p
  }

  function WithChildren(cat: Catalog, p: Plan): Plan
    decreases p, 0
  {
    match p
    case SeqScan(_, _) => p
    case IndexScan(_, _, _, _) => p
    case Join(how, l, r) => Join(how, Optimized(cat, l), Optimized(cat, r))
    case Over(op, c) => Over(op, Optimized(cat, c))
  }

  function Optimized(cat: Catalog, p: Plan): Plan
    decreases p, 1
  {
    JoinRule(SeqScanRule(cat, WithChildren(cat, p)))
  }

  // ---------- which plan comes out ----------

  /** The first of the table's indexes that is on the column and supports point lookups. */
  ghost predicate IsFirstIndex(cat: Catalog, table: nat, column: nat, n: nat) {
    var indexes := IndexesOf(cat, table);
    && n < |indexes| && indexes[n] in cat.indexes
    && cat.indexes[indexes[n]].point && cat.indexes[indexes[n]].column == column
    && forall m :: 0 <= m < n && indexes[m] in cat.indexes ==>
         !(cat.indexes[indexes[m]].point && cat.indexes[indexes[m]].column == column)
  }

  /** A scan for `column = constant` uses that index, if there is one; any other scan stays. */
  ghost predicate ScanRewritten(cat: Catalog, table: nat, pred: Option<Expr>, q: Plan) {
    && (forall c, t, v, swapped, n: nat ::
          pred == Some(KeyEquals(c, t, v, swapped)) && table in cat.tables && IsFirstIndex(cat, table, c, n) ==>
            q == IndexScan(table, IndexesOf(cat, table)[n], Constant(v), pred))
    && ((forall c, t, v, swapped, n: nat ::
           !(pred == Some(KeyEquals(c, t, v, swapped)) && table in cat.tables && IsFirstIndex(cat, table, c, n))) ==>
          q == SeqScan(table, pred))
  }

  /** Nested loops over `left.i = right.j` become a hash join of these columns; any other join stays. */
  ghost predicate MethodRewritten(how: JoinMethod, how': JoinMethod) {
    && (forall i, j, swapped ::
          how == NestedLoopJoin(Some(J.ColumnsEqual(i, j, swapped))) ==> how' == HashJoin(Column(0, i), Column(0, j)))
    && ((forall i, j, swapped :: how != NestedLoopJoin(Some(J.ColumnsEqual(i, j, swapped)))) ==> how' == how)
  }

  /** Node by node, what the two rules make of a plan. */
  ghost predicate Rewritten(cat: Catalog, p: Plan, q: Plan)
    decreases p
  {
    match p
    case SeqScan(table, pred) => ScanRewritten(cat, table, pred, q)
    case IndexScan(_, _, _, _) => q == p
    case Join(how, l, r) =>
      q.Join? && MethodRewritten(how, q.how) && Rewritten(cat, l, q.left) && Rewritten(cat, r, q.right)
    case Over(op, c) => q.Over? && q.op == op && Rewritten(cat, c, q.child)
  }

  lemma {:induction false} IsRewritten(cat: Catalog, p: Plan)
    ensures Rewritten(cat, p, Optimized(cat, p))
  {
    hide ScanRewritten, MethodRewritten;
    match p
    case SeqScan(table, pred) => ScanIsRewritten(cat, table, pred);
    case IndexScan(_, _, _, _) =>
    case Join(how, l, r) =>
      IsRewritten(cat, l);
      IsRewritten(cat, r);
      MethodIsRewritten(how);
    case Over(_, c) => IsRewritten(cat, c);
  }

  lemma {:induction false} FirstServingAt(cat: Catalog, indexes: seq<nat>, column: nat) returns (n: nat)
    ensures FirstServing(cat, indexes, column).Some? ==>
              && n < |indexes| && indexes[n] == FirstServing(cat, indexes, column).value
              && forall m :: 0 <= m < n ==> !Serves(cat, indexes[m], column)
  {
    n := 0;
    if indexes != [] && !Serves(cat, indexes[0], column) {
      var k := FirstServingAt(cat, indexes[1..], column);
      n := k + 1;
      assert forall m :: 0 < m < n && n < |indexes| ==> indexes[m] == indexes[1..][m - 1];
    }
  }

  lemma PointIsKeyEquals(pred: Option<Expr>, point: Lookup)
    requires PointLookup(pred) == Some(point)
    ensures point.key.Constant?
    ensures exists t, swapped :: pred == Some(KeyEquals(point.column, t, point.key.value, swapped))
  {
    var l, r := pred.value.left, pred.value.right;
    if l.Column? && r.Constant? {
      assert pred == Some(KeyEquals(point.column, l.tuple, point.key.value, false));
    } else {
      assert pred == Some(KeyEquals(point.column, r.tuple, point.key.value, true));
    }
  }

  lemma ScanIsRewritten(cat: Catalog, table: nat, pred: Option<Expr>)
    ensures ScanRewritten(cat, table, pred, SeqScanRule(cat, SeqScan(table, pred)))
  {
    var point, q := PointLookup(pred), SeqScanRule(cat, SeqScan(table, pred));
    forall c, t, v, swapped, n: nat
      | pred == Some(KeyEquals(c, t, v, swapped)) && table in cat.tables && IsFirstIndex(cat, table, c, n)
      ensures q == IndexScan(table, IndexesOf(cat, table)[n], Constant(v), pred)
    {
      assert point == Some(Lookup(c, Constant(v))) && Serves(cat, IndexesOf(cat, table)[n], c);
      var k := FirstServingAt(cat, IndexesOf(cat, table), c);
    }
    if q != SeqScan(table, pred) {
      PointIsKeyEquals(pred, point.value);
      var t, swapped :| pred == Some(KeyEquals(point.value.column, t, point.value.key.value, swapped));
      var k := FirstServingAt(cat, IndexesOf(cat, table), point.value.column);
      assert IsFirstIndex(cat, table, point.value.column, k);
    }
  }

  lemma MethodIsRewritten(how: JoinMethod)
    ensures MethodRewritten(how, RewrittenJoin(how))
  {
    if how.NestedLoopJoin? && ColumnJoin(how.pred).Some? {
      var c := ColumnJoin(how.pred).value;
      assert how == NestedLoopJoin(Some(J.ColumnsEqual(c.left, c.right, c.swapped)));
    }
  }

  /** `Optimizer::Optimize`. */
  method Optimize(cat: Catalog, p: Plan) returns (q: Plan)
    ensures q == Optimized(cat, p)
    ensures Rewritten(cat, p, q)
    ensures Good(cat, p) ==> SameBags(cat, p, q)
    ensures Good(cat, p) && KeepsOrder(p) ==> SameRows(cat, p, q)
    decreases p
  {
    hide Good, SameBags, SameRows, Rewritten;
    IsRewritten(cat, p);
    q := p;
    match p {
      case SeqScan(_, _) =>
      case IndexScan(_, _, _, _) =>
      case Join(how, l, r) =>
        var l' := Optimize(cat, l);
        var r' := Optimize(cat, r);
        q := Join(how, l', r');
      case Over(op, c) =>
        var c' := Optimize(cat, c);
        q := Over(op, c');
    }
    q := SeqScanToIndexScan(cat, q);
    q := JoinRule(q);
    if Good(cat, p) {
      BagKept(cat, p);
      if KeepsOrder(p) { OrderKept(cat, p); }
    }
  }

  // ---------- what a rewrite may rely on ----------

  /** The chosen index, if any, holds what `CreateIndex` puts into it for the table as it is now. */
  ghost predicate FreshScan(cat: Catalog, table: nat, pred: Option<Expr>) {
    var index := ChosenIndex(cat, table, pred);
    index.Some? ==>
      var records, column := cat.tables[table], PointLookup(pred).value.column;
      UniqueRids(records) && IntegerColumn(records, column)
        && FreshIndex(cat.indexes[index.value].entries, records, column)
  }

  /** The constant has the type of the column, unless the sequential scan would fail on it as well. */
  predicate GoodConstant(cat: Catalog, table: nat, pred: Option<Expr>) {
    ChosenIndex(cat, table, pred).Some? ==>
      TypeOf(PointLookup(pred).value.key.value).INTEGER? || cat.tables[table] != []
  }

  ghost predicate GoodScan(cat: Catalog, table: nat, pred: Option<Expr>) {
    FreshScan(cat, table, pred) && GoodConstant(cat, table, pred)
  }

  /** No rewritten join below: nothing changes the order of rows. */
  predicate KeepsOrder(p: Plan) {
    match p
    case SeqScan(_, _) => true
    case IndexScan(_, _, _, _) => true
    case Join(how, l, r) => RewrittenJoin(how) == how && KeepsOrder(l) && KeepsOrder(r)
    case Over(_, c) => KeepsOrder(c)
  }

  /** The keys of a rewritten join are of one type, and no key looks like a different one of the other side. */
  ghost predicate GoodJoin(cat: Catalog, how: JoinMethod, l: Plan, r: Plan) {
    RewrittenJoin(how) != how ==>
      var i, j := ColumnJoin(how.pred).value.left, ColumnJoin(how.pred).value.right;
      forall a, b :: Yields(cat, l, a) && Yields(cat, r, b) ==> J.TypedKeys(a, b, i, j) && J.NoLookAlikes(a, b, i, j)
  }

  /** What a node needs to bear a permuted input: group values that print alike are the same, and no limit. */
  ghost predicate GoodOperator(cat: Catalog, op: Operator, c: Plan) {
    && !op.Limit?
    && (op.Aggregation? && |op.aggregates| == |op.kinds| ==>
          forall a :: Yields(cat, c, a) ==> G.KeysExact(A.Inputs(op.groupBys, op.aggregates, op.kinds, a)))
  }

  /** Every node meets what its rewrite, or a permuted input, asks of it. */
  ghost predicate Good(cat: Catalog, p: Plan) {
    match p
    case SeqScan(table, pred) => GoodScan(cat, table, pred)
    case IndexScan(_, _, _, _) => true
    case Join(how, l, r) => Good(cat, l) && Good(cat, r) && GoodJoin(cat, how, l, r)
    case Over(op, c) => Good(cat, c) && (KeepsOrder(c) || GoodOperator(cat, op, c))
  }

  // ---------- scans: the same rows in the same order ----------

  ghost predicate SameRows(cat: Catalog, p: Plan, q: Plan) {
    forall rows :: Yields(cat, p, rows) <==> Yields(cat, q, rows)
  }

  lemma ScanKept(cat: Catalog, table: nat, pred: Option<Expr>, rows: seq<Row>)
    requires GoodScan(cat, table, pred)
    ensures Yields(cat, SeqScan(table, pred), rows) <==> Yields(cat, SeqScanRule(cat, SeqScan(table, pred)), rows)
  {
    hide AllPass, AllFetched, FetchRows, ScanRows, UniqueRids, FreshIndex, IntegerColumn;
    var index := ChosenIndex(cat, table, pred);
    if index.Some? {
      var records, column := cat.tables[table], PointLookup(pred).value.column;
      var v := PointLookup(pred).value.key.value;
      var swapped := pred.value.left.Constant?;
      var tuple := if swapped then pred.value.right.tuple else pred.value.left.tuple;
      assert pred == Some(KeyEquals(column, tuple, v, swapped));
      if TypeOf(v).INTEGER? {
        IndexScanAgrees(records, cat.indexes[index.value].entries, column, tuple, v, swapped);
      } else {
        ScanFails(records, column, tuple, v, swapped);
      }
    }
  }

  /** On an empty table a constant of another type fails in the index scan alone: the guard on it is exact. */
  lemma ScanRuleExact(cat: Catalog, table: nat, pred: Option<Expr>)
    requires FreshScan(cat, table, pred)
    ensures SameRows(cat, SeqScan(table, pred), SeqScanRule(cat, SeqScan(table, pred))) <==>
            GoodConstant(cat, table, pred)
  {
    hide FetchRows, ScanRows, UniqueRids, FreshIndex, IntegerColumn;
    if GoodConstant(cat, table, pred) {
      forall rows ensures Yields(cat, SeqScan(table, pred), rows) <==>
        Yields(cat, SeqScanRule(cat, SeqScan(table, pred)), rows) {
        ScanKept(cat, table, pred, rows);
      }
    } else {
      assert Yields(cat, SeqScan(table, pred), ScanRows([], pred));
      assert !Yields(cat, SeqScanRule(cat, SeqScan(table, pred)), ScanRows([], pred));
    }
  }

  /** `column = 'x'` on an empty table with an index on that column. */
  lemma EmptyTableSample()
    ensures var cat := Catalog(map[0 := []], map[0 := Index(0, 0, true, map[])], map[0 := [0]]);
            var scan := SeqScan(0, Some(KeyEquals(0, 0, Str("x"), false)));
            && FreshScan(cat, 0, scan.pred) && Yields(cat, scan, [])
            && forall rows :: !Yields(cat, SeqScanRule(cat, scan), rows)
  {
    var cat := Catalog(map[0 := []], map[0 := Index(0, 0, true, map[])], map[0 := [0]]);
    var scan := SeqScan(0, Some(KeyEquals(0, 0, Str("x"), false)));
    forall key ensures FlatMap(RidIf(0, key), []) == [] { FlatMapNone(RidIf(0, key)); }
    FlatMapNone(Kept(scan.pred));
    assert FirstServing(cat, [0], 0) == Some(0);
    assert SeqScanRule(cat, scan) == IndexScan(0, 0, Constant(Str("x")), scan.pred);
    assert RidsFor(map[], Constant(Str("x"))).None?;
  }

  lemma ScanFails(records: seq<Record>, column: nat, tuple: nat, v: Value, swapped: bool)
    requires records != [] && IntegerColumn(records, column) && !TypeOf(v).INTEGER?
    ensures !AllPass(records, Some(KeyEquals(column, tuple, v, swapped)))
  {
    assert records[0] in records;
    KeyPass(records[0].row, column, tuple, v, swapped);
  }

  /** Without a rewritten join the optimized plan has the same outputs, row by row. */
  lemma {:induction false} OrderKept(cat: Catalog, p: Plan)
    requires Good(cat, p) && KeepsOrder(p)
    ensures SameRows(cat, p, Optimized(cat, p))
  {
    hide JoinYields, OperatorYields, SeqScanYields, IndexScanYields, GoodScan, GoodJoin, GoodOperator, RewrittenJoin;
    match p
    case SeqScan(table, pred) =>
      forall rows ensures Yields(cat, p, rows) <==>
        Yields(cat, Optimized(cat, p), rows) { ScanKept(cat, table, pred, rows); }
    case IndexScan(_, _, _, _) =>
    case Join(_, l, r) =>
      OrderKept(cat, l);
      OrderKept(cat, r);
      assert Optimized(cat, p) == Join(p.how, Optimized(cat, l), Optimized(cat, r));
      JoinSame(cat, p.how, l, r, Optimized(cat, l), Optimized(cat, r));
    case Over(op, c) =>
      OrderKept(cat, c);
      OperatorSame(cat, op, c, Optimized(cat, c));
  }

  lemma JoinSame(cat: Catalog, how: JoinMethod, l: Plan, r: Plan, l': Plan, r': Plan)
    requires SameRows(cat, l, l') && SameRows(cat, r, r')
    ensures SameRows(cat, Join(how, l, r), Join(how, l', r'))
  {
    hide JoinYields;
    forall rows | Yields(cat, Join(how, l, r), rows)
      ensures Yields(cat, Join(how, l', r'), rows)
    {
      var a, b :| Yields(cat, l, a) && Yields(cat, r, b) && JoinYields(how, a, b, rows);
      assert Yields(cat, l', a) && Yields(cat, r', b);
    }
    forall rows | Yields(cat, Join(how, l', r'), rows)
      ensures Yields(cat, Join(how, l, r), rows)
    {
      var a, b :| Yields(cat, l', a) && Yields(cat, r', b) && JoinYields(how, a, b, rows);
      assert Yields(cat, l, a) && Yields(cat, r, b);
    }
  }

  lemma OperatorSame(cat: Catalog, op: Operator, c: Plan, c': Plan)
    requires SameRows(cat, c, c')
    ensures SameRows(cat, Over(op, c), Over(op, c'))
  {
    hide OperatorYields;
    forall rows
      ensures Yields(cat, Over(op, c), rows) <==> Yields(cat, Over(op, c'), rows)
    {
      assert forall a :: Yields(cat, c, a) <==> Yields(cat, c', a);
    }
  }

  // ---------- the same bag ----------

  ghost predicate HasBag(cat: Catalog, p: Plan, bag: multiset<Row>) {
    exists rows :: Yields(cat, p, rows) && multiset(rows) == bag
  }

  /** The two plans have the same outputs up to the order of rows. */
  ghost predicate SameBags(cat: Catalog, p: Plan, q: Plan) {
    forall bag :: HasBag(cat, p, bag) <==> HasBag(cat, q, bag)
  }

  lemma Members(a: seq<Row>, b: seq<Row>)
    requires multiset(a) == multiset(b)
    ensures forall r :: r in a <==> r in b
  {
    assert forall r :: r in a <==> r in multiset(a);
    assert forall r :: r in b <==> r in multiset(b);
  }

  /** Permuted sides give a permuted output of a join. */
  lemma JoinFollows(how: JoinMethod, a: seq<Row>, b: seq<Row>, a': seq<Row>, b': seq<Row>, rows: seq<Row>)
      returns (rows': seq<Row>)
    requires multiset(a) == multiset(a') && multiset(b) == multiset(b') && JoinYields(how, a, b, rows)
    ensures JoinYields(how, a', b', rows') && multiset(rows) == multiset(rows')
  {
    hide J.HashRows;
    Members(a, a');
    Members(b, b');
    match how
    case NestedLoopJoin(pred) =>
      J.PairsPermuted(J.Joined(pred), a, b, a', b');
      rows' := J.NestedRows(a', b', pred);
    case HashJoin(leftKey, rightKey) =>
      J.HashPermuted(a, b, a', b', leftKey, rightKey);
      rows' := J.HashRows(a', b', leftKey, rightKey);
  }

  /** The guard of a rewritten join, on the rows of its two sides. */
  ghost predicate GoodKeys(how: JoinMethod, a: seq<Row>, b: seq<Row>) {
    RewrittenJoin(how) != how ==>
      var i, j := ColumnJoin(how.pred).value.left, ColumnJoin(how.pred).value.right;
      J.TypedKeys(a, b, i, j) && J.NoLookAlikes(a, b, i, j)
  }

  /** On the same rows both methods succeed and give the same bag. */
  lemma JoinRewritten(how: JoinMethod, a: seq<Row>, b: seq<Row>, rows: seq<Row>) returns (rows': seq<Row>)
    requires GoodKeys(how, a, b)
    ensures JoinYields(how, a, b, rows) ==>
            JoinYields(RewrittenJoin(how), a, b, rows') && multiset(rows) == multiset(rows')
    ensures JoinYields(RewrittenJoin(how), a, b, rows) ==>
            JoinYields(how, a, b, rows') && multiset(rows) == multiset(rows')
  {
    rows' := rows;
    if RewrittenJoin(how) != how {
      var columns := ColumnJoin(how.pred).value;
      hide J.TypedKeys, J.NoLookAlikes, J.HashRows, J.NestedRows, J.KeysDefined, J.AllDefined;
      assert how.pred == Some(J.ColumnsEqual(columns.left, columns.right, columns.swapped));
      J.JoinRewrite(a, b, columns.left, columns.right, columns.swapped);
      var hashed := J.HashRows(a, b, Column(0, columns.left), Column(0, columns.right));
      rows' := if rows == hashed then J.NestedRows(a, b, how.pred) else hashed;
    }
  }

  lemma Permuted(cat: Catalog, p: Plan, q: Plan, a: seq<Row>) returns (a': seq<Row>)
    requires SameBags(cat, p, q) && Yields(cat, p, a)
    ensures Yields(cat, q, a') && multiset(a') == multiset(a)
  {
    assert HasBag(cat, p, multiset(a));
    a' :| Yields(cat, q, a') && multiset(a') == multiset(a);
  }

  lemma SameBagsBack(cat: Catalog, p: Plan, q: Plan)
    requires SameBags(cat, p, q)
    ensures SameBags(cat, q, p)
  {
  }

  lemma KeysOf(cat: Catalog, how: JoinMethod, l: Plan, r: Plan, a: seq<Row>, b: seq<Row>)
    requires GoodJoin(cat, how, l, r) && Yields(cat, l, a) && Yields(cat, r, b)
    ensures GoodKeys(how, a, b)
  {
    hide J.TypedKeys, J.NoLookAlikes;
  }

  lemma JoinOutput(cat: Catalog, how: JoinMethod, l: Plan, r: Plan, a: seq<Row>, b: seq<Row>, rows: seq<Row>)
    requires Yields(cat, l, a) && Yields(cat, r, b) && JoinYields(how, a, b, rows)
    ensures HasBag(cat, Join(how, l, r), multiset(rows))
  {
    hide JoinYields;
    assert Yields(cat, Join(how, l, r), rows);
  }

  lemma JoinForward(cat: Catalog, how: JoinMethod, l: Plan, r: Plan, l': Plan, r': Plan, rows: seq<Row>)
    requires SameBags(cat, l, l') && SameBags(cat, r, r') && GoodJoin(cat, how, l, r)
             && Yields(cat, Join(how, l, r), rows)
    ensures HasBag(cat, Join(RewrittenJoin(how), l', r'), multiset(rows))
  {
    hide JoinYields, RewrittenJoin, SameBags, GoodJoin, GoodKeys, HasBag;
    var a, b :| Yields(cat, l, a) && Yields(cat, r, b) && JoinYields(how, a, b, rows);
    KeysOf(cat, how, l, r, a, b);
    var a' := Permuted(cat, l, l', a);
    var b' := Permuted(cat, r, r', b);
    var hashed := JoinRewritten(how, a, b, rows);
    var moved := JoinFollows(RewrittenJoin(how), a, b, a', b', hashed);
    JoinOutput(cat, RewrittenJoin(how), l', r', a', b', moved);
  }

  lemma JoinBack(cat: Catalog, how: JoinMethod, l: Plan, r: Plan, l': Plan, r': Plan, rows: seq<Row>)
    requires SameBags(cat, l', l) && SameBags(cat, r', r) && GoodJoin(cat, how, l, r)
    requires Yields(cat, Join(RewrittenJoin(how), l', r'), rows)
    ensures HasBag(cat, Join(how, l, r), multiset(rows))
  {
    hide JoinYields, RewrittenJoin, SameBags, GoodJoin, GoodKeys, HasBag;
    var a', b' :| Yields(cat, l', a') && Yields(cat, r', b') && JoinYields(RewrittenJoin(how), a', b', rows);
    var a := Permuted(cat, l', l, a');
    var b := Permuted(cat, r', r, b');
    var hashed := JoinFollows(RewrittenJoin(how), a', b', a, b, rows);
    KeysOf(cat, how, l, r, a, b);
    var nested := JoinRewritten(how, a, b, hashed);
    JoinOutput(cat, how, l, r, a, b, nested);
  }

  lemma JoinBag(cat: Catalog, how: JoinMethod, l: Plan, r: Plan, l': Plan, r': Plan)
    requires SameBags(cat, l, l') && SameBags(cat, r, r') && GoodJoin(cat, how, l, r)
    ensures SameBags(cat, Join(how, l, r), Join(RewrittenJoin(how), l', r'))
  {
    SameBagsBack(cat, l, l');
    SameBagsBack(cat, r, r');
    forall rows | Yields(cat, Join(how, l, r), rows)
      ensures HasBag(cat, Join(RewrittenJoin(how), l', r'), multiset(rows))
    {
      JoinForward(cat, how, l, r, l', r', rows);
    }
    forall rows | Yields(cat, Join(RewrittenJoin(how), l', r'), rows)
      ensures HasBag(cat, Join(how, l, r), multiset(rows))
    {
      JoinBack(cat, how, l, r, l', r', rows);
    }
    hide Yields, RewrittenJoin, GoodJoin;
  }

  /** What an operator asks of the rows below if they may be permuted. */
  ghost predicate BearsOrder(op: Operator, a: seq<Row>) {
    && !op.Limit?
    && (op.Aggregation? && |op.aggregates| == |op.kinds| ==>
       G.KeysExact(A.Inputs(op.groupBys, op.aggregates, op.kinds, a)))
  }

  lemma AggregationFollows(groupBys: seq<Expr>, aggregates: seq<Expr>, kinds: seq<A.Kind>, a: seq<Row>, a': seq<Row>,
      rows: seq<Row>)
    requires multiset(a) == multiset(a') && AggregatedFrom(groupBys, aggregates, kinds, a, rows)
    requires G.KeysExact(A.Inputs(groupBys, aggregates, kinds, a))
    ensures AggregatedFrom(groupBys, aggregates, kinds, a', rows)
            && G.KeysExact(A.Inputs(groupBys, aggregates, kinds, a'))
  {
    hide A.Keyed, A.Shaped, G.KeysExact, A.InputOf;
    Members(a, a');
    A.InputsShaped(groupBys, aggregates, kinds, a');
    FlatMapPermuted(A.ToInput(groupBys, aggregates, kinds), a, a');
    var x, x' := A.Inputs(groupBys, aggregates, kinds, a), A.Inputs(groupBys, aggregates, kinds, a');
    var texts :| A.Keyed(x, kinds, |groupBys|, rows, texts);
    G.KeyedPermuted(x, x', kinds, |groupBys|, rows, texts);
  }

  lemma OperatorFollows(op: Operator, a: seq<Row>, a': seq<Row>, rows: seq<Row>) returns (rows': seq<Row>)
    requires multiset(a) == multiset(a') && OperatorYields(op, a, rows) && BearsOrder(op, a)
    ensures OperatorYields(op, a', rows') && multiset(rows) == multiset(rows')
  {
    rows' := rows;
    Members(a, a');
    match op
    case Aggregation(groupBys, aggregates, kinds) =>
      AggregationFollows(groupBys, aggregates, kinds, a, a', rows);
    case Sort(orders) =>
      assert |a| == |multiset(a)| == |multiset(a')| == |a'|;
    case Limit(n) =>
    case Projection(exprs) =>
      FlatMapPermuted(Projected(exprs), a, a');
      rows' := FlatMap(Projected(exprs), a');
  }

  lemma BearsOrderToo(op: Operator, a: seq<Row>, a': seq<Row>)
    requires multiset(a) == multiset(a') && BearsOrder(op, a)
    ensures BearsOrder(op, a')
  {
    if op.Aggregation? && |op.aggregates| == |op.kinds| {
      var f := A.ToInput(op.groupBys, op.aggregates, op.kinds);
      FlatMapPermuted(f, a, a');
      var x, x' := FlatMap(f, a), FlatMap(f, a');
      assert forall y :: y in x <==> y in multiset(x);
      assert forall y :: y in x' <==> y in multiset(x');
    }
  }

  lemma OperatorForward(cat: Catalog, op: Operator, c: Plan, c': Plan, rows: seq<Row>)
    requires SameBags(cat, c, c') && Yields(cat, Over(op, c), rows)
    requires forall a :: Yields(cat, c, a) ==> BearsOrder(op, a)
    ensures HasBag(cat, Over(op, c'), multiset(rows))
  {
    hide OperatorYields, SameBags, BearsOrder;
    var a :| Yields(cat, c, a) && OperatorYields(op, a, rows);
    var a' := Permuted(cat, c, c', a);
    var moved := OperatorFollows(op, a, a', rows);
    assert Yields(cat, Over(op, c'), moved);
  }

  lemma OperatorBag(cat: Catalog, op: Operator, c: Plan, c': Plan)
    requires SameBags(cat, c, c') && GoodOperator(cat, op, c)
    ensures SameBags(cat, Over(op, c), Over(op, c'))
  {
    SameBagsBack(cat, c, c');
    assert forall a :: Yields(cat, c, a) ==> BearsOrder(op, a);
    hide BearsOrder;
    forall a' | Yields(cat, c', a')
      ensures BearsOrder(op, a')
    {
      var a := Permuted(cat, c', c, a');
      BearsOrderToo(op, a, a');
    }
    forall rows | Yields(cat, Over(op, c), rows)
      ensures HasBag(cat, Over(op, c'), multiset(rows))
    {
      OperatorForward(cat, op, c, c', rows);
    }
    forall rows | Yields(cat, Over(op, c'), rows)
      ensures HasBag(cat, Over(op, c), multiset(rows))
    {
      OperatorForward(cat, op, c', c, rows);
    }
    hide Yields;
  }

  lemma SameRowsSameBags(cat: Catalog, p: Plan, q: Plan)
    requires SameRows(cat, p, q)
    ensures SameBags(cat, p, q)
  {
  }

  /** The optimized plan has the outputs of the plan, up to the order of rows. */
  lemma {:induction false} BagKept(cat: Catalog, p: Plan)
    requires Good(cat, p)
    ensures SameBags(cat, p, Optimized(cat, p))
  {
    hide GoodScan, GoodJoin, GoodOperator, RewrittenJoin, SameBags, SameRows, Yields;
    if KeepsOrder(p) {
      OrderKept(cat, p);
      SameRowsSameBags(cat, p, Optimized(cat, p));
    } else {
      match p
      case Join(how, l, r) =>
        BagKept(cat, l);
        BagKept(cat, r);
        JoinBag(cat, how, l, r, Optimized(cat, l), Optimized(cat, r));
      case Over(op, c) =>
        BagKept(cat, c);
        OperatorBag(cat, op, c, Optimized(cat, c));
    }
  }

  // ---------- a limit above a rewritten join ----------

  const OneTwo: seq<Row> := [[Int(1)], [Int(2)]]
  const TwoOne: seq<Row> := [[Int(2)], [Int(1)]]

  /** Two rows on each side, keys 1, 2 and 2, 1: the hash join starts with the other row. */
  lemma LimitSeesOrder(swapped: bool)
    ensures J.NestedRows(OneTwo, TwoOne, Some(J.ColumnsEqual(0, 0, swapped))) == [[Int(1), Int(1)], [Int(2), Int(2)]]
    ensures J.HashRows(OneTwo, TwoOne, Column(0, 0), Column(0, 0)) == [[Int(2), Int(2)], [Int(1), Int(1)]]
  {
    var pred := Some(J.ColumnsEqual(0, 0, swapped));
    forall l, r | l in OneTwo && r in TwoOne
      ensures J.Joined(pred)(l, r) == J.Keyed(Column(0, 0), Column(0, 0))(l, r) == if l == r then [l + r] else []
    {
      J.ColumnMatch(l, r, 0, 0, swapped);
      KeyAgreement(l[0], r[0]);
      IntIsNotNull(1);
      IntIsNotNull(2);
      assert Evaluate(Column(0, 0), l) == Some(l[0]) && Evaluate(Column(0, 0), r) == Some(r[0]);
    }
    hide J.Joined, J.Keyed;
    TwoByTwo(J.Joined(pred));
    TwoByTwo(J.Keyed(Column(0, 0), Column(0, 0)));
  }

  lemma TwoRows(f: Row -> seq<Row>, a: Row, b: Row)
    ensures FlatMap(f, [a, b]) == f(a) + f(b)
  {
    FlatMapConcat(f, [a], [b]);
    FlatMapSingle(f, a);
    FlatMapSingle(f, b);
    assert [a] + [b] == [a, b];
  }

  lemma TwoByTwo(g: (Row, Row) -> seq<Row>)
    requires forall l, r :: l in OneTwo && r in TwoOne ==> g(l, r) == if l == r then [l + r] else []
    ensures FlatMap(ByRow(g, TwoOne), OneTwo) == [[Int(1), Int(1)], [Int(2), Int(2)]]
    ensures FlatMap(ByColumn(g, OneTwo), TwoOne) == [[Int(2), Int(2)], [Int(1), Int(1)]]
  {
    var one, two := [Int(1)], [Int(2)];
    assert one in OneTwo && two in OneTwo && one in TwoOne && two in TwoOne && one != two;
    hide FlatMap;
    TwoRows(OnLeft(g, one), two, one);
    TwoRows(OnLeft(g, two), two, one);
    TwoRows(OnRight(g, one), one, two);
    TwoRows(OnRight(g, two), one, two);
    TwoRows(ByRow(g, TwoOne), one, two);
    TwoRows(ByColumn(g, OneTwo), two, one);
    assert one + one == [Int(1), Int(1)] && two + two == [Int(2), Int(2)];
  }
}
