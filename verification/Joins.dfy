/** The two join executors, and when one may replace the other. */
module Joins {
  import opened Common
  import opened Bags
  import opened Values
  import opened Expressions

  // ---------- the nested loops ----------

  /** What one pair of rows adds. */
  function Joined(pred: Option<Expr>): (Row, Row) -> seq<Row> {
    (l, r) => if Matches(pred, l, r) == Some(true) then [l + r] else []
  }

  /** The rows of the nested loops: left rows outside, right rows inside. */
  function NestedRows(left: seq<Row>, right: seq<Row>, pred: Option<Expr>): seq<Row> {
    FlatMap(ByRow(Joined(pred), right), left)
  }

  /** No pair of rows makes the predicate fail. */
  ghost predicate AllDefined(left: seq<Row>, right: seq<Row>, pred: Option<Expr>) {
    forall l, r :: l in left && r in right ==> Matches(pred, l, r).Some?
  }

  /** `NestedLoopJoinExecutor::Init`; nothing if an assertion fails on the way. */
  method NestedLoopJoin(left: seq<Row>, right: seq<Row>, pred: Option<Expr>) returns (rows: Option<seq<Row>>)
    ensures rows.Some? <==> AllDefined(left, right, pred)
    ensures rows.Some? ==> rows.value == NestedRows(left, right, pred)
  {
    hide Matches, FlatMap;
    FlatMapNone(ByRow(Joined(pred), right));
    var out := [];
    for i := 0 to |left|
      invariant out == NestedRows(left[..i], right, pred)
      invariant AllDefined(left[..i], right, pred)
    {
      ghost var before := out;
      FlatMapNone(OnLeft(Joined(pred), left[i]));
      for j := 0 to |right|
        invariant out == before + FlatMap(OnLeft(Joined(pred), left[i]), right[..j])
        invariant forall r :: r in right[..j] ==> Matches(pred, left[i], r).Some?
      {
        var match_ := Matches(pred, left[i], right[j]);
        if match_.None? {
          assert left[i] in left && right[j] in right;
          return None;
        }
        if match_.value {
          out := out + [left[i] + right[j]];
        }
        assert right[..j + 1] == right[..j] + [right[j]];
        FlatMapOneMore(OnLeft(Joined(pred), left[i]), right[..j], right[j]);
      }
      assert right[..|right|] == right && left[..i + 1] == left[..i] + [left[i]];
      FlatMapOneMore(ByRow(Joined(pred), right), left[..i], left[i]);
    }
    assert left[..|left|] == left;
    return Some(out);
  }

  // ---------- the hash table ----------

  /** The printed key of a row. */
  function KeyOf(key: Expr, row: Row): Option<string> {
    var v := Evaluate(key, row);
    if v.None? then None else Some(ToString(v.value))
  }

  ghost predicate KeysDefined(rows: seq<Row>, key: Expr) {
    forall r :: r in rows ==> KeyOf(key, r).Some?
  }

  function WithKey(key: Expr, text: string): Row -> seq<Row> {
    l => if KeyOf(key, l) == Some(text) then [l] else []
  }

  /** One bucket: the left rows with the given key, in their order. */
  function Bucket(left: seq<Row>, key: Expr, text: string): seq<Row> {
    FlatMap(WithKey(key, text), left)
  }

  /** What one pair of rows adds: the two printed keys decide. */
  function Keyed(leftKey: Expr, rightKey: Expr): (Row, Row) -> seq<Row> {
    (l, r) => if KeyOf(leftKey, l) == KeyOf(rightKey, r) then [l + r] else []
  }

  /** The rows of the hash join: right rows outside, the left rows of one bucket inside. */
  function HashRows(left: seq<Row>, right: seq<Row>, leftKey: Expr, rightKey: Expr): seq<Row> {
    FlatMap(ByColumn(Keyed(leftKey, rightKey), left), right)
  }

  /** The build phase: the table maps every printed key to its bucket. */
  method Build(left: seq<Row>, leftKey: Expr) returns (table: Option<map<string, seq<Row>>>)
    ensures table.Some? <==> KeysDefined(left, leftKey)
    ensures table.Some? ==> forall k :: (if k in table.value then table.value[k] else []) == Bucket(left, leftKey, k)
  {
    hide KeyOf, FlatMap;
    forall k ensures Bucket([], leftKey, k) == [] { FlatMapNone(WithKey(leftKey, k)); }
    var built: map<string, seq<Row>> := map[];
    for i := 0 to |left|
      invariant KeysDefined(left[..i], leftKey)
      invariant forall k :: (if k in built then built[k] else []) == Bucket(left[..i], leftKey, k)
    {
      var key := KeyOf(leftKey, left[i]);
      if key.None? {
        assert left[i] in left;
        return None;
      }
      forall k
        ensures Bucket(left[..i + 1], leftKey, k) == Bucket(left[..i], leftKey, k) + if k == key.value then [left[i]]
                else []
      {
        assert left[..i + 1] == left[..i] + [left[i]];
        FlatMapOneMore(WithKey(leftKey, k), left[..i], left[i]);
      }
      built := built[key.value := (if key.value in built then built[key.value] else []) + [left[i]]];
    }
    assert left[..|left|] == left;
    return Some(built);
  }

  function Followed(r: Row): Row -> seq<Row> {
    l => [l + r]
  }

  /** One bucket is read to the end for one right row. */
  method Probe(bucket: seq<Row>, r: Row, before: seq<Row>) returns (out: seq<Row>)
    ensures out == before + FlatMap(Followed(r), bucket)
  {
    out := before;
    for b := 0 to |bucket|
      invariant out == before + FlatMap(Followed(r), bucket[..b])
    {
      assert bucket[..b + 1] == bucket[..b] + [bucket[b]];
      FlatMapOneMore(Followed(r), bucket[..b], bucket[b]);
      out := out + [bucket[b] + r];
    }
    assert bucket[..|bucket|] == bucket;
  }

  /** Reading a bucket adds what going over all left rows with the same key would add. */
  lemma {:induction false} BucketRows(left: seq<Row>, leftKey: Expr, rightKey: Expr, r: Row)
    requires KeyOf(rightKey, r).Some?
    ensures FlatMap(Followed(r), Bucket(left, leftKey, KeyOf(rightKey, r).value))
            == ByColumn(Keyed(leftKey, rightKey), left)(r)
  {
    hide KeyOf;
    if left != [] {
      var front, l, text := left[..|left| - 1], left[|left| - 1], KeyOf(rightKey, r).value;
      BucketRows(front, leftKey, rightKey, r);
      assert left == front + [l];
      FlatMapOneMore(OnRight(Keyed(leftKey, rightKey), r), front, l);
      FlatMapOneMore(WithKey(leftKey, text), front, l);
      var bucket := Bucket(front, leftKey, text);
      if KeyOf(leftKey, l) == Some(text) {
        assert Bucket(left, leftKey, text) == bucket + [l];
        FlatMapOneMore(Followed(r), bucket, l);
      } else {
        assert Bucket(left, leftKey, text) == bucket + [] == bucket;
      }
    }
  }

  /** `HashJoinExecutor::Init`: build on the left side, probe with the right one. */
  method HashJoin(left: seq<Row>, right: seq<Row>, leftKey: Expr, rightKey: Expr) returns (rows: Option<seq<Row>>)
    ensures rows.Some? <==> KeysDefined(left, leftKey) && KeysDefined(right, rightKey)
    ensures rows.Some? ==> rows.value == HashRows(left, right, leftKey, rightKey)
  {
    hide KeyOf, Bucket;
    var table := Build(left, leftKey);
    if table.None? {
      return None;
    }
    var out := [];
    for j := 0 to |right|
      invariant KeysDefined(right[..j], rightKey) && out == HashRows(left, right[..j], leftKey, rightKey)
    {
      var key := KeyOf(rightKey, right[j]);
      if key.None? {
        assert right[j] in right;
        return None;
      }
      assert right[..j + 1] == right[..j] + [right[j]];
      FlatMapOneMore(ByColumn(Keyed(leftKey, rightKey), left), right[..j], right[j]);
      BucketRows(left, leftKey, rightKey, right[j]);
      out := Probe(if key.value in table.value then table.value[key.value] else [], right[j], out);
    }
    assert right[..|right|] == right;
    return Some(out);
  }

  // ---------- the two loops produce the same bag ----------

  /** The bag of joined rows depends on the bags of the two sides alone. */
  lemma PairsPermuted(g: (Row, Row) -> seq<Row>, left: seq<Row>, right: seq<Row>, left': seq<Row>, right': seq<Row>)
    requires multiset(left) == multiset(left') && multiset(right) == multiset(right')
    ensures multiset(FlatMap(ByRow(g, right), left)) == multiset(FlatMap(ByRow(g, right'), left'))
  {
    FlatMapPermuted(ByRow(g, right), left, left');
    forall l | l in left'
      ensures multiset(ByRow(g, right)(l)) == multiset(ByRow(g, right')(l))
    {
      FlatMapPermuted(OnLeft(g, l), right, right');
    }
    FlatMapAlike(ByRow(g, right), ByRow(g, right'), left');
  }

  lemma HashPermuted(left: seq<Row>, right: seq<Row>, left': seq<Row>, right': seq<Row>, leftKey: Expr, rightKey: Expr)
    requires multiset(left) == multiset(left') && multiset(right) == multiset(right')
    ensures multiset(HashRows(left, right, leftKey, rightKey)) == multiset(HashRows(left', right', leftKey, rightKey))
  {
    var h := Keyed(leftKey, rightKey);
    Exchange(h, left, right);
    Exchange(h, left', right');
    PairsPermuted(h, left, right, left', right');
  }

  /** On every pair of rows, the predicate holds exactly when the printed keys agree. */
  ghost predicate SameMatches(left: seq<Row>, right: seq<Row>, pred: Option<Expr>, leftKey: Expr, rightKey: Expr) {
    forall l, r :: l in left && r in right ==>
                   (Matches(pred, l, r) == Some(true) <==> KeyOf(leftKey, l) == KeyOf(rightKey, r))
  }

  /** The hash join gives a permutation of what the nested loops give, duplicates included. */
  lemma HashIsNested(left: seq<Row>, right: seq<Row>, pred: Option<Expr>, leftKey: Expr, rightKey: Expr)
    requires SameMatches(left, right, pred, leftKey, rightKey)
    ensures multiset(HashRows(left, right, leftKey, rightKey)) == multiset(NestedRows(left, right, pred))
  {
    hide Matches, KeyOf;
    var g, h := Joined(pred), Keyed(leftKey, rightKey);
    Exchange(h, left, right);
    forall l | l in left
      ensures multiset(ByRow(g, right)(l)) == multiset(ByRow(h, right)(l))
    {
      FlatMapAlike(OnLeft(g, l), OnLeft(h, l), right);
    }
    FlatMapAlike(ByRow(g, right), ByRow(h, right), left);
  }

  // ---------- equality of columns ----------

  /** `left.i = right.j`, written in either order. */
  function ColumnsEqual(i: nat, j: nat, swapped: bool): Expr {
    if swapped then Compare(Equal, Column(1, j), Column(0, i)) else Compare(Equal, Column(0, i), Column(1, j))
  }

  /** The keys exist and are of one type. */
  ghost predicate TypedKeys(left: seq<Row>, right: seq<Row>, i: nat, j: nat) {
    && (forall l :: l in left ==> i < |l|) && (forall r :: r in right ==> j < |r|)
    && forall l, r :: l in left && r in right ==>
         TypeOf(l[i]) == TypeOf(r[j]) && TypeOf(l[i]) != INVALID
  }

  /** No key of one side is taken for a different key of the other, or differently printed. */
  ghost predicate NoLookAlikes(left: seq<Row>, right: seq<Row>, i: nat, j: nat)
    requires TypedKeys(left, right, i, j)
  {
    forall l, r :: l in left && r in right ==> !LookAlike(l[i], r[j])
  }

  lemma ColumnMatch(l: Row, r: Row, i: nat, j: nat, swapped: bool)
    requires i < |l| && j < |r|
    ensures Matches(Some(ColumnsEqual(i, j, swapped)), l, r) == CompareEquals(l[i], r[j])
  {
    var e, a, b := ColumnsEqual(i, j, swapped), if swapped then r[j] else l[i], if swapped then l[i] else r[j];
    assert EvaluateJoin(Column(0, i), l, r) == Some(l[i]) && EvaluateJoin(Column(1, j), l, r) == Some(r[j]);
    assert EvaluateJoin(e, l, r) == AsValue(CompareEquals(a, b));
  }

  /** The rewrite from a nested loop join to a hash join keeps the bag of rows; under the guard on the
      keys neither of the two fails. */
  lemma JoinRewrite(left: seq<Row>, right: seq<Row>, i: nat, j: nat, swapped: bool)
    requires TypedKeys(left, right, i, j) && NoLookAlikes(left, right, i, j)
    ensures AllDefined(left, right, Some(ColumnsEqual(i, j, swapped)))
    ensures KeysDefined(left, Column(0, i)) && KeysDefined(right, Column(0, j))
    ensures multiset(HashRows(left, right, Column(0, i), Column(0, j)))
            == multiset(NestedRows(left, right, Some(ColumnsEqual(i, j, swapped))))
  {
    var pred := Some(ColumnsEqual(i, j, swapped));
    forall l, r | l in left && r in right
      ensures Matches(pred, l, r).Some?
              && (Matches(pred, l, r) == Some(true) <==> KeyOf(Column(0, i), l) == KeyOf(Column(0, j), r))
    {
      ColumnMatch(l, r, i, j, swapped);
      KeyAgreement(l[i], r[j]);
    }
    HashIsNested(left, right, pred, Column(0, i), Column(0, j));
  }

  /** A row is in the output exactly when a pair of rows puts it there. */
  lemma PairMember(g: (Row, Row) -> seq<Row>, left: seq<Row>, right: seq<Row>, x: Row)
    ensures x in FlatMap(ByRow(g, right), left) <==> exists l, r :: l in left && r in right && x in g(l, r)
  {
    FlatMapMember(ByRow(g, right), left, x);
    forall l
      ensures x in ByRow(g, right)(l) <==> exists r :: r in right && x in g(l, r)
    {
      FlatMapMember(OnLeft(g, l), right, x);
    }
  }

  /** For left rows of one width, the two joins give the same bag exactly when the predicate and the
      printed keys agree on every pair. */
  lemma JoinExact(left: seq<Row>, right: seq<Row>, pred: Option<Expr>, leftKey: Expr, rightKey: Expr, width: nat)
    requires forall l :: l in left ==> |l| == width
    ensures multiset(HashRows(left, right, leftKey, rightKey)) == multiset(NestedRows(left, right, pred))
            <==> SameMatches(left, right, pred, leftKey, rightKey)
  {
    hide Matches, KeyOf, FlatMap;
    if SameMatches(left, right, pred, leftKey, rightKey) {
      HashIsNested(left, right, pred, leftKey, rightKey);
    } else {
      var l, r :| l in left && r in right
        && !(Matches(pred, l, r) == Some(true) <==> KeyOf(leftKey, l) == KeyOf(rightKey, r));
      PairsDiffer(Joined(pred), Keyed(leftKey, rightKey), left, right, width, l, r);
      Exchange(Keyed(leftKey, rightKey), left, right);
    }
  }

  /** For left rows of one width and keys of one type, the rewrite keeps the bag of rows exactly when no
      two keys are look-alikes. */
  lemma JoinRewriteExact(left: seq<Row>, right: seq<Row>, i: nat, j: nat, width: nat, swapped: bool)
    requires TypedKeys(left, right, i, j) && forall l :: l in left ==> |l| == width
    ensures multiset(HashRows(left, right, Column(0, i), Column(0, j)))
            == multiset(NestedRows(left, right, Some(ColumnsEqual(i, j, swapped))))
            <==> NoLookAlikes(left, right, i, j)
  {
    hide LookAlike, TypeOf, FlatMap;
    var pred := Some(ColumnsEqual(i, j, swapped));
    JoinExact(left, right, pred, Column(0, i), Column(0, j), width);
    forall l, r | l in left && r in right
      ensures (Matches(pred, l, r) == Some(true) <==> KeyOf(Column(0, i), l) == KeyOf(Column(0, j), r)) <==>
              !LookAlike(l[i], r[j])
    {
      ColumnMatch(l, r, i, j, swapped);
      KeyAgreement(l[i], r[j]);
    }
    hide Matches, KeyOf, ColumnsEqual;
  }

  /** The same for FLOAT columns without nulls: the rewrite is safe exactly when no key of one side rounds
      to the hundredth of a different key of the other, and no two zeros differ in sign. */
  lemma FloatJoinExact(left: seq<Row>, right: seq<Row>, i: nat, j: nat, width: nat, swapped: bool)
    requires forall l: Row :: l in left ==> i < |l| == width && l[i].Float?
    requires forall r: Row :: r in right ==> j < |r| && r[j].Float?
    ensures multiset(HashRows(left, right, Column(0, i), Column(0, j)))
            == multiset(NestedRows(left, right, Some(ColumnsEqual(i, j, swapped))))
            <==> forall l, r :: l in left && r in right ==> !Confused(l[i], r[j])
  {
    hide Confused, HashRows, NestedRows;
    JoinRewriteExact(left, right, i, j, width, swapped);
  }

  /** Two joins that disagree on one pair of rows differ as bags. */
  lemma PairsDiffer(g: (Row, Row) -> seq<Row>, h: (Row, Row) -> seq<Row>, left: seq<Row>, right: seq<Row>, width: nat,
      l: Row, r: Row)
    requires forall x, y :: (g(x, y) == [] || g(x, y) == [x + y]) && (h(x, y) == [] || h(x, y) == [x + y])
    requires l in left && r in right && g(l, r) != h(l, r)
    requires forall x :: x in left ==> |x| == width
    ensures multiset(FlatMap(ByRow(g, right), left)) != multiset(FlatMap(ByRow(h, right), left))
  {
    hide FlatMap;
    OnePair(g, left, right, width, l, r);
    OnePair(h, left, right, width, l, r);
    assert l + r in multiset(FlatMap(ByRow(g, right), left)) <==> l + r !in multiset(FlatMap(ByRow(h, right), left));
  }

  lemma OnePair(g: (Row, Row) -> seq<Row>, left: seq<Row>, right: seq<Row>, width: nat, l: Row, r: Row)
    requires forall x, y :: g(x, y) == [] || g(x, y) == [x + y]
    requires l in left && r in right && forall x :: x in left ==> |x| == width
    ensures l + r in FlatMap(ByRow(g, right), left) <==> g(l, r) == [l + r]
  {
    PairMember(g, left, right, l + r);
    forall x, y | x in left && y in right && l + r in g(x, y)
      ensures x == l && y == r
    {
      assert x == (x + y)[..width] && l == (l + r)[..width];
      assert y == (x + y)[width..] && r == (l + r)[width..];
    }
  }

  /** One row of one column on each side: the two joins differ on look-alikes. */
  lemma LookAlikesDiffer(a: Value, b: Value, swapped: bool)
    requires TypeOf(a) == TypeOf(b) && TypeOf(a) != INVALID && LookAlike(a, b)
    ensures multiset(HashRows([[a]], [[b]], Column(0, 0), Column(0, 0)))
            != multiset(NestedRows([[a]], [[b]], Some(ColumnsEqual(0, 0, swapped))))
  {
    hide FlatMap, LookAlike, TypeOf;
    assert [a] in [[a]] && [b] in [[b]];
    JoinRewriteExact([[a]], [[b]], 0, 0, 1, swapped);
  }

  /** 2^-10 and 2^-9 both print as 0.00 and are joined; -0.0 and 0.0 are equal and are not. */
  lemma FloatKeysDiffer(swapped: bool)
    ensures var a, b := Float(false, 1.0 / 1024.0), Float(false, 1.0 / 512.0);
            multiset(HashRows([[a]], [[b]], Column(0, 0), Column(0, 0)))
            != multiset(NestedRows([[a]], [[b]], Some(ColumnsEqual(0, 0, swapped))))
    ensures var a, b := Float(true, 0.0), Float(false, 0.0);
            multiset(HashRows([[a]], [[b]], Column(0, 0), Column(0, 0)))
            != multiset(NestedRows([[a]], [[b]], Some(ColumnsEqual(0, 0, swapped))))
  {
    FloatsConfused();
    hide Hundredths, Confused;
    LookAlikesDiffer(Float(false, 1.0 / 1024.0), Float(false, 1.0 / 512.0), swapped);
    LookAlikesDiffer(Float(true, 0.0), Float(false, 0.0), swapped);
  }

  /** A null of type INTEGER, as a constant in a projection yields it, compares equal to 0. */
  lemma NullKeysDiffer(swapped: bool)
    ensures multiset(HashRows([[Null(INTEGER)]], [[Int(0)]], Column(0, 0), Column(0, 0)))
            != multiset(NestedRows([[Null(INTEGER)]], [[Int(0)]], Some(ColumnsEqual(0, 0, swapped))))
  {
    LookAlikesDiffer(Null(INTEGER), Int(0), swapped);
  }
}
