/** Relational grouping, and when the hash aggregation computes it. */
module Grouping {
  import opened Common
  import opened Bags
  import opened Values
  import opened Expressions
  import opened Aggregation

  // ---------- what grouping means ----------

  function Belongs(): (Row, Input) -> seq<Input> {
    (g: Row, x: Input) => if x.group == g then [x] else []
  }

  function OfGroup(g: Row): Input -> seq<Input> {
    OnLeft(Belongs(), g)
  }

  /** The input rows of one group. */
  function Members(inputs: seq<Input>, g: Row): seq<Input> {
    FlatMap(OfGroup(g), inputs)
  }

  /** What a value adds to an aggregate of its kind: a null nothing, and a value that is only counted a 0. */
  function NumberIf(kind: Kind, kind': Kind, v: Value): seq<int> {
    if kind != kind' then []
    else
      match v
      case Null(_) => []
      case Int(i) => [i]
      case _ => [0]
  }

  function ArgOf(g: Row, kind: Kind, i: nat): Input -> seq<int> {
    (x: Input) => if x.group == g && i < |x.args| then NumberIf(kind, kind, x.args[i]) else []
  }

  /** The arguments of aggregate `i` that are not null, over one group. */
  function Arguments(inputs: seq<Input>, g: Row, kind: Kind, i: nat): seq<int> {
    FlatMap(ArgOf(g, kind, i), inputs)
  }

  predicate Least(m: int, ns: seq<int>) {
    m in ns && forall n :: n in ns ==> m <= n
  }

  predicate Greatest(m: int, ns: seq<int>) {
    m in ns && forall n :: n in ns ==> n <= m
  }

  /** The value of an aggregate over `size` rows with the given arguments; over none it is 0. */
  predicate Correct(kind: Kind, size: nat, ns: seq<int>, v: Value) {
    v.Int? &&
    match kind
    case CountStar => v.i == Wrap32(size)
    case Count => v.i == Wrap32(|ns|)
    case Sum => v.i == Wrap32(SumOf(ns))
    case Min => if ns == [] then v.i == 0 else Least(v.i, ns)
    case Max => if ns == [] then v.i == 0 else Greatest(v.i, ns)
  }

  ghost predicate IsGroup(inputs: seq<Input>, width: nat, g: Row) {
    (width == 0 && g == []) || exists x :: x in inputs && x.group == g
  }

  predicate RowCorrect(inputs: seq<Input>, kinds: seq<Kind>, g: Row, row: Row) {
    && |row| == |g| + |kinds| && row[..|g|] == g
    && forall i :: 0 <= i < |kinds| ==>
                   Correct(kinds[i], |Members(inputs, g)|, Arguments(inputs, g, kinds[i], i), row[|g| + i])
  }

  /** One correct row for every distinct tuple of group values. */
  ghost predicate GroupedBy(inputs: seq<Input>, kinds: seq<Kind>, width: nat, out: seq<Row>, groups: seq<Row>) {
    && NoRepeats(groups) && |groups| == |out|
    && (forall g :: g in groups <==> IsGroup(inputs, width, g))
    && forall k :: 0 <= k < |out| ==> RowCorrect(inputs, kinds, groups[k], out[k])
  }

  /** Group values that print alike are the same. */
  ghost predicate KeysExact(inputs: seq<Input>) {
    forall x, y :: x in inputs && y in inputs && KeyText(x.group) == KeyText(y.group) ==> x.group == y.group
  }

  predicate OncePerKind(kinds: seq<Kind>) {
    forall i, j :: 0 <= i < j < |kinds| && kinds[i] == kinds[j] ==> kinds[i].CountStar?
  }

  // ---------- what the accumulators hold ----------

  /** The arguments of all aggregates of one kind. */
  function NumbersOf(kinds: seq<Kind>, kind: Kind, args: Row): seq<int>
    requires |kinds| == |args|
  {
    if kinds == [] then []
    else NumbersOf(kinds[..|kinds| - 1], kind, args[..|args| - 1])
         + NumberIf(kind, kinds[|kinds| - 1], args[|args| - 1])
  }

  function PoolOf(kinds: seq<Kind>, kind: Kind, text: string): Input -> seq<int> {
    (x: Input) => if KeyText(x.group) == text && |kinds| == |x.args| then NumbersOf(kinds, kind, x.args) else []
  }

  function OfKey(text: string): Input -> seq<Input> {
    (x: Input) => if KeyText(x.group) == text then [x] else []
  }

  predicate Holds(s: AggState, kind: Kind, ns: seq<int>) {
    match kind
    case CountStar => true
    case Count => s.count == Wrap32(|ns|)
    case Sum => s.sum == Wrap32(SumOf(ns)) && (s.hasSum <==> ns != [])
    case Min => (s.hasMin <==> ns != []) && (ns != [] ==> Least(s.least, ns))
    case Max => (s.hasMax <==> ns != []) && (ns != [] ==> Greatest(s.greatest, ns))
  }

  /** A counter of 32 bits: in range, and off by a multiple of 2^32. */
  lemma Wrapped(i: int)
    ensures -2147483648 <= Wrap32(i) <= 2147483647
    ensures exists k :: Wrap32(i) == i + 4294967296 * k
    ensures -2147483648 <= i <= 2147483647 ==> Wrap32(i) == i
  {
    assert Wrap32(i) == i + 4294967296 * -((i + 0x8000_0000) / 0x1_0000_0000);
  }

  lemma WrapStep(a: int, b: int)
    ensures Wrap32(Wrap32(a) + b) == Wrap32(a + b)
  {
  }

  lemma {:induction false} AddValueHolds(s: AggState, k: Kind, v: Value, kind: Kind, ns: seq<int>)
    requires Holds(s, kind, ns)
    ensures Holds(AddValue(s, k, v), kind, ns + NumberIf(kind, k, v))
  {
    if k == kind && !v.Null? {
      var n := if v.Int? then v.i else 0;
      assert Number(v) == n && NumberIf(kind, k, v) == [n];
      hide Number, NumberIf, Holds;
      OneNumberMore(s, kind, v, n, ns);
    } else {
      assert ns + [] == ns;
      hide Wrap32, SumOf, Least, Greatest, Number;
    }
  }

  lemma {:induction false} OneNumberMore(s: AggState, kind: Kind, v: Value, n: int, ns: seq<int>)
    requires Holds(s, kind, ns) && !v.Null? && Number(v) == n
    ensures Holds(AddValue(s, kind, v), kind, ns + [n])
  {
    hide Number, Wrap32, SumOf, Least, Greatest;
    SumOneMore(ns, n);
    WrapStep(|ns|, 1);
    WrapStep(SumOf(ns), n);
    LeastOneMore(s, ns, n);
    assert ns == [] ==> ns + [n] == [n];
  }

  lemma {:induction false} LeastOneMore(s: AggState, ns: seq<int>, n: int)
    ensures Least(n, [n]) && Greatest(n, [n])
    ensures Least(s.least, ns) ==> Least(if n < s.least then n else s.least, ns + [n])
    ensures Greatest(s.greatest, ns) ==> Greatest(if n > s.greatest then n else s.greatest, ns + [n])
  {
    assert n in ns + [n];
  }

  lemma {:induction false} AddArgsHolds(s: AggState, kinds: seq<Kind>, args: Row, kind: Kind, ns: seq<int>)
    requires |kinds| == |args| && Holds(s, kind, ns)
    ensures Holds(AddArgs(s, kinds, args), kind, ns + NumbersOf(kinds, kind, args))
    ensures AddArgs(s, kinds, args).countStar == s.countStar && AddArgs(s, kinds, args).groupValues == s.groupValues
  {
    hide Holds;
    if kinds == [] {
      assert ns + [] == ns;
    } else {
      var n := |kinds| - 1;
      var front := NumbersOf(kinds[..n], kind, args[..n]);
      AddArgsHolds(s, kinds[..n], args[..n], kind, ns);
      AddValueHolds(AddArgs(s, kinds[..n], args[..n]), kinds[n], args[n], kind, ns + front);
      assert ns + (front + NumberIf(kind, kinds[n], args[n])) == (ns + front) + NumberIf(kind, kinds[n], args[n]);
    }
  }

  /** All aggregates of one kind feed one accumulator. */
  lemma {:induction false} FoldHolds(inputs: seq<Input>, kinds: seq<Kind>, text: string, kind: Kind)
    requires forall x :: x in inputs ==> |x.args| == |kinds|
    ensures Holds(Fold(inputs, kinds, text), kind, FlatMap(PoolOf(kinds, kind, text), inputs))
    ensures Fold(inputs, kinds, text).countStar == Wrap32(|FlatMap(OfKey(text), inputs)|)
  {
    hide KeyText, AddArgs, NumbersOf, FlatMap;
    var pool, key := PoolOf(kinds, kind, text), OfKey(text);
    if inputs == [] {
      FlatMapNone(pool);
      FlatMapNone(key);
    } else {
      var front, x := inputs[..|inputs| - 1], inputs[|inputs| - 1];
      assert inputs == front + [x] && x in inputs;
      FoldHolds(front, kinds, text, kind);
      FlatMapOneMore(pool, front, x);
      FlatMapOneMore(key, front, x);
      if KeyText(x.group) == text {
        AddArgsHolds(Enter(Fold(front, kinds, text), x.group), kinds, x.args, kind, FlatMap(pool, front));
        WrapStep(|FlatMap(key, front)|, 1);
      } else {
        assert FlatMap(pool, front) + [] == FlatMap(pool, front);
      }
    }
  }

  /** The group values of a key are those of one of its rows. */
  lemma {:induction false} FoldGroup(inputs: seq<Input>, kinds: seq<Kind>, text: string)
    requires forall x :: x in inputs ==> |x.args| == |kinds|
    ensures var s := Fold(inputs, kinds, text);
            if exists x :: x in inputs && KeyText(x.group) == text
            then exists x :: x in inputs && KeyText(x.group) == text && x.group == s.groupValues
            else s == Fresh
  {
    hide KeyText, AddArgs;
    if inputs != [] {
      var front, x := inputs[..|inputs| - 1], inputs[|inputs| - 1];
      FoldGroup(front, kinds, text);
      assert forall y :: y in inputs <==> y in front || y == x;
      if KeyText(x.group) == text {
        var s := Enter(Fold(front, kinds, text), x.group);
        AddArgsHolds(s, kinds, x.args, CountStar, []);
      }
    }
  }

  /** What an output row shows in column `i`: the aggregate of the arguments of all columns of its kind. */
  lemma {:induction false} ShownValue(inputs: seq<Input>, kinds: seq<Kind>, text: string, i: nat)
    requires i < |kinds| && forall x :: x in inputs ==> |x.args| == |kinds|
    ensures var s := Fold(inputs, kinds, text);
            Correct(kinds[i], |FlatMap(OfKey(text), inputs)|, FlatMap(PoolOf(kinds, kinds[i], text), inputs),
              StateRow(s, kinds)[|s.groupValues| + i])
  {
    FoldHolds(inputs, kinds, text, kinds[i]);
    var s := Fold(inputs, kinds, text);
    assert StateRow(s, kinds)[|s.groupValues| + i] == ResultOf(s, kinds[i]);
    hide StateRow, FlatMap, Fold, PoolOf, OfKey, Wrap32, SumOf, Least, Greatest;
  }

  lemma {:induction false} OneColumn(kinds: seq<Kind>, args: Row, i: nat)
    requires |kinds| == |args| && i < |kinds| && !kinds[i].CountStar?
    requires forall j :: 0 <= j < |kinds| && kinds[j] == kinds[i] ==> j == i
    ensures NumbersOf(kinds, kinds[i], args) == NumberIf(kinds[i], kinds[i], args[i])
  {
    var n := |kinds| - 1;
    NoNumber(kinds[i], kinds[n], args[n]);
    hide NumberIf;
    if i < n {
      assert kinds[n] != kinds[i];
      OneColumn(kinds[..n], args[..n], i) by {
        assert forall j :: 0 <= j < n ==> kinds[..n][j] == kinds[j];
      }
    } else {
      NoColumn(kinds[..n], args[..n], kinds[i]);
    }
  }

  lemma NoNumber(kind: Kind, kind': Kind, v: Value)
    ensures kind != kind' ==> NumberIf(kind, kind', v) == []
  {
  }

  lemma {:induction false} NoColumn(kinds: seq<Kind>, args: Row, kind: Kind)
    requires |kinds| == |args| && kind !in kinds
    ensures NumbersOf(kinds, kind, args) == []
  {
    if kinds != [] {
      var n := |kinds| - 1;
      NoColumn(kinds[..n], args[..n], kind);
    }
  }

  // ---------- exactness ----------

  lemma RowOfGroup(inputs: seq<Input>, kinds: seq<Kind>, g: Row)
    requires (forall x :: x in inputs ==> |x.args| == |kinds|) && OncePerKind(kinds)
    requires forall x :: x in inputs ==> (KeyText(x.group) == KeyText(g) <==> x.group == g)
    requires Fold(inputs, kinds, KeyText(g)).groupValues == g
    ensures RowCorrect(inputs, kinds, g, StateRow(Fold(inputs, kinds, KeyText(g)), kinds))
  {
    var text := KeyText(g);
    FlatMapSame(OfKey(text), OfGroup(g), inputs);
    forall i | 0 <= i < |kinds|
      ensures Correct(kinds[i], |Members(inputs, g)|, Arguments(inputs, g, kinds[i], i),
              StateRow(Fold(inputs, kinds, text), kinds)[|g| + i])
    {
      ShownValue(inputs, kinds, text, i);
      if !kinds[i].CountStar? {
        forall x | x in inputs
          ensures PoolOf(kinds, kinds[i], text)(x) == ArgOf(g, kinds[i], i)(x)
        {
          OneColumn(kinds, x.args, i);
        }
        FlatMapSame(PoolOf(kinds, kinds[i], text), ArgOf(g, kinds[i], i), inputs);
      }
    }
  }

  lemma ValuesOfText(inputs: seq<Input>, kinds: seq<Kind>, width: nat, text: string)
    requires Shaped(inputs, kinds, width) && IsText(inputs, width, text)
    ensures var g := Fold(inputs, kinds, text).groupValues;
            |g| == width && KeyText(g) == text && IsGroup(inputs, width, g)
  {
    FoldGroup(inputs, kinds, text);
    hide Fold;
    if width == 0 && text == "" {
      assert Fold(inputs, kinds, text).groupValues == [];
    }
  }

  function GroupsOf(inputs: seq<Input>, kinds: seq<Kind>, texts: seq<string>): (groups: seq<Row>)
    requires forall x :: x in inputs ==> |x.args| == |kinds|
    ensures |groups| == |texts|
    ensures forall k :: 0 <= k < |texts| ==> groups[k] == Fold(inputs, kinds, texts[k]).groupValues
  {
    seq(|texts|, k requires 0 <= k < |texts| => Fold(inputs, kinds, texts[k]).groupValues)
  }

  lemma KeyedIsGrouped(inputs: seq<Input>, kinds: seq<Kind>, width: nat, out: seq<Row>, texts: seq<string>)
    requires Shaped(inputs, kinds, width) && Keyed(inputs, kinds, width, out, texts)
    requires OncePerKind(kinds) && KeysExact(inputs)
    ensures GroupedBy(inputs, kinds, width, out, GroupsOf(inputs, kinds, texts))
  {
    hide Fold, StateRow, RowCorrect, KeyText;
    var groups := GroupsOf(inputs, kinds, texts);
    forall k | 0 <= k < |out|
      ensures IsGroup(inputs, width, groups[k]) && KeyText(groups[k]) == texts[k]
              && RowCorrect(inputs, kinds, groups[k], out[k])
    {
      assert texts[k] in texts;
      ValuesOfText(inputs, kinds, width, texts[k]);
      if width == 0 && groups[k] == [] {
        RowOfGroup(inputs, kinds, groups[k]);
      } else {
        RowOfGroup(inputs, kinds, groups[k]);
      }
    }
    forall g | IsGroup(inputs, width, g)
      ensures g in groups
    {
      assert IsText(inputs, width, KeyText(g)) by {
        NoValuesNoText();
      }
      var k :| 0 <= k < |texts| && texts[k] == KeyText(g);
      assert groups[k] == g;
    }
  }

  lemma NoValuesNoText()
    ensures KeyText([]) == ""
  {
  }

  /** Rows of a correct grouping have distinct texts, for they have the texts of the table. */
  lemma GroupedIsKeysExact(inputs: seq<Input>, kinds: seq<Kind>, width: nat, out: seq<Row>, texts: seq<string>,
      groups: seq<Row>)
    requires Shaped(inputs, kinds, width) && Keyed(inputs, kinds, width, out, texts)
    requires GroupedBy(inputs, kinds, width, out, groups)
    ensures KeysExact(inputs)
  {
    hide Fold, KeyText, Correct, Members, Arguments;
    forall k | 0 <= k < |out|
      ensures KeyText(groups[k]) == texts[k]
    {
      assert texts[k] in texts;
      ValuesOfText(inputs, kinds, width, texts[k]);
      assert groups[k] in groups && |groups[k]| == width;
      assert RowCorrect(inputs, kinds, groups[k], out[k]);
      assert out[k][..width] == groups[k] && out[k][..width] == Fold(inputs, kinds, texts[k]).groupValues;
    }
    forall x, y | x in inputs && y in inputs && KeyText(x.group) == KeyText(y.group)
      ensures x.group == y.group
    {
      assert x.group in groups && y.group in groups;
    }
  }

  /** With no two columns of one kind other than COUNT(*), hash aggregation is grouping exactly when group
      values that print alike are the same. */
  lemma AggregationExact(inputs: seq<Input>, kinds: seq<Kind>, width: nat, out: seq<Row>, texts: seq<string>)
    requires Shaped(inputs, kinds, width) && Keyed(inputs, kinds, width, out, texts) && OncePerKind(kinds)
    ensures (exists groups :: GroupedBy(inputs, kinds, width, out, groups)) <==> KeysExact(inputs)
  {
    hide GroupedBy, KeysExact, Keyed;
    if KeysExact(inputs) {
      KeyedIsGrouped(inputs, kinds, width, out, texts);
    }
    forall groups | GroupedBy(inputs, kinds, width, out, groups)
      ensures KeysExact(inputs)
    {
      GroupedIsKeysExact(inputs, kinds, width, out, texts, groups);
    }
  }

  // ---------- which keys are exact ----------

  predicate PlainKeys(values: Row, types: seq<TypeId>) {
    |values| == |types| && forall i ::
      0 <= i < |values| ==> TypeOf(values[i]) == types[i] && (types[i].INTEGER? || types[i].BOOLEAN?)
  }

  /** An INTEGER or a BOOLEAN prints without a bar, and differently from any other of its type. */
  lemma PlainText(a: Value, b: Value)
    requires TypeOf(a) == TypeOf(b) && (TypeOf(a).INTEGER? || TypeOf(a).BOOLEAN?)
    ensures '|' !in ToString(a) && (ToString(a) == ToString(b) ==> a == b)
  {
    if a.Int? {
      IntIsNotNull(a.i);
      assert forall c :: c in ToString(a) ==> c == '-' || c in Digits;
    }
    if b.Int? { IntIsNotNull(b.i); }
    if a.Int? && b.Int? && ToString(a) == ToString(b) { PrintIntInjective(a.i, b.i); }
  }

  lemma LastField(p: string, s: string, q: string, t: string)
    requires p + s + "|" == q + t + "|" && '|' !in s && '|' !in t
    requires (p == "" || p[|p| - 1] == '|') && (q == "" || q[|q| - 1] == '|')
    ensures p == q && s == t
  {
    var w := p + s + "|";
    assert w == q + t + "|";
    assert forall k :: |p| <= k < |w| - 1 ==> w[k] == s[k - |p|];
    assert forall k :: |q| <= k < |w| - 1 ==> w[k] == t[k - |q|];
    assert p != "" ==> w[|p| - 1] == '|';
    assert q != "" ==> w[|q| - 1] == '|';
    assert |p| == |q|;
    assert p == w[..|p|] && q == w[..|q|];
    assert s == w[|p|..|w| - 1] && t == w[|q|..|w| - 1];
  }

  lemma TextEnds(values: Row)
    ensures var p := KeyText(values); p == "" || p[|p| - 1] == '|'
  {
  }

  lemma {:induction false} PlainKeysPrintApart(a: Row, b: Row, types: seq<TypeId>)
    requires PlainKeys(a, types) && PlainKeys(b, types) && KeyText(a) == KeyText(b)
    ensures a == b
  {
    hide ToString, TypeOf;
    if types != [] {
      var n := |types| - 1;
      PlainText(a[n], b[n]);
      PlainText(b[n], a[n]);
      TextEnds(a[..n]);
      TextEnds(b[..n]);
      LastField(KeyText(a[..n]), ToString(a[n]), KeyText(b[..n]), ToString(b[n]));
      assert a == a[..n] + [a[n]] && b == b[..n] + [b[n]];
      PlainKeysPrintApart(a[..n], b[..n], types[..n]);
    }
  }

  /** VARCHAR columns are not: a bar inside a value looks like the end of one. */
  lemma BarsCollide()
    ensures !KeysExact([Input([Str("a|b"), Str("c")], []), Input([Str("a"), Str("b|c")], [])])
  {
    var x, y := Input([Str("a|b"), Str("c")], []), Input([Str("a"), Str("b|c")], []);
    NoValuesNoText();
    assert x.group[..1] == [Str("a|b")] && y.group[..1] == [Str("a")] && x.group[..1][..0] == []
      && y.group[..1][..0] == [];
    assert KeyText(x.group[..1]) == "a|b|" && KeyText(y.group[..1]) == "a|";
    assert KeyText(x.group) == "a|b|c|" == KeyText(y.group);
    assert x in [x, y] && y in [x, y];
  }

  /** INTEGER and BOOLEAN columns are exact keys. */
  lemma PlainKeysExact(inputs: seq<Input>, types: seq<TypeId>)
    requires forall x :: x in inputs ==> PlainKeys(x.group, types)
    ensures KeysExact(inputs)
  {
    forall x, y | x in inputs && y in inputs && KeyText(x.group) == KeyText(y.group)
      ensures x.group == y.group
    {
      PlainKeysPrintApart(x.group, y.group, types);
    }
  }

  // ---------- conservation ----------

  lemma {:induction false} OneHome(groups: seq<Row>, x: Input)
    requires NoRepeats(groups)
    ensures FlatMap(OnRight(Belongs(), x), groups) == if x.group in groups then [x] else []
  {
    if groups != [] {
      var front, last := groups[..|groups| - 1], groups[|groups| - 1];
      assert groups == front + [last] && NoRepeats(front) && last !in front;
      OneHome(front, x);
      FlatMapOneMore(OnRight(Belongs(), x), front, last);
    }
  }

  /** Every input row is in exactly one group. */
  lemma GroupsPartition(inputs: seq<Input>, groups: seq<Row>)
    requires NoRepeats(groups) && forall x :: x in inputs ==> x.group in groups
    ensures multiset(FlatMap(ByRow(Belongs(), inputs), groups)) == multiset(inputs)
  {
    Exchange(Belongs(), groups, inputs);
    forall x | x in inputs
      ensures ByColumn(Belongs(), groups)(x) == [x]
    {
      OneHome(groups, x);
    }
    FlatMapIdentity(ByColumn(Belongs(), groups), inputs);
  }

  function Column(out: seq<Row>, c: nat): seq<int> {
    seq(|out|, k requires 0 <= k < |out| => if c < |out[k]| && out[k][c].Int? then out[k][c].i else 0)
  }

  /** The COUNT(*) column of a grouping adds up to the number of input rows. */
  lemma CountsAddUp(inputs: seq<Input>, kinds: seq<Kind>, width: nat, out: seq<Row>, groups: seq<Row>, i: nat)
    requires Shaped(inputs, kinds, width) && GroupedBy(inputs, kinds, width, out, groups)
    requires i < |kinds| && kinds[i].CountStar? && |inputs| < 0x8000_0000
    ensures SumOf(Column(out, width + i)) == |inputs|
  {
    hide FlatMap, SumOf;
    GroupsPartition(inputs, groups);
    var f := ByRow(Belongs(), inputs);
    assert |FlatMap(f, groups)| == |multiset(FlatMap(f, groups))| == |multiset(inputs)| == |inputs|;
    SizesAddUp(f, groups);
    forall k | 0 <= k < |out|
      ensures Column(out, width + i)[k] == Sizes(f, groups)[k]
    {
      assert groups[k] in groups && |groups[k]| == width && RowCorrect(inputs, kinds, groups[k], out[k]);
      AtMostAll(OfGroup(groups[k]), inputs);
      assert f(groups[k]) == Members(inputs, groups[k]);
    }
    assert Column(out, width + i) == Sizes(f, groups);
  }

  lemma {:induction false} AtMostAll(f: Input -> seq<Input>, inputs: seq<Input>)
    requires forall x :: |f(x)| <= 1
    ensures |FlatMap(f, inputs)| <= |inputs|
  {
    if inputs != [] { AtMostAll(f, inputs[..|inputs| - 1]); }
  }

  // ---------- the order of the input plays no part ----------

  lemma CorrectOnce(kind: Kind, size: nat, ns: seq<int>, ms: seq<int>, v: Value, w: Value)
    requires multiset(ns) == multiset(ms) && Correct(kind, size, ns, v) && Correct(kind, size, ms, w)
    ensures v == w
  {
    hide Wrap32;
    SumPermuted(ns, ms);
    assert |ns| == |multiset(ns)| == |multiset(ms)| == |ms|;
    assert forall n :: n in ns <==> n in multiset(ns);
    assert forall n :: n in ms <==> n in multiset(ms);
  }

  lemma RowOnce(a: seq<Input>, b: seq<Input>, kinds: seq<Kind>, g: Row, r: Row, q: Row)
    requires multiset(a) == multiset(b) && RowCorrect(a, kinds, g, r) && RowCorrect(b, kinds, g, q)
    ensures r == q
  {
    hide Correct, FlatMap;
    FlatMapPermuted(OfGroup(g), a, b);
    var size := |Members(a, g)|;
    assert size == |multiset(Members(a, g))| == |multiset(Members(b, g))| == |Members(b, g)|;
    forall k | 0 <= k < |r|
      ensures r[k] == q[k]
    {
      if k < |g| {
        assert r[k] == r[..|g|][k] && q[k] == q[..|g|][k];
      } else {
        var i := k - |g|;
        FlatMapPermuted(ArgOf(g, kinds[i], i), a, b);
        CorrectOnce(kinds[i], size, Arguments(a, g, kinds[i], i), Arguments(b, g, kinds[i], i), r[|g| + i], q[|g| + i]);
      }
    }
  }

  lemma GroupedSubset(a: seq<Input>, b: seq<Input>, kinds: seq<Kind>, width: nat, out: seq<Row>, groups: seq<Row>,
      out': seq<Row>, groups': seq<Row>)
    requires multiset(a) == multiset(b)
    requires GroupedBy(a, kinds, width, out, groups) && GroupedBy(b, kinds, width, out', groups')
    ensures forall r :: r in out ==> r in out'
  {
    hide RowCorrect;
    assert forall x :: x in a <==> x in multiset(a);
    assert forall x :: x in b <==> x in multiset(b);
    forall k | 0 <= k < |out|
      ensures out[k] in out'
    {
      assert groups[k] in groups && IsGroup(b, width, groups[k]);
      var j :| 0 <= j < |groups'| && groups'[j] == groups[k];
      RowOnce(a, b, kinds, groups[k], out[k], out'[j]);
    }
  }

  lemma GroupedRowsDistinct(inputs: seq<Input>, kinds: seq<Kind>, width: nat, out: seq<Row>, groups: seq<Row>)
    requires Shaped(inputs, kinds, width) && GroupedBy(inputs, kinds, width, out, groups)
    ensures NoRepeats(out)
  {
    hide Correct;
    forall k | 0 <= k < |out|
      ensures |out[k]| >= width && out[k][..width] == groups[k]
    {
      assert groups[k] in groups && RowCorrect(inputs, kinds, groups[k], out[k]);
    }
  }

  /** Two groupings of permuted inputs are permutations of each other. */
  lemma GroupedPermuted(a: seq<Input>, b: seq<Input>, kinds: seq<Kind>, width: nat, out: seq<Row>, groups: seq<Row>,
      out': seq<Row>, groups': seq<Row>)
    requires multiset(a) == multiset(b) && Shaped(a, kinds, width) && Shaped(b, kinds, width)
    requires GroupedBy(a, kinds, width, out, groups) && GroupedBy(b, kinds, width, out', groups')
    ensures multiset(out) == multiset(out')
  {
    GroupedRowsDistinct(a, kinds, width, out, groups);
    GroupedRowsDistinct(b, kinds, width, out', groups');
    GroupedSubset(a, b, kinds, width, out, groups, out', groups');
    GroupedSubset(b, a, kinds, width, out', groups', out, groups);
    SameElements(out, out');
  }

  lemma SameValues(a: seq<Input>, b: seq<Input>, kinds: seq<Kind>, text: string)
    requires multiset(a) == multiset(b) && KeysExact(a)
    requires forall x :: x in a || x in b ==> |x.args| == |kinds|
    ensures Fold(a, kinds, text).groupValues == Fold(b, kinds, text).groupValues
  {
    hide Fold, KeyText;
    assert forall x :: x in a <==> x in multiset(a);
    assert forall x :: x in b <==> x in multiset(b);
    FoldGroup(a, kinds, text);
    FoldGroup(b, kinds, text);
  }

  lemma FoldPermuted(a: seq<Input>, b: seq<Input>, kinds: seq<Kind>, width: nat, text: string)
    requires multiset(a) == multiset(b) && Shaped(a, kinds, width) && Shaped(b, kinds, width) && KeysExact(a)
    ensures StateRow(Fold(a, kinds, text), kinds) == StateRow(Fold(b, kinds, text), kinds)
  {
    hide Fold, Correct, FlatMap, KeyText;
    var s, t := Fold(a, kinds, text), Fold(b, kinds, text);
    var r, q := StateRow(s, kinds), StateRow(t, kinds);
    SameValues(a, b, kinds, text);
    FlatMapPermuted(OfKey(text), a, b);
    var m, n := FlatMap(OfKey(text), a), FlatMap(OfKey(text), b);
    assert |m| == |multiset(m)| == |multiset(n)| == |n|;
    forall k | 0 <= k < |kinds|
      ensures ResultOf(s, kinds[k]) == ResultOf(t, kinds[k])
    {
      FlatMapPermuted(PoolOf(kinds, kinds[k], text), a, b);
      ShownValue(a, kinds, text, k);
      ShownValue(b, kinds, text, k);
      CorrectOnce(kinds[k], |m|, FlatMap(PoolOf(kinds, kinds[k], text), a), FlatMap(PoolOf(kinds, kinds[k], text), b),
                  r[|s.groupValues| + k], q[|t.groupValues| + k]);
    }
  }

  /** If the keys are exact, a permuted input may give the very same output. */
  lemma KeyedPermuted(a: seq<Input>, b: seq<Input>, kinds: seq<Kind>, width: nat, out: seq<Row>, texts: seq<string>)
    requires multiset(a) == multiset(b) && Shaped(a, kinds, width) && Shaped(b, kinds, width) && KeysExact(a)
    requires Keyed(a, kinds, width, out, texts)
    ensures Keyed(b, kinds, width, out, texts) && KeysExact(b)
  {
    hide Fold, StateRow, KeyText;
    assert forall x :: x in a <==> x in multiset(a);
    assert forall x :: x in b <==> x in multiset(b);
    forall k | 0 <= k < |texts|
      ensures StateRow(Fold(a, kinds, texts[k]), kinds) == StateRow(Fold(b, kinds, texts[k]), kinds)
    {
      FoldPermuted(a, b, kinds, width, texts[k]);
    }
  }

  // ---------- two columns of one kind ----------

  /** Whatever the input, hash aggregation of these columns is grouping if the keys are exact. */
  ghost predicate AlwaysGroups(kinds: seq<Kind>) {
    forall inputs, width, out, texts ::
      Shaped(inputs, kinds, width) && Keyed(inputs, kinds, width, out, texts) && KeysExact(inputs) ==>
        exists groups :: GroupedBy(inputs, kinds, width, out, groups)
  }

  /** Exactly the lists of columns that use no kind twice, COUNT(*) aside, are computed. */
  lemma {:induction false} OncePerKindExact(kinds: seq<Kind>)
    ensures AlwaysGroups(kinds) <==> OncePerKind(kinds)
  {
    hide Keyed, KeysExact, GroupedBy, Shaped;
    if OncePerKind(kinds) {
      forall inputs, width, out, texts | Shaped(inputs, kinds, width) && Keyed(inputs, kinds, width, out, texts)
        && KeysExact(inputs)
        ensures exists groups :: GroupedBy(inputs, kinds, width, out, groups)
      {
        AggregationExact(inputs, kinds, width, out, texts);
      }
    } else {
      var i, j :| 0 <= i < j < |kinds| && kinds[i] == kinds[j] && !kinds[i].CountStar?;
      SharedAccumulator(kinds, i, j);
    }
  }

  function OneArgument(n: nat, i: nat): Row {
    seq(n, k => if k == i then Int(1) else Null(INTEGER))
  }

  lemma {:induction false} PooledArgument(kinds: seq<Kind>, i: nat, kind: Kind)
    ensures var ns := NumbersOf(kinds, kind, OneArgument(|kinds|, i));
            if i < |kinds| && kinds[i] == kind then OnlyOne(ns) else ns == []
  {
    if kinds != [] {
      var n := |kinds| - 1;
      var args := OneArgument(|kinds|, i);
      assert args[..n] == OneArgument(n, i);
      PooledArgument(kinds[..n], i, kind);
      assert NumberIf(kind, kinds[n], args[n]) == if i == n && kinds[n] == kind then [1] else [];
      assert NumbersOf(kinds, kind, args)
          == NumbersOf(kinds[..n], kind, args[..n]) + NumberIf(kind, kinds[n], args[n]);
      hide NumberIf, NumbersOf, OneArgument;
    }
  }

  predicate OnlyOne(ns: seq<int>) {
    |ns| == 1 && ns[0] == 1
  }

  lemma {:induction false} OneOrNothing(kind: Kind, size: nat, ns: seq<int>, v: Value)
    requires !kind.CountStar? && Correct(kind, size, ns, v)
    ensures OnlyOne(ns) ==> v == Int(1)
    ensures ns == [] ==> v == Int(0)
  {
    if OnlyOne(ns) {
      assert SumOf(ns) == SumOf(ns[..0]) + 1;
    }
  }

  function OneRow(kinds: seq<Kind>, i: nat): Input {
    Input([], OneArgument(|kinds|, i))
  }

  /** One row with one argument that is not null: the other column of the kind shows it too. */
  lemma {:induction false} SharedValue(kinds: seq<Kind>, i: nat, j: nat)
    requires i < j < |kinds| && kinds[i] == kinds[j] && !kinds[i].CountStar?
    ensures var s := Fold([OneRow(kinds, i)], kinds, ""); s.groupValues == [] && StateRow(s, kinds)[j] == Int(1)
  {
    var x := OneRow(kinds, i);
    var s := Fold([x], kinds, "");
    FoldGroup([x], kinds, "") by {
      NoValuesNoText();
    }
    assert s.groupValues == [];
    PooledArgument(kinds, i, kinds[j]);
    FlatMapSingle(PoolOf(kinds, kinds[j], ""), x);
    ShownValue([x], kinds, "", j);
    OneOrNothing(kinds[j], |FlatMap(OfKey(""), [x])|, FlatMap(PoolOf(kinds, kinds[j], ""), [x]), StateRow(s, kinds)[j]);
  }

  lemma {:induction false} SharedRowWrong(kinds: seq<Kind>, i: nat, j: nat, row: Row)
    requires i < j < |kinds| == |row| && kinds[i] == kinds[j] && !kinds[i].CountStar? && row[j] == Int(1)
    ensures !RowCorrect([OneRow(kinds, i)], kinds, [], row)
  {
    hide Correct, Members, FlatMap;
    var x, none: Row := OneRow(kinds, i), [];
    FlatMapSingle(ArgOf(none, kinds[j], j), x);
    assert Arguments([x], none, kinds[j], j) == [];
    assert row[|none| + j] == row[j];
    if RowCorrect([x], kinds, none, row) {
      OneOrNothing(kinds[j], |Members([x], none)|, [], row[j]);
    }
  }

  /** That input is grouped wrongly. */
  lemma {:induction false} SharedAccumulator(kinds: seq<Kind>, i: nat, j: nat)
    requires i < j < |kinds| && kinds[i] == kinds[j] && !kinds[i].CountStar?
    ensures !AlwaysGroups(kinds)
  {
    hide Fold, StateRow, KeyText, RowCorrect;
    var x := OneRow(kinds, i);
    var row := StateRow(Fold([x], kinds, ""), kinds);
    SharedValue(kinds, i, j);
    SharedRowWrong(kinds, i, j, row);
    NoValuesNoText();
    assert Keyed([x], kinds, 0, [row], [""]);
    forall groups
      ensures !GroupedBy([x], kinds, 0, [row], groups)
    {
      OnlyGroup([x], kinds, row, groups);
    }
  }

  lemma OnlyGroup(inputs: seq<Input>, kinds: seq<Kind>, row: Row, groups: seq<Row>)
    ensures GroupedBy(inputs, kinds, 0, [row], groups) ==>
            RowCorrect(inputs, kinds, groups[0], row) && groups[0] in groups
  {
  }

  /** Two columns of one kind over 1 and over 2, without any null: one of them is wrong, whatever the kind. */
  lemma {:induction false} SharedSample(kind: Kind, row: Row)
    requires !kind.CountStar?
    requires row == StateRow(Fold([Input([], [Int(1), Int(2)])], [kind, kind], ""), [kind, kind])
    ensures !RowCorrect([Input([], [Int(1), Int(2)])], [kind, kind], [], row)
  {
    var x, kinds, none: Row := Input([], [Int(1), Int(2)]), [kind, kind], [];
    SampleRow(kind, row);
    FlatMapSingle(ArgOf(none, kind, 0), x);
    FlatMapSingle(ArgOf(none, kind, 1), x);
    assert Arguments([x], none, kind, 0) == [1] && Arguments([x], none, kind, 1) == [2];
    hide Members, Arguments, FlatMap, Correct;
    TwoColumns([x], kinds, row);
    SingleArgument(kind, |Members([x], none)|, 1, row[0]);
    SingleArgument(kind, |Members([x], none)|, 2, row[1]);
  }

  lemma TwoColumns(inputs: seq<Input>, kinds: seq<Kind>, row: Row)
    requires |kinds| == 2 == |row|
    ensures var none: Row := [];
            RowCorrect(inputs, kinds, none, row) ==>
              && Correct(kinds[0], |Members(inputs, none)|, Arguments(inputs, none, kinds[0], 0), row[0])
              && Correct(kinds[1], |Members(inputs, none)|, Arguments(inputs, none, kinds[1], 1), row[1])
  {
    var none: Row := [];
    assert row[|none| + 0] == row[0] && row[|none| + 1] == row[1];
  }

  lemma SingleArgument(kind: Kind, size: nat, n: int, v: Value)
    requires !kind.CountStar? && 0 <= n < 0x8000_0000
    ensures Correct(kind, size, [n], v) ==> v == Int(if kind.Count? then 1 else n)
  {
    assert [n][..0] == [] && SumOf([n]) == n;
  }

  lemma {:induction false} FoldTwo(kind: Kind)
    ensures Fold([Input([], [Int(1), Int(2)])], [kind, kind], "")
            == AddValue(AddValue(Enter(Fresh, []), kind, Int(1)), kind, Int(2))
  {
    hide AddValue, Enter;
    var x, kinds := Input([], [Int(1), Int(2)]), [kind, kind];
    NoValuesNoText();
    TwoArguments(Enter(Fresh, []), kind, Int(1), Int(2));
    FoldOneMore([], kinds, x);
    assert [] + [x] == [x] && Fold([], kinds, "") == Fresh;
    hide Fold, AddArgs;
  }

  /** Both columns show the aggregate of 1 and 2. */
  lemma {:induction false} SampleRow(kind: Kind, row: Row)
    requires !kind.CountStar?
    requires row == StateRow(Fold([Input([], [Int(1), Int(2)])], [kind, kind], ""), [kind, kind])
    ensures |row| == 2 && row[0] == row[1]
    ensures row[0] == match kind case Count => Int(2) case Sum => Int(3) case Min => Int(1) case _ => Int(2)
  {
    hide Fold, Wrap32;
    FoldTwo(kind);
    SmallWraps(1);
    SmallWraps(2);
    SmallWraps(3);
    SmallWraps(0);
  }

  lemma SmallWraps(n: nat)
    requires n < 0x8000_0000
    ensures Wrap32(n) == n
  {
  }

  lemma TwoArguments(s: AggState, kind: Kind, v: Value, w: Value)
    ensures AddArgs(s, [kind, kind], [v, w]) == AddValue(AddValue(s, kind, v), kind, w)
  {
    hide AddValue;
    assert [kind, kind][..1] == [kind] && [v, w][..1] == [v] && [kind][..0] == [] && [v][..0] == [];
    assert AddArgs(s, [kind], [v]) == AddValue(AddArgs(s, [kind][..0], [v][..0]), kind, v);
  }
}
