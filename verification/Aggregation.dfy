/** Hash aggregation: a table from printed group keys to accumulators. */
module Aggregation {
  import opened Common
  import opened Bags
  import opened Values
  import opened Expressions

  datatype Kind = CountStar | Count | Sum | Min | Max

  /** One set of accumulators per group: aggregates of the same kind share theirs. */
  datatype AggState = AggState(
    groupValues: Row, countStar: int, count: int, sum: int, least: int, greatest: int,
    hasSum: bool, hasMin: bool, hasMax: bool)

  const Fresh := AggState([], 0, 0, 0, 0x7fff_ffff, -0x8000_0000, false, false, false)

  /** What one row of the child contributes. */
  datatype Input = Input(group: Row, args: Row)

  /** Signed 32-bit counters wrap around. */
  function Wrap32(i: int): int {
    (i + 0x8000_0000) % 0x1_0000_0000 - 0x8000_0000
  }

  function KeyText(values: Row): string {
    if values == [] then "" else KeyText(values[..|values| - 1]) + ToString(values[|values| - 1]) + "|"
  }

  /** `GetAsInteger` is not reached by counts and nulls. */
  predicate Summable(kind: Kind, v: Value) {
    kind.CountStar? || kind.Count? || v.Null? || v.Int?
  }

  predicate AllSummable(kinds: seq<Kind>, args: Row)
    requires |kinds| == |args|
  {
    forall i :: 0 <= i < |kinds| ==> Summable(kinds[i], args[i])
  }

  function Number(v: Value): int {
    if v.Int? then v.i else 0
  }

  function AddValue(s: AggState, kind: Kind, v: Value): AggState {
    if v.Null? then s
    else
      match kind
      case CountStar => s
      case Count => s.(count := Wrap32(s.count + 1))
      case Sum => s.(sum := Wrap32(s.sum + Number(v)), hasSum := true)
      case Min => if !s.hasMin || Number(v) < s.least then s.(least := Number(v), hasMin := true) else s
      case Max => if !s.hasMax || Number(v) > s.greatest then s.(greatest := Number(v), hasMax := true) else s
  }

  function AddArgs(s: AggState, kinds: seq<Kind>, args: Row): AggState
    requires |kinds| == |args|
  {
    if kinds == [] then s
    else AddValue(AddArgs(s, kinds[..|kinds| - 1], args[..|args| - 1]), kinds[|kinds| - 1], args[|args| - 1])
  }

  /** The group values are those of the first row, and of every row that finds the counter at zero. */
  function Enter(s: AggState, group: Row): AggState {
    s.(groupValues := if s.countStar == 0 then group else s.groupValues, countStar := Wrap32(s.countStar + 1))
  }

  function AddInput(s: AggState, kinds: seq<Kind>, x: Input): AggState
    requires |kinds| == |x.args|
  {
    AddArgs(Enter(s, x.group), kinds, x.args)
  }

  function ResultOf(s: AggState, kind: Kind): Value {
    match kind
    case CountStar => Int(s.countStar)
    case Count => Int(s.count)
    case Sum => Int(if s.hasSum then s.sum else 0)
    case Min => Int(if s.hasMin then s.least else 0)
    case Max => Int(if s.hasMax then s.greatest else 0)
  }

  function StateRow(s: AggState, kinds: seq<Kind>): (row: Row)
    ensures |row| == |s.groupValues| + |kinds|
  {
    s.groupValues + seq(|kinds|, i requires 0 <= i < |kinds| => ResultOf(s, kinds[i]))
  }

  // ---------- the executor ----------

  function InputOf(groupBys: seq<Expr>, aggregates: seq<Expr>, kinds: seq<Kind>, row: Row): Option<Input>
    requires |aggregates| == |kinds|
  {
    var group, args := EvaluateAll(groupBys, row), EvaluateAll(aggregates, row);
    if group.None? || args.None? || !AllSummable(kinds, args.value) then None else Some(Input(group.value, args.value))
  }

  ghost predicate AllInputs(groupBys: seq<Expr>, aggregates: seq<Expr>, kinds: seq<Kind>, rows: seq<Row>)
    requires |aggregates| == |kinds|
  {
    forall r :: r in rows ==> InputOf(groupBys, aggregates, kinds, r).Some?
  }

  function ToInput(groupBys: seq<Expr>, aggregates: seq<Expr>, kinds: seq<Kind>): Row -> seq<Input>
    requires |aggregates| == |kinds|
  {
    r => var x := InputOf(groupBys, aggregates, kinds, r); if x.None? then [] else [x.value]
  }

  function Inputs(groupBys: seq<Expr>, aggregates: seq<Expr>, kinds: seq<Kind>, rows: seq<Row>): seq<Input>
    requires |aggregates| == |kinds|
  {
    FlatMap(ToInput(groupBys, aggregates, kinds), rows)
  }

  predicate Shaped(inputs: seq<Input>, kinds: seq<Kind>, width: nat) {
    forall x :: x in inputs ==> |x.group| == width && |x.args| == |kinds|
  }

  /** The accumulators of one printed key. */
  function Fold(inputs: seq<Input>, kinds: seq<Kind>, text: string): AggState
    requires forall x :: x in inputs ==> |x.args| == |kinds|
  {
    if inputs == [] then Fresh
    else
      var s, x := Fold(inputs[..|inputs| - 1], kinds, text), inputs[|inputs| - 1];
      if KeyText(x.group) == text then AddInput(s, kinds, x) else s
  }

  ghost predicate IsText(inputs: seq<Input>, width: nat, text: string) {
    (width == 0 && text == "") || exists x :: x in inputs && KeyText(x.group) == text
  }

  /** One row per printed key; without group-by columns there is one row even for no input. */
  ghost predicate Keyed(inputs: seq<Input>, kinds: seq<Kind>, width: nat, out: seq<Row>, texts: seq<string>)
    requires Shaped(inputs, kinds, width)
  {
    && NoRepeats(texts) && |out| == |texts|
    && (forall t :: t in texts <==> IsText(inputs, width, t))
    && forall k :: 0 <= k < |out| ==> out[k] == StateRow(Fold(inputs, kinds, texts[k]), kinds)
  }

  lemma InputsShaped(groupBys: seq<Expr>, aggregates: seq<Expr>, kinds: seq<Kind>, rows: seq<Row>)
    requires |aggregates| == |kinds|
    ensures Shaped(Inputs(groupBys, aggregates, kinds, rows), kinds, |groupBys|)
  {
    forall x | x in Inputs(groupBys, aggregates, kinds, rows)
      ensures |x.group| == |groupBys| && |x.args| == |kinds|
    {
      FlatMapMember(ToInput(groupBys, aggregates, kinds), rows, x);
    }
  }

  method GroupKey(groupBys: seq<Expr>, row: Row) returns (group: Option<Row>, text: string)
    ensures group == EvaluateAll(groupBys, row)
    ensures group.Some? ==> text == KeyText(group.value)
  {
    var values: Row := [];
    text := "";
    for i := 0 to |groupBys|
      invariant EvaluateAll(groupBys[..i], row) == Some(values) && text == KeyText(values)
    {
      assert groupBys[..i + 1][..i] == groupBys[..i];
      var v := Evaluate(groupBys[i], row);
      if v.None? {
        NothingFrom(groupBys, row, i);
        return None, "";
      }
      assert (values + [v.value])[..|values|] == values;
      text := text + ToString(v.value) + "|";
      values := values + [v.value];
    }
    assert groupBys[..|groupBys|] == groupBys;
    return Some(values), text;
  }

  lemma {:induction false} NothingFrom(exprs: seq<Expr>, row: Row, i: nat)
    requires i < |exprs| && Evaluate(exprs[i], row).None?
    ensures EvaluateAll(exprs, row).None?
  {
    if i < |exprs| - 1 { NothingFrom(exprs[..|exprs| - 1], row, i); }
  }

  lemma {:induction false} ValueAt(exprs: seq<Expr>, row: Row, i: nat)
    requires i < |exprs| && EvaluateAll(exprs, row).Some?
    ensures Evaluate(exprs[i], row) == Some(EvaluateAll(exprs, row).value[i])
  {
    if i < |exprs| - 1 { ValueAt(exprs[..|exprs| - 1], row, i); }
  }

  /** One row reaches the accumulators of its group, one aggregate after the other. */
  method AddRow(s: AggState, aggregates: seq<Expr>, kinds: seq<Kind>, row: Row)
      returns (t: Option<AggState>, ghost args: Row)
    requires |aggregates| == |kinds|
    ensures t.Some? ==>
            EvaluateAll(aggregates, row) == Some(args) && AllSummable(kinds, args) && t.value == AddArgs(s, kinds, args)
    ensures t.None? ==> EvaluateAll(aggregates, row).None? || !AllSummable(kinds, EvaluateAll(aggregates, row).value)
  {
    hide AddValue;
    var state := s;
    args := [];
    for i := 0 to |aggregates|
      invariant EvaluateAll(aggregates[..i], row) == Some(args) && |args| == i && AllSummable(kinds[..i], args)
      invariant state == AddArgs(s, kinds[..i], args)
    {
      assert aggregates[..i + 1][..i] == aggregates[..i] && kinds[..i + 1][..i] == kinds[..i];
      var v := Evaluate(aggregates[i], row);
      if v.None? {
        NothingFrom(aggregates, row, i);
        return None, args;
      }
      if !Summable(kinds[i], v.value) {
        if EvaluateAll(aggregates, row).Some? { ValueAt(aggregates, row, i); }
        return None, args;
      }
      assert (args + [v.value])[..i] == args;
      state := AddValue(state, kinds[i], v.value);
      args := args + [v.value];
    }
    assert aggregates[..|aggregates|] == aggregates && kinds[..|kinds|] == kinds;
    return Some(state), args;
  }

  method RowOf(s: AggState, kinds: seq<Kind>) returns (row: Row)
    ensures row == StateRow(s, kinds)
  {
    row := s.groupValues;
    for i := 0 to |kinds|
      invariant row == StateRow(s, kinds[..i])
    {
      row := row + [ResultOf(s, kinds[i])];
    }
    assert kinds[..|kinds|] == kinds;
  }

  /** The first loop of `AggregationExecutor::Init`. */
  method Accumulate(rows: seq<Row>, groupBys: seq<Expr>, aggregates: seq<Expr>, kinds: seq<Kind>)
    returns (groups: Option<map<string, AggState>>)
    requires |aggregates| == |kinds|
    ensures groups.Some? <==> AllInputs(groupBys, aggregates, kinds, rows)
    ensures groups.Some? ==>
              var inputs := Inputs(groupBys, aggregates, kinds, rows);
              && Shaped(inputs, kinds, |groupBys|)
              && (forall t :: t in groups.value <==> exists x :: x in inputs && KeyText(x.group) == t)
              && (forall t :: t in groups.value ==> groups.value[t] == Fold(inputs, kinds, t))
  {
    hide FlatMap, AddArgs, KeyText, EvaluateAll, AllSummable, Fold, Enter;
    NothingFolded(kinds);
    ghost var f := ToInput(groupBys, aggregates, kinds);
    FlatMapNone(f);
    var states: map<string, AggState> := map[];
    ghost var inputs: seq<Input> := [];
    for i := 0 to |rows|
      invariant AllInputs(groupBys, aggregates, kinds, rows[..i])
      invariant inputs == FlatMap(f, rows[..i]) && Shaped(inputs, kinds, |groupBys|)
      invariant forall t :: t in states <==> exists x :: x in inputs && KeyText(x.group) == t
      invariant forall t :: Fold(inputs, kinds, t) == if t in states then states[t] else Fresh
    {
      var group, text := GroupKey(groupBys, rows[i]);
      if group.None? {
        assert rows[i] in rows;
        return None;
      }
      var s := if text in states then states[text] else Fresh;
      var t, args := AddRow(Enter(s, group.value), aggregates, kinds, rows[i]);
      if t.None? {
        assert rows[i] in rows;
        return None;
      }
      ghost var x := Input(group.value, args);
      assert InputOf(groupBys, aggregates, kinds, rows[i]) == Some(x);
      assert rows[..i + 1] == rows[..i] + [rows[i]];
      FlatMapOneMore(f, rows[..i], rows[i]);
      FoldOneMore(inputs, kinds, x);
      states := states[text := t.value];
      inputs := inputs + [x];
    }
    assert rows[..|rows|] == rows;
    return Some(states);
  }

  /** The last loop: the keys of the table in no particular order. */
  method Emit(groups: map<string, AggState>, kinds: seq<Kind>) returns (out: seq<Row>, ghost texts: seq<string>)
    ensures NoRepeats(texts) && |out| == |texts| && forall t :: t in texts <==> t in groups
    ensures forall k :: 0 <= k < |out| ==> out[k] == StateRow(groups[texts[k]], kinds)
  {
    hide StateRow;
    var todo := groups;
    out, texts := [], [];
    while |todo| > 0
      invariant NoRepeats(texts) && |out| == |texts|
      invariant forall t :: t in groups <==> t in texts || t in todo
      invariant forall t :: t in todo ==> t !in texts && todo[t] == groups[t]
      invariant forall k :: 0 <= k < |out| ==> texts[k] in groups && out[k] == StateRow(groups[texts[k]], kinds)
      decreases |todo|
    {
      var text :| text in todo;
      var row := RowOf(todo[text], kinds);
      out, texts := out + [row], texts + [text];
      todo := todo - {text};
    }
  }

  /** Said of the expressions: a row has an input when it has all its group values and arguments, and what is
      to be summed or compared is an integer or null. */
  lemma {:induction false} InputsSucceed(groupBys: seq<Expr>, aggregates: seq<Expr>, kinds: seq<Kind>, row: Row)
    requires |aggregates| == |kinds|
    ensures InputOf(groupBys, aggregates, kinds, row).Some? <==>
            && (forall e :: e in groupBys ==> Evaluate(e, row).Some?)
            && forall i :: 0 <= i < |aggregates| ==>
                 && Evaluate(aggregates[i], row).Some?
                 && (kinds[i] == Sum || kinds[i] == Min || kinds[i] == Max ==>
                       Evaluate(aggregates[i], row).value.Null? || Evaluate(aggregates[i], row).value.Int?)
  {
    AllOrNothing(groupBys, row);
    AllOrNothing(aggregates, row);
    if EvaluateAll(aggregates, row).Some? {
      forall i | 0 <= i < |aggregates|
        ensures Evaluate(aggregates[i], row) == Some(EvaluateAll(aggregates, row).value[i])
      {
        ValueAt(aggregates, row, i);
      }
    }
  }

  lemma {:induction false} AllOrNothing(exprs: seq<Expr>, row: Row)
    ensures EvaluateAll(exprs, row).Some? <==> forall e :: e in exprs ==> Evaluate(e, row).Some?
  {
    if exprs != [] {
      var front, last := exprs[..|exprs| - 1], exprs[|exprs| - 1];
      AllOrNothing(front, row);
      assert exprs == front + [last] && last in exprs;
      assert forall e :: e in front ==> e in exprs;
    }
  }

  /** The input of each row, in the order of the rows: its group values and its arguments. */
  lemma {:induction false} InputsInOrder(groupBys: seq<Expr>, aggregates: seq<Expr>, kinds: seq<Kind>, rows: seq<Row>)
    requires |aggregates| == |kinds| && AllInputs(groupBys, aggregates, kinds, rows)
    ensures var inputs := Inputs(groupBys, aggregates, kinds, rows);
            && |inputs| == |rows|
            && forall k :: 0 <= k < |rows| ==>
                 && |inputs[k].group| == |groupBys| && |inputs[k].args| == |aggregates|
                 && (forall i :: 0 <= i < |groupBys| ==> Evaluate(groupBys[i], rows[k]) == Some(inputs[k].group[i]))
                 && (forall i :: 0 <= i < |aggregates| ==> Evaluate(aggregates[i], rows[k]) == Some(inputs[k].args[i]))
  {
    if rows != [] {
      var front, last := rows[..|rows| - 1], rows[|rows| - 1];
      assert last in rows;
      InputsInOrder(groupBys, aggregates, kinds, front);
      forall i | 0 <= i < |groupBys|
        ensures Evaluate(groupBys[i], last) == Some(EvaluateAll(groupBys, last).value[i])
      {
        ValueAt(groupBys, last, i);
      }
      forall i | 0 <= i < |aggregates|
        ensures Evaluate(aggregates[i], last) == Some(EvaluateAll(aggregates, last).value[i])
      {
        ValueAt(aggregates, last, i);
      }
    }
  }

  /** `AggregationExecutor::Init`; nothing if an assertion fails on the way. */
  method Init(rows: seq<Row>, groupBys: seq<Expr>, aggregates: seq<Expr>, kinds: seq<Kind>)
    returns (out: Option<seq<Row>>, ghost texts: seq<string>)
    requires |aggregates| == |kinds|
    ensures out.Some? <==> AllInputs(groupBys, aggregates, kinds, rows)
    ensures out.Some? ==>
              var inputs := Inputs(groupBys, aggregates, kinds, rows);
              Shaped(inputs, kinds, |groupBys|) && Keyed(inputs, kinds, |groupBys|, out.value, texts)
  {
    ghost var inputs := Inputs(groupBys, aggregates, kinds, rows);
    hide FlatMap, StateRow, Fold, ToInput, InputOf;
    var groups := Accumulate(rows, groupBys, aggregates, kinds);
    if groups.None? {
      return None, [];
    }
    if rows == [] && groupBys == [] {
      var row := NoRows(kinds);
      FlatMapNone(ToInput(groupBys, aggregates, kinds));
      assert inputs == [];
      NothingFolded(kinds);
      return Some([row]), [""];
    }
    var result, keys := Emit(groups.value, kinds);
    TextsAreKeys(groupBys, aggregates, kinds, rows);
    return Some(result), keys;
  }

  lemma NothingFolded(kinds: seq<Kind>)
    ensures forall t :: Fold([], kinds, t) == Fresh
  {
  }

  lemma FoldOneMore(inputs: seq<Input>, kinds: seq<Kind>, x: Input)
    requires |x.args| == |kinds| && forall y :: y in inputs ==> |y.args| == |kinds|
    ensures forall t ::
            Fold(inputs + [x], kinds, t) == if KeyText(x.group) == t then AddInput(Fold(inputs, kinds, t), kinds, x)
            else Fold(inputs, kinds, t)
  {
    assert (inputs + [x])[..|inputs|] == inputs;
  }

  /** Unless there is nothing to group, the texts of the theorem are those of the table. */
  lemma TextsAreKeys(groupBys: seq<Expr>, aggregates: seq<Expr>, kinds: seq<Kind>, rows: seq<Row>)
    requires |aggregates| == |kinds| && AllInputs(groupBys, aggregates, kinds, rows) && (rows != [] || groupBys != [])
    ensures var inputs := Inputs(groupBys, aggregates, kinds, rows);
            forall t :: IsText(inputs, |groupBys|, t) <==> exists x :: x in inputs && KeyText(x.group) == t
  {
    var inputs := Inputs(groupBys, aggregates, kinds, rows);
    InputsShaped(groupBys, aggregates, kinds, rows);
    if groupBys == [] {
      assert rows[0] in rows;
      var x := InputOf(groupBys, aggregates, kinds, rows[0]).value;
      FlatMapMember(ToInput(groupBys, aggregates, kinds), rows, x);
      assert x in inputs && x.group == [];
    }
  }

  /** The single row for no input and no group-by columns. */
  method NoRows(kinds: seq<Kind>) returns (row: Row)
    ensures row == StateRow(Fresh, kinds)
  {
    row := [];
    for i := 0 to |kinds|
      invariant row == StateRow(Fresh, kinds[..i])
    {
      row := row + [Int(0)];
    }
    assert kinds[..|kinds|] == kinds;
  }
}
