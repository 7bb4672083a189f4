/** Sequential and index scans over one table, and when they agree. */
module Scans {
  import opened Common
  import opened Bags
  import opened Values
  import opened Expressions

  /** A live tuple of a table heap. */
  datatype Record = Record(rid: RID, row: Row)

  predicate UniqueRids(records: seq<Record>) {
    forall i, j :: 0 <= i < j < |records| ==> records[i].rid != records[j].rid
  }

  // ---------- sequential scan ----------

  function Kept(pred: Option<Expr>): Record -> seq<Row> {
    (x: Record) => if Passes(pred, x.row) == Some(true) then [x.row] else []
  }

  ghost predicate AllPass(records: seq<Record>, pred: Option<Expr>) {
    forall x :: x in records ==> Passes(pred, x.row).Some?
  }

  function ScanRows(records: seq<Record>, pred: Option<Expr>): seq<Row> {
    FlatMap(Kept(pred), records)
  }

  /** `SeqScanExecutor` read to its end; nothing if an assertion fails on the way. */
  method SeqScan(records: seq<Record>, pred: Option<Expr>) returns (rows: Option<seq<Row>>)
    ensures rows.Some? <==> AllPass(records, pred)
    ensures rows.Some? ==> rows.value == ScanRows(records, pred)
  {
    hide FlatMap, Passes;
    FlatMapNone(Kept(pred));
    var out := [];
    for i := 0 to |records|
      invariant AllPass(records[..i], pred) && out == ScanRows(records[..i], pred)
    {
      assert records[..i + 1] == records[..i] + [records[i]];
      FlatMapOneMore(Kept(pred), records[..i], records[i]);
      var pass := Passes(pred, records[i].row);
      if pass.None? {
        assert records[i] in records;
        return None;
      }
      if pass.value {
        out := out + [records[i].row];
      }
    }
    assert records[..|records|] == records;
    return Some(out);
  }

  // ---------- the index ----------

  type Entries = map<int, seq<RID>>

  /** `LookupInteger`. */
  function Lookup(entries: Entries, key: int): seq<RID> {
    if key in entries then entries[key] else []
  }

  function InsertEntry(entries: Entries, key: int, rid: RID): Entries {
    entries[key := Lookup(entries, key) + [rid]]
  }

  /** The indexed column exists and is INTEGER in every record. */
  predicate IntegerColumn(records: seq<Record>, col: nat) {
    forall x :: x in records ==> col < |x.row| && TypeOf(x.row[col]).INTEGER?
  }

  function KeyIn(row: Row, col: nat): int {
    if col < |row| && Payload(row[col]).Int? then Payload(row[col]).i else 0
  }

  function RidIf(col: nat, key: int): Record -> seq<RID> {
    (x: Record) => if KeyIn(x.row, col) == key then [x.rid] else []
  }

  /** The index lists, for every key, the records with that key in heap order. */
  ghost predicate FreshIndex(entries: Entries, records: seq<Record>, col: nat) {
    forall key :: Lookup(entries, key) == FlatMap(RidIf(col, key), records)
  }

  /** The loop of `Catalog::CreateIndex`. */
  method BuildIndex(records: seq<Record>, col: nat) returns (entries: Entries)
    requires IntegerColumn(records, col)
    ensures FreshIndex(entries, records, col)
  {
    hide FlatMap;
    entries := map[];
    forall key ensures FlatMap(RidIf(col, key), []) == [] { FlatMapNone(RidIf(col, key)); }
    for i := 0 to |records|
      invariant FreshIndex(entries, records[..i], col)
    {
      assert records[..i + 1] == records[..i] + [records[i]];
      forall key
        ensures FlatMap(RidIf(col, key), records[..i + 1]) == FlatMap(RidIf(col, key), records[..i])
                + RidIf(col, key)(records[i])
      {
        FlatMapOneMore(RidIf(col, key), records[..i], records[i]);
      }
      assert records[i] in records;
      entries := InsertEntry(entries, Payload(records[i].row[col]).i, records[i].rid);
    }
    assert records[..|records|] == records;
  }

  // ---------- index scan ----------

  /** `TableHeap::GetTuple`. */
  function RowAt(records: seq<Record>, rid: RID): Option<Row> {
    if records == [] then None
    else if records[|records| - 1].rid == rid then Some(records[|records| - 1].row)
    else RowAt(records[..|records| - 1], rid)
  }

  function Fetched(records: seq<Record>, pred: Option<Expr>): RID -> seq<Row> {
    rid => var row := RowAt(records, rid);
      if row.Some? && Passes(pred, row.value) == Some(true) then [row.value] else []
  }

  ghost predicate AllFetched(records: seq<Record>, rids: seq<RID>, pred: Option<Expr>) {
    forall rid :: rid in rids ==> RowAt(records, rid).Some? && Passes(pred, RowAt(records, rid).value).Some?
  }

  function FetchRows(records: seq<Record>, rids: seq<RID>, pred: Option<Expr>): seq<Row> {
    FlatMap(Fetched(records, pred), rids)
  }

  /** The rids found under a constant INTEGER key, none under any other expression, nothing under a
      constant of another type. */
  function RidsFor(entries: Entries, key: Expr): Option<seq<RID>> {
    if !key.Constant? then Some([])
    else if !TypeOf(key.value).INTEGER? then None
    else Some(Lookup(entries, Payload(key.value).i))
  }

  /** `IndexScanExecutor` read to its end. */
  method IndexScan(records: seq<Record>, entries: Entries, key: Expr, pred: Option<Expr>)
      returns (rows: Option<seq<Row>>)
    ensures rows.Some? <==> RidsFor(entries, key).Some? && AllFetched(records, RidsFor(entries, key).value, pred)
    ensures rows.Some? ==> rows.value == FetchRows(records, RidsFor(entries, key).value, pred)
    ensures !key.Constant? ==> rows == Some([])
    ensures key.Constant? && !TypeOf(key.value).INTEGER? ==> rows == None
  {
    hide FlatMap, Passes, RowAt;
    if key.Constant? && !TypeOf(key.value).INTEGER? {
      return None;
    }
    var rids := RidsFor(entries, key).value;
    FlatMapNone(Fetched(records, pred));
    var out := [];
    for i := 0 to |rids|
      invariant AllFetched(records, rids[..i], pred) && out == FetchRows(records, rids[..i], pred)
    {
      assert rids[..i + 1] == rids[..i] + [rids[i]];
      FlatMapOneMore(Fetched(records, pred), rids[..i], rids[i]);
      var row := RowAt(records, rids[i]);
      var pass := if row.None? then None else Passes(pred, row.value);
      if pass.None? {
        assert rids[i] in rids;
        return None;
      }
      if pass.value {
        out := out + [row.value];
      }
    }
    assert rids[..|rids|] == rids;
    return Some(out);
  }

  // ---------- the two scans agree ----------

  lemma {:induction false} RowAtOwn(records: seq<Record>, x: Record)
    requires UniqueRids(records) && x in records
    ensures RowAt(records, x.rid) == Some(x.row)
  {
    var n := |records| - 1;
    if x != records[n] {
      assert records == records[..n] + [records[n]];
      RowAtOwn(records[..n], x);
      var i :| 0 <= i < n && records[i] == x;
    }
  }

  /** `column = constant`, written in either order. */
  function KeyEquals(col: nat, tuple: nat, v: Value, swapped: bool): Expr {
    if swapped then Compare(Equal, Constant(v), Column(tuple, col)) else Compare(Equal, Column(tuple, col), Constant(v))
  }

  lemma KeyPass(row: Row, col: nat, tuple: nat, v: Value, swapped: bool)
    requires col < |row| && TypeOf(row[col]).INTEGER?
    ensures Passes(Some(KeyEquals(col, tuple, v, swapped)), row) ==
            if TypeOf(v).INTEGER? then Some(KeyIn(row, col) == Payload(v).i) else None
  {
    var a, b := if swapped then v else row[col], if swapped then row[col] else v;
    assert Evaluate(Column(tuple, col), row) == Some(row[col]) && Evaluate(Constant(v), row) == Some(v);
    assert Evaluate(KeyEquals(col, tuple, v, swapped), row) == AsValue(CompareEquals(a, b));
  }

  // ---------- an index and a table that went on ----------

  /** The statements after `CreateIndex` touch no index. What they leave alone is the order of the record
      ids that were there then and are there now. */
  ghost predicate SameOrder(first: seq<Record>, records: seq<Record>) {
    FlatMap(RidIfIn(records), first) == FlatMap(RidIfIn(first), records)
  }

  ghost predicate HasRid(records: seq<Record>, rid: RID) {
    exists x :: x in records && x.rid == rid
  }

  ghost function RidIfIn(others: seq<Record>): Record -> seq<RID> {
    (x: Record) => if HasRid(others, x.rid) then [x.rid] else []
  }

  /** The record had the key when the index was made. */
  ghost predicate HadKey(first: seq<Record>, rid: RID, col: nat, key: int) {
    exists x :: x in first && x.rid == rid && KeyIn(x.row, col) == key
  }

  function OnlyIn(rids: seq<RID>): RID -> seq<RID> {
    rid => if rid in rids then [rid] else []
  }

  function OnlyRid(rids: seq<RID>): Record -> seq<RID> {
    (x: Record) => if x.rid in rids then [x.rid] else []
  }

  lemma RidsHadKey(first: seq<Record>, col: nat, key: int, rid: RID)
    ensures rid in FlatMap(RidIf(col, key), first) <==> HadKey(first, rid, col, key)
  {
    hide FlatMap;
    FlatMapMember(RidIf(col, key), first, rid);
  }

  lemma {:induction false} RowAtKnown(records: seq<Record>, rid: RID)
    ensures RowAt(records, rid).Some? <==> HasRid(records, rid)
    ensures RowAt(records, rid).Some? ==> exists x :: x in records && x.rid == rid && x.row == RowAt(records, rid).value
  {
    if records != [] {
      var n := |records| - 1;
      RowAtKnown(records[..n], rid);
      assert forall x :: x in records <==> x in records[..n] || x == records[n];
    }
  }

  lemma SameRecord(first: seq<Record>, x: Record, y: Record)
    requires UniqueRids(first) && x in first && y in first && x.rid == y.rid
    ensures x == y
  {
  }

  /** The rids under a key, all of them still there, in the order of the table as it is now. */
  lemma RidsInOrder(first: seq<Record>, records: seq<Record>, col: nat, key: int)
    requires UniqueRids(first) && SameOrder(first, records)
    requires forall rid :: rid in FlatMap(RidIf(col, key), first) ==> HasRid(records, rid)
    ensures FlatMap(RidIf(col, key), first) == FlatMap(OnlyRid(FlatMap(RidIf(col, key), first)), records)
  {
    hide FlatMap, UniqueRids;
    var rids := FlatMap(RidIf(col, key), first);
    FlatMapChained(RidIfIn(records), OnlyIn(rids), first);
    FlatMapChained(RidIfIn(first), OnlyIn(rids), records);
    FlatMapNone(OnlyIn(rids));
    forall x | x in first
      ensures Chained(RidIfIn(records), OnlyIn(rids))(x) == RidIf(col, key)(x)
    {
      FlatMapSingle(OnlyIn(rids), x.rid);
      RidsHadKey(first, col, key, x.rid);
      if HadKey(first, x.rid, col, key) {
        var y :| y in first && y.rid == x.rid && KeyIn(y.row, col) == key;
        SameRecord(first, x, y);
      }
    }
    FlatMapSame(Chained(RidIfIn(records), OnlyIn(rids)), RidIf(col, key), first);
    forall x | x in records
      ensures Chained(RidIfIn(first), OnlyIn(rids))(x) == OnlyRid(rids)(x)
    {
      FlatMapSingle(OnlyIn(rids), x.rid);
      RidsHadKey(first, col, key, x.rid);
    }
    FlatMapSame(Chained(RidIfIn(first), OnlyIn(rids)), OnlyRid(rids), records);
  }

  /** The index scan has a result exactly while no record that had the key is deleted. */
  lemma StaleIndexFetches(first: seq<Record>, records: seq<Record>, entries: Entries, col: nat, tuple: nat, v: Value,
      swapped: bool)
    requires IntegerColumn(records, col) && FreshIndex(entries, first, col) && TypeOf(v).INTEGER?
    ensures AllFetched(records, RidsFor(entries, Constant(v)).value, Some(KeyEquals(col, tuple, v, swapped))) <==>
            forall rid :: HadKey(first, rid, col, Payload(v).i) ==> HasRid(records, rid)
  {
    hide Passes, RowAt, FlatMap, KeyEquals, HadKey, HasRid;
    var pred, key := Some(KeyEquals(col, tuple, v, swapped)), Payload(v).i;
    forall rid
      ensures rid in Lookup(entries, key) <==> HadKey(first, rid, col, key)
    {
      RidsHadKey(first, col, key, rid);
    }
    forall rid
      ensures RowAt(records, rid).Some? <==> HasRid(records, rid)
      ensures RowAt(records, rid).Some? ==> Passes(pred, RowAt(records, rid).value).Some?
    {
      RowAtKnown(records, rid);
      if RowAt(records, rid).Some? {
        var x :| x in records && x.rid == rid && x.row == RowAt(records, rid).value;
        KeyPass(x.row, col, tuple, v, swapped);
      }
    }
  }

  /** What the index scan keeps of the table as it is now. */
  function KeptOf(rids: seq<RID>, pred: Option<Expr>): Record -> seq<Row> {
    (x: Record) => if x.rid in rids then Kept(pred)(x) else []
  }

  lemma StaleIndexRows(first: seq<Record>, records: seq<Record>, col: nat, key: int, pred: Option<Expr>)
    requires UniqueRids(first) && UniqueRids(records) && SameOrder(first, records)
    requires forall rid :: HadKey(first, rid, col, key) ==> HasRid(records, rid)
    ensures var rids := FlatMap(RidIf(col, key), first);
            FetchRows(records, rids, pred) == FlatMap(KeptOf(rids, pred), records)
  {
    hide Passes, RowAt, FlatMap, UniqueRids, HadKey, HasRid;
    var rids := FlatMap(RidIf(col, key), first);
    forall rid | rid in rids ensures HasRid(records, rid) { RidsHadKey(first, col, key, rid); }
    RidsInOrder(first, records, col, key);
    FlatMapChained(OnlyRid(rids), Fetched(records, pred), records);
    FlatMapNone(Fetched(records, pred));
    forall x | x in records
      ensures Chained(OnlyRid(rids), Fetched(records, pred))(x) == KeptOf(rids, pred)(x)
    {
      FlatMapSingle(Fetched(records, pred), x.rid);
      RowAtOwn(records, x);
      assert Fetched(records, pred)(x.rid) == Kept(pred)(x);
      assert OnlyRid(rids)(x) == if x.rid in rids then [x.rid] else [];
    }
    FlatMapSame(Chained(OnlyRid(rids), Fetched(records, pred)), KeptOf(rids, pred), records);
  }

  /** After any insertions, wherever they went, updates and deletions: as long as the index scan has a
      result, it is that of the sequential scan exactly if every record with the key had it already when
      the index was made. */
  lemma StaleIndexExact(first: seq<Record>, records: seq<Record>, entries: Entries, col: nat, tuple: nat, v: Value,
      swapped: bool)
    requires UniqueRids(first) && UniqueRids(records) && SameOrder(first, records)
    requires IntegerColumn(records, col) && FreshIndex(entries, first, col) && TypeOf(v).INTEGER?
    requires forall rid :: HadKey(first, rid, col, Payload(v).i) ==> HasRid(records, rid)
    ensures var pred, rids := Some(KeyEquals(col, tuple, v, swapped)), RidsFor(entries, Constant(v)).value;
            FetchRows(records, rids, pred) == ScanRows(records, pred) <==>
            forall x :: x in records && KeyIn(x.row, col) == Payload(v).i ==> HadKey(first, x.rid, col, Payload(v).i)
  {
    hide Passes, RowAt, FlatMap, UniqueRids, KeyEquals, HadKey, HasRid, SameOrder;
    var pred, key := Some(KeyEquals(col, tuple, v, swapped)), Payload(v).i;
    var rids := Lookup(entries, key);
    StaleIndexRows(first, records, col, key, pred);
    forall x | x in records
      ensures x.rid in rids <==> HadKey(first, x.rid, col, key)
      ensures Kept(pred)(x) == if KeyIn(x.row, col) == key then [x.row] else []
    {
      RidsHadKey(first, col, key, x.rid);
      KeyPass(x.row, col, tuple, v, swapped);
    }
    FlatMapFewer(KeptOf(rids, pred), Kept(pred), records);
    if forall x :: x in records && KeyIn(x.row, col) == key ==> HadKey(first, x.rid, col, key) {
      FlatMapSame(KeptOf(rids, pred), Kept(pred), records);
    }
  }

  /** On an unchanged table the index scan gives the rows of the filtered sequential scan, in the same order. */
  lemma IndexScanAgrees(records: seq<Record>, entries: Entries, col: nat, tuple: nat, v: Value, swapped: bool)
    requires UniqueRids(records) && IntegerColumn(records, col) && FreshIndex(entries, records, col)
             && TypeOf(v).INTEGER?
    ensures var pred := Some(KeyEquals(col, tuple, v, swapped)); var rids := RidsFor(entries, Constant(v)).value;
            && AllPass(records, pred) && AllFetched(records, rids, pred)
            && FetchRows(records, rids, pred) == ScanRows(records, pred)
  {
    hide Passes, RowAt, FlatMap, UniqueRids, KeyEquals;
    forall x | x in records
      ensures Passes(Some(KeyEquals(col, tuple, v, swapped)), x.row).Some?
    {
      KeyPass(x.row, col, tuple, v, swapped);
    }
    StaleIndexFetches(records, records, entries, col, tuple, v, swapped);
    StaleIndexExact(records, records, entries, col, tuple, v, swapped);
  }

  /** `column = 7` after the record 7 was inserted, after 1 was updated to 7, and after 7 was deleted. */
  lemma StaleIndexSamples()
    ensures var pred, rid := Some(KeyEquals(0, 0, Int(7), false)), RID(0, 0);
            var seven, entry := [Record(rid, [Int(7)])], map[7 := [rid]];
            && ScanRows(seven, pred) == [[Int(7)]]
               && FetchRows(seven, RidsFor(map[], Constant(Int(7))).value, pred) == []
            && FetchRows(seven, RidsFor(map[1 := [rid]], Constant(Int(7))).value, pred) == []
            && FreshIndex(map[], [], 0) && FreshIndex(map[1 := [rid]], [Record(rid, [Int(1)])], 0)
               && FreshIndex(entry, seven, 0)
            && !AllFetched([], RidsFor(entry, Constant(Int(7))).value, pred)
            && UniqueRids(seven) && !UniqueRids(seven + seven)
  {
    var pred, rid := Some(KeyEquals(0, 0, Int(7), false)), RID(0, 0);
    var one, seven := Record(rid, [Int(1)]), Record(rid, [Int(7)]);
    KeyPass(seven.row, 0, 0, Int(7), false);
    FlatMapSingle(Kept(pred), seven);
    FlatMapNone(Fetched([seven], pred));
    forall key
      ensures FlatMap(RidIf(0, key), []) == [] && FlatMap(RidIf(0, key), [one]) == RidIf(0, key)(one)
      ensures FlatMap(RidIf(0, key), [seven]) == RidIf(0, key)(seven)
    {
      FlatMapNone(RidIf(0, key));
      FlatMapSingle(RidIf(0, key), one);
      FlatMapSingle(RidIf(0, key), seven);
    }
    hide FlatMap;
    assert rid in Lookup(map[7 := [rid]], 7);
    var two := [seven] + [seven];
    assert two[0].rid == two[1].rid;
  }
}
