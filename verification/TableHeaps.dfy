/** A table heap: slotted pages in a chain, kept in the buffer pool. */
module TableHeaps {
  import opened Common
  import opened TablePages
  import opened BufferPool
  import opened PoolContract
  import opened LruK

  /** The largest tuple that fits on an empty page. */
  const LARGEST: nat := TablePages.PAGE_SIZE - HEADER - SLOT

  /** A tuple where it lies. */
  datatype Row = Row(rid: RID, bytes: seq<Byte>)

  // ---------- the chain of pages ----------

  function LinkAt(chain: seq<PageId>, i: nat): PageId
    requires i < |chain|
  {
    if i + 1 < |chain| then chain[i + 1] else INVALID_PAGE_ID
  }

  /** One page of the chain: well-formed, and pointing at the next. */
  ghost predicate PageIn(v: View, chain: seq<PageId>, i: nat)
    requires i < |chain|
  {
    && 0 <= chain[i] < v.nextId && PageOk(Content(v, chain[i])) && NextId(Content(v, chain[i])) == LinkAt(chain, i)
  }

  /** The pages of the heap: a list without repetition from the first page to the end marker. */
  ghost predicate ChainOk(v: View, first: PageId, chain: seq<PageId>) {
    && chain != [] && chain[0] == first
    && (forall i, j :: 0 <= i < j < |chain| ==> chain[i] != chain[j])
    && (forall i {:trigger PageIn(v, chain, i)} :: 0 <= i < |chain| ==> PageIn(v, chain, i))
  }

  ghost predicate IsLive(v: View, chain: seq<PageId>, rid: RID) {
    rid.page in chain && rid.slot >= 0 && HasSlot(Content(v, rid.page), rid.slot)
      && Length(Content(v, rid.page), rid.slot) > 0
  }

  ghost function TupleAt(v: View, chain: seq<PageId>, rid: RID): seq<Byte>
    requires IsLive(v, chain, rid)
  {
    Tuple(Content(v, rid.page), rid.slot)
  }

  /** The same records are live, with the same bytes. */
  ghost predicate SameRows(v: View, chain: seq<PageId>, v': View, chain': seq<PageId>) {
    forall rid :: (IsLive(v', chain', rid) <==> IsLive(v, chain, rid))
                  && (IsLive(v, chain, rid) && IsLive(v', chain', rid) ==>
                  TupleAt(v', chain', rid) == TupleAt(v, chain, rid))
  }

  /** One more record is live. */
  ghost predicate RowAdded(v: View, chain: seq<PageId>, v': View, chain': seq<PageId>, added: RID, t: seq<Byte>) {
    && !IsLive(v, chain, added) && IsLive(v', chain', added) && TupleAt(v', chain', added) == t
    && forall rid :: rid != added ==>
         (IsLive(v', chain', rid) <==> IsLive(v, chain, rid))
           && (IsLive(v, chain, rid) && IsLive(v', chain', rid) ==> TupleAt(v', chain', rid) == TupleAt(v, chain, rid))
  }

  /** Bytes between the slot directory and the tuples for one more tuple and its slot. */
  ghost predicate HasRoom(d: seq<Byte>, t: seq<Byte>) {
    |d| == 4096 && |t| + 4 <= FreePointer(d) - (16 + 4 * Count(d))
  }

  /** The tuple goes to page number `k`: no page before has room, and either this one has, and the tuple
      takes the slot behind its last, or the chain ended and a fresh page was put behind it. */
  ghost predicate FitsAt(v: View, chain: seq<PageId>, chain': seq<PageId>, t: seq<Byte>, rid: RID, k: nat) {
    && k <= |chain| && (forall j :: 0 <= j < k ==> !HasRoom(Content(v, chain[j]), t))
    && if k == |chain| then chain' == chain + [rid.page] && rid.slot == 0
       else chain' == chain && HasRoom(Content(v, chain[k]), t) && rid == RID(chain[k], Count(Content(v, chain[k])))
  }

  lemma RoomIsFits(d: seq<Byte>, t: seq<Byte>)
    requires |d| == TablePages.PAGE_SIZE
    ensures Fits(d, t) <==> HasRoom(d, t)
  {
  }

  /** Only page `p` has new contents. */
  ghost predicate Rewrote(v: View, v': View, p: PageId, d: seq<Byte>) {
    v'.nextId >= v.nextId && forall q :: Content(v', q) == if q == p then d else Content(v, q)
  }

  lemma ChainRewrote(v: View, v': View, first: PageId, chain: seq<PageId>, k: nat, d: seq<Byte>)
    requires ChainOk(v, first, chain) && k < |chain| && Rewrote(v, v', chain[k], d) && PageOk(d)
             && NextId(d) == LinkAt(chain, k)
    ensures ChainOk(v', first, chain)
  {
    forall i | 0 <= i < |chain| ensures PageIn(v', chain, i) {
      assert PageIn(v, chain, i);
    }
  }

  lemma ChainSame(v: View, v': View, first: PageId, chain: seq<PageId>)
    requires ChainOk(v, first, chain) && SameContent(v, v') && v'.nextId >= v.nextId
    ensures ChainOk(v', first, chain) && SameRows(v, chain, v', chain)
  {
    forall i | 0 <= i < |chain| ensures PageIn(v', chain, i) {
      assert PageIn(v, chain, i);
    }
  }

  /** An insert into one page adds one record, or none if the tuple is empty. */
  lemma InsertedRow(v: View, v': View, first: PageId, chain: seq<PageId>, k: nat, t: seq<Byte>)
    requires ChainOk(v, first, chain) && k < |chain| && PageOk(Content(v, chain[k])) && Fits(Content(v, chain[k]), t)
    requires Rewrote(v, v', chain[k], Inserted(Content(v, chain[k]), t))
    ensures ChainOk(v', first, chain)
    ensures var rid := RID(chain[k], Count(Content(v, chain[k])));
            if t == [] then SameRows(v, chain, v', chain) else RowAdded(v, chain, v', chain, rid, t)
  {
    hide Inserted, PageOk;
    var d := Content(v, chain[k]);
    assert PageIn(v, chain, k);
    PageBounds(d);
    InsertOk(d, t);
    StoredOk(d, Inserted(d, t), Count(d), t);
    ChainRewrote(v, v', first, chain, k, Inserted(d, t));
    forall rid | rid != RID(chain[k], Count(d))
      ensures IsLive(v', chain, rid) <==> IsLive(v, chain, rid)
      ensures IsLive(v, chain, rid) && IsLive(v', chain, rid) ==> TupleAt(v', chain, rid) == TupleAt(v, chain, rid)
    {
      if rid.page == chain[k] && rid.slot >= 0 { SlotsAfter(d, Inserted(d, t), Count(d), t, rid.slot); }
    }
    SlotsAfter(d, Inserted(d, t), Count(d), t, Count(d));
  }

  /** Where a slot stands after one slot was written. */
  lemma SlotsAfter(d: seq<Byte>, d': seq<Byte>, i: nat, t: seq<Byte>, s: nat)
    requires Stored(d, d', i, t) && (Count(d') == Count(d) || (i == Count(d) && Count(d') == Count(d) + 1))
    ensures s != i ==> (HasSlot(d', s) <==> HasSlot(d, s))
    ensures s != i && HasSlot(d, s) ==>
            Length(d', s) == Length(d, s) && (Length(d, s) > 0 ==> Tuple(d', s) == Tuple(d, s))
    ensures HasSlot(d', i) && Length(d', i) == |t| && (t != [] ==> Tuple(d', i) == t)
  {
    hide Get16, Get32, SlotOk, Apart;
  }

  /** A fresh empty page at the end of the chain. */
  lemma Appended(v: View, v': View, first: PageId, chain: seq<PageId>, p: PageId)
    requires ChainOk(v, first, chain) && p == v.nextId && v'.nextId == v.nextId + 1 && p < 0x8000_0000
    requires var last := chain[|chain| - 1];
             && PageOk(Content(v, last)) && PageOk(WithNext(Content(v, last), p))
             && forall q :: Content(v', q) == if q == last then WithNext(Content(v, last), p)
                else if q == p then Init(INVALID_PAGE_ID) else Content(v, q)
    ensures ChainOk(v', first, chain + [p]) && SameRows(v, chain, v', chain + [p])
  {
    hide PageOk, Init, WithNext;
    var last, chain' := chain[|chain| - 1], chain + [p];
    InitOk(INVALID_PAGE_ID);
    LinkWritten(Content(v, last), p);
    forall i | 0 <= i < |chain| ensures chain[i] < p { assert PageIn(v, chain, i); }
    forall i | 0 <= i < |chain'| ensures PageIn(v', chain', i) {
      if i < |chain| { assert PageIn(v, chain, i); }
    }
    forall rid
      ensures IsLive(v', chain', rid) <==> IsLive(v, chain, rid)
      ensures IsLive(v, chain, rid) && IsLive(v', chain', rid) ==> TupleAt(v', chain', rid) == TupleAt(v, chain, rid)
    {
      if rid.page == last && rid.slot >= 0 { LinkKeeps(Content(v, last), p, rid.slot); }
    }
  }

  /** The link is not part of anything else on the page. */
  lemma LinkWritten(d: seq<Byte>, p: PageId)
    requires PageOk(d) && 0 <= p < 0x8000_0000
    ensures PageOk(WithNext(d, p)) && NextId(WithNext(d, p)) == p && Count(WithNext(d, p)) == Count(d)
  {
    var d' := WithNext(d, p);
    Field32(d, 0, OfId(p));
    Field32Out(d, 0, Enc32(OfId(p)), 4);
    Field32Out(d, 0, Enc32(OfId(p)), 8);
    forall i: nat | i < Count(d) ensures SlotOk(d', i) && Offset(d', i) == Offset(d, i)
      && Length(d', i) == Length(d, i) {
      SameSlot(d, d', i);
      assert SlotOk(d, i);
    }
    forall i: nat, j: nat | i < j < Count(d) ensures Apart(d', i, j) {
      assert Apart(d, i, j);
    }
  }

  lemma LinkKeeps(d: seq<Byte>, p: PageId, s: nat)
    requires PageOk(d) && 0 <= p < 0x8000_0000
    ensures HasSlot(WithNext(d, p), s) <==> HasSlot(d, s)
    ensures HasSlot(d, s) && HasSlot(WithNext(d, p), s) ==>
              Length(WithNext(d, p), s) == Length(d, s)
                && (Length(d, s) > 0 ==> Tuple(WithNext(d, p), s) == Tuple(d, s))
  {
    LinkWritten(d, p);
    if HasSlot(d, s) {
      assert SlotOk(d, s);
      KeptTuple(d, WithNext(d, p), s);
    }
  }

  lemma KeptTuple(d: seq<Byte>, d': seq<Byte>, s: nat)
    requires HasSlot(d, s) && HasSlot(d', s) && SlotOk(d, s) && Same(d, d', HEADER, TablePages.PAGE_SIZE)
             && FreePointer(d) >= HEADER
    ensures Length(d', s) == Length(d, s) && (Length(d, s) > 0 ==> Tuple(d', s) == Tuple(d, s))
  {
    SameSlot(d, d', s);
  }

  // ---------- the rows in the order of the scan ----------

  /** The live tuples of one page from a slot on. */
  function PageRows(d: seq<Byte>, p: PageId, slot: nat): seq<Row>
    requires |d| == TablePages.PAGE_SIZE && SlotEnd(d) <= TablePages.PAGE_SIZE
    decreases Count(d) - slot
  {
    if slot >= Count(d) then []
    else (if Length(d, slot) > 0 then [Row(RID(p, slot), Tuple(d, slot))] else []) + PageRows(d, p, slot + 1)
  }

  ghost function ChainRows(v: View, first: PageId, chain: seq<PageId>, k: nat): seq<Row>
    requires ChainOk(v, first, chain) && k <= |chain|
    decreases |chain| - k
  {
    if k == |chain| then []
    else
      assert PageIn(v, chain, k);
      PageRows(Content(v, chain[k]), chain[k], 0) + ChainRows(v, first, chain, k + 1)
  }

  /** The rows from a position in the chain on. */
  ghost function RowsFrom(v: View, first: PageId, chain: seq<PageId>, k: nat, slot: nat): seq<Row>
    requires ChainOk(v, first, chain) && k <= |chain|
  {
    if k == |chain| then []
    else assert PageIn(v, chain, k); PageRows(Content(v, chain[k]), chain[k], slot) + ChainRows(v, first, chain, k + 1)
  }

  ghost predicate Ascending(rows: seq<Row>) {
    forall i, j :: 0 <= i < j < |rows| ==> rows[i].rid.slot < rows[j].rid.slot
  }

  /** What a row of a page from a slot on is. */
  ghost predicate RowOf(d: seq<Byte>, p: PageId, slot: nat, x: Row) {
    x.rid.page == p && x.rid.slot >= slot && HasSlot(d, x.rid.slot) && Length(d, x.rid.slot) > 0
      && x.bytes == Tuple(d, x.rid.slot)
  }

  lemma RowOfNext(d: seq<Byte>, p: PageId, slot: nat, x: Row)
    requires HasSlot(d, slot)
    ensures RowOf(d, p, slot, x) <==>
              RowOf(d, p, slot + 1, x) || (Length(d, slot) > 0 && x == Row(RID(p, slot), Tuple(d, slot)))
  {
    hide Length, Tuple, Count;
  }

  lemma NoRows()
    ensures Ascending([])
  {
  }

  lemma SlotInFront(x: Row, rest: seq<Row>)
    requires Ascending(rest) && forall i :: 0 <= i < |rest| ==> x.rid.slot < rest[i].rid.slot
    ensures Ascending([x] + rest)
  {
    var all := [x] + rest;
    forall i, j | 0 <= i < j < |all| ensures all[i].rid.slot < all[j].rid.slot {
      assert all[j] == rest[j - 1] && (i > 0 ==> all[i] == rest[i - 1]);
    }
  }

  lemma {:induction false} PageRowsExact(d: seq<Byte>, p: PageId, slot: nat)
    requires |d| == TablePages.PAGE_SIZE && SlotEnd(d) <= TablePages.PAGE_SIZE
    ensures Ascending(PageRows(d, p, slot))
    ensures forall x: Row :: x in PageRows(d, p, slot) <==> RowOf(d, p, slot, x)
    decreases Count(d) - slot
  {
    hide Length, Tuple, Count, RowOf, Ascending;
    assert Ascending([]) by { NoRows(); }
    if slot < Count(d) {
      PageRowsExact(d, p, slot + 1);
      var rest := PageRows(d, p, slot + 1);
      forall x: Row ensures x in PageRows(d, p, slot) <==> RowOf(d, p, slot, x) {
        RowOfNext(d, p, slot, x);
      }
      forall i | 0 <= i < |rest| ensures rest[i].rid.slot > slot {
        assert rest[i] in rest;
        RowSlot(d, p, slot + 1, rest[i]);
      }
      SlotInFront(Row(RID(p, slot), Tuple(d, slot)), rest);
      assert [] + rest == rest;
    } else {
      forall x: Row ensures !RowOf(d, p, slot, x) {
        if RowOf(d, p, slot, x) { RowSlot(d, p, slot, x); }
      }
    }
  }

  lemma RowSlot(d: seq<Byte>, p: PageId, slot: nat, x: Row)
    requires RowOf(d, p, slot, x)
    ensures x.rid.slot >= slot && x.rid.page == p && x.rid.slot < Count(d)
  {
    hide Length, Tuple, Count;
  }

  /** Every live record is listed once, with its bytes, and nothing else is. */
  lemma {:induction false} ChainRowsExact(v: View, first: PageId, chain: seq<PageId>, k: nat)
    requires ChainOk(v, first, chain) && k <= |chain|
    ensures var rows := ChainRows(v, first, chain, k);
            && (forall i, j :: 0 <= i < j < |rows| ==> rows[i].rid != rows[j].rid)
            && (forall x: Row :: x in rows <==>
                                 x.rid.page in chain[k..] && IsLive(v, chain, x.rid)
                                 && x.bytes == TupleAt(v, chain, x.rid))
    decreases |chain| - k
  {
    if k < |chain| {
      assert PageIn(v, chain, k);
      ChainRowsExact(v, first, chain, k + 1);
      PageRowsExact(Content(v, chain[k]), chain[k], 0);
      var here, later := PageRows(Content(v, chain[k]), chain[k], 0), ChainRows(v, first, chain, k + 1);
      assert chain[k..] == [chain[k]] + chain[k + 1..];
      assert chain[k] !in chain[k + 1..];
      ListedOnce(here, later, chain[k]);
      forall x: Row ensures x in here + later <==>
        x.rid.page in chain[k..] && IsLive(v, chain, x.rid) && x.bytes == TupleAt(v, chain, x.rid) {
        assert chain[k] in chain;
      }
    }
  }

  /** The rows come page by page along the chain, and slot by slot within a page. */
  lemma {:induction false} ChainRowsInOrder(v: View, first: PageId, chain: seq<PageId>, k: nat, i: nat, j: nat, a: nat,
      b: nat)
    requires ChainOk(v, first, chain) && k <= |chain|
    requires var rows := ChainRows(v, first, chain, k);
             i < j < |rows| && k <= a < |chain| && k <= b < |chain|
             && rows[i].rid.page == chain[a] && rows[j].rid.page == chain[b]
    ensures var rows := ChainRows(v, first, chain, k);
            a < b || (a == b && rows[i].rid.slot < rows[j].rid.slot)
    decreases |chain| - k
  {
    hide PageRows, PageOk, Content, Ascending, IsLive;
    assert PageIn(v, chain, k);
    PageBounds(Content(v, chain[k]));
    PageRowsExact(Content(v, chain[k]), chain[k], 0);
    RowPages(v, first, chain, k + 1);
    var here, later := PageRows(Content(v, chain[k]), chain[k], 0), ChainRows(v, first, chain, k + 1);
    OnOnePage(Content(v, chain[k]), chain[k]);
    if i < |here| {
      assert here[i] in here;
      if j < |here| {
        assert here[j] in here;
        RisingSlots(here, i, j);
      } else {
        assert later[j - |here|] in later;
      }
    } else {
      assert later[i - |here|] in later && later[j - |here|] in later;
      ChainRowsInOrder(v, first, chain, k + 1, i - |here|, j - |here|, a, b);
    }
  }

  lemma OnOnePage(d: seq<Byte>, p: PageId)
    requires |d| == TablePages.PAGE_SIZE && SlotEnd(d) <= TablePages.PAGE_SIZE
    ensures forall x :: x in PageRows(d, p, 0) ==> x.rid.page == p
  {
    PageRowsExact(d, p, 0);
    forall x | x in PageRows(d, p, 0) ensures x.rid.page == p { RowSlot(d, p, 0, x); }
  }

  lemma RisingSlots(rows: seq<Row>, i: nat, j: nat)
    requires Ascending(rows) && i < j < |rows|
    ensures rows[i].rid.slot < rows[j].rid.slot
  {
  }

  lemma RowPages(v: View, first: PageId, chain: seq<PageId>, k: nat)
    requires ChainOk(v, first, chain) && k <= |chain|
    ensures forall x :: x in ChainRows(v, first, chain, k) ==> x.rid.page in chain[k..]
  {
    ChainRowsExact(v, first, chain, k);
  }

  lemma ListedOnce(here: seq<Row>, later: seq<Row>, p: PageId)
    requires Ascending(here) && (forall x :: x in here ==> x.rid.page == p)
             && (forall x :: x in later ==> x.rid.page != p)
    requires forall i, j :: 0 <= i < j < |later| ==> later[i].rid != later[j].rid
    ensures forall i, j :: 0 <= i < j < |here + later| ==> (here + later)[i].rid != (here + later)[j].rid
  {
    var rows := here + later;
    forall i, j | 0 <= i < j < |rows| ensures rows[i].rid != rows[j].rid {
      if i < |here| && j >= |here| { assert here[i] in here && later[j - |here|] in later; }
    }
  }

  class TableHeap {
    const bpm: BufferPoolManager
    const first: PageId
    ghost var chain: seq<PageId>

    ghost predicate Valid()
      reads this, bpm, bpm.frames, bpm.replacer
    {
      bpm.Valid() && bpm.touched == {} && ChainOk(bpm.V(), first, chain)
    }

    constructor (bpm: BufferPoolManager)
      requires bpm.Valid() && bpm.touched == {} && FreeFrames(bpm.V()) > 0
      modifies bpm, bpm.frames, bpm.replacer
      ensures Valid() && this.bpm == bpm && chain == [first] && fresh(this)
      ensures forall rid :: !IsLive(bpm.V(), chain, rid)
      ensures forall q :: Pins(bpm.V(), q) == Pins(old(bpm.V()), q)
    {
      hide OkBut, PageOk, Init, FreeFrames, Pins, AllPinned, Content, Count, NextId;
      InitOk(INVALID_PAGE_ID);
      var p := PoolContract.NewPage(bpm, Init(INVALID_PAGE_ID));
      this.bpm, first, chain := bpm, p, [p];
      PoolContract.UnpinPage(bpm, p, true);
      new;
      assert PageIn(bpm.V(), chain, 0);
    }

    /** First fit along the chain, on a fresh page at its end if need be. */
    method InsertTuple(t: seq<Byte>) returns (r: Option<RID>)
      requires Valid() && bpm.nextId < 0x8000_0000
      modifies this`chain, bpm, bpm.frames, bpm.replacer
      ensures Valid() && old(chain) <= chain && |chain| <= |old(chain)| + 1
      ensures r.None? || t == [] ==> SameRows(old(bpm.V()), old(chain), bpm.V(), chain)
      ensures r.Some? && t != [] ==> RowAdded(old(bpm.V()), old(chain), bpm.V(), chain, r.value, t)
      ensures r.Some? ==> exists k: nat :: FitsAt(old(bpm.V()), old(chain), chain, t, r.value, k)
      ensures FreeFrames(old(bpm.V())) >= 2 && |t| <= LARGEST ==> r.Some?
      ensures forall q :: Pins(bpm.V(), q) == Pins(old(bpm.V()), q)
    {
      hide OkBut, PageOk, FreeFrames, Content, Pins, SameContent, ChainOk, SameRows, RowAdded, HasRoom, Remembers;
      ghost var v := bpm.V();
      ChainUnchanged(v, first, chain);
      var p := first;
      ghost var k := 0;
      var done := false;
      r := None;
      while !done
        invariant Valid() && old(chain) <= chain && |chain| <= |old(chain)| + 1
        invariant !done ==> chain == old(chain) && k < |chain| && p == chain[k] && bpm.nextId == old(bpm.nextId)
        invariant !done ==> SameContent(v, bpm.V()) && FreeFrames(bpm.V()) == FreeFrames(v)
        invariant done && (r.None? || t == []) ==> SameRows(v, old(chain), bpm.V(), chain)
        invariant done && r.Some? && t != [] ==> RowAdded(v, old(chain), bpm.V(), chain, r.value, t)
        invariant !done ==> forall j :: 0 <= j < k ==> !HasRoom(Content(v, chain[j]), t)
        invariant done && r.Some? ==> exists m: nat :: FitsAt(v, old(chain), chain, t, r.value, m)
        invariant done && FreeFrames(v) >= 2 && |t| <= LARGEST ==> r.Some?
        invariant forall q :: Pins(bpm.V(), q) == Pins(v, q)
        decreases !done, |chain| - k
      {
        var next;
        done, next, r := TryPage(p, k, t, v);
        assert done && r.Some? ==> FitsAt(v, old(chain), chain, t, r.value, if chain == old(chain) then k else k + 1);
        p := next;
        k := k + 1;
      }
    }

    /** One round of the loop: the page number `k` of the chain. */
    method TryPage(p: PageId, ghost k: nat, t: seq<Byte>, ghost v: View)
        returns (done: bool, next: PageId, r: Option<RID>)
      requires Valid() && bpm.nextId < 0x8000_0000 && k < |chain| && p == chain[k]
      requires ChainOk(v, first, chain) && SameContent(v, bpm.V()) && FreeFrames(bpm.V()) == FreeFrames(v)
               && bpm.nextId == v.nextId
      modifies this`chain, bpm, bpm.frames, bpm.replacer
      ensures Valid() && old(chain) <= chain && |chain| <= |old(chain)| + 1
      ensures !done ==> chain == old(chain) && k + 1 < |chain| && next == chain[k + 1] && bpm.nextId == old(bpm.nextId)
      ensures !done ==> SameContent(v, bpm.V()) && FreeFrames(bpm.V()) == FreeFrames(v)
      ensures done && (r.None? || t == []) ==> SameRows(v, old(chain), bpm.V(), chain)
      ensures done && r.Some? && t != [] ==> RowAdded(v, old(chain), bpm.V(), chain, r.value, t)
      ensures !done ==> !HasRoom(Content(v, p), t)
      ensures done && r.Some? && HasRoom(Content(v, p), t) ==>
                chain == old(chain) && r.value == RID(p, Count(Content(v, p)))
      ensures done && r.Some? && !HasRoom(Content(v, p), t) ==>
                k + 1 == |old(chain)| && chain == old(chain) + [r.value.page] && r.value.slot == 0
      ensures done && FreeFrames(v) >= 2 && |t| <= LARGEST ==> r.Some?
      ensures forall q :: Pins(bpm.V(), q) == Pins(old(bpm.V()), q)
    {
      hide OkBut, PageOk, FreeFrames, Content, Pins, SameContent, ChainOk, SameRows, RowAdded, Inserted, Stored, LinkAt,
        PageIn, HasRoom, Remembers;
      ghost var v1 := bpm.V();
      ChainFacts(v1, first, chain, k);
      ChainSame(v, v1, first, chain);
      var page := OpenPage(p);
      if page.None? {
        return true, INVALID_PAGE_ID, None;
      }
      ghost var v2 := bpm.V();
      SameTwice(v, v1, v2);
      ChainSame(v, v2, first, chain);
      ContentSame(v, v2, p);
      ContentSame(v1, v2, p);
      PageBounds(Content(v, p));
      RoomIsFits(Content(v, p), t);
      var slot := page.value.InsertTuple(t);
      if slot.Some? {
        SavePage(p, page.value.data[..]);
        SavedRow(v, v2, bpm.V(), first, chain, k, t);
        return true, INVALID_PAGE_ID, Some(RID(p, slot.value));
      }
      next := page.value.GetNextPageId();
      LinkFacts(chain, k);
      if next == INVALID_PAGE_ID {
        ChainEnd(v1, first, chain, k);
        r := Extend(p, page.value, t);
        RowsVia(v, v2, old(chain), bpm.V(), chain, r, t);
        return true, next, r;
      }
      ClosePage(p);
      SameTwice(v, v2, bpm.V());
      ChainSame(v, bpm.V(), first, chain);
      return false, next, None;
    }

    /** Pins a page and looks at it as a slotted page; nothing if the pool has no frame for it. */
    method OpenPage(p: PageId) returns (page: Option<TablePage>)
      requires bpm.Valid() && bpm.touched == {} && 0 <= p < bpm.nextId && PageOk(Content(bpm.V(), p))
      modifies bpm, bpm.frames, bpm.replacer
      ensures bpm.Valid() && bpm.touched == {} && bpm.nextId == old(bpm.nextId) && SameContent(old(bpm.V()), bpm.V())
      ensures page.None? ==> bpm.V() == old(bpm.V()) && FreeFrames(bpm.V()) <= 0
      ensures page.Some? ==>
              fresh(page.value) && fresh(page.value.data) && page.value.Valid()
              && page.value.data[..] == Content(bpm.V(), p)
      ensures page.Some? ==> forall q :: Pins(bpm.V(), q) == Pins(old(bpm.V()), q) + if q == p then 1 else 0
      ensures page.Some? ==> FreeFrames(bpm.V()) == FreeFrames(old(bpm.V())) - if Pins(old(bpm.V()), p) == 0 then 1
              else 0
    {
      hide OkBut, PageOk, FreeFrames, AllPinned, Loaded, Content, Pins;
      ghost var v := bpm.V();
      FreeMeansUnpinned(v);
      var ok := bpm.FetchPage(p);
      if !ok {
        return None;
      }
      FreeAfter(v, bpm.V(), p, Pins(v, p) + 1);
      var data := bpm.Read(p);
      ContentSame(v, bpm.V(), p);
      PageLength(data);
      var t := new TablePage(data);
      return Some(t);
    }

    /** Gives a page back unchanged. */
    method ClosePage(p: PageId)
      requires bpm.Valid() && bpm.touched == {} && Pins(bpm.V(), p) > 0
      modifies bpm, bpm.frames, bpm.replacer
      ensures bpm.Valid() && bpm.touched == {} && bpm.nextId == old(bpm.nextId) && SameContent(old(bpm.V()), bpm.V())
      ensures forall q :: Pins(bpm.V(), q) == Pins(old(bpm.V()), q) - if q == p then 1 else 0
      ensures FreeFrames(bpm.V()) == FreeFrames(old(bpm.V())) + if Pins(old(bpm.V()), p) == 1 then 1 else 0
    {
      hide OkBut, FreeFrames, Content, Pins, SameContent;
      PoolContract.UnpinPage(bpm, p, false);
    }

    /** Gives a page back with new contents. */
    method SavePage(p: PageId, data: seq<Byte>)
      requires bpm.Valid() && Pins(bpm.V(), p) > 0
      modifies bpm, bpm.frames, bpm.replacer
      ensures bpm.Valid() && bpm.touched == old(bpm.touched) - {p} && bpm.nextId == old(bpm.nextId)
              && Rewrote(old(bpm.V()), bpm.V(), p, data)
      ensures forall q :: Pins(bpm.V(), q) == Pins(old(bpm.V()), q) - if q == p then 1 else 0
      ensures FreeFrames(bpm.V()) == FreeFrames(old(bpm.V())) + if Pins(old(bpm.V()), p) == 1 then 1 else 0
    {
      hide OkBut, FreeFrames, Content, Pins;
      ghost var v := bpm.V();
      bpm.Write(p, data);
      FreeAfter(v, bpm.V(), p, Pins(v, p));
      PoolContract.UnpinPage(bpm, p, true);
    }

    method GetTuple(rid: RID) returns (t: Option<seq<Byte>>)
      requires Valid() && rid.page in chain && rid.slot >= 0 && HasSlot(Content(bpm.V(), rid.page), rid.slot)
      modifies bpm, bpm.frames, bpm.replacer
      ensures Valid() && SameContent(old(bpm.V()), bpm.V()) && FreeFrames(bpm.V()) == FreeFrames(old(bpm.V()))
      ensures forall q :: Pins(bpm.V(), q) == Pins(old(bpm.V()), q)
      ensures t.None? ==> FreeFrames(bpm.V()) <= 0
      ensures bpm.nextId == old(bpm.nextId)
      ensures t.Some? ==> t.value == Tuple(Content(bpm.V(), rid.page), rid.slot)
    {
      hide OkBut, PageOk, FreeFrames, Content, Pins, SameContent, ChainOk;
      ghost var v := bpm.V();
      ghost var k := PlaceOf(v, first, chain, rid.page);
      ChainFacts(v, first, chain, k);
      var page := OpenPage(rid.page);
      if page.None? {
        ChainUnchanged(v, first, chain);
        return None;
      }
      ghost var v1 := bpm.V();
      ContentSame(v, v1, rid.page);
      var bytes := page.value.GetTuple(rid.slot);
      ClosePage(rid.page);
      SameTwice(v, v1, bpm.V());
      ContentSame(v, bpm.V(), rid.page);
      ChainSame(v, bpm.V(), first, chain);
      return Some(bytes);
    }

    /** The record is gone; without a frame for its page nothing happens. */
    method DeleteTuple(rid: RID)
      requires Valid() && rid.page in chain && rid.slot >= 0 && HasSlot(Content(bpm.V(), rid.page), rid.slot)
      modifies bpm, bpm.frames, bpm.replacer
      ensures Valid() && forall q :: Pins(bpm.V(), q) == Pins(old(bpm.V()), q)
      ensures RowSet(old(bpm.V()), bpm.V(), chain, rid, [])
              || (FreeFrames(old(bpm.V())) <= 0 && SameRows(old(bpm.V()), chain, bpm.V(), chain))
    {
      hide OkBut, PageOk, FreeFrames, Content, Pins, SameContent, ChainOk, RowSet, SameRows, Stored, WithoutTuple;
      ghost var v := bpm.V();
      ghost var k := PlaceOf(v, first, chain, rid.page);
      ChainFacts(v, first, chain, k);
      var page := OpenPage(rid.page);
      if page.None? {
        ChainUnchanged(v, first, chain);
        return;
      }
      ghost var v1 := bpm.V();
      ContentSame(v, v1, rid.page);
      page.value.DeleteTuple(rid.slot);
      SavePage(rid.page, page.value.data[..]);
      SavedSlot(v, v1, bpm.V(), first, chain, k, rid.slot, [], page.value.data[..]);
    }

    /** For sizes that fit into the free space the record is replaced; see `UpdateExact` for the others. */
    method UpdateTuple(rid: RID, t: seq<Byte>) returns (ok: bool)
      requires Valid() && rid.page in chain && rid.slot >= 0 && HasSlot(Content(bpm.V(), rid.page), rid.slot) && t != []
      requires Accepts(Content(bpm.V(), rid.page), rid.slot, t) ==> |t| <= Remaining(Content(bpm.V(), rid.page))
      modifies bpm, bpm.frames, bpm.replacer
      ensures Valid() && forall q :: Pins(bpm.V(), q) == Pins(old(bpm.V()), q)
      ensures ok ==> RowSet(old(bpm.V()), bpm.V(), chain, rid, t)
      ensures !ok ==> SameRows(old(bpm.V()), chain, bpm.V(), chain)
      ensures FreeFrames(old(bpm.V())) >= 1 ==> (ok <==> Accepts(Content(old(bpm.V()), rid.page), rid.slot, t))
    {
      hide OkBut, PageOk, FreeFrames, Content, Pins, SameContent, ChainOk, RowSet, SameRows, Stored, Updated,
        WithoutTuple;
      ghost var v := bpm.V();
      ghost var k := PlaceOf(v, first, chain, rid.page);
      ChainFacts(v, first, chain, k);
      PageBounds(Content(v, rid.page));
      var page := OpenPage(rid.page);
      if page.None? {
        ChainUnchanged(v, first, chain);
        return false;
      }
      ghost var v1 := bpm.V();
      ContentSame(v, v1, rid.page);
      ok := page.value.UpdateTuple(rid.slot, t);
      if ok {
        SavePage(rid.page, page.value.data[..]);
        SavedSlot(v, v1, bpm.V(), first, chain, k, rid.slot, t, page.value.data[..]);
      } else {
        ClosePage(rid.page);
        SameTwice(v, v1, bpm.V());
        ChainSame(v, bpm.V(), first, chain);
      }
    }

    /** The loop over the slots of one page. */
    method NextLive(page: TablePage, from: nat) returns (slot: nat)
      requires page.Valid()
      ensures slot >= from && DeadBetween(page.data[..], from, slot)
      ensures slot < Count(page.data[..]) ==> HasSlot(page.data[..], slot) && Length(page.data[..], slot) > 0
    {
      PageBounds(page.data[..]);
      slot := from;
      while slot < page.GetNumTuples()
        invariant slot >= from && DeadBetween(page.data[..], from, slot)
      {
        if page.GetTupleSize(slot) > 0 {
          return;
        }
        slot := slot + 1;
      }
    }

    /** The loops of `Begin` and `operator++`: on from a slot to the first live one. A page that the pool
        has no frame for ends the search. */
    method Seek(p0: PageId, slot0: nat, ghost k0: nat, ghost v: View) returns (rid: RID, ghost k: nat)
      requires Valid() && ChainOk(v, first, chain) && SameContent(v, bpm.V()) && bpm.nextId == v.nextId
      requires k0 <= |chain| && p0 == if k0 < |chain| then chain[k0] else INVALID_PAGE_ID
      modifies bpm, bpm.frames, bpm.replacer
      ensures Valid() && SameContent(v, bpm.V()) && bpm.nextId == v.nextId
              && FreeFrames(bpm.V()) == FreeFrames(old(bpm.V()))
      ensures forall q :: Pins(bpm.V(), q) == Pins(old(bpm.V()), q)
      ensures k <= |chain| && rid.page == if k < |chain| then chain[k] else INVALID_PAGE_ID
      ensures k < |chain| ==>
              rid.slot >= 0 && IsLive(v, chain, rid)
              && RowsFrom(v, first, chain, k, rid.slot) == RowsFrom(v, first, chain, k0, slot0)
      ensures k == |chain| ==> rid.slot == 0 && (FreeFrames(bpm.V()) >= 1 ==>
                               RowsFrom(v, first, chain, k0, slot0) == [])
    {
      hide OkBut, PageOk, FreeFrames, Content, Pins, SameContent, ChainOk, RowsFrom, IsLive;
      var p, slot := p0, slot0;
      k := k0;
      InChain(v, first, chain, k);
      while p != INVALID_PAGE_ID
        invariant Valid() && SameContent(v, bpm.V()) && bpm.nextId == v.nextId
                  && FreeFrames(bpm.V()) == FreeFrames(old(bpm.V()))
        invariant k <= |chain| && p == (if k < |chain| then chain[k] else INVALID_PAGE_ID)
                  && (p == INVALID_PAGE_ID <==> k == |chain|)
        invariant RowsFrom(v, first, chain, k, slot) == RowsFrom(v, first, chain, k0, slot0)
        invariant forall q :: Pins(bpm.V(), q) == Pins(old(bpm.V()), q)
        decreases |chain| - k
      {
        ghost var v1 := bpm.V();
        ChainFacts(v, first, chain, k);
        ContentSame(v, v1, p);
        var page := OpenPage(p);
        if page.None? {
          k := |chain|;
          return RID(INVALID_PAGE_ID, 0), k;
        }
        ghost var v2 := bpm.V();
        SameTwice(v, v1, v2);
        ContentSame(v, v2, p);
        var n, next := page.value.GetNumTuples(), page.value.GetNextPageId();
        ghost var from := slot;
        slot := NextLive(page.value, slot);
        ClosePage(p);
        SameTwice(v, v2, bpm.V());
        ChainSame(v, bpm.V(), first, chain);
        SkipDead(v, first, chain, k, from, slot);
        if slot < n {
          LiveHere(v, first, chain, k, slot);
          return RID(p, slot), k;
        }
        LinkFacts(chain, k);
        PageDone(v, first, chain, k, slot);
        p, slot := next, 0;
        k := k + 1;
        InChain(v, first, chain, k);
      }
      AtEnd(v, first, chain, k, slot);
      return RID(INVALID_PAGE_ID, 0), k;
    }

    /** A new page at the end of the chain, which stays pinned; the last page `p` is given back. */
    method AppendPage(p: PageId, page: TablePage) returns (r: Option<PageId>)
      requires Valid() && p == chain[|chain| - 1] && Pins(bpm.V(), p) > 0 && bpm.nextId < 0x8000_0000
      requires page.Valid() && page.data[..] == Content(bpm.V(), p)
      modifies this`chain, bpm, bpm.frames, bpm.replacer, page.data
      ensures bpm.Valid() && ChainOk(bpm.V(), first, chain) && SameRows(old(bpm.V()), old(chain), bpm.V(), chain)
      ensures r.None? ==> bpm.touched == {} && chain == old(chain) && FreeFrames(old(bpm.V())) <= 0
      ensures r.None? ==> forall q :: Pins(bpm.V(), q) == Pins(old(bpm.V()), q) - if q == p then 1 else 0
      ensures r.Some? ==>
              bpm.touched == {r.value} && chain == old(chain) + [r.value]
              && Content(bpm.V(), r.value) == Init(INVALID_PAGE_ID)
      ensures r.Some? ==> r.value != p && Pins(old(bpm.V()), r.value) == 0
      ensures r.Some? ==>
              forall q :: Pins(bpm.V(), q) == if q == r.value then 1 else Pins(old(bpm.V()), q) - if q == p then 1
              else 0
    {
      hide OkBut, PageOk, FreeFrames, Content, Pins, SameContent, ChainOk, SameRows, AllPinned, Loaded, Init, WithNext,
        Rewrote, Remembers, EvictedFrom;
      ghost var v := bpm.V();
      FreeMeansUnpinned(v);
      LastFacts(v, first, chain);
      var added := bpm.NewPage();
      if added.None? {
        ClosePage(p);
        ChainSame(v, bpm.V(), first, chain);
        return None;
      }
      var id := added.value;
      NotResident(v, id);
      ghost var va := bpm.V();
      bpm.Write(id, Init(INVALID_PAGE_ID));
      ghost var vb := bpm.V();
      page.SetNextPageId(id);
      SavePage(p, page.data[..]);
      Extended(v, va, vb, bpm.V(), first, chain, id);
      chain := chain + [id];
      return Some(id);
    }

    /** A new page at the end of the chain, and the tuple on it. The last page `p` is pinned. */
    method Extend(p: PageId, page: TablePage, t: seq<Byte>) returns (r: Option<RID>)
      requires Valid() && p == chain[|chain| - 1] && Pins(bpm.V(), p) > 0 && bpm.nextId < 0x8000_0000
      requires page.Valid() && page.data[..] == Content(bpm.V(), p)
      modifies this`chain, bpm, bpm.frames, bpm.replacer, page.data
      ensures Valid() && old(chain) <= chain && |chain| <= |old(chain)| + 1
      ensures r.None? || t == [] ==> SameRows(old(bpm.V()), old(chain), bpm.V(), chain)
      ensures r.Some? && t != [] ==> RowAdded(old(bpm.V()), old(chain), bpm.V(), chain, r.value, t)
      ensures r.Some? ==> chain == old(chain) + [r.value.page] && r.value.slot == 0
      ensures FreeFrames(old(bpm.V())) >= 1 && |t| <= LARGEST ==> r.Some?
      ensures forall q :: Pins(bpm.V(), q) == Pins(old(bpm.V()), q) - if q == p then 1 else 0
    {
      hide OkBut, PageOk, FreeFrames, Content, Pins, ChainOk, SameRows, RowAdded, Init, Inserted, Rewrote, Fits, Stored;
      ghost var v := bpm.V();
      var added := AppendPage(p, page);
      if added.None? {
        return None;
      }
      var id := added.value;
      ghost var v1 := bpm.V();
      InitOk(INVALID_PAGE_ID);
      var blank := new TablePage(Init(INVALID_PAGE_ID));
      FitsEmpty(t);
      var slot := blank.InsertTuple(t);
      SavePage(id, blank.data[..]);
      if slot.None? {
        SavedSame(v, v1, bpm.V(), first, old(chain), chain, id);
        return None;
      }
      SavedNew(v, v1, bpm.V(), first, old(chain), chain, id, t);
      return Some(RID(id, slot.value));
    }
  }

  lemma ContentSame(v: View, v': View, p: PageId)
    requires SameContent(v, v')
    ensures Content(v', p) == Content(v, p)
  {
  }

  lemma PageLength(d: seq<Byte>)
    requires PageOk(d)
    ensures |d| == TablePages.PAGE_SIZE
  {
  }

  lemma ChainFacts(v: View, first: PageId, chain: seq<PageId>, k: nat)
    requires ChainOk(v, first, chain) && k < |chain|
    ensures chain[0] == first && PageIn(v, chain, k) && 0 <= chain[k] < v.nextId && PageOk(Content(v, chain[k]))
    ensures NextId(Content(v, chain[k])) == LinkAt(chain, k)
            && (LinkAt(chain, k) == INVALID_PAGE_ID <==> k + 1 == |chain|)
  {
    assert PageIn(v, chain, k);
    if k + 1 < |chain| { assert PageIn(v, chain, k + 1); }
  }

  lemma LinkFacts(chain: seq<PageId>, k: nat)
    requires k < |chain|
    ensures LinkAt(chain, k) == if k + 1 < |chain| then chain[k + 1] else INVALID_PAGE_ID
  {
  }

  lemma ChainEnd(v: View, first: PageId, chain: seq<PageId>, k: nat)
    requires ChainOk(v, first, chain) && k < |chain|
    ensures LinkAt(chain, k) == INVALID_PAGE_ID ==> k + 1 == |chain|
  {
    if k + 1 < |chain| { assert PageIn(v, chain, k + 1); }
  }

  /** What is true of a change is true of it from any state with the same contents. */
  lemma RowsVia(v: View, v2: View, chain: seq<PageId>, v': View, chain': seq<PageId>, r: Option<RID>, t: seq<Byte>)
    requires SameContent(v, v2)
    ensures SameRows(v2, chain, v', chain') ==> SameRows(v, chain, v', chain')
    ensures r.Some? && RowAdded(v2, chain, v', chain', r.value, t) ==> RowAdded(v, chain, v', chain', r.value, t)
  {
    hide Content, Count, Length, Tuple;
    forall rid ensures (IsLive(v2, chain, rid) <==> IsLive(v, chain, rid))
      && (IsLive(v, chain, rid) ==> TupleAt(v2, chain, rid) == TupleAt(v, chain, rid)) {
      ContentSame(v, v2, rid.page);
    }
  }

  lemma ChainUnchanged(v: View, first: PageId, chain: seq<PageId>)
    requires ChainOk(v, first, chain)
    ensures SameContent(v, v) && SameRows(v, chain, v, chain) && chain != [] && chain[0] == first
  {
  }

  /** The page `k` was saved with one tuple more. */
  lemma SavedRow(v: View, v1: View, v': View, first: PageId, chain: seq<PageId>, k: nat, t: seq<Byte>)
    requires ChainOk(v, first, chain) && k < |chain| && PageOk(Content(v, chain[k])) && Fits(Content(v, chain[k]), t)
    requires SameContent(v, v1) && v1.nextId == v.nextId && FreePointer(Content(v, chain[k])) <= TablePages.PAGE_SIZE
    requires Rewrote(v1, v', chain[k], Inserted(Content(v, chain[k]), t))
    ensures ChainOk(v', first, chain)
    ensures var rid := RID(chain[k], Count(Content(v, chain[k])));
            if t == [] then SameRows(v, chain, v', chain) else RowAdded(v, chain, v', chain, rid, t)
  {
    hide ChainOk, PageOk, Content, SameRows, RowAdded, Inserted;
    InsertedRow(v, v', first, chain, k, t);
  }

  lemma LastFacts(v: View, first: PageId, chain: seq<PageId>)
    requires ChainOk(v, first, chain)
    ensures chain != [] && var last := chain[|chain| - 1];
            last in chain && 0 <= last < v.nextId && PageOk(Content(v, last))
  {
    assert PageIn(v, chain, |chain| - 1);
  }

  /** Init and link, as the pool shows them. */
  lemma Extended(v: View, va: View, vb: View, v': View, first: PageId, chain: seq<PageId>, id: PageId)
    requires ChainOk(v, first, chain) && chain != [] && id == v.nextId && v'.nextId == v.nextId + 1 && id < 0x8000_0000
    requires PageOk(Content(v, chain[|chain| - 1])) && chain[|chain| - 1] < v.nextId
    requires |Content(v, chain[|chain| - 1])| == TablePages.PAGE_SIZE
    requires SameContent(v, va)
             && (forall q :: Content(vb, q) == if q == id then Init(INVALID_PAGE_ID) else Content(va, q))
    requires Rewrote(vb, v', chain[|chain| - 1], WithNext(Content(v, chain[|chain| - 1]), id))
    ensures ChainOk(v', first, chain + [id]) && SameRows(v, chain, v', chain + [id])
            && Content(v', id) == Init(INVALID_PAGE_ID)
  {
    hide ChainOk, PageOk, Content, SameRows, Init, WithNext;
    LinkWritten(Content(v, chain[|chain| - 1]), id);
    Appended(v, v', first, chain, id);
  }

  lemma FitsEmpty(t: seq<Byte>)
    ensures Fits(Init(INVALID_PAGE_ID), t) <==> |t| <= LARGEST
  {
    hide Init, Count, FreePointer;
    InitOk(INVALID_PAGE_ID);
  }

  /** The new page was saved as it was. */
  lemma SavedSame(v: View, v1: View, v': View, first: PageId, chain: seq<PageId>, chain': seq<PageId>, id: PageId)
    requires ChainOk(v1, first, chain') && SameRows(v, chain, v1, chain') && Rewrote(v1, v', id, Content(v1, id))
    ensures ChainOk(v', first, chain') && SameRows(v, chain, v', chain')
  {
    hide ChainOk, Content;
    AsBefore(v1, v', id);
    ChainSame(v1, v', first, chain');
  }

  lemma AsBefore(v1: View, v': View, id: PageId)
    requires Rewrote(v1, v', id, Content(v1, id))
    ensures SameContent(v1, v') && v'.nextId >= v1.nextId
  {
  }

  /** The new page was saved with the tuple. */
  lemma SavedNew(v: View, v1: View, v': View, first: PageId, chain: seq<PageId>, chain': seq<PageId>, id: PageId,
      t: seq<Byte>)
    requires ChainOk(v1, first, chain') && SameRows(v, chain, v1, chain') && chain' != [] && chain'[|chain'| - 1] == id
    requires Content(v1, id) == Init(INVALID_PAGE_ID) && |t| <= LARGEST
             && FreePointer(Init(INVALID_PAGE_ID)) <= TablePages.PAGE_SIZE && Fits(Init(INVALID_PAGE_ID), t)
    requires Rewrote(v1, v', id, Inserted(Init(INVALID_PAGE_ID), t))
    ensures ChainOk(v', first, chain')
    ensures if t == [] then SameRows(v, chain, v', chain') else RowAdded(v, chain, v', chain', RID(id, 0), t)
  {
    hide ChainOk, PageOk, Content, Init, Inserted, Rewrote, Count, FreePointer, IsLive, TupleAt, Fits;
    InitOk(INVALID_PAGE_ID);
    InsertedRow(v1, v', first, chain', |chain'| - 1, t);
  }

  // ---------- one slot changes ----------

  /** The record `rid` now holds `t`, or is gone if `t` is empty; all others are as before. */
  ghost predicate RowSet(v: View, v': View, chain: seq<PageId>, rid: RID, t: seq<Byte>) {
    && (IsLive(v', chain, rid) <==> t != []) && (t != [] ==> IsLive(v', chain, rid) && TupleAt(v', chain, rid) == t)
    && forall x :: x != rid ==>
         (IsLive(v', chain, x) <==> IsLive(v, chain, x))
           && (IsLive(v, chain, x) && IsLive(v', chain, x) ==> TupleAt(v', chain, x) == TupleAt(v, chain, x))
  }

  lemma PlaceOf(v: View, first: PageId, chain: seq<PageId>, p: PageId) returns (k: nat)
    requires ChainOk(v, first, chain) && p in chain
    ensures k < |chain| && chain[k] == p
  {
    k :| 0 <= k < |chain| && chain[k] == p;
  }

  lemma SavedSlot(v: View, v1: View, v': View, first: PageId, chain: seq<PageId>, k: nat, i: nat, t: seq<Byte>,
      d: seq<Byte>)
    requires ChainOk(v, first, chain) && k < |chain| && SameContent(v, v1) && v1.nextId == v.nextId
             && Rewrote(v1, v', chain[k], d)
    requires Stored(Content(v, chain[k]), d, i, t) && Count(d) == Count(Content(v, chain[k])) && i < Count(d)
    ensures ChainOk(v', first, chain) && RowSet(v, v', chain, RID(chain[k], i), t)
  {
    hide PageOk, Stored;
    var d0 := Content(v, chain[k]);
    ChainFacts(v, first, chain, k);
    StoredNext(d0, d, i, t);
    ChainRewrote(v, v', first, chain, k, d);
    forall x | x != RID(chain[k], i)
      ensures IsLive(v', chain, x) <==> IsLive(v, chain, x)
      ensures IsLive(v, chain, x) && IsLive(v', chain, x) ==> TupleAt(v', chain, x) == TupleAt(v, chain, x)
    {
      if x.page == chain[k] && x.slot >= 0 { SlotsAfter(d0, d, i, t, x.slot); }
    }
    SlotsAfter(d0, d, i, t, i);
  }

  lemma StoredNext(d: seq<Byte>, d': seq<Byte>, i: nat, t: seq<Byte>)
    requires Stored(d, d', i, t)
    ensures PageOk(d') && NextId(d') == NextId(d)
  {
  }

  // ---------- the scan, step by step ----------

  /** All existing slots from `from` up to `to` are dead. */
  ghost predicate DeadBetween(d: seq<Byte>, from: nat, to: nat) {
    forall i {:trigger HasSlot(d, i)} :: from <= i < to && HasSlot(d, i) ==> Length(d, i) == 0
  }

  lemma {:induction false} DeadRows(d: seq<Byte>, p: PageId, from: nat, to: nat)
    requires |d| == TablePages.PAGE_SIZE && SlotEnd(d) <= TablePages.PAGE_SIZE && from <= to && DeadBetween(d, from, to)
    ensures PageRows(d, p, to) == PageRows(d, p, from)
    decreases (to as int) - (from as int)
  {
    hide Length, Tuple, Count;
    if from < to {
      DeadRows(d, p, from + 1, to);
      assert from < Count(d) ==> HasSlot(d, from);
    }
  }

  lemma SkipDead(v: View, first: PageId, chain: seq<PageId>, k: nat, from: nat, to: nat)
    requires ChainOk(v, first, chain) && k < |chain| && from <= to && DeadBetween(Content(v, chain[k]), from, to)
    ensures RowsFrom(v, first, chain, k, to) == RowsFrom(v, first, chain, k, from)
  {
    assert PageIn(v, chain, k);
    DeadRows(Content(v, chain[k]), chain[k], from, to);
  }

  lemma LiveHere(v: View, first: PageId, chain: seq<PageId>, k: nat, slot: nat)
    requires ChainOk(v, first, chain) && k < |chain| && HasSlot(Content(v, chain[k]), slot)
             && Length(Content(v, chain[k]), slot) > 0
    ensures IsLive(v, chain, RID(chain[k], slot))
    ensures RowsFrom(v, first, chain, k, slot) == [Row(RID(chain[k], slot), Tuple(Content(v, chain[k]), slot))]
            + RowsFrom(v, first, chain, k, slot + 1)
  {
    assert PageIn(v, chain, k);
  }

  lemma PageDone(v: View, first: PageId, chain: seq<PageId>, k: nat, slot: nat)
    requires ChainOk(v, first, chain) && k < |chain| && |Content(v, chain[k])| == TablePages.PAGE_SIZE
             && slot >= Count(Content(v, chain[k]))
    ensures RowsFrom(v, first, chain, k, slot) == RowsFrom(v, first, chain, k + 1, 0)
  {
    assert PageIn(v, chain, k);
  }

  lemma InChain(v: View, first: PageId, chain: seq<PageId>, k: nat)
    requires ChainOk(v, first, chain)
    ensures k < |chain| ==> chain[k] != INVALID_PAGE_ID
  {
    if k < |chain| { assert PageIn(v, chain, k); }
  }

  lemma AtEnd(v: View, first: PageId, chain: seq<PageId>, k: nat, slot: nat)
    requires ChainOk(v, first, chain) && k == |chain|
    ensures RowsFrom(v, first, chain, k, slot) == []
  {
  }

  class Iterator {
    const heap: TableHeap
    var rid: RID
    /** The page's place in the chain. */
    ghost var k: nat

    constructor (heap: TableHeap, rid: RID, ghost k: nat)
      ensures this.heap == heap && this.rid == rid && this.k == k
    {
      this.heap, this.rid, this.k := heap, rid, k;
    }

    predicate IsEnd()
      reads this
    {
      rid.page == INVALID_PAGE_ID
    }

    /** The iterator stands before exactly these rows of the contents `v`. */
    ghost predicate Before(v: View, rows: seq<Row>)
      reads this, heap
    {
      && ChainOk(v, heap.first, heap.chain) && k <= |heap.chain|
      && rid.page == (if k < |heap.chain| then heap.chain[k] else INVALID_PAGE_ID)
      && (k < |heap.chain| ==>
            rid.slot >= 0 && IsLive(v, heap.chain, rid) && rows == RowsFrom(v, heap.first, heap.chain, k, rid.slot))
      && (k == |heap.chain| ==> rid.slot == 0 && rows == [])
    }

    /** The current row. */
    method Deref(ghost v: View, ghost rows: seq<Row>) returns (t: Option<seq<Byte>>)
      requires heap.Valid() && SameContent(v, heap.bpm.V()) && Before(v, rows) && rows != []
               && heap.bpm.nextId == v.nextId
      modifies heap.bpm, heap.bpm.frames, heap.bpm.replacer
      ensures heap.Valid() && SameContent(v, heap.bpm.V()) && FreeFrames(heap.bpm.V()) == FreeFrames(old(heap.bpm.V()))
              && heap.bpm.nextId == v.nextId
      ensures forall q :: Pins(heap.bpm.V(), q) == Pins(old(heap.bpm.V()), q)
      ensures t.None? ==> FreeFrames(heap.bpm.V()) <= 0
      ensures t.Some? ==> rows[0] == Row(rid, t.value)
    {
      hide OkBut, PageOk, FreeFrames, Content, Pins, SameContent, ChainOk, RowsFrom;
      ghost var v1 := heap.bpm.V();
      ContentSame(v, v1, rid.page);
      LiveRow(v, heap.first, heap.chain, k, rid);
      t := heap.GetTuple(rid);
      SameTwice(v, v1, heap.bpm.V());
    }

    /** On to the next live row. */
    method Increment(ghost v: View, ghost rows: seq<Row>)
      requires heap.Valid() && SameContent(v, heap.bpm.V()) && Before(v, rows) && rows != []
               && heap.bpm.nextId == v.nextId
      modifies this, heap.bpm, heap.bpm.frames, heap.bpm.replacer
      ensures heap.Valid() && SameContent(v, heap.bpm.V()) && FreeFrames(heap.bpm.V()) == FreeFrames(old(heap.bpm.V()))
              && heap.bpm.nextId == v.nextId
      ensures forall q :: Pins(heap.bpm.V(), q) == Pins(old(heap.bpm.V()), q)
      ensures FreeFrames(heap.bpm.V()) >= 1 ==> Before(v, rows[1..])
    {
      hide OkBut, PageOk, FreeFrames, Content, Pins, SameContent, ChainOk, RowsFrom, IsLive;
      LiveRow(v, heap.first, heap.chain, k, rid);
      rid, k := heap.Seek(rid.page, rid.slot + 1, k, v);
    }
  }

  lemma LiveRow(v: View, first: PageId, chain: seq<PageId>, k: nat, rid: RID)
    requires ChainOk(v, first, chain) && k < |chain| && rid.page == chain[k] && rid.slot >= 0 && IsLive(v, chain, rid)
    ensures RowsFrom(v, first, chain, k, rid.slot) == [Row(rid, TupleAt(v, chain, rid))]
            + RowsFrom(v, first, chain, k, rid.slot + 1)
    ensures RowsFrom(v, first, chain, k, rid.slot)[1..] == RowsFrom(v, first, chain, k, rid.slot + 1)
    ensures rid.page in chain && HasSlot(Content(v, rid.page), rid.slot)
  {
    LiveHere(v, first, chain, k, rid.slot);
  }

  method Begin(heap: TableHeap) returns (it: Iterator)
    requires heap.Valid()
    modifies heap.bpm, heap.bpm.frames, heap.bpm.replacer
    ensures heap.Valid() && SameContent(old(heap.bpm.V()), heap.bpm.V())
            && FreeFrames(heap.bpm.V()) == FreeFrames(old(heap.bpm.V()))
    ensures fresh(it) && it.heap == heap && heap.bpm.nextId == old(heap.bpm.nextId)
    ensures forall q :: Pins(heap.bpm.V(), q) == Pins(old(heap.bpm.V()), q)
    ensures FreeFrames(heap.bpm.V()) >= 1 ==>
            it.Before(old(heap.bpm.V()), ChainRows(old(heap.bpm.V()), heap.first, heap.chain, 0))
  {
    hide OkBut, PageOk, FreeFrames, Content, Pins, SameContent, ChainOk, RowsFrom, ChainRows, IsLive;
    ghost var v := heap.bpm.V();
    ChainUnchanged(v, heap.first, heap.chain);
    FromStart(v, heap.first, heap.chain);
    ghost var k;
    var rid;
    rid, k := heap.Seek(heap.first, 0, 0, v);
    it := new Iterator(heap, rid, k);
  }

  lemma FromStart(v: View, first: PageId, chain: seq<PageId>)
    requires ChainOk(v, first, chain)
    ensures RowsFrom(v, first, chain, 0, 0) == ChainRows(v, first, chain, 0)
  {
  }

  /** `for (it = Begin(); it != End(); ++it)`: every live row once, page by page and slot by slot. */
  method Scan(heap: TableHeap) returns (rows: seq<Row>)
    requires heap.Valid() && FreeFrames(heap.bpm.V()) >= 1
    modifies heap.bpm, heap.bpm.frames, heap.bpm.replacer
    ensures heap.Valid() && SameContent(old(heap.bpm.V()), heap.bpm.V())
    ensures forall q :: Pins(heap.bpm.V(), q) == Pins(old(heap.bpm.V()), q)
    ensures rows == ChainRows(old(heap.bpm.V()), heap.first, heap.chain, 0)
  {
    hide OkBut, PageOk, FreeFrames, Content, Pins, SameContent, ChainOk, RowsFrom, ChainRows, IsLive, Iterator.Before;
    ghost var v := heap.bpm.V();
    ghost var all := ChainRows(v, heap.first, heap.chain, 0);
    var it := Begin(heap);
    rows := [];
    EndIsEmpty(it, v, all);
    while !it.IsEnd()
      invariant heap.Valid() && SameContent(v, heap.bpm.V()) && FreeFrames(heap.bpm.V()) >= 1
                && heap.bpm.nextId == v.nextId
      invariant forall q :: Pins(heap.bpm.V(), q) == Pins(v, q)
      invariant |rows| <= |all| && rows == all[..|rows|] && it.Before(v, all[|rows|..])
                && (it.IsEnd() <==> |rows| == |all|)
      decreases |all| - |rows|
    {
      ghost var rest := all[|rows|..];
      var rid := it.rid;
      var t := it.Deref(v, rest);
      it.Increment(v, rest);
      rows := rows + [Row(rid, t.value)];
      assert rest[1..] == all[|rows|..];
      EndIsEmpty(it, v, all[|rows|..]);
    }
    assert all[..|all|] == all;
  }

  lemma EndIsEmpty(it: Iterator, v: View, rows: seq<Row>)
    requires it.Before(v, rows)
    ensures it.IsEnd() <==> rows == []
  {
    if it.k < |it.heap.chain| {
      LiveRow(v, it.heap.first, it.heap.chain, it.k, it.rid);
      InChain(v, it.heap.first, it.heap.chain, it.k);
    }
  }
}
