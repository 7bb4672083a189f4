/** The buffer pool as the B+ tree sees it: pages that are pinned before they are touched,
    unpinned afterwards, and marked dirty when they were changed. `heap` is the value of
    all pages; every operation says how it changes `heap`, the pins and nothing else. */
module PagePool {
  import opened Common
  import opened TreePages
  import opened TreeShape

  datatype Page = LeafRef(leaf: LeafPage) | InnerRef(inner: InternalPage)

  ghost function Objects(pg: Page): set<object> {
    match pg
    case LeafRef(l) => {l, l.array_}
    case InnerRef(n) => {n, n.array_}
  }

  ghost predicate PageValid(pg: Page)
    reads Objects(pg)
  {
    match pg
    case LeafRef(l) => l.Valid()
    case InnerRef(n) => n.Valid()
  }

  ghost function PageView(pg: Page): Node
    requires PageValid(pg)
    reads Objects(pg)
  {
    match pg
    case LeafRef(l) => l.View()
    case InnerRef(n) => n.View()
  }

  method SetPageParent(pg: Page, parent: PageId)
    requires PageValid(pg)
    modifies Objects(pg)
    ensures PageValid(pg) && PageView(pg) == WithParent(old(PageView(pg)), parent)
  {
    match pg
    case LeafRef(l) => l.parent := parent;
    case InnerRef(n) => n.parent := parent;
  }

  /** Room for the entry that is inserted before a split. */
  ghost predicate RoomOk(pg: Page, n: Node, leafCapacity: nat, innerCapacity: nat) {
    match pg
    case LeafRef(l) => l.array_.Length == leafCapacity && n.max < leafCapacity
    case InnerRef(i) => i.array_.Length == innerCapacity && n.max < innerCapacity
  }

  ghost function Pinned(pins: map<PageId, nat>): set<PageId> {
    set p | p in pins && pins[p] > 0
  }

  lemma PinnedAfter(pins: map<PageId, nat>, id: PageId, n: nat)
    ensures |Pinned(pins[id := n])| ==
            |Pinned(pins)| + (if n > 0 then 1 else 0) - (if id in pins && pins[id] > 0 then 1 else 0)
  {
    var rest := Pinned(pins) - {id};
    assert Pinned(pins) == if id in pins && pins[id] > 0 then rest + {id} else rest;
    assert Pinned(pins[id := n]) == if n > 0 then rest + {id} else rest;
  }

  lemma PinnedWithout(pins: map<PageId, nat>, id: PageId)
    requires id in pins && pins[id] == 0
    ensures |Pinned(pins - {id})| == |Pinned(pins)|
  {
    assert Pinned(pins - {id}) == Pinned(pins);
  }

  class Pool {
    const frames: nat
    const leafCapacity: nat
    const innerCapacity: nat
    var pages: map<PageId, Page>
    var pins: map<PageId, nat>
    var nextId: nat

    ghost var heap: Heap
    ghost var repr: set<object>
    /** Frames that hold no pinned page. */
    ghost var free: nat
    /** Pages changed since they were last unpinned as dirty. */
    ghost var unsaved: set<PageId>

    ghost predicate PageIn(p: PageId)
      requires p in pages && p in heap
      reads this`pages, this`heap, this`repr, repr
    {
      && Objects(pages[p]) <= repr && PageValid(pages[p]) && PageView(pages[p]) == heap[p]
      && RoomOk(pages[p], heap[p], leafCapacity, innerCapacity)
    }

    ghost predicate PagesOk()
      reads this`pages, this`heap, this`repr, this`nextId, repr
    {
      && this !in repr && pages.Keys == heap.Keys
      && (forall p {:trigger p in heap} :: p in heap ==> 0 <= p < nextId && PageIn(p))
      && (forall p, q {:trigger Objects(pages[p]), Objects(pages[q])} :: p in heap && q in heap && p != q ==>
            Objects(pages[p]) !! Objects(pages[q]))
    }

    ghost predicate Valid()
      reads this, repr
    {
      this !in repr && PagesOk() && pins.Keys == heap.Keys && free + |Pinned(pins)| == frames
    }

    constructor (frames: nat, leafCapacity: nat, innerCapacity: nat)
      ensures Valid() && fresh(repr) && heap == map[] && unsaved == {} && free == frames
      ensures this.frames == frames && this.leafCapacity == leafCapacity && this.innerCapacity == innerCapacity
    {
      this.frames, this.leafCapacity, this.innerCapacity := frames, leafCapacity, innerCapacity;
      pages, pins, nextId := map[], map[], 0;
      heap, repr, free, unsaved := map[], {}, frames, {};
    }

    // ---------- pins ----------

    method FetchPage(id: PageId)
      requires Valid() && id in heap && (pins[id] > 0 || free > 0)
      modifies this`pins, this`free
      ensures Valid() && pins == old(pins)[id := old(pins)[id] + 1]
      ensures free == if old(pins)[id] == 0 then old(free) - 1 else old(free)
    {
      hide Pinned, PagesOk;
      PinnedAfter(pins, id, pins[id] + 1);
      if pins[id] == 0 { free := free - 1; }
      pins := pins[id := pins[id] + 1];
    }

    /** A change must be announced by the last holder at the latest. */
    method UnpinPage(id: PageId, isDirty: bool)
      requires Valid() && id in heap && pins[id] > 0
      requires isDirty || id !in unsaved
      modifies this`pins, this`free, this`unsaved
      ensures Valid() && pins == old(pins)[id := old(pins)[id] - 1]
      ensures free == if old(pins)[id] == 1 then old(free) + 1 else old(free)
      ensures unsaved == old(unsaved) - {id}
    {
      hide Pinned, PagesOk;
      PinnedAfter(pins, id, pins[id] - 1);
      if pins[id] == 1 { free := free + 1; }
      pins := pins[id := pins[id] - 1];
      unsaved := unsaved - {id};
    }

    /** An unpin that is refused when the page has no pin. */
    method TryUnpin(id: PageId)
      requires Valid() && id !in unsaved
      modifies this`pins, this`free, this`unsaved
      ensures Valid() && unsaved == old(unsaved)
      ensures pins == if id in old(pins) && old(pins)[id] > 0 then old(pins)[id := old(pins)[id] - 1] else old(pins)
      ensures free == if id in old(pins) && old(pins)[id] == 1 then old(free) + 1 else old(free)
    {
      if id in pins && pins[id] > 0 {
        UnpinPage(id, false);
      }
    }

    /** Puts a page into a free frame under the next page id. */
    method Register(page: Page, ghost n: Node) returns (id: PageId)
      requires Valid() && free > 0
      requires PageValid(page) && PageView(page) == n && RoomOk(page, n, leafCapacity, innerCapacity)
      requires Objects(page) !! repr && this !in Objects(page)
      modifies this
      ensures Valid() && repr == old(repr) + Objects(page)
      ensures id >= 0 && id !in old(heap) && heap == old(heap)[id := n]
      ensures pins == old(pins)[id := 1] && free == old(free) - 1
      ensures unsaved == old(unsaved) + {id}
    {
      hide Pinned, PagesOk;
      FreshId();
      id := nextId;
      PinnedAfter(pins, id, 1);
      pages, pins, nextId := pages[id := page], pins[id := 1], nextId + 1;
      heap := heap[id := n];
      repr := repr + Objects(page);
      free, unsaved := free - 1, unsaved + {id};
      OnlyAdded(id);
    }

    method NewLeaf(max: nat) returns (id: PageId)
      requires Valid() && free > 0 && max < leafCapacity
      modifies this
      ensures Valid() && fresh(repr - old(repr)) && old(repr) <= repr
      ensures id >= 0 && id !in old(heap)
      ensures heap == old(heap)[id := Leaf(max, INVALID_PAGE_ID, INVALID_PAGE_ID, [])]
      ensures pins == old(pins)[id := 1] && free == old(free) - 1
      ensures unsaved == old(unsaved) + {id}
    {
      var page := new LeafPage(leafCapacity, max);
      id := Register(LeafRef(page), page.View());
    }

    /** Slot 0 of a fresh internal page has the key 0. */
    method NewInternal(max: nat) returns (id: PageId)
      requires Valid() && free > 0 && max < innerCapacity
      modifies this
      ensures Valid() && fresh(repr - old(repr)) && old(repr) <= repr
      ensures id >= 0 && id !in old(heap)
      ensures heap == old(heap)[id := Inner(max, INVALID_PAGE_ID, [])]
      ensures pins == old(pins)[id := 1] && free == old(free) - 1
      ensures unsaved == old(unsaved) + {id}
    {
      var page := new InternalPage(innerCapacity, max);
      id := Register(InnerRef(page), page.View());
    }

    /** Refuses while the page is pinned. */
    method DeletePage(id: PageId) returns (ok: bool)
      requires Valid() && id in heap && id !in unsaved
      modifies this
      ensures Valid() && repr == old(repr) && free == old(free) && unsaved == old(unsaved)
      ensures ok <==> old(pins)[id] == 0
      ensures ok ==> heap == old(heap) - {id} && pins == old(pins) - {id}
      ensures !ok ==> heap == old(heap) && pins == old(pins)
    {
      ok := pins[id] == 0;
      if ok {
        Forget(id);
      }
    }

    method Forget(id: PageId)
      requires Valid() && id in heap && pins[id] == 0
      modifies this`pages, this`pins, this`heap
      ensures Valid() && heap == old(heap) - {id} && pins == old(pins) - {id}
    {
      hide Pinned, PagesOk;
      PinnedWithout(pins, id);
      pages := pages - {id};
      pins := pins - {id};
      heap := heap - {id};
      OnlyRemoved(id);
    }

    lemma FreshId()
      requires PagesOk()
      ensures nextId !in heap && this !in repr && pages.Keys == heap.Keys
    {
    }

    lemma OpenPage(id: PageId)
      requires PagesOk() && id in heap
      ensures id in pages && 0 <= id < nextId && PageIn(id) && this !in repr
    {
    }

    lemma OpenTwo(a: PageId, b: PageId)
      requires PagesOk() && a in heap && b in heap && a != b
      ensures a in pages && b in pages && PageIn(a) && PageIn(b) && Objects(pages[a]) !! Objects(pages[b])
              && this !in repr
    {
    }

    /** Only the fresh page `id` was added. */
    twostate lemma OnlyAdded(id: PageId)
      requires old(PagesOk()) && old(nextId) == id && nextId == id + 1
      requires id in pages && id in heap && heap == old(heap)[id := heap[id]] && pages == old(pages)[id := pages[id]]
      requires repr == old(repr) + Objects(pages[id]) && this !in repr
      requires forall o {:trigger o in repr} :: o in old(repr) ==> unchanged(o)
      requires PageIn(id) && forall o :: o in Objects(pages[id]) ==> o !in old(repr)
      ensures PagesOk()
    {
      forall p | p in heap ensures 0 <= p < nextId && PageIn(p) {
        if p != id {
          assert old(PageIn(p));
        }
      }
      forall p, q | p in heap && q in heap && p != q ensures Objects(pages[p]) !! Objects(pages[q]) {
        if p != id { assert old(PageIn(p)); }
        if q != id { assert old(PageIn(q)); }
      }
    }

    /** The page `id` is gone, and nothing was written. */
    twostate lemma OnlyRemoved(id: PageId)
      requires old(PagesOk()) && id in old(heap) && heap == old(heap) - {id} && pages == old(pages) - {id}
      requires repr == old(repr) && nextId == old(nextId) && forall o {:trigger o in repr} :: o in repr ==> unchanged(o)
      ensures PagesOk()
    {
      forall p | p in heap ensures 0 <= p < nextId && PageIn(p) {
        assert old(PageIn(p));
      }
    }

    /** Only the page `id` was rewritten. */
    twostate lemma OnlyOneRewritten(id: PageId)
      requires old(PagesOk()) && id in old(heap)
      requires pages == old(pages) && repr == old(repr) && nextId == old(nextId)
      requires id in heap && heap == old(heap)[id := heap[id]]
      requires forall o {:trigger o in repr} :: o in repr && o !in Objects(pages[id]) ==> unchanged(o)
      requires PageIn(id)
      ensures PagesOk()
    {
      forall p | p in heap ensures 0 <= p < nextId && PageIn(p) {
        if p != id {
          assert old(PageIn(p));
          assert Objects(pages[id]) !! Objects(pages[p]);
        }
      }
    }

    /** Only the pages `a` and `b` were rewritten. */
    twostate lemma OnlyRewritten(ab: (PageId, PageId))
      requires old(PagesOk()) && ab.0 in old(heap) && ab.1 in old(heap)
      requires pages == old(pages) && repr == old(repr) && nextId == old(nextId)
      requires heap.Keys == old(heap.Keys) && heap == old(heap)[ab.0 := heap[ab.0]][ab.1 := heap[ab.1]]
      requires forall o {:trigger o in repr} ::
                 o in repr && o !in Objects(pages[ab.0]) && o !in Objects(pages[ab.1]) ==> unchanged(o)
      requires PageIn(ab.0) && PageIn(ab.1)
      ensures PagesOk()
    {
      forall p | p in heap ensures 0 <= p < nextId && PageIn(p) {
        if p != ab.0 && p != ab.1 {
          assert old(PageIn(p));
          assert Objects(pages[ab.0]) !! Objects(pages[p]) && Objects(pages[ab.1]) !! Objects(pages[p]);
        }
      }
    }

    // ---------- reading a pinned page ----------

    function IsLeafPage(id: PageId): (r: bool)
      requires Valid() && id in heap && pins[id] > 0
      reads this, repr
      ensures r == heap[id].Leaf?
    {
      pages[id].LeafRef?
    }

    function GetSize(id: PageId): (r: nat)
      requires Valid() && id in heap && pins[id] > 0
      reads this, repr
      ensures r == heap[id].Count()
    {
      match pages[id]
      case LeafRef(l) => l.size
      case InnerRef(n) => n.size
    }

    function GetMaxSize(id: PageId): (r: nat)
      requires Valid() && id in heap && pins[id] > 0
      reads this, repr
      ensures r == heap[id].max
    {
      match pages[id]
      case LeafRef(l) => l.maxSize
      case InnerRef(n) => n.maxSize
    }

    function GetMinSize(id: PageId): (r: nat)
      requires Valid() && id in heap && pins[id] > 0
      reads this, repr
      ensures r == heap[id].MinSize()
    {
      if IsLeafPage(id) then GetMaxSize(id) / 2 else (GetMaxSize(id) + 1) / 2
    }

    function GetParentPageId(id: PageId): (r: PageId)
      requires Valid() && id in heap && pins[id] > 0
      reads this, repr
      ensures r == heap[id].parent
    {
      match pages[id]
      case LeafRef(l) => l.parent
      case InnerRef(n) => n.parent
    }

    predicate IsRootPage(id: PageId)
      requires Valid() && id in heap && pins[id] > 0
      reads this, repr
    {
      GetParentPageId(id) == INVALID_PAGE_ID
    }

    function GetNextPageId(id: PageId): (r: PageId)
      requires Valid() && id in heap && pins[id] > 0 && heap[id].Leaf?
      reads this, repr
      ensures r == heap[id].next
    {
      pages[id].leaf.next
    }

    function LeafEntryAt(id: PageId, i: nat): (r: Entry)
      requires Valid() && id in heap && pins[id] > 0 && heap[id].Leaf? && i < |heap[id].entries|
      reads this, repr
      ensures r == heap[id].entries[i]
    {
      pages[id].leaf.array_[i]
    }

    function SlotAt(id: PageId, i: nat): (r: Slot)
      requires Valid() && id in heap && pins[id] > 0 && heap[id].Inner? && i < |heap[id].slots|
      reads this, repr
      ensures r == heap[id].slots[i]
    {
      pages[id].inner.array_[i]
    }

    method LeafKeyIndex(id: PageId, key: int) returns (r: nat)
      requires Valid() && id in heap && pins[id] > 0 && heap[id].Leaf? && Sorted(heap[id].entries)
      ensures r == LowerBound(heap[id].entries, key)
    {
      OpenPage(id);
      r := pages[id].leaf.KeyIndex(key);
    }

    method LeafLookup(id: PageId, key: int) returns (r: Option<RID>)
      requires Valid() && id in heap && pins[id] > 0 && heap[id].Leaf? && Sorted(heap[id].entries)
      ensures r.Some? <==> HasKey(heap[id].entries, key)
      ensures r.Some? ==> Entry(key, r.value) in heap[id].entries
    {
      OpenPage(id);
      r := pages[id].leaf.Lookup(key);
    }

    method InnerLookup(id: PageId, key: int) returns (r: PageId)
      requires Valid() && id in heap && pins[id] > 0 && heap[id].Inner? && |heap[id].slots| > 0
      ensures r == heap[id].slots[Route(heap[id].slots, key)].child
    {
      OpenPage(id);
      r := pages[id].inner.Lookup(key);
    }

    method ValueIndex(id: PageId, child: PageId) returns (r: int)
      requires Valid() && id in heap && pins[id] > 0 && heap[id].Inner?
      ensures r == ChildIndex(heap[id].slots, child)
    {
      OpenPage(id);
      r := pages[id].inner.ValueIndex(child);
    }

    // ---------- writing pinned pages ----------

    method SetParentPageId(id: PageId, parent: PageId)
      requires Valid() && id in heap && pins[id] > 0
      modifies this`heap, this`unsaved, repr
      ensures Valid() && unsaved == old(unsaved) + {id}
      ensures heap == old(heap)[id := WithParent(old(heap)[id], parent)]
    {
      hide Pinned, PagesOk;
      OpenPage(id);
      SetPageParent(pages[id], parent);
      heap := heap[id := PageView(pages[id])];
      unsaved := unsaved + {id};
      OnlyOneRewritten(id);
    }

    method SetNextPageId(id: PageId, next: PageId)
      requires Valid() && id in heap && pins[id] > 0
      requires heap[id].Leaf?
      modifies this`heap, this`unsaved, repr
      ensures Valid() && unsaved == old(unsaved) + {id}
      ensures heap == old(heap)[id := WithNext(old(heap)[id], next)]
    {
      hide Pinned, PagesOk;
      OpenPage(id);
      pages[id].leaf.next := next;
      heap := heap[id := PageView(pages[id])];
      unsaved := unsaved + {id};
      OnlyOneRewritten(id);
    }

    method LeafInsert(id: PageId, key: int, rid: RID) returns (newSize: nat)
      requires Valid() && id in heap && pins[id] > 0
      requires heap[id].Leaf? && Sorted(heap[id].entries) && |heap[id].entries| <= heap[id].max
      modifies this`heap, this`unsaved, repr
      ensures Valid() && unsaved == if newSize == |old(heap)[id].entries| then old(unsaved) else old(unsaved) + {id}
      ensures heap == old(heap)[id := WithEntries(old(heap)[id], InsertEntry(old(heap)[id].entries, key, rid))]
      ensures newSize == |heap[id].entries|
    {
      hide Pinned, PagesOk;
      OpenPage(id);
      newSize := pages[id].leaf.Insert(key, rid);
      heap := heap[id := PageView(pages[id])];
      unsaved := if newSize == |old(heap)[id].entries| then unsaved else unsaved + {id};
      OnlyOneRewritten(id);
    }

    method LeafRemove(id: PageId, key: int) returns (newSize: nat)
      requires Valid() && id in heap && pins[id] > 0
      requires heap[id].Leaf? && Sorted(heap[id].entries)
      modifies this`heap, this`unsaved, repr
      ensures Valid() && unsaved == old(unsaved) + {id}
      ensures heap == old(heap)[id := WithEntries(old(heap)[id], RemoveEntry(old(heap)[id].entries, key))]
      ensures newSize == |heap[id].entries|
    {
      hide Pinned, PagesOk;
      OpenPage(id);
      newSize := pages[id].leaf.RemoveAndDeleteRecord(key);
      heap := heap[id := PageView(pages[id])];
      unsaved := unsaved + {id};
      OnlyOneRewritten(id);
    }

    method InsertNodeAfter(id: PageId, oldChild: PageId, key: int, child: PageId)
      requires Valid() && id in heap && pins[id] > 0
      requires heap[id].Inner? && |heap[id].slots| <= heap[id].max
      modifies this`heap, this`unsaved, repr
      ensures Valid() && unsaved == old(unsaved) + {id}
      ensures heap == old(heap)[id := WithSlots(old(heap)[id], InsertAfter(old(heap)[id].slots, oldChild, key, child))]
    {
      hide Pinned, PagesOk;
      OpenPage(id);
      pages[id].inner.InsertNodeAfter(oldChild, key, child);
      heap := heap[id := PageView(pages[id])];
      unsaved := unsaved + {id};
      OnlyOneRewritten(id);
    }

    method SetKeyAt(id: PageId, i: nat, key: int)
      requires Valid() && id in heap && pins[id] > 0
      requires heap[id].Inner? && i < |heap[id].slots|
      modifies this`heap, this`unsaved, repr
      ensures Valid() && unsaved == old(unsaved) + {id}
      ensures heap == old(heap)[id := WithSlots(old(heap)[id], WithKey(old(heap)[id].slots, i, key))]
    {
      hide Pinned, PagesOk;
      OpenPage(id);
      pages[id].inner.SetKeyAt(i, key);
      heap := heap[id := PageView(pages[id])];
      unsaved := unsaved + {id};
      OnlyOneRewritten(id);
    }

    method RemoveSlot(id: PageId, i: nat)
      requires Valid() && id in heap && pins[id] > 0
      requires heap[id].Inner? && i < |heap[id].slots|
      modifies this`heap, this`unsaved, repr
      ensures Valid() && unsaved == old(unsaved) + {id}
      ensures heap == old(heap)[id := WithSlots(old(heap)[id], RemoveAt(old(heap)[id].slots, i))]
    {
      hide Pinned, PagesOk;
      OpenPage(id);
      pages[id].inner.Remove(i);
      heap := heap[id := PageView(pages[id])];
      unsaved := unsaved + {id};
      OnlyOneRewritten(id);
    }

    method RemoveAndReturnOnlyChild(id: PageId) returns (child: PageId)
      requires Valid() && id in heap && pins[id] > 0
      requires heap[id].Inner? && |heap[id].slots| > 0
      modifies this`heap, this`unsaved, repr
      ensures Valid() && unsaved == old(unsaved) + {id}
      ensures heap == old(heap)[id := WithSlots(old(heap)[id], [])]
      ensures child == old(heap)[id].slots[0].child
    {
      hide Pinned, PagesOk;
      OpenPage(id);
      child := pages[id].inner.RemoveAndReturnOnlyChild();
      heap := heap[id := PageView(pages[id])];
      unsaved := unsaved + {id};
      OnlyOneRewritten(id);
    }

    method LeafMoveHalfTo(a: PageId, b: PageId)
      requires Valid() && a in heap && pins[a] > 0 && b in heap && pins[b] > 0 && a != b
      requires heap[a].Leaf? && heap[b].Leaf? && |heap[a].entries| <= heap[b].max + 1
      modifies this`heap, this`unsaved, repr
      ensures Valid() && unsaved == old(unsaved) + {a, b}
      ensures heap == old(heap)[a := WithEntries(old(heap)[a], old(heap)[a].entries[..|old(heap)[a].entries| / 2])]
                              [b := WithEntries(old(heap)[b], old(heap)[a].entries[|old(heap)[a].entries| / 2..])]
    {
      hide Pinned, PagesOk;
      OpenTwo(a, b);
      pages[a].leaf.MoveHalfTo(pages[b].leaf);
      heap := heap[a := pages[a].leaf.View()][b := pages[b].leaf.View()];
      unsaved := unsaved + {a, b};
      OnlyRewritten((a, b));
    }

    method LeafMoveAllTo(a: PageId, b: PageId)
      requires Valid() && a in heap && pins[a] > 0 && b in heap && pins[b] > 0 && a != b
      requires heap[a].Leaf? && heap[b].Leaf? && |heap[a].entries| + |heap[b].entries| <= heap[b].max + 1
      modifies this`heap, this`unsaved, repr
      ensures Valid() && unsaved == old(unsaved) + {a, b}
      ensures heap == old(heap)[a := WithEntries(old(heap)[a], [])]
                              [b := WithEntries(old(heap)[b], old(heap)[b].entries + old(heap)[a].entries)]
    {
      hide Pinned, PagesOk;
      OpenTwo(a, b);
      pages[a].leaf.MoveAllTo(pages[b].leaf);
      heap := heap[a := pages[a].leaf.View()][b := pages[b].leaf.View()];
      unsaved := unsaved + {a, b};
      OnlyRewritten((a, b));
    }

    method LeafMoveFirstToEndOf(a: PageId, b: PageId)
      requires Valid() && a in heap && pins[a] > 0 && b in heap && pins[b] > 0 && a != b
      requires heap[a].Leaf? && heap[b].Leaf? && |heap[a].entries| > 0 && |heap[b].entries| <= heap[b].max
      modifies this`heap, this`unsaved, repr
      ensures Valid() && unsaved == old(unsaved) + {a, b}
      ensures heap == old(heap)[a := WithEntries(old(heap)[a], old(heap)[a].entries[1..])]
                              [b := WithEntries(old(heap)[b], old(heap)[b].entries + [old(heap)[a].entries[0]])]
    {
      hide Pinned, PagesOk;
      OpenTwo(a, b);
      pages[a].leaf.MoveFirstToEndOf(pages[b].leaf);
      heap := heap[a := pages[a].leaf.View()][b := pages[b].leaf.View()];
      unsaved := unsaved + {a, b};
      OnlyRewritten((a, b));
    }

    method LeafMoveLastToFrontOf(a: PageId, b: PageId)
      requires Valid() && a in heap && pins[a] > 0 && b in heap && pins[b] > 0 && a != b
      requires heap[a].Leaf? && heap[b].Leaf? && |heap[a].entries| > 0 && |heap[b].entries| <= heap[b].max
      modifies this`heap, this`unsaved, repr
      ensures Valid() && unsaved == old(unsaved) + {a, b}
      ensures heap == old(heap)[a := WithEntries(old(heap)[a], old(heap)[a].entries[..|old(heap)[a].entries| - 1])]
                              [b := WithEntries(old(heap)[b], [old(heap)[a].entries[|old(heap)[a].entries| - 1]]
                                + old(heap)[b].entries)]
    {
      hide Pinned, PagesOk;
      OpenTwo(a, b);
      pages[a].leaf.MoveLastToFrontOf(pages[b].leaf);
      heap := heap[a := pages[a].leaf.View()][b := pages[b].leaf.View()];
      unsaved := unsaved + {a, b};
      OnlyRewritten((a, b));
    }

    method InnerMoveAllTo(a: PageId, b: PageId, middle: int)
      requires Valid() && a in heap && pins[a] > 0 && b in heap && pins[b] > 0 && a != b
      requires heap[a].Inner? && heap[b].Inner? && |heap[a].slots| > 0
               && |heap[a].slots| + |heap[b].slots| <= heap[b].max + 1
      modifies this`heap, this`unsaved, repr
      ensures Valid() && unsaved == old(unsaved) + {a, b}
      ensures heap == old(heap)[a := WithSlots(old(heap)[a], [])]
                              [b := WithSlots(old(heap)[b],
                                old(heap)[b].slots + WithKey(old(heap)[a].slots, 0, middle))]
    {
      hide Pinned, PagesOk;
      OpenTwo(a, b);
      pages[a].inner.MoveAllTo(pages[b].inner, middle);
      heap := heap[a := pages[a].inner.View()][b := pages[b].inner.View()];
      unsaved := unsaved + {a, b};
      OnlyRewritten((a, b));
    }

    method InnerMoveFirstToEndOf(a: PageId, b: PageId, middle: int)
      requires Valid() && a in heap && pins[a] > 0 && b in heap && pins[b] > 0 && a != b
      requires heap[a].Inner? && heap[b].Inner? && |heap[a].slots| > 0 && |heap[b].slots| <= heap[b].max
      modifies this`heap, this`unsaved, repr
      ensures Valid() && unsaved == old(unsaved) + {a, b}
      ensures heap == old(heap)[a := WithSlots(old(heap)[a], old(heap)[a].slots[1..])]
                              [b := WithSlots(old(heap)[b],
                                old(heap)[b].slots + [Slot(middle, old(heap)[a].slots[0].child)])]
    {
      hide Pinned, PagesOk;
      OpenTwo(a, b);
      ghost var ha, hb := heap[a], heap[b];
      pages[a].inner.MoveFirstToEndOf(pages[b].inner, middle);
      assert pages[a].inner.View() == WithSlots(ha, ha.slots[1..]);
      assert pages[b].inner.View() == WithSlots(hb, hb.slots + [Slot(middle, ha.slots[0].child)]);
      heap := heap[a := pages[a].inner.View()][b := pages[b].inner.View()];
      unsaved := unsaved + {a, b};
      OnlyRewritten((a, b));
    }

    method InnerMoveLastToFrontOf(a: PageId, b: PageId, middle: int)
      requires Valid() && a in heap && pins[a] > 0 && b in heap && pins[b] > 0 && a != b
      requires heap[a].Inner? && heap[b].Inner? && |heap[a].slots| > 0 && 0 < |heap[b].slots| <= heap[b].max
      modifies this`heap, this`unsaved, repr
      ensures Valid() && unsaved == old(unsaved) + {a, b}
      ensures heap == old(heap)[a := WithSlots(old(heap)[a], old(heap)[a].slots[..|old(heap)[a].slots| - 1])]
                              [b := WithSlots(old(heap)[b],
                                PushFront(old(heap)[b].slots, old(heap)[b].slots[0].key,
                                old(heap)[a].slots[|old(heap)[a].slots| - 1].child, middle))]
    {
      hide Pinned, PagesOk;
      OpenTwo(a, b);
      pages[a].inner.MoveLastToFrontOf(pages[b].inner, middle);
      heap := heap[a := pages[a].inner.View()][b := pages[b].inner.View()];
      unsaved := unsaved + {a, b};
      OnlyRewritten((a, b));
    }

    /** The new page's slot-0 key is whatever its frame held. */
    method InnerMoveHalfTo(a: PageId, b: PageId) returns (ghost k0: int)
      requires Valid() && a in heap && pins[a] > 0 && b in heap && pins[b] > 0 && a != b
      requires heap[a].Inner? && heap[b].Inner? && 0 < |heap[a].slots| <= heap[b].max + 1
      modifies this`heap, this`unsaved, repr
      ensures Valid() && unsaved == old(unsaved) + {a, b}
      ensures heap == old(heap)[a := WithSlots(old(heap)[a], old(heap)[a].slots[..|old(heap)[a].slots| / 2])]
                               [b := WithSlots(old(heap)[b],
                                 WithKey(old(heap)[a].slots[|old(heap)[a].slots| / 2..], 0, k0))]
    {
      hide Pinned, PagesOk;
      OpenTwo(a, b);
      k0 := pages[b].inner.array_[0].key;
      pages[a].inner.MoveHalfTo(pages[b].inner);
      heap := heap[a := pages[a].inner.View()][b := pages[b].inner.View()];
      unsaved := unsaved + {a, b};
      OnlyRewritten((a, b));
    }

    method PopulateNewRoot(id: PageId, left: PageId, key: int, right: PageId) returns (ghost k0: int)
      requires Valid() && id in heap && pins[id] > 0
      requires heap[id].Inner? && heap[id].max >= 1
      modifies this`heap, this`unsaved, repr
      ensures Valid() && unsaved == old(unsaved) + {id}
      ensures heap == old(heap)[id := WithSlots(old(heap)[id], [Slot(k0, left), Slot(key, right)])]
    {
      hide Pinned, PagesOk;
      OpenPage(id);
      k0 := pages[id].inner.array_[0].key;
      pages[id].inner.PopulateNewRoot(left, key, right);
      heap := heap[id := pages[id].inner.View()];
      unsaved := unsaved + {id};
      OnlyOneRewritten(id);
    }
  }
}
