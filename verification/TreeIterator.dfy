/** Iteration over the leaf chain: from the least key (of at least a given one) upwards. */
module TreeIterator {
  import opened Common
  import opened TreePages
  import opened TreeShape
  import opened TreeSteps
  import opened TreeUpdates
  import opened TreeInsertion
  import opened TreeRemoval
  import opened TreeHeight
  import opened PagePool
  import opened BPlusTree

  /** The position of the least key of `m` from `from` on; the end if there is none. */
  ghost predicate Cursor(h: Heap, g: Shape, m: map<int, RID>, from: Bound, page: PageId, index: nat) {
    if page == INVALID_PAGE_ID then
      index == 0 && forall k :: k in m ==> !Leq(from, k)
    else
      && page in g && page in h && h[page].Leaf? && index < |h[page].entries|
      && var e := h[page].entries[index];
         e.key in m && m[e.key] == e.rid && Leq(from, e.key) && forall k :: k in m && Leq(from, k) ==> e.key <= k
  }

  /** The first entry at or after `index` in the leaf `p`, or else the first entry of the next leaf. */
  lemma CursorFrom(h: Heap, g: Shape, root: PageId, leafMax: nat, innerMax: nat, m: map<int, RID>, from: Bound,
      p: PageId, index: nat)
    requires Holds(h, g, root, leafMax, innerMax, {}, m) && leafMax >= 2 && p in g && h[p].Leaf?
             && index <= |h[p].entries|
    requires forall j :: 0 <= j < index ==> !Leq(from, h[p].entries[j].key)
    requires forall j :: index <= j < |h[p].entries| ==> Leq(from, h[p].entries[j].key)
    requires forall k :: Leq(from, k) ==> Leq(g[p].lo, k)
    requires g[p].hi.At? ==> Leq(from, g[p].hi.k)
    ensures if index < |h[p].entries| then Cursor(h, g, m, from, p, index) else Cursor(h, g, m, from, h[p].next, 0)
  {
    hide SizedBut, Represents;
    LeafFacts(h, g, root, p);
    if index < |h[p].entries| {
      HereOrLater(h, g, root, m, p, index, from);
    } else {
      forall k | k in m && Leq(from, k) ensures !Above(g[p].hi, k) {
        if Within(g[p], k) { KeyHome(h, g, root, m, p, k); }
      }
      if g[p].hi.At? {
        var q := h[p].next;
        LeafHasEntry(h, g, root, leafMax, innerMax, q);
        LeafFacts(h, g, root, q);
        HereOrLater(h, g, root, m, q, 0, from);
      }
    }
  }

  lemma LeafHasEntry(h: Heap, g: Shape, root: PageId, leafMax: nat, innerMax: nat, p: PageId)
    requires WellFormed(h, g, root, leafMax, innerMax) && leafMax >= 2 && p in g && g[p].level == 0
    ensures p in h && h[p].Leaf? && |h[p].entries| >= 1
  {
    assert PageOk(h, g, root, p);
    SizeOf(h, g, root, leafMax, innerMax, {}, p);
  }

  /** Of the keys that are not below the range of a leaf, the entry `index` is the least from its key on. */
  lemma HereOrLater(h: Heap, g: Shape, root: PageId, m: map<int, RID>, p: PageId, index: nat, from: Bound)
    requires Core(h, g, root) && Represents(h, g, m) && p in g && h[p].Leaf? && index < |h[p].entries|
    requires forall j :: 0 <= j < index ==> !Leq(from, h[p].entries[j].key)
    requires forall k :: k in m && Leq(from, k) ==> Leq(g[p].lo, k)
    requires Leq(from, h[p].entries[index].key)
    ensures Cursor(h, g, m, from, p, index)
  {
    LeafFacts(h, g, root, p);
    var es := h[p].entries;
    KeyHome(h, g, root, m, p, es[index].key);
    assert es[index] in es;
    forall k | k in m && Leq(from, k) ensures es[index].key <= k {
      if Within(g[p], k) {
        KeyHome(h, g, root, m, p, k);
        var j :| 0 <= j < |es| && es[j].key == k;
        assert index <= j;
      }
    }
  }

  class Iterator {
    const pool: Pool
    /** Whether `++` unpins the page it has fetched; as written it unpins the page it moves to. */
    const repaired: bool
    var page: PageId
    var index: nat
    var current: Entry

    constructor (pool: Pool, repaired: bool, page: PageId, index: nat)
      ensures this.pool == pool && this.repaired == repaired && this.page == page && this.index == index
    {
      this.pool, this.repaired, this.page, this.index := pool, repaired, page, index;
      current := Entry(0, RID(0, 0));
    }

    /** The iterator stands at the least key of the tree from `from` on. */
    ghost predicate StandsAt(t: Tree, from: Bound)
      reads this, t, t.pool
    {
      pool == t.pool && Cursor(t.pool.heap, t.shape, t.contents, from, page, index)
    }

    predicate IsEnd()
      reads this
    {
      page == INVALID_PAGE_ID
    }

    ghost function Key(): int
      requires page in pool.heap && pool.heap[page].Leaf? && index < |pool.heap[page].entries|
      reads this, pool
    {
      pool.heap[page].entries[index].key
    }

    /** `operator*`: the least key from `from` on, with its record id. */
    method Deref(ghost t: Tree, ghost from: Bound) returns (e: Entry)
      requires t.Valid() && t.pool.unsaved == {} && StandsAt(t, from) && !IsEnd() && pool.free >= 1
      requires this !in pool.repr
      modifies this`current, pool`pins, pool`free, pool`unsaved
      ensures t.Valid() && t.pool.unsaved == {} && pool.pins == old(pool.pins) && pool.free == old(pool.free)
      ensures e == current && e.key == Key() && e.key in t.contents && t.contents[e.key] == e.rid
      ensures Leq(from, e.key) && forall k :: k in t.contents && Leq(from, k) ==> e.key <= k
    {
      hide Core, SizedBut, Represents, Pool.PagesOk, Pinned;
      pool.FetchPage(page);
      current := pool.LeafEntryAt(page, index);
      pool.UnpinPage(page, false);
      assert pool.pins == old(pool.pins);
      e := current;
    }

    /** `operator++`: on to the least key above the current one. As written, crossing to another
        leaf leaves the old one pinned and takes a pin from the new one if it has any. */
    method Increment(ghost t: Tree, ghost from: Bound)
      requires t.Valid() && t.pool.unsaved == {} && StandsAt(t, from) && !IsEnd() && pool.free >= 1
      requires this !in pool.repr
      modifies this, pool`pins, pool`free, pool`unsaved
      ensures t.Valid() && t.pool.unsaved == {}
      ensures StandsAt(t, At(old(Key()) + 1))
      ensures IsEnd() ==> index == 0
      ensures pool.pins == old(pool.pins) <==> repaired || page == old(page)
      ensures repaired || page == old(page) ==> pool.free == old(pool.free)
      ensures pool.free >= old(pool.free) - 1
      ensures page != old(page) ==> old(index) + 1 == |pool.heap[old(page)].entries|
    {
      hide Core, SizedBut, Represents, Pool.PagesOk, Pinned;
      ghost var key := Key();
      LeafInOrder(t, page);
      NextPosition(t.pool.heap, t.shape, t.root, t.leafMax, t.innerMax, t.contents, from, page, index);
      var fetched := page;
      pool.FetchPage(page);
      index := index + 1;
      if index >= pool.GetSize(page) {
        page := pool.GetNextPageId(page);
        index := 0;
      }
      pool.TryUnpin(if repaired then fetched else page);
      assert repaired || page == fetched ==> pool.pins == old(pool.pins);
      assert !repaired && page != fetched ==> pool.pins[fetched] == old(pool.pins)[fetched] + 1;
    }
  }

  lemma LeafInOrder(t: Tree, p: PageId)
    requires t.Valid() && p in t.shape && p in t.pool.heap && t.pool.heap[p].Leaf?
    ensures Sorted(t.pool.heap[p].entries)
  {
    hide SizedBut, Represents;
    LeafFacts(t.pool.heap, t.shape, t.root, p);
  }

  /** The leaves that hold a key from `from` on. */
  ghost function LeavesAhead(h: Heap, g: Shape, from: Bound): set<PageId> {
    set p | p in g && p in h && h[p].Leaf? && exists e :: e in h[p].entries && Leq(from, e.key)
  }

  /** What lies ahead gets less, and at the end of a leaf that leaf is done with. */
  lemma FewerAhead(h: Heap, g: Shape, from: Bound, p: PageId, index: nat, crossed: bool)
    requires p in g && p in h && h[p].Leaf? && index < |h[p].entries| && Sorted(h[p].entries)
             && Leq(from, h[p].entries[index].key)
    requires crossed ==> index + 1 == |h[p].entries|
    ensures var next := At(h[p].entries[index].key + 1);
            |LeavesAhead(h, g, next)| + (if crossed then 1 else 0) <= |LeavesAhead(h, g, from)|
    ensures |LeavesAhead(h, g, from)| >= 1
  {
    var key := h[p].entries[index].key;
    var all, rest := LeavesAhead(h, g, from), LeavesAhead(h, g, At(key + 1));
    assert h[p].entries[index] in h[p].entries && p in all;
    forall q | q in rest
      ensures q in all
    {
      var e :| e in h[q].entries && Leq(At(key + 1), e.key);
      assert Leq(from, e.key);
    }
    if crossed {
      assert p !in rest;
      SubsetSize(rest + {p}, all);
    } else {
      SubsetSize(rest, all);
    }
    SubsetSize({p}, all);
  }

  lemma NextPosition(h: Heap, g: Shape, root: PageId, leafMax: nat, innerMax: nat, m: map<int, RID>, from: Bound,
      p: PageId, index: nat)
    requires Holds(h, g, root, leafMax, innerMax, {}, m) && leafMax >= 2
    requires p != INVALID_PAGE_ID && Cursor(h, g, m, from, p, index)
    ensures var key := h[p].entries[index].key;
            if index + 1 < |h[p].entries| then Cursor(h, g, m, At(key + 1), p, index + 1)
              else Cursor(h, g, m, At(key + 1), h[p].next, 0)
    ensures h[p].next != p
  {
    hide SizedBut, Represents;
    LeafFacts(h, g, root, p);
    var es := h[p].entries;
    CursorFrom(h, g, root, leafMax, innerMax, m, At(es[index].key + 1), p, index + 1);
  }

  method Begin(t: Tree, repaired: bool) returns (it: Iterator)
    requires t.Valid() && t.pool.unsaved == {} && t.pool.free >= 1
    modifies t.pool`pins, t.pool`free, t.pool`unsaved
    ensures t.Valid() && t.pool.unsaved == {} && t.pool.pins == old(t.pool.pins) && t.pool.free == old(t.pool.free)
    ensures fresh(it) && it.repaired == repaired && it.StandsAt(t, NegInf)
  {
    hide Core, SizedBut, Represents, Pool.PagesOk, Pinned, Cursor;
    var pool := t.pool;
    if t.IsEmpty() {
      CursorAtEnd(pool.heap, t.shape, t.contents, NegInf);
      it := End(pool, repaired);
      return;
    }
    RootCovers(pool.heap, t.shape, t.root);
    var id := t.root;
    RootFirst(pool.heap, t.shape, t.root);
    pool.FetchPage(id);
    while !pool.IsLeafPage(id)
      invariant t.Valid() && pool.unsaved == {}
      invariant id in t.shape && id in pool.heap && t.shape[id].lo == NegInf
      invariant pool.pins == old(pool.pins)[id := old(pool.pins)[id] + 1]
      invariant pool.free == old(pool.free) - (if old(pool.pins)[id] == 0 then 1 else 0)
      decreases t.shape[id].level
    {
      FirstKid(pool.heap, t.shape, t.root, id);
      var child := pool.SlotAt(id, 0).child;
      t.MoveDown(id, child, old(pool.pins), old(pool.free));
      id := child;
    }
    FirstPosition(pool.heap, t.shape, t.root, t.leafMax, t.innerMax, t.contents, id);
    pool.UnpinPage(id, false);
    assert pool.pins == old(pool.pins);
    it := new Iterator(pool, repaired, id, 0);
  }

  lemma RootFirst(h: Heap, g: Shape, root: PageId)
    requires Core(h, g, root)
    ensures root in g && g[root].lo == NegInf
  {
    assert PageOk(h, g, root, root);
  }

  lemma CursorAtEnd(h: Heap, g: Shape, m: map<int, RID>, from: Bound)
    requires m == map[]
    ensures Cursor(h, g, m, from, INVALID_PAGE_ID, 0)
  {
  }

  lemma FirstKid(h: Heap, g: Shape, root: PageId, p: PageId)
    requires Core(h, g, root) && p in g && p in h && h[p].Inner? && g[p].lo == NegInf
    ensures |h[p].slots| >= 1
    ensures var c := h[p].slots[0].child; c in g && c in h && c != p && g[c].lo == NegInf && g[c].level < g[p].level
  {
    assert PageOk(h, g, root, p);
    assert KidOk(h, g, p, g[p].level - 1, h[p].slots[0].child, LoAt(h[p].slots, g[p], 0), HiAt(h[p].slots, g[p], 0));
  }

  lemma FirstPosition(h: Heap, g: Shape, root: PageId, leafMax: nat, innerMax: nat, m: map<int, RID>, p: PageId)
    requires Holds(h, g, root, leafMax, innerMax, {}, m) && leafMax >= 2 && p in g && p in h && h[p].Leaf?
             && g[p].lo == NegInf
    ensures Cursor(h, g, m, NegInf, p, 0)
  {
    LeafFacts(h, g, root, p);
    LeafHasEntry(h, g, root, leafMax, innerMax, p);
    CursorFrom(h, g, root, leafMax, innerMax, m, NegInf, p, 0);
  }

  /** `Begin(key)`: the position of the least key that is not below `key`. */
  method BeginAt(t: Tree, key: int, repaired: bool) returns (it: Iterator)
    requires t.Valid() && t.pool.unsaved == {} && t.pool.free >= 1
    modifies t.pool`pins, t.pool`free, t.pool`unsaved
    ensures t.Valid() && t.pool.unsaved == {} && t.pool.pins == old(t.pool.pins) && t.pool.free == old(t.pool.free)
    ensures fresh(it) && it.repaired == repaired && it.StandsAt(t, At(key))
  {
    hide Core, SizedBut, Represents, Pool.PagesOk, Pinned, Cursor;
    var pool := t.pool;
    if t.IsEmpty() {
      CursorAtEnd(pool.heap, t.shape, t.contents, At(key));
      it := End(pool, repaired);
      return;
    }
    var id := t.Descend(key);
    KeyPosition(pool.heap, t.shape, t.root, t.leafMax, t.innerMax, t.contents, id, key);
    var index := pool.LeafKeyIndex(id, key);
    var size, next := pool.GetSize(id), pool.GetNextPageId(id);
    pool.UnpinPage(id, false);
    assert pool.pins == old(pool.pins);
    if index >= size {
      it := new Iterator(pool, repaired, next, 0);
    } else {
      it := new Iterator(pool, repaired, id, index);
    }
  }

  lemma KeyPosition(h: Heap, g: Shape, root: PageId, leafMax: nat, innerMax: nat, m: map<int, RID>, p: PageId, key: int)
    requires Holds(h, g, root, leafMax, innerMax, {}, m) && leafMax >= 2
    requires p in g && p in h && h[p].Leaf? && Within(g[p], key)
    ensures Sorted(h[p].entries)
    ensures var i := LowerBound(h[p].entries, key);
            if i < |h[p].entries| then Cursor(h, g, m, At(key), p, i) else Cursor(h, g, m, At(key), h[p].next, 0)
  {
    hide SizedBut, Represents;
    LeafFacts(h, g, root, p);
    CursorFrom(h, g, root, leafMax, innerMax, m, At(key), p, LowerBound(h[p].entries, key));
  }

  method End(pool: Pool, repaired: bool) returns (it: Iterator)
    ensures fresh(it) && it.pool == pool && it.repaired == repaired && it.page == INVALID_PAGE_ID && it.index == 0
  {
    it := new Iterator(pool, repaired, INVALID_PAGE_ID, 0);
  }

  // ---------- a whole pass ----------

  /** `es` lists the pairs of `m` from `from` up to, but not including, `to`. */
  ghost predicate Lists(es: seq<Entry>, m: map<int, RID>, from: Bound, to: Bound) {
    && Sorted(es) && (from == to || (to.At? && Leq(from, to.k)) || to == PosInf)
    && forall e :: e in es <==> e.key in m && m[e.key] == e.rid && Leq(from, e.key) && !Leq(to, e.key)
  }

  lemma ListsNone(m: map<int, RID>, from: Bound)
    ensures Lists([], m, from, from)
  {
  }

  lemma ListsAll(es: seq<Entry>, m: map<int, RID>, from: Bound, to: Bound)
    requires Lists(es, m, from, to) && forall k :: k in m ==> !Leq(to, k)
    ensures Lists(es, m, from, PosInf)
  {
  }

  lemma ListsSize(es: seq<Entry>, m: map<int, RID>, from: Bound, to: Bound)
    requires Lists(es, m, from, to)
    ensures |es| <= |m|
  {
    KeyCount(es, |es|);
    forall j | 0 <= j < |es| ensures es[j].key in m.Keys {
      assert es[j] in es;
    }
    SubsetSize(set j | 0 <= j < |es| :: es[j].key, m.Keys);
  }

  lemma ListsMore(es: seq<Entry>, m: map<int, RID>, from: Bound, to: Bound, e: Entry)
    requires Lists(es, m, from, to) && e.key in m && m[e.key] == e.rid && Leq(to, e.key)
    requires forall k :: k in m && Leq(to, k) ==> e.key <= k
    ensures Lists(es + [e], m, from, At(e.key + 1))
  {
    var es' := es + [e];
    forall j | 0 <= j < |es| ensures es[j].key < e.key {
      assert es[j] in es;
    }
    forall x ensures x in es' <==> x.key in m && m[x.key] == x.rid && Leq(from, x.key) && !Leq(At(e.key + 1), x.key) {
      assert x in es' <==> x in es || x == e;
    }
  }

  /** From an iterator to the end: the entries from its bound on, in ascending order, each once.
      As written every leaf that is left costs a frame. */
  method Collect(it: Iterator, ghost t: Tree, ghost from: Bound) returns (es: seq<Entry>)
    requires t.Valid() && t.pool.unsaved == {} && it.StandsAt(t, from) && it !in t.pool.repr && from != PosInf
    requires it.IsEnd() || t.pool.free >= (if it.repaired then 1 else |LeavesAhead(t.pool.heap, t.shape, from)|)
    modifies it, t.pool`pins, t.pool`free, t.pool`unsaved
    ensures t.Valid() && t.pool.unsaved == {} && it.IsEnd() && it.index == 0
    ensures Lists(es, t.contents, from, PosInf)
    ensures it.repaired ==> t.pool.pins == old(t.pool.pins)
  {
    hide Pool.PagesOk, Pinned, Core, SizedBut, Represents, Lists, LeavesAhead;
    es := [];
    ghost var to := from;
    ListsNone(t.contents, from);
    while !it.IsEnd()
      invariant t.Valid() && t.pool.unsaved == {} && it.StandsAt(t, to)
      invariant Lists(es, t.contents, from, to)
      invariant |es| <= |t.contents|
      invariant it.IsEnd() || t.pool.free >= (if it.repaired then 1 else |LeavesAhead(t.pool.heap, t.shape, to)|)
      invariant it.repaired ==> t.pool.pins == old(t.pool.pins)
      decreases |t.contents| - |es|
    {
      ghost var page, index := it.page, it.index;
      LeafInOrder(t, page);
      FewerAhead(t.pool.heap, t.shape, to, page, index, false);
      var e := it.Deref(t, to);
      ListsMore(es, t.contents, from, to, e);
      it.Increment(t, to);
      FewerAhead(t.pool.heap, t.shape, to, page, index, it.page != page);
      es := es + [e];
      to := At(e.key + 1);
      ListsSize(es, t.contents, from, to);
    }
    ListsAll(es, t.contents, from, to);
  }

  /** `for (it = Begin(); it != End(); ++it)` visits exactly the pairs of the map, in ascending order. */
  method Scan(t: Tree, repaired: bool) returns (es: seq<Entry>)
    requires t.Valid() && t.pool.unsaved == {} && t.pool.free >= 1
    requires repaired || t.pool.free >= |LeavesAhead(t.pool.heap, t.shape, NegInf)|
    modifies t.pool`pins, t.pool`free, t.pool`unsaved
    ensures t.Valid() && t.pool.unsaved == {} && (repaired ==> t.pool.pins == old(t.pool.pins))
    ensures Sorted(es) && forall e :: e in es <==> e.key in t.contents && t.contents[e.key] == e.rid
  {
    hide Pool.PagesOk, Pinned, Core, SizedBut, Represents;
    var it := Begin(t, repaired);
    es := Collect(it, t, NegInf);
  }
}
