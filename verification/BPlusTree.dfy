/** The B+ tree over pooled pages: search, insertion and removal. */
module BPlusTree {
  import opened Common
  import opened TreePages
  import opened TreeShape
  import opened TreeSteps
  import opened LeafSteps
  import opened InnerSteps
  import opened TreeUpdates
  import opened TreeInsertion
  import opened TreeRemoval
  import opened TreeFrames
  import opened TreeWrecks
  import opened TreeSoundness
  import opened PagePool

  class Tree {
    const pool: Pool
    const leafMax: nat
    const innerMax: nat
    /** Whether the two marked repairs of the internal rebalancing are applied. */
    const repaired: bool
    var root: PageId
    ghost var shape: Shape
    ghost var contents: map<int, RID>

    ghost predicate Setup()
      reads this, pool, pool.repr
    {
      && pool.Valid() && this !in pool.repr && 2 <= leafMax < pool.leafCapacity && 3 <= innerMax < pool.innerCapacity
    }

    /** Well-formed but for the occupancy of the pages in `except`. */
    ghost predicate ValidBut(except: set<PageId>)
      reads this, pool
    {
      Holds(pool.heap, shape, root, leafMax, innerMax, except, contents)
    }

    ghost predicate Valid()
      reads this, pool, pool.repr
    {
      Setup() && if root == INVALID_PAGE_ID then shape == map[] && contents == map[] else ValidBut({})
    }

    constructor (pool: Pool, leafMax: nat, innerMax: nat, repaired: bool)
      requires pool.Valid() && 2 <= leafMax < pool.leafCapacity && 3 <= innerMax < pool.innerCapacity
      ensures Valid() && contents == map[] && shape == map[]
      ensures this.pool == pool && this.leafMax == leafMax && this.innerMax == innerMax && this.repaired == repaired
    {
      this.pool, this.leafMax, this.innerMax, this.repaired := pool, leafMax, innerMax, repaired;
      root, shape, contents := INVALID_PAGE_ID, map[], map[];
    }

    predicate IsEmpty()
      reads this
    {
      root == INVALID_PAGE_ID
    }

    /** There is a root exactly while there are entries. */
    lemma EmptyIff()
      requires Valid()
      ensures IsEmpty() <==> contents == map[]
    {
      if !IsEmpty() {
        var e := SomeEntry(pool.heap, shape, root, root, leafMax, innerMax);
        assert Stored(pool.heap, shape, e);
      }
    }

    // ---------- search ----------

    /** The descent shared by all operations: the leaf responsible for `key`, left pinned. */
    /** One level down: the pin moves from a page to its child. */
    method MoveDown(id: PageId, child: PageId, ghost pins: map<PageId, nat>, ghost free: int)
      requires pool.Valid() && pool.unsaved == {} && id in pool.heap && child in pool.heap && id in pins && free >= 1
      requires pool.pins == pins[id := pins[id] + 1] && pool.free == free - (if pins[id] == 0 then 1 else 0)
      modifies pool`pins, pool`free, pool`unsaved
      ensures pool.Valid() && pool.unsaved == {} && child in pins
      ensures pool.pins == pins[child := pins[child] + 1] && pool.free == free - (if pins[child] == 0 then 1 else 0)
    {
      hide Pool.PagesOk, Pinned;
      pool.UnpinPage(id, false);
      assert pool.pins == pins;
      pool.FetchPage(child);
    }

    method Descend(key: int) returns (id: PageId)
      requires Valid() && !IsEmpty() && pool.unsaved == {} && pool.free >= 1
      modifies pool`pins, pool`free, pool`unsaved
      ensures Valid() && pool.unsaved == {}
      ensures id in shape && pool.heap[id].Leaf? && Within(shape[id], key)
      ensures pool.pins == old(pool.pins)[id := old(pool.pins)[id] + 1]
      ensures pool.free == old(pool.free) - (if old(pool.pins)[id] == 0 then 1 else 0)
    {
      hide Core, SizedBut, Represents, Pool.PagesOk, Pinned;
      id := root;
      RootCovers(pool.heap, shape, root);
      pool.FetchPage(id);
      while !pool.IsLeafPage(id)
        invariant Valid() && pool.unsaved == {}
        invariant id in shape && id in pool.heap && Within(shape[id], key)
        invariant pool.pins == old(pool.pins)[id := old(pool.pins)[id] + 1]
        invariant pool.free == old(pool.free) - (if old(pool.pins)[id] == 0 then 1 else 0)
        decreases shape[id].level
      {
        ChildCovers(pool.heap, shape, root, id, key);
        var child := pool.InnerLookup(id, key);
        MoveDown(id, child, old(pool.pins), old(pool.free));
        id := child;
      }
    }

    method GetValue(key: int) returns (result: Option<RID>)
      requires Valid() && pool.unsaved == {} && pool.free >= 1
      modifies pool`pins, pool`free, pool`unsaved
      ensures Valid() && pool.unsaved == {} && pool.pins == old(pool.pins) && pool.free == old(pool.free)
      ensures result == if key in contents then Some(contents[key]) else None
    {
      hide Core, SizedBut, Represents, Pool.PagesOk, Pinned;
      if IsEmpty() {
        return None;
      }
      var id := Descend(key);
      LeafContents(pool.heap, shape, root, contents, id, key);
      result := pool.LeafLookup(id, key);
      pool.UnpinPage(id, false);
    }

    method FindLeafPage(key: int) returns (id: PageId)
      requires Valid() && pool.unsaved == {} && pool.free >= 1
      modifies pool`pins, pool`free, pool`unsaved
      ensures Valid() && pool.unsaved == {} && pool.pins == old(pool.pins) && pool.free == old(pool.free)
      ensures IsEmpty() ==> id == INVALID_PAGE_ID
      ensures !IsEmpty() ==> id in shape && id in pool.heap && pool.heap[id].Leaf? && Within(shape[id], key)
    {
      hide Core, SizedBut, Represents, Pool.PagesOk, Pinned;
      if IsEmpty() {
        return INVALID_PAGE_ID;
      }
      id := Descend(key);
      pool.UnpinPage(id, false);
      assert pool.pins == old(pool.pins);
    }

    // ---------- insertion ----------

    method Insert(key: int, rid: RID) returns (inserted: bool)
      requires Valid() && pool.unsaved == {} && pool.free >= 3
      modifies this, pool, pool.repr
      ensures Valid() && fresh(pool.repr - old(pool.repr)) && pool.unsaved == {}
      ensures inserted <==> key !in old(contents)
      ensures contents == if inserted then old(contents)[key := rid] else old(contents)
      ensures !inserted ==> pool.heap == old(pool.heap) && root == old(root)
      ensures Restored(old(pool.pins), pool.pins) && Others(old(pool.heap), old(shape), pool.heap)
      ensures pool.free == old(pool.free)
    {
      hide Core, SizedBut, Represents, Pool.PagesOk, Pinned, Restored, Others;
      if IsEmpty() {
        inserted := InsertFirst(key, rid);
        PinnedRestored(old(pool.pins), pool.pins);
        return;
      }
      ghost var pins := pool.pins;
      var id := Descend(key);
      inserted := InsertIntoLeaf(id, key, rid);
      ReleasedFetch(pins, id, pool.pins);
      PinnedRestored(pins, pool.pins);
    }

    method InsertIntoLeaf(id: PageId, key: int, rid: RID) returns (inserted: bool)
      requires Valid() && !IsEmpty() && pool.unsaved == {}
      requires id in shape && id in pool.heap && pool.heap[id].Leaf? && Within(shape[id], key)
      requires pool.pins[id] > 0 && pool.free + (if pool.pins[id] == 1 then 1 else 0) >= 3
      modifies this, pool, pool.repr
      ensures Valid() && fresh(pool.repr - old(pool.repr)) && pool.unsaved == {}
      ensures inserted <==> key !in old(contents)
      ensures contents == if inserted then old(contents)[key := rid] else old(contents)
      ensures !inserted ==> pool.heap == old(pool.heap) && root == old(root)
      ensures Restored(Dropped(old(pool.pins), id), pool.pins) && Others(old(pool.heap), old(shape), pool.heap)
    {
      hide Core, SizedBut, Represents, Pool.PagesOk, Pinned, Restored, Others, InsertEntry, HasKey;
      ghost var h := pool.heap;
      LeafContents(h, shape, root, contents, id, key);
      LeafRoom(h, shape, root, leafMax, innerMax, id);
      InsertSize(h[id].entries, key, rid);
      if key !in contents { InsertStep(h, shape, root, contents, leafMax, innerMax, id, key, rid); }
      var oldSize := pool.GetSize(id);
      var newSize := pool.LeafInsert(id, key, rid);
      OthersOf(h, shape, pool.heap, {id});
      if newSize == oldSize {
        assert pool.heap == h;
        pool.UnpinPage(id, false);
        ReleasedAll(Dropped(old(pool.pins), id), pool.pins);
        return false;
      }
      contents := contents[key := rid];
      if pool.GetSize(id) > pool.GetMaxSize(id) {
        ghost var h1, g1 := pool.heap, shape;
        Split(id);
        OthersTrans(h, g1, h1, g1, pool.heap);
      } else {
        NowSized(pool.heap, shape, root, leafMax, innerMax, id);
        pool.UnpinPage(id, true);
        ReleasedAll(Dropped(old(pool.pins), id), pool.pins);
      }
      return true;
    }

    method InsertFirst(key: int, rid: RID) returns (inserted: bool)
      requires Valid() && IsEmpty() && pool.unsaved == {} && pool.free >= 1
      modifies this, pool, pool.repr
      ensures Valid() && fresh(pool.repr - old(pool.repr)) && pool.unsaved == {}
      ensures inserted && contents == map[key := rid]
      ensures Restored(old(pool.pins), pool.pins) && Others(old(pool.heap), old(shape), pool.heap)
    {
      hide Core, SizedBut, Represents, Pool.PagesOk, Pinned;
      var id := pool.NewLeaf(leafMax);
      assert InsertEntry([], key, rid) == [Entry(key, rid)];
      var n := pool.LeafInsert(id, key, rid);
      root := id;
      shape := map[id := Info(0, NegInf, PosInf)];
      contents := map[key := rid];
      FirstLeaf(pool.heap, id, leafMax, innerMax, key, rid);
      pool.UnpinPage(id, true);
      return true;
    }

    /** A new root over `left` and `right`; all three pages are released. */
    method RootPage(left: PageId, key: int, right: PageId) returns (r: PageId, ghost k0: int)
      requires Setup() && pool.free >= 1
      modifies pool, pool.repr
      ensures Setup() && fresh(pool.repr - old(pool.repr)) && pool.unsaved == old(pool.unsaved) + {r}
      ensures r >= 0 && r !in old(pool.heap) && pool.pins == old(pool.pins)[r := 1]
      ensures pool.heap == old(pool.heap)[r := Inner(innerMax, INVALID_PAGE_ID, [Slot(k0, left), Slot(key, right)])]
    {
      hide Pool.PagesOk, Pinned;
      r := pool.NewInternal(innerMax);
      k0 := pool.PopulateNewRoot(r, left, key, right);
    }

    method NewRoot(left: PageId, key: int, right: PageId) returns (r: PageId, ghost k0: int)
      requires Setup() && left in pool.heap && right in pool.heap && left != right
      requires pool.pins[left] > 0 && pool.pins[right] > 0 && pool.unsaved <= {left, right} && pool.free >= 1
      modifies this`root, pool, pool.repr
      ensures Setup() && fresh(pool.repr - old(pool.repr)) && pool.unsaved == {}
      ensures root == r && r >= 0 && r !in old(pool.heap)
      ensures pool.heap == UnderNewRoot(old(pool.heap), innerMax, left, key, right, r, k0)
      ensures pool.pins == old(pool.pins)[left := old(pool.pins)[left] - 1][right := old(pool.pins)[right] - 1][r := 0]
    {
      hide Pool.PagesOk, Pinned, UnderNewRoot;
      ghost var h := pool.heap;
      r, k0 := RootPage(left, key, right);
      pool.SetParentPageId(left, r);
      pool.SetParentPageId(right, r);
      RootHeap(h, innerMax, left, key, right, r, k0, pool.heap);
      root := r;
      ReleaseThree(left, right, r);
    }

    /** The children in the slots lo..hi of `id` learn that `id` is their parent. */
    method AdoptChildren(id: PageId, lo: nat, hi: nat)
      requires pool.Valid() && id in pool.heap && pool.pins[id] > 0 && pool.heap[id].Inner? && pool.free >= 1
      requires lo <= hi <= |pool.heap[id].slots|
      requires forall c :: HasChild(pool.heap[id].slots[lo..hi], c) ==> c in pool.heap && c != id
      modifies pool, pool.repr
      ensures pool.Valid() && pool.repr == old(pool.repr) && pool.pins == old(pool.pins) && pool.free == old(pool.free)
      ensures pool.unsaved <= old(pool.unsaved)
      ensures pool.heap == Adopt(old(pool.heap), old(pool.heap)[id].slots[lo..hi], id)
    {
      hide Pool.PagesOk, Pinned, HasChild;
      ghost var h, ss := pool.heap, pool.heap[id].slots[lo..hi];
      AdoptNone(h, ss[..0], id);
      var i := lo;
      while i < hi
        invariant lo <= i <= hi
        invariant pool.Valid() && pool.repr == old(pool.repr) && pool.pins == old(pool.pins)
                  && pool.free == old(pool.free)
        invariant pool.unsaved <= old(pool.unsaved)
        invariant pool.heap == Adopt(h, ss[..i - lo], id)
      {
        AdoptKeeps(h, ss, i - lo, id);
        assert ss[i - lo] == h[id].slots[i];
        var child := pool.SlotAt(id, i).child;
        AtChild(ss, i - lo, child);
        pool.FetchPage(child);
        pool.SetParentPageId(child, id);
        pool.UnpinPage(child, true);
        assert pool.pins == old(pool.pins);
        AdoptOne(h, ss, i - lo, id);
        i := i + 1;
      }
      assert ss[..hi - lo] == ss;
    }

    /** The writes of a leaf split that do not concern the parent. */
    method SplitLeafPages(leaf: PageId) returns (right: PageId, middle: int)
      requires Setup() && leaf in pool.heap && pool.heap[leaf].Leaf?
      requires pool.heap[leaf].max == leafMax && |pool.heap[leaf].entries| == leafMax + 1
      requires pool.pins[leaf] > 0 && pool.unsaved <= {leaf} && pool.free >= 1
      modifies pool, pool.repr
      ensures Setup() && fresh(pool.repr - old(pool.repr)) && pool.unsaved <= {leaf, right}
      ensures right >= 0 && right !in old(pool.heap) && middle == old(pool.heap)[leaf].entries[(leafMax + 1) / 2].key
      ensures pool.heap == LeafHalves(old(pool.heap), leafMax, leaf, right)
      ensures leaf in pool.heap && right in pool.heap && pool.heap[leaf].parent == old(pool.heap)[leaf].parent
      ensures leaf in shape ==> Others(old(pool.heap), shape, pool.heap)
      ensures pool.pins == old(pool.pins)[right := 1] && pool.free == old(pool.free) - 1
    {
      hide Pool.PagesOk, Pinned;
      right := pool.NewLeaf(leafMax);
      pool.LeafMoveHalfTo(leaf, right);
      pool.SetNextPageId(right, pool.GetNextPageId(leaf));
      pool.SetNextPageId(leaf, right);
      middle := pool.LeafEntryAt(right, 0).key;
    }

    method Split(leaf: PageId)
      requires Setup() && OverfullLeaf(pool.heap, shape, root, leafMax, innerMax, contents, leaf)
      requires pool.pins[leaf] > 0 && pool.unsaved <= {leaf} && pool.free + (if pool.pins[leaf] == 1 then 1 else 0) >= 3
      modifies this, pool, pool.repr
      ensures Valid() && fresh(pool.repr - old(pool.repr)) && pool.unsaved == {} && contents == old(contents)
      ensures Restored(Dropped(old(pool.pins), leaf), pool.pins) && Others(old(pool.heap), old(shape), pool.heap)
    {
      hide Core, SizedBut, Represents, Pool.PagesOk, Pinned, Restored, Others, Dropped, SplitShape, LeafHalves;
      ghost var h, g, pins, repr := pool.heap, shape, pool.pins, pool.repr;
      UpFacts(h, g, root, leaf);
      var right, middle := SplitLeafPages(leaf);
      ghost var h1, repr1 := pool.heap, pool.repr;
      if pool.IsRootPage(leaf) {
        var r, k0 := NewRoot(leaf, middle, right);
        SplitLeafAtRoot(h, g, leaf, leafMax, innerMax, contents, right, r, k0);
        shape := SplitShape(GrowShape(g, leaf, r), leaf, right, middle);
        ReleasedRoot(pins, leaf, right, r, pool.pins);
        OthersUnder(h, g, h1, innerMax, leaf, middle, right, r, k0);
      } else {
        ghost var pins1 := pool.pins;
        SplitLeafBelow(h, g, root, leafMax, innerMax, contents, leaf, right);
        RaiseSplit(leaf, middle, right);
        ReleasedBelow(pins, leaf, right, pins1, pool.pins);
        OthersSplit(h, g, h1, leaf, right, middle, pool.heap);
      }
      assert pool.repr - repr <= (pool.repr - repr1) + (repr1 - repr);
    }

    /** Releases both halves of a split page and hands the new one to the parent. */
    method RaiseSplit(id: PageId, middle: int, right: PageId)
      requires Setup() && id in pool.heap && right in pool.heap && id != right
      requires pool.pins[id] > 0 && pool.pins[right] == 1 && pool.unsaved <= {id, right}
      requires pool.free + (if pool.pins[id] == 1 then 1 else 0) >= 2
      requires id in shape && root in shape && right !in shape
      requires var q := pool.heap[id].parent; var h1 := pool.heap[right := WithParent(pool.heap[right], q)];
               && ParentReady(h1, shape, root, leafMax, innerMax, id, q)
               && Holds(WithChild(h1, q, id, middle, right), SplitShape(shape, id, right, middle), root, leafMax,
                  innerMax, {q}, contents)
      modifies this, pool, pool.repr
      ensures Valid() && fresh(pool.repr - old(pool.repr)) && pool.unsaved == {} && contents == old(contents)
      ensures Restored(old(pool.pins)[id := old(pool.pins)[id] - 1][right := 0], pool.pins)
      ensures Others(old(pool.heap), SplitShape(old(shape), id, right, middle), pool.heap)
      decreases shape[root].level - shape[id].level, 0
    {
      hide Core, SizedBut, Represents, Pool.PagesOk, Pinned, Restored, Others, Dropped, SizeOk;
      ghost var h, g1 := pool.heap, SplitShape(shape, id, right, middle);
      var parent := pool.GetParentPageId(id);
      pool.SetParentPageId(right, parent);
      pool.UnpinPage(id, true);
      pool.UnpinPage(right, true);
      BelowRoot(WithChild(pool.heap, parent, id, middle, right), g1, root, parent);
      RootCovers(WithChild(pool.heap, parent, id, middle, right), g1, root);
      shape := g1;
      ghost var h1 := pool.heap;
      OthersOf(h, g1, h1, {right});
      InsertIntoParent(parent, id, middle, right);
      OthersTrans(h, g1, h1, g1, pool.heap);
    }

    method InsertIntoParent(parent: PageId, oldChild: PageId, key: int, newChild: PageId)
      requires Setup() && parent in shape && root in shape && parent in pool.heap
      requires pool.heap[parent].Inner? && SizeOk(pool.heap, root, leafMax, innerMax, parent)
      requires Holds(WithChild(pool.heap, parent, oldChild, key, newChild), shape, root, leafMax, innerMax, {parent},
               contents)
      requires pool.unsaved == {} && pool.free >= 3
      modifies this, pool, pool.repr
      ensures Valid() && fresh(pool.repr - old(pool.repr)) && pool.unsaved == {} && contents == old(contents)
      ensures Restored(old(pool.pins), pool.pins) && Others(old(pool.heap), old(shape), pool.heap)
      decreases shape[root].level - shape[parent].level, 2
    {
      hide Core, SizedBut, Represents, Pool.PagesOk, Pinned, Restored, Others, Dropped, SizeOk, WithChild;
      ghost var h, g, pins := pool.heap, shape, pool.pins;
      TakenUp(h, g, root, leafMax, innerMax, parent, oldChild, key, newChild);
      pool.FetchPage(parent);
      pool.InsertNodeAfter(parent, oldChild, key, newChild);
      ghost var h1 := pool.heap;
      assert h1 == WithChild(h, parent, oldChild, key, newChild);
      if pool.GetSize(parent) > pool.GetMaxSize(parent) {
        SplitInternal(parent);
        ReleasedFetch(pins, parent, pool.pins);
        OthersTrans(h, g, h1, g, pool.heap);
      } else {
        NowSized(pool.heap, shape, root, leafMax, innerMax, parent);
        RootCovers(pool.heap, shape, root);
        pool.UnpinPage(parent, true);
        ReleasedAll(pins, pool.pins);
      }
    }

    /** The writes of an internal split that do not concern the parent. */
    method MoveUpperHalf(id: PageId) returns (right: PageId, middle: int, ghost k0: int)
      requires Setup() && id in pool.heap && pool.heap[id].Inner? && |pool.heap[id].slots| == innerMax + 1
      requires pool.pins[id] > 0 && pool.unsaved <= {id} && pool.free >= 1
      modifies pool, pool.repr
      ensures Setup() && fresh(pool.repr - old(pool.repr)) && pool.unsaved <= {id, right}
      ensures right >= 0 && right !in old(pool.heap) && pool.pins == old(pool.pins)[right := 1]
              && pool.free == old(pool.free) - 1
      ensures var h, n := old(pool.heap), (innerMax + 1) / 2;
              var ss := h[id].slots;
              && middle == ss[n].key
              && pool.heap == h[id := WithSlots(h[id], ss[..n])][right := Inner(innerMax, INVALID_PAGE_ID,
                 WithKey(ss[n..], 0, k0))]
    {
      hide Pool.PagesOk, Pinned;
      right := pool.NewInternal(innerMax);
      middle := pool.SlotAt(id, pool.GetSize(id) / 2).key;
      k0 := pool.InnerMoveHalfTo(id, right);
    }

    method SplitInnerPages(id: PageId) returns (right: PageId, middle: int, ghost k0: int)
      requires Setup() && OverfullInner(pool.heap, shape, root, leafMax, innerMax, contents, id)
      requires pool.pins[id] > 0 && pool.unsaved <= {id} && pool.free >= 2
      modifies pool, pool.repr
      ensures Setup() && fresh(pool.repr - old(pool.repr)) && pool.unsaved <= {id, right}
      ensures right >= 0 && right !in old(pool.heap) && middle == old(pool.heap)[id].slots[(innerMax + 1) / 2].key
      ensures pool.heap == InnerHalves(old(pool.heap), innerMax, id, right, k0)
      ensures id in pool.heap && right in pool.heap && pool.heap[id].parent == old(pool.heap)[id].parent
      ensures pool.pins == old(pool.pins)[right := 1] && pool.free == old(pool.free) - 1
      ensures Others(old(pool.heap), old(shape), pool.heap)
    {
      hide Core, SizedBut, Represents, Pool.PagesOk, Pinned, HasChild, Others, InnerHalves;
      ghost var h, split := pool.heap, (innerMax + 1) / 2;
      right, middle, k0 := MoveUpperHalf(id);
      SplitKids(h, shape, root, id, split, right, k0);
      AdoptChildren(right, 0, pool.GetSize(right));
      AdoptSame(h, id, right, split, k0, innerMax, pool.heap);
      HalvesAre(h, innerMax, id, right, k0, pool.heap);
      SplitOthers(h, shape, root, id, split, {id, right}, pool.heap);
    }

    method SplitInternal(id: PageId)
      requires Setup() && OverfullInner(pool.heap, shape, root, leafMax, innerMax, contents, id)
      requires pool.pins[id] > 0 && pool.unsaved <= {id} && pool.free + (if pool.pins[id] == 1 then 1 else 0) >= 3
      modifies this, pool, pool.repr
      ensures Valid() && fresh(pool.repr - old(pool.repr)) && pool.unsaved == {} && contents == old(contents)
      ensures Restored(Dropped(old(pool.pins), id), pool.pins) && Others(old(pool.heap), old(shape), pool.heap)
      decreases shape[root].level - shape[id].level, 1
    {
      hide Core, SizedBut, Represents, Pool.PagesOk, Pinned, Restored, Others, Dropped, SplitShape, InnerHalves;
      ghost var h, g, pins, repr := pool.heap, shape, pool.pins, pool.repr;
      UpFacts(h, g, root, id);
      SplitFamily(h, g, root, id, (innerMax + 1) / 2);
      var right, middle, k0 := SplitInnerPages(id);
      ghost var h1, repr1 := pool.heap, pool.repr;
      if pool.IsRootPage(id) {
        var r, k1 := NewRoot(id, middle, right);
        SplitInnerAtRoot(h, g, id, leafMax, innerMax, contents, right, k0, r, k1);
        shape := SplitShape(GrowShape(g, id, r), id, right, middle);
        ReleasedRoot(pins, id, right, r, pool.pins);
        OthersUnder(h, g, h1, innerMax, id, middle, right, r, k1);
      } else {
        ghost var pins1 := pool.pins;
        SplitInnerBelow(h, g, root, leafMax, innerMax, contents, id, right, k0);
        RaiseSplit(id, middle, right);
        ReleasedBelow(pins, id, right, pins1, pool.pins);
        OthersSplit(h, g, h1, id, right, middle, pool.heap);
      }
      assert pool.repr - repr <= (pool.repr - repr1) + (repr1 - repr);
    }

    // ---------- removal ----------

    /** The neighbour an underfull page turns to; it and the common parent are left pinned.
        `astray` are pages further down whose parent pointers are wrong. */
    method PinNeighbour(x: PageId, ghost astray: map<PageId, PageId>)
        returns (q: PageId, s: PageId, index: nat, isLeft: bool)
      requires Setup() && Underfull(Mended(pool.heap, astray), shape, root, leafMax, innerMax, contents, x)
      requires Strayed(pool.heap, shape, astray, shape[x].level)
      requires pool.pins[x] > 0 && pool.free >= 2
      modifies pool`pins, pool`free
      ensures Setup() && Beside(Mended(pool.heap, astray), shape, root, leafMax, innerMax, contents, q, index, x, s,
              isLeft)
      ensures q == pool.heap[x].parent && index == ChildIndex(pool.heap[q].slots, x)
              && s == Sibling(pool.heap[q].slots, x)
      ensures x !in astray && q !in astray && s !in astray && s != INVALID_PAGE_ID
      ensures isLeft <==> index > 0
      ensures pool.pins == old(pool.pins)[q := old(pool.pins)[q] + 1][s := old(pool.pins)[s] + 1]
      ensures pool.free == old(pool.free) - (if old(pool.pins)[q] == 0 then 1 else 0)
              - (if old(pool.pins)[s] == 0 then 1 else 0)
    {
      hide Core, SizedBut, Represents, Pool.PagesOk, Pinned, Siblings, Holds, Strayed;
      HasSibling(Mended(pool.heap, astray), shape, root, leafMax, innerMax, contents, x);
      InSight(pool.heap, shape, root, leafMax, innerMax, contents, x, astray);
      q := pool.GetParentPageId(x);
      pool.FetchPage(q);
      index := pool.ValueIndex(q, x);
      s, isLeft := INVALID_PAGE_ID, false;
      if index > 0 {
        s, isLeft := pool.SlotAt(q, index - 1).child, true;
      } else if index < pool.GetSize(q) - 1 {
        s := pool.SlotAt(q, index + 1).child;
      }
      assert s != INVALID_PAGE_ID; // the branches without a neighbour are dead
      pool.FetchPage(s);
    }

    method ReleaseThree(x: PageId, s: PageId, q: PageId)
      requires pool.Valid() && x in pool.heap && s in pool.heap && q in pool.heap && x != s && x != q && s != q
      requires pool.pins[x] > 0 && pool.pins[s] > 0 && pool.pins[q] > 0 && pool.unsaved <= {x, s, q}
      modifies pool`pins, pool`free, pool`unsaved
      ensures pool.Valid() && pool.unsaved == {}
      ensures var pins := old(pool.pins); pool.pins == pins[x := pins[x] - 1][s := pins[s] - 1][q := pins[q] - 1]
    {
      hide Pool.PagesOk, Pinned;
      pool.UnpinPage(x, true);
      pool.UnpinPage(s, true);
      pool.UnpinPage(q, true);
    }

    /** One entry moves over from the neighbour. */
    method ShiftLeafPages(x: PageId, s: PageId, q: PageId, index: nat, isLeft: bool)
      requires Setup() && Beside(pool.heap, shape, root, leafMax, innerMax, contents, q, index, x, s, isLeft)
      requires pool.heap[x].Leaf? && |pool.heap[s].entries| > pool.heap[s].MinSize()
      requires pool.pins[x] > 0 && pool.pins[s] > 0 && pool.pins[q] > 0 && pool.unsaved <= {x}
      modifies pool, pool.repr
      ensures Setup() && pool.repr == old(pool.repr) && pool.unsaved <= {x, s, q} && pool.pins == old(pool.pins)
      ensures pool.heap == if isLeft then LeafFromLeft(old(pool.heap), q, index - 1, s, x)
                           else LeafFromRight(old(pool.heap), q, index, x, s)
    {
      hide Core, SizedBut, Represents, Pool.PagesOk, Pinned;
      if isLeft {
        pool.LeafMoveLastToFrontOf(s, x);
        pool.SetKeyAt(q, index, pool.LeafEntryAt(x, 0).key);
      } else {
        pool.LeafMoveFirstToEndOf(s, x);
        pool.SetKeyAt(q, index + 1, pool.LeafEntryAt(s, 0).key);
      }
    }

    /** The writes of a merge of leaves. */
    method MergeLeafPages(q: PageId, i: nat, a: PageId, b: PageId, ghost x: PageId)
      requires Setup() && Neighbours(pool.heap, shape, root, leafMax, innerMax, contents, q, i, a, b, x)
      requires pool.heap[x].Leaf? && |pool.heap[a].entries| + |pool.heap[b].entries| <= leafMax
      requires pool.pins[a] > 0 && pool.pins[b] > 0 && pool.pins[q] > 0 && pool.unsaved <= {a, b}
      modifies pool, pool.repr
      ensures Setup() && pool.repr == old(pool.repr) && pool.unsaved <= {a, b, q}
      ensures pool.heap == LeavesMerged(old(pool.heap), q, i, a, b)
      ensures pool.pins == old(pool.pins) && pool.free == old(pool.free)
    {
      hide Core, SizedBut, Represents, Pool.PagesOk, Pinned;
      ghost var h := pool.heap;
      pool.LeafMoveAllTo(b, a);
      pool.SetNextPageId(a, pool.GetNextPageId(b));
      pool.RemoveSlot(q, i + 1);
      assert pool.heap == LeavesMerged(h, q, i, a, b);
    }

    /** Releases two merged pages and deletes the emptied one, unless somebody else has it pinned. */
    method ReleaseMerged(x: PageId, s: PageId, dead: PageId, ghost q: PageId)
      requires pool.Valid() && x in pool.heap && s in pool.heap && x != s && (dead == x || dead == s)
      requires pool.pins[x] > 0 && pool.pins[s] > 0 && pool.unsaved <= {x, s, q}
      modifies pool
      ensures pool.Valid() && pool.repr == old(pool.repr) && pool.unsaved <= {q}
      ensures pool.heap == old(pool.heap) || pool.heap == old(pool.heap) - {dead}
      ensures Restored(old(pool.pins)[x := old(pool.pins)[x] - 1][s := old(pool.pins)[s] - 1], pool.pins)
      ensures pool.free == old(pool.free) + (if old(pool.pins)[x] == 1 then 1 else 0)
              + (if old(pool.pins)[s] == 1 then 1 else 0)
    {
      hide Pool.PagesOk, Pinned;
      pool.UnpinPage(x, true);
      pool.UnpinPage(s, true);
      var deleted := pool.DeletePage(dead);
    }

    /** The right of the two leaves is emptied into the left one and deleted. */
    method FoldLeafPages(x: PageId, s: PageId, q: PageId, index: nat, isLeft: bool)
      requires Setup() && Beside(pool.heap, shape, root, leafMax, innerMax, contents, q, index, x, s, isLeft)
      requires pool.heap[x].Leaf? && |pool.heap[s].entries| == pool.heap[s].MinSize()
      requires pool.pins[x] > 0 && pool.pins[s] > 0 && pool.pins[q] > 0 && pool.unsaved <= {x}
      modifies pool, pool.repr
      ensures Setup() && pool.repr == old(pool.repr) && pool.unsaved <= {q}
      ensures var h' := if isLeft then LeavesMerged(old(pool.heap), q, index - 1, s, x)
                        else LeavesMerged(old(pool.heap), q, index, x, s);
              pool.heap == h' || pool.heap == h' - {if isLeft then x else s}
      ensures Restored(old(pool.pins)[x := old(pool.pins)[x] - 1][s := old(pool.pins)[s] - 1], pool.pins)
      ensures pool.free == old(pool.free) + (if old(pool.pins)[x] == 1 then 1 else 0)
              + (if old(pool.pins)[s] == 1 then 1 else 0)
    {
      hide Core, SizedBut, Represents, Pool.PagesOk, Pinned, LeavesMerged, Restored, Siblings;
      if isLeft {
        MergeLeafPages(q, index - 1, s, x, x);
        ReleaseMerged(x, s, x, q);
      } else {
        MergeLeafPages(q, index, x, s, x);
        ReleaseMerged(x, s, s, q);
      }
    }

    /** One child moves over from the neighbour, through the separator in the parent. */
    method ShiftInnerPages(x: PageId, s: PageId, q: PageId, index: nat, isLeft: bool)
      requires Setup() && (if isLeft then index > 0 && InnerPair(pool.heap, q, index - 1, s, x)
               else InnerPair(pool.heap, q, index, x, s))
      requires |pool.heap[s].slots| > 1
      requires pool.pins[x] > 0 && pool.pins[s] > 0 && pool.pins[q] > 0 && pool.unsaved <= {x} && pool.free >= 1
      modifies pool, pool.repr
      ensures Setup() && pool.repr == old(pool.repr) && pool.unsaved <= {x, s, q} && pool.pins == old(pool.pins)
      ensures if isLeft then FromLeft(old(pool.heap), q, index - 1, s, x, repaired, pool.heap)
              else FromRight(old(pool.heap), q, index, x, s, pool.heap)
    {
      hide Pool.PagesOk, Pinned, FromLeft, FromRight;
      if isLeft {
        BorrowLeft(x, s, q, index);
      } else {
        BorrowRight(x, s, q, index);
      }
    }

    /** As written, the key in slot 0 of the recipient stays what it was and becomes the separator. */
    method BorrowLeft(x: PageId, s: PageId, q: PageId, index: nat)
      requires Setup() && index > 0 && InnerPair(pool.heap, q, index - 1, s, x) && |pool.heap[s].slots| > 1
      requires pool.pins[x] > 0 && pool.pins[s] > 0 && pool.pins[q] > 0 && pool.unsaved <= {x} && pool.free >= 1
      modifies pool, pool.repr
      ensures Setup() && pool.repr == old(pool.repr) && pool.unsaved <= {x, s, q} && pool.pins == old(pool.pins)
      ensures FromLeft(old(pool.heap), q, index - 1, s, x, repaired, pool.heap)
    {
      hide Pool.PagesOk, Pinned, PushFront, HasChild, FromLeft;
      ghost var h := pool.heap;
      LastChild(h, q, index - 1, s, x);
      var child := LendLast(x, s, q, index);
      Handover(x, child);
      LeftBorrowed(h, q, index - 1, s, x, repaired, pool.heap);
    }

    /** The last slot of `s` goes to the front of `x`, and the separator follows. */
    method LendLast(x: PageId, s: PageId, q: PageId, index: nat) returns (child: PageId)
      requires Setup() && index > 0 && InnerPair(pool.heap, q, index - 1, s, x) && |pool.heap[s].slots| > 1
      requires pool.pins[x] > 0 && pool.pins[s] > 0 && pool.pins[q] > 0 && pool.unsaved <= {x} && pool.free >= 1
      modifies pool, pool.repr
      ensures Setup() && pool.repr == old(pool.repr) && pool.unsaved <= {x, s, q} && pool.pins == old(pool.pins)
              && pool.free == old(pool.free)
      ensures var h := old(pool.heap);
              var last := h[s].slots[|h[s].slots| - 1];
              child == last.child
                && pool.heap == Lent(h, q, index - 1, s, x, if repaired then last.key else h[x].slots[0].key)
    {
      hide Pool.PagesOk, Pinned, PushFront, HasChild;
      ghost var h, last := pool.heap, pool.heap[s].slots[|pool.heap[s].slots| - 1].child;
      var middle := pool.SlotAt(q, index).key;
      var donorKey := pool.SlotAt(s, pool.GetSize(s) - 1).key;
      PushFrontFacts(h[x].slots, h[x].slots[0].key, last, middle, donorKey);
      pool.InnerMoveLastToFrontOf(s, x, middle);
      if repaired {
        pool.SetKeyAt(x, 0, donorKey);
      }
      pool.SetKeyAt(q, index, pool.SlotAt(x, 0).key);
      child := pool.SlotAt(x, 0).child;
    }

    method BorrowRight(x: PageId, s: PageId, q: PageId, index: nat)
      requires Setup() && InnerPair(pool.heap, q, index, x, s) && |pool.heap[s].slots| > 1
      requires pool.pins[x] > 0 && pool.pins[s] > 0 && pool.pins[q] > 0 && pool.unsaved <= {x} && pool.free >= 1
      modifies pool, pool.repr
      ensures Setup() && pool.repr == old(pool.repr) && pool.unsaved <= {x, s, q} && pool.pins == old(pool.pins)
      ensures FromRight(old(pool.heap), q, index, x, s, pool.heap)
    {
      hide Pool.PagesOk, Pinned, HasChild;
      ghost var h := pool.heap;
      AtChild(h[s].slots, 0, h[s].slots[0].child);
      var middle := pool.SlotAt(q, index + 1).key;
      pool.InnerMoveFirstToEndOf(s, x, middle);
      pool.SetKeyAt(q, index + 1, pool.SlotAt(s, 0).key);
      Handover(x, pool.SlotAt(x, pool.GetSize(x) - 1).child);
      assert pool.heap == InnerFromRight(h, q, index, x, s);
    }

    /** `child` learns that `id` is its parent. */
    method Handover(id: PageId, child: PageId)
      requires pool.Valid() && child in pool.heap && pool.free >= 1
      modifies pool, pool.repr
      ensures pool.Valid() && pool.repr == old(pool.repr) && pool.pins == old(pool.pins) && pool.free == old(pool.free)
      ensures pool.unsaved <= old(pool.unsaved)
              && pool.heap == old(pool.heap)[child := WithParent(old(pool.heap)[child], id)]
    {
      hide Pool.PagesOk, Pinned;
      pool.FetchPage(child);
      pool.SetParentPageId(child, id);
      pool.UnpinPage(child, true);
      assert pool.pins == old(pool.pins);
    }

    /** The right of the two internal pages is emptied into the left one and deleted. */
    method FoldInnerPages(x: PageId, s: PageId, q: PageId, index: nat, isLeft: bool)
      requires Setup() && (if isLeft then index > 0 && InnerPair(pool.heap, q, index - 1, s, x)
               else InnerPair(pool.heap, q, index, x, s))
      requires |pool.heap[x].slots| + |pool.heap[s].slots| <= pool.heap[x].max
      requires pool.pins[x] > 0 && pool.pins[s] > 0 && pool.pins[q] > 0 && pool.unsaved <= {x} && pool.free >= 1
      modifies pool, pool.repr
      ensures Setup() && pool.repr == old(pool.repr) && pool.unsaved <= {q}
      ensures var h' := if isLeft then InnersMerged(old(pool.heap), q, index - 1, s, x, repaired)
                        else InnersMerged(old(pool.heap), q, index, x, s, repaired);
              pool.heap == h' || pool.heap == h' - {if isLeft then x else s}
      ensures Restored(old(pool.pins)[x := old(pool.pins)[x] - 1][s := old(pool.pins)[s] - 1], pool.pins)
      ensures pool.free == old(pool.free) + (if old(pool.pins)[x] == 1 then 1 else 0)
              + (if old(pool.pins)[s] == 1 then 1 else 0)
    {
      hide Pool.PagesOk, Pinned, HasChild, InnersMerged, Restored;
      if isLeft {
        MergeInnerPages(q, index - 1, s, x);
        ReleaseMerged(x, s, x, q);
      } else {
        MergeInnerPages(q, index, x, s);
        ReleaseMerged(x, s, s, q);
      }
    }

    /** The writes of a merge of internal pages. As written, the loop over the moved kids counts to the
        size of the page that has just been emptied. */
    method MergeInnerPages(q: PageId, i: nat, a: PageId, b: PageId)
      requires Setup() && InnerPair(pool.heap, q, i, a, b)
               && |pool.heap[a].slots| + |pool.heap[b].slots| <= pool.heap[a].max
      requires pool.pins[a] > 0 && pool.pins[b] > 0 && pool.pins[q] > 0 && pool.unsaved <= {a, b} && pool.free >= 1
      modifies pool, pool.repr
      ensures Setup() && pool.repr == old(pool.repr) && pool.unsaved <= {a, b, q}
      ensures pool.heap == InnersMerged(old(pool.heap), q, i, a, b, repaired)
      ensures pool.pins == old(pool.pins) && pool.free == old(pool.free)
    {
      hide Pool.PagesOk, Pinned, HasChild;
      ghost var h := pool.heap;
      var middle := pool.SlotAt(q, i + 1).key;
      var before := pool.GetSize(b);
      pool.InnerMoveAllTo(b, a, middle);
      var after := pool.GetSize(b);
      var size, moved := pool.GetSize(a), if repaired then before else after;
      AdoptTail(pool.heap, h[a].slots, h[b].slots, middle, a, moved);
      AdoptChildren(a, size - moved, size);
      pool.RemoveSlot(q, i + 1);
    }

    /** Borrows one entry from the neighbour and releases all three pages. */
    method RedistributeLeaves(x: PageId, s: PageId, q: PageId, index: nat, isLeft: bool)
      requires Setup() && Beside(pool.heap, shape, root, leafMax, innerMax, contents, q, index, x, s, isLeft)
      requires pool.heap[x].Leaf? && |pool.heap[s].entries| > pool.heap[s].MinSize()
      requires pool.pins[x] > 0 && pool.pins[s] > 0 && pool.pins[q] > 0 && pool.unsaved <= {x}
      modifies this, pool, pool.repr
      ensures Setup() && root == old(root) && ValidBut({}) && pool.repr == old(pool.repr)
      ensures contents == old(contents) && pool.unsaved == {}
      ensures var pins := old(pool.pins); pool.pins == pins[x := pins[x] - 1][s := pins[s] - 1][q := pins[q] - 1]
      ensures Others(old(pool.heap), old(shape), pool.heap)
    {
      hide Core, SizedBut, Represents, Pool.PagesOk, Pinned, Others, LeafFromLeft, LeafFromRight, ShiftShape;
      ghost var h, g := pool.heap, shape;
      ShiftLeafPages(x, s, q, index, isLeft);
      ghost var key := ShiftedLeaves(h, g, root, leafMax, innerMax, contents, q, index, x, s, isLeft, pool.heap);
      shape := if isLeft then ShiftShape(g, s, x, key) else ShiftShape(g, x, s, key);
      ReleaseThree(x, s, q);
    }

    /** Merges with the neighbour and releases both pages; the parent may lack a child now. */
    method CoalesceLeaves(x: PageId, s: PageId, q: PageId, index: nat, isLeft: bool)
      requires Setup() && Beside(pool.heap, shape, root, leafMax, innerMax, contents, q, index, x, s, isLeft)
      requires pool.heap[x].Leaf? && |pool.heap[s].entries| == pool.heap[s].MinSize()
               && s == Sibling(pool.heap[q].slots, x) && q == pool.heap[x].parent
      requires pool.pins[x] > 0 && pool.pins[s] > 0 && pool.pins[q] > 0 && pool.unsaved <= {x}
      modifies this, pool, pool.repr
      ensures Setup() && root == old(root) && ValidBut({q}) && pool.repr == old(pool.repr)
      ensures contents == old(contents) && pool.unsaved <= {q}
      ensures ParentLeft(old(pool.heap), pool.heap, shape, q) && SameFor(old(shape), shape, q)
              && SameFor(old(shape), shape, root)
      ensures shape.Keys <= old(shape).Keys && Others(old(pool.heap), old(shape), pool.heap)
      ensures KeptAbove(old(pool.heap), old(shape), pool.heap, shape, q)
      ensures SpoilsParent(pool.heap, root, q, contents) <==> SpoilsLeaf(old(pool.heap), root, x, contents)
      ensures Restored(old(pool.pins)[x := old(pool.pins)[x] - 1][s := old(pool.pins)[s] - 1], pool.pins)
      ensures pool.free == old(pool.free) + (if old(pool.pins)[x] == 1 then 1 else 0)
              + (if old(pool.pins)[s] == 1 then 1 else 0)
    {
      hide Core, SizedBut, Represents, Pool.PagesOk, Pinned, Others, Restored, LeavesMerged, SpoilsParent, SpoilsLeaf,
        KeptAbove;
      ghost var h, g := pool.heap, shape;
      FoldLeafPages(x, s, q, index, isLeft);
      MergedLeaves(h, g, root, leafMax, innerMax, contents, q, index, x, s, isLeft, pool.heap);
      MergeSpoils(h, g, root, leafMax, innerMax, contents, q, index, x, s, isLeft, pool.heap);
      shape := if isLeft then MergeShape(g, s, x) else MergeShape(g, x, s);
    }

    /** Borrows one child from the neighbour and releases all three pages. As written, a borrow from the
        left keeps the tree sound exactly when no stored key lies between the stale key and the right one. */
    method RedistributeInners(x: PageId, s: PageId, q: PageId, index: nat, isLeft: bool,
        ghost astray: map<PageId, PageId>) returns (ghost fine: bool)
      requires Setup() && Beside(Mended(pool.heap, astray), shape, root, leafMax, innerMax, contents, q, index, x, s,
               isLeft)
      requires Strayed(pool.heap, shape, astray, shape[x].level) && (repaired ==> astray == map[])
      requires x !in astray && s !in astray && pool.heap[x].Inner? && |pool.heap[s].slots| > pool.heap[s].MinSize()
      requires q == pool.heap[x].parent && index == ChildIndex(pool.heap[q].slots, x)
               && s == Sibling(pool.heap[q].slots, x)
      requires pool.pins[x] > 0 && pool.pins[s] > 0 && pool.pins[q] > 0 && pool.unsaved <= {x} && pool.free >= 1
      modifies this, pool, pool.repr
      ensures Setup() && root == old(root) && pool.repr == old(pool.repr) && contents == old(contents)
              && pool.unsaved == {}
      ensures if fine then ValidBut({})
              else !Sound(pool.heap, root, leafMax, innerMax, contents)
                   && Wrecked(old(pool.heap), old(shape), x, pool.heap, shape, root, contents)
      ensures var h := old(pool.heap);
              fine <==> astray == map[]
                        && (repaired || !isLeft
                        || NoneBetween(contents, h[x].slots[0].key, h[s].slots[|h[s].slots| - 1].key))
      ensures var pins := old(pool.pins); pool.pins == pins[x := pins[x] - 1][s := pins[s] - 1][q := pins[q] - 1]
      ensures Others(old(pool.heap), old(shape), pool.heap)
    {
      hide Core, SizedBut, Represents, Pool.PagesOk, Pinned, Others, FromLeft, FromRight, Strayed, Sound, NoneBetween,
        HasChild, Wrecked;
      ghost var h, g := pool.heap, shape;
      PairBeside(h, g, root, leafMax, innerMax, contents, q, index, x, s, isLeft, astray);
      ShiftInnerPages(x, s, q, index, isLeft);
      ghost var g';
      fine, g' := BorrowedInner(h, g, root, leafMax, innerMax, contents, q, index, x, s, isLeft, repaired, astray,
        pool.heap);
      shape := g';
      ReleaseThree(x, s, q);
    }

    /** Merges with the neighbour and releases both pages; the parent may lack a child now. As written,
        the moved kids are astray afterwards. */
    method CoalesceInners(x: PageId, s: PageId, q: PageId, index: nat, isLeft: bool, ghost astray: map<PageId, PageId>)
      returns (ghost more: map<PageId, PageId>)
      requires Setup() && Beside(Mended(pool.heap, astray), shape, root, leafMax, innerMax, contents, q, index, x, s,
               isLeft)
      requires Strayed(pool.heap, shape, astray, shape[x].level) && (repaired ==> astray == map[])
      requires x !in astray && s !in astray && pool.heap[x].Inner? && |pool.heap[s].slots| == pool.heap[s].MinSize()
      requires pool.pins[x] > 0 && pool.pins[s] > 0 && pool.pins[q] > 0 && pool.unsaved <= {x} && pool.free >= 1
      modifies this, pool, pool.repr
      ensures Setup() && root == old(root) && pool.repr == old(pool.repr) && contents == old(contents)
              && pool.unsaved <= {q}
      ensures Holds(Mended(pool.heap, more), shape, root, leafMax, innerMax, {q}, contents)
      ensures q in shape && Strayed(pool.heap, shape, more, shape[q].level) && (more == map[] <==> repaired)
      ensures !repaired ==> KeptAbove(old(pool.heap), old(shape), pool.heap, shape, q)
      ensures ParentLeft(old(pool.heap), pool.heap, shape, q) && SameFor(old(shape), shape, q)
              && SameFor(old(shape), shape, root)
      ensures shape.Keys <= old(shape).Keys && Others(old(pool.heap), old(shape), pool.heap)
      ensures Restored(old(pool.pins)[x := old(pool.pins)[x] - 1][s := old(pool.pins)[s] - 1], pool.pins)
      ensures pool.free == old(pool.free) + (if old(pool.pins)[x] == 1 then 1 else 0)
              + (if old(pool.pins)[s] == 1 then 1 else 0)
    {
      hide Core, SizedBut, Represents, Pool.PagesOk, Pinned, Others, Restored, InnersMerged, Strayed, HasChild, Holds,
        KeptAbove;
      ghost var h, g := pool.heap, shape;
      PairBeside(h, g, root, leafMax, innerMax, contents, q, index, x, s, isLeft, astray);
      FoldInnerPages(x, s, q, index, isLeft);
      more := FoldedInner(h, g, root, leafMax, innerMax, contents, q, index, x, s, isLeft, repaired, astray, pool.heap);
      shape := if isLeft then MergeShape(g, s, x) else MergeShape(g, x, s);
    }

    /** What both rebalancing functions do with the parent of two merged pages. */
    method SettleParent(q: PageId, ghost astray: map<PageId, PageId>) returns (ghost fine: bool)
      requires Setup() && Holds(Mended(pool.heap, astray), shape, root, leafMax, innerMax, {q}, contents) && q in shape
               && q in pool.heap
      requires Strayed(pool.heap, shape, astray, shape[q].level) && (repaired ==> astray == map[])
      requires pool.heap[q].Inner? && pool.heap[q].max == innerMax && |pool.heap[q].slots| <= innerMax
      requires |pool.heap[q].slots| >= (if q == root then 1 else pool.heap[q].MinSize() - 1)
      requires pool.pins[q] > 0 && pool.unsaved <= {q} && pool.free + (if pool.pins[q] == 1 then 1 else 0) >= 4
      modifies this, pool, pool.repr
      ensures Setup() && !IsEmpty() && pool.repr == old(pool.repr) && pool.unsaved == {} && contents == old(contents)
      ensures if fine then ValidBut({})
              else !Sound(pool.heap, root, leafMax, innerMax, contents)
                   && Wrecked(old(pool.heap), old(shape), q, pool.heap, shape, root, contents)
      ensures fine <==> astray == map[] && (repaired || !SpoilsParent(old(pool.heap), old(root), q, contents))
      ensures Restored(Dropped(old(pool.pins), q), pool.pins) && Others(old(pool.heap), old(shape), pool.heap)
      decreases shape[root].level - shape[q].level, 2
    {
      hide Core, SizedBut, Represents, Pool.PagesOk, Pinned, Restored, Others, Strayed, Sound, SpoilsInner, Wrecked,
        Readable;
      ghost var h, pins := pool.heap, pool.pins;
      StraysBelow(h, shape, root, q, astray);
      UpFacts(Mended(h, astray), shape, root, q);
      RootCovers(Mended(h, astray), shape, root);
      if pool.GetSize(q) < pool.GetMinSize(q) && !pool.IsRootPage(q) {
        fine := CoalesceOrRedistributeInternal(q, astray);
      } else if pool.IsRootPage(q) && pool.GetSize(q) == 1 {
        fine := ShrinkTree(q, astray);
      } else {
        fine := Settled(h, shape, root, leafMax, innerMax, contents, q, astray);
        if !fine { WreckedOnlyParents(h, shape, q, h, shape, root, contents); }
        pool.UnpinPage(q, true);
        ReleasedAll(Dropped(pins, q), pool.pins);
        OthersOf(h, shape, pool.heap, {});
      }
    }

    /** The single child of the root becomes the root. */
    method ShrinkTree(q: PageId, ghost astray: map<PageId, PageId>) returns (ghost fine: bool)
      requires Setup() && Holds(Mended(pool.heap, astray), shape, root, leafMax, innerMax, {q}, contents) && q == root
      requires q in shape && Strayed(pool.heap, shape, astray, shape[q].level)
      requires q in pool.heap && pool.heap[q].Inner? && |pool.heap[q].slots| == 1
      requires pool.pins[q] > 0 && pool.unsaved <= {q} && pool.free >= 1
      modifies this, pool, pool.repr
      ensures Setup() && !IsEmpty() && pool.repr == old(pool.repr) && pool.unsaved == {} && contents == old(contents)
      ensures if fine then ValidBut({})
              else !Sound(pool.heap, root, leafMax, innerMax, contents)
                   && Wrecked(old(pool.heap), old(shape), q, pool.heap, shape, root, contents)
      ensures fine <==> astray == map[]
      ensures Restored(Dropped(old(pool.pins), q), pool.pins) && Others(old(pool.heap), old(shape), pool.heap)
    {
      hide Core, SizedBut, Represents, Pool.PagesOk, Pinned, Restored, Others, Dropped, Strayed, Sound, Wrecked,
        Readable;
      ghost var h, pins := pool.heap, pool.pins;
      StraysBelow(h, shape, root, q, astray);
      OnlyKidFacts(Mended(h, astray), shape, root, leafMax, innerMax);
      var child := PromoteOnlyChild(q);
      fine := Shrunk(h, shape, q, leafMax, innerMax, contents, astray, pool.heap);
      OthersOf(h, shape, pool.heap, {q, child});
      ReleasedLast(pins, q, pool.pins);
      if !fine { WreckedOnlyParents(h, shape, q, pool.heap, shape - {q}, root, contents); }
      shape := shape - {q};
    }

    method PromoteOnlyChild(q: PageId) returns (child: PageId)
      requires Setup() && q in pool.heap && pool.heap[q].Inner? && |pool.heap[q].slots| == 1
      requires var c := pool.heap[q].slots[0].child; c in pool.heap && c != q
      requires pool.pins[q] > 0 && pool.unsaved <= {q} && pool.free >= 1
      modifies this`root, pool, pool.repr
      ensures Setup() && pool.repr == old(pool.repr) && pool.unsaved == {}
      ensures child == old(pool.heap)[q].slots[0].child && root == child && child != q && child in pool.heap
      ensures pool.heap.Keys >= old(pool.heap).Keys - {q}
      ensures forall p :: p in old(pool.heap) && p != q ==>
                pool.heap[p] == if p == child then WithParent(old(pool.heap)[p], INVALID_PAGE_ID) else old(pool.heap)[p]
      ensures var pins := old(pool.pins);
              pool.pins == pins[q := pins[q] - 1] || (pins[q] == 1 && pool.pins == pins - {q})
    {
      hide Pool.PagesOk, Pinned;
      child := pool.RemoveAndReturnOnlyChild(q);
      root := child;
      Handover(INVALID_PAGE_ID, child);
      pool.UnpinPage(q, true);
      var deleted := pool.DeletePage(q);
    }

    method CoalesceOrRedistributeInternal(x: PageId, ghost astray: map<PageId, PageId>) returns (ghost fine: bool)
      requires Setup() && Underfull(Mended(pool.heap, astray), shape, root, leafMax, innerMax, contents, x)
      requires Strayed(pool.heap, shape, astray, shape[x].level) && (repaired ==> astray == map[])
      requires pool.heap[x].Inner? && pool.pins[x] > 0 && pool.unsaved <= {x}
               && pool.free + (if pool.pins[x] == 1 then 1 else 0) >= 4
      modifies this, pool, pool.repr
      ensures Setup() && !IsEmpty() && pool.repr == old(pool.repr) && pool.unsaved == {} && contents == old(contents)
      ensures if fine then ValidBut({})
              else !Sound(pool.heap, root, leafMax, innerMax, contents)
                   && Wrecked(old(pool.heap), old(shape), x, pool.heap, shape, root, contents)
      ensures fine <==> astray == map[] && (repaired || !SpoilsInner(old(pool.heap), x, contents))
      ensures Restored(Dropped(old(pool.pins), x), pool.pins) && Others(old(pool.heap), old(shape), pool.heap)
      decreases shape[root].level - shape[x].level, 1
    {
      hide Core, SizedBut, Represents, Pool.PagesOk, Pinned, Restored, Others, Strayed, Sound, NoneBetween,
        SpoilsParent, SpoilsInner, Beside, Underfull, Wrecked;
      ghost var h, g, pins := pool.heap, shape, pool.pins;
      InSight(h, g, root, leafMax, innerMax, contents, x, astray);
      var q, s, index, isLeft := PinNeighbour(x, astray);
      BesideFacts(h, g, root, leafMax, innerMax, contents, q, index, x, s, isLeft, astray);
      SpoilsHere(h, q, index, x, s, isLeft, contents);
      if pool.GetSize(s) > pool.GetMinSize(s) {
        fine := RedistributeInners(x, s, q, index, isLeft, astray);
        ReleasedThree(pins, x, q, s, pool.pins);
      } else {
        fine := MergeAndSettle(x, s, q, index, isLeft, astray, pins);
      }
    }

    /** Merges with the neighbour and goes on with the parent. */
    method MergeAndSettle(x: PageId, s: PageId, q: PageId, index: nat, isLeft: bool, ghost astray: map<PageId, PageId>,
        ghost pins: map<PageId, nat>)
      returns (ghost fine: bool)
      requires Setup() && Beside(Mended(pool.heap, astray), shape, root, leafMax, innerMax, contents, q, index, x, s,
               isLeft)
      requires Strayed(pool.heap, shape, astray, shape[x].level) && (repaired ==> astray == map[]) && root >= 0
      requires x !in astray && s !in astray && q !in astray && q == pool.heap[x].parent && root in shape
      requires pool.heap[x].Inner? && |pool.heap[s].slots| == pool.heap[s].MinSize() && q in shape
               && shape[x].level < shape[q].level <= shape[root].level
      requires x in pins && q in pins && s in pins && x != q && x != s && q != s && pins[x] > 0
      requires pool.pins == pins[q := pins[q] + 1][s := pins[s] + 1] && pool.unsaved <= {x} && pool.free >= 1
      requires pool.free + (if pins[x] == 1 then 1 else 0) + (if pins[q] == 0 then 1 else 0) + (if pins[s] == 0 then 1
               else 0) >= 4
      modifies this, pool, pool.repr
      ensures Setup() && !IsEmpty() && pool.repr == old(pool.repr) && pool.unsaved == {} && contents == old(contents)
      ensures if fine then ValidBut({})
              else !Sound(pool.heap, root, leafMax, innerMax, contents)
                   && Wrecked(old(pool.heap), old(shape), x, pool.heap, shape, root, contents)
      ensures fine <==> repaired
      ensures Restored(Dropped(pins, x), pool.pins) && Others(old(pool.heap), old(shape), pool.heap)
      decreases shape[root].level - shape[x].level, 0
    {
      hide Core, SizedBut, Represents, Pool.PagesOk, Pinned, Restored, Others, Siblings, Strayed, Sound, SpoilsParent,
        Wrecked, KeptAbove;
      ghost var h, g := pool.heap, shape;
      ghost var more := CoalesceInners(x, s, q, index, isLeft, astray);
      ghost var h1, g1, pins1 := pool.heap, shape, pool.pins;
      ReleasedTwo(pins, x, q, s, pins1);
      fine := SettleParent(q, more);
      ReleasedUp(pins, x, q, s, pins1, pool.pins);
      OthersTrans(h, g, h1, g1, pool.heap);
      if !fine { WreckedBelow(h, g, x, h1, g1, q, pool.heap, shape, root, contents); }
    }

    method CoalesceOrRedistribute(x: PageId) returns (ghost fine: bool)
      requires Setup() && Underfull(pool.heap, shape, root, leafMax, innerMax, contents, x) && pool.heap[x].Leaf?
      requires pool.pins[x] > 0 && pool.unsaved <= {x} && pool.free + (if pool.pins[x] == 1 then 1 else 0) >= 4
      modifies this, pool, pool.repr
      ensures Setup() && !IsEmpty() && pool.repr == old(pool.repr) && pool.unsaved == {} && contents == old(contents)
      ensures if fine then ValidBut({})
              else !Sound(pool.heap, root, leafMax, innerMax, contents)
                   && Wrecked(old(pool.heap), old(shape), x, pool.heap, shape, root, contents)
      ensures fine <==> repaired || !SpoilsLeaf(old(pool.heap), old(root), x, contents)
      ensures Restored(Dropped(old(pool.pins), x), pool.pins) && Others(old(pool.heap), old(shape), pool.heap)
    {
      hide Core, SizedBut, Represents, Pool.PagesOk, Pinned, Restored, Others, Siblings, Strayed, Sound, SpoilsParent,
        SpoilsInner, Wrecked, KeptAbove;
      ghost var h, g, pins := pool.heap, shape, pool.pins;
      RootCovers(h, g, root);
      BelowRoot(h, g, root, x);
      UpFacts(h, g, root, x);
      NoStrays(h);
      NoneStrayed(h, g, g[x].level);
      var q, s, index, isLeft := PinNeighbour(x, map[]);
      if pool.GetSize(s) > pool.GetMinSize(s) {
        RedistributeLeaves(x, s, q, index, isLeft);
        ReleasedThree(pins, x, q, s, pool.pins);
        fine := true;
      } else {
        CoalesceLeaves(x, s, q, index, isLeft);
        ghost var h1, g1, pins1 := pool.heap, shape, pool.pins;
        ReleasedTwo(pins, x, q, s, pins1);
        NoStrays(h1);
        NoneStrayed(h1, g1, g1[q].level);
        fine := SettleParent(q, map[]);
        ReleasedUp(pins, x, q, s, pins1, pool.pins);
        OthersTrans(h, g, h1, g1, pool.heap);
        if !fine { WreckedBelow(h, g, x, h1, g1, q, pool.heap, shape, root, contents); }
      }
    }

    /** The entry goes in any case, pins and other pages are left alone. With the two repairs the tree is
        well-formed afterwards; as written, exactly when the removal does not spoil it. Otherwise no reading
        of the pages makes it well-formed, but all entries are there and `Spoilt` says which are found. */
    method Remove(key: int)
      requires Valid() && pool.unsaved == {} && pool.free >= 4
      modifies this, pool, pool.repr
      ensures Setup() && pool.repr == old(pool.repr) && pool.unsaved == {}
      ensures contents == old(contents) - {key}
      ensures Valid() <==> repaired || !SpoilsRemoval(old(pool.heap), old(shape), old(root), key, contents)
      ensures !Valid() ==> !IsEmpty() && !Sound(pool.heap, root, leafMax, innerMax, contents)
      ensures !Valid() ==> Spoilt(old(pool.heap), old(shape), pool.heap, shape, root, contents)
      ensures Restored(old(pool.pins), pool.pins) && Others(old(pool.heap), old(shape), pool.heap)
      ensures pool.free == old(pool.free)
    {
      hide Core, SizedBut, Represents, Pool.PagesOk, Pinned, Restored, Others, Sound, SpoilsLeaf, Spoilt;
      if IsEmpty() {
        ReleasedAll(pool.pins, pool.pins);
        OthersOf(pool.heap, shape, pool.heap, {});
        assert contents - {key} == contents;
        return;
      }
      ghost var pins := pool.pins;
      var id := FindLeafPage(key);
      pool.FetchPage(id);
      RemoveFromLeaf(id, key);
      ReleasedFetch(pins, id, pool.pins);
      PinnedRestored(pins, pool.pins);
    }

    method RemoveFromLeaf(id: PageId, key: int)
      requires Valid() && !IsEmpty() && pool.unsaved == {}
      requires id in shape && id in pool.heap && pool.heap[id].Leaf? && Within(shape[id], key)
      requires pool.pins[id] > 0 && pool.free + (if pool.pins[id] == 1 then 1 else 0) >= 4
      modifies this, pool, pool.repr
      ensures Setup() && pool.repr == old(pool.repr) && pool.unsaved == {} && contents == old(contents) - {key}
      ensures Valid() <==> repaired || !SpoilsRemoval(old(pool.heap), old(shape), old(root), key, contents)
      ensures !Valid() ==> !IsEmpty() && !Sound(pool.heap, root, leafMax, innerMax, contents)
      ensures !Valid() ==> Spoilt(old(pool.heap), old(shape), pool.heap, shape, root, contents)
      ensures Restored(Dropped(old(pool.pins), id), pool.pins) && Others(old(pool.heap), old(shape), pool.heap)
    {
      hide Core, SizedBut, Represents, Pool.PagesOk, Pinned, Restored, Others, Dropped, SpoilsRemoval, SpoilsLeaf,
        Sound, Spoilt, Wrecked;
      ghost var h, g, pins, m := pool.heap, shape, pool.pins, contents;
      LeafContents(h, g, root, contents, id, key);
      RemoveStep(h, g, root, contents, leafMax, innerMax, id, key);
      LeafRoom(h, g, root, leafMax, innerMax, id);
      LacksOne(h, g, root, leafMax, innerMax, contents, id, key);
      UpFacts(h, g, root, id);
      RootCovers(h, g, root);
      var newSize := pool.LeafRemove(id, key);
      contents := contents - {key};
      ghost var h1 := pool.heap;
      OthersOf(h, g, h1, {id});
      if pool.GetSize(id) < pool.GetMinSize(id) && !pool.IsRootPage(id) {
        SpoilsAtLeaf(h, g, root, leafMax, innerMax, m, id, key, contents);
        ghost var fine := CoalesceOrRedistribute(id);
        OthersTrans(h, g, h1, g, pool.heap);
        if !fine {
          NoReading(pool.heap, shape, root, leafMax, innerMax, contents);
          WreckedLeaf(h, g, id, h1, pool.heap, shape, root, contents);
        }
      } else {
        SpoilsNothing(h, g, root, leafMax, innerMax, m, id, key, contents);
        if pool.GetSize(id) == 0 && pool.IsRootPage(id) {
          LastEntryGone(h1, g, id, contents);
          DropRoot(id);
          OthersTrans(h, g, h1, g, pool.heap);
        } else {
          NowSized(h1, g, root, leafMax, innerMax, id);
          pool.UnpinPage(id, true);
          ReleasedLast(pins, id, pool.pins);
        }
      }
    }

    /** An empty root leaf goes away. */
    method DropRoot(id: PageId)
      requires Setup() && id in pool.heap && pool.pins[id] > 0 && pool.unsaved <= {id} && contents == map[]
      modifies this, pool
      requires id in shape
      ensures Valid() && IsEmpty() && pool.repr == old(pool.repr) && pool.unsaved == {} && contents == map[]
      ensures Restored(Dropped(old(pool.pins), id), pool.pins) && Others(old(pool.heap), old(shape), pool.heap)
    {
      hide Pool.PagesOk, Pinned;
      root := INVALID_PAGE_ID;
      pool.UnpinPage(id, true);
      var deleted := pool.DeletePage(id);
      shape := map[];
    }
  }

  /** The pages after the last slot of `a` has moved to the front of `b` under the key `k`. */
  ghost function Lent(h: Heap, q: PageId, i: nat, a: PageId, b: PageId, k: int): Heap
    requires InnerPair(h, q, i, a, b)
  {
    var n := |h[a].slots| - 1;
    h[a := WithSlots(h[a], h[a].slots[..n])]
     [b := WithSlots(h[b], PushFront(h[b].slots, k, h[a].slots[n].child, h[q].slots[i + 1].key))]
     [q := WithSlots(h[q], WithKey(h[q].slots, i + 1, k))]
  }

  lemma LastChild(h: Heap, q: PageId, i: nat, a: PageId, b: PageId)
    requires InnerPair(h, q, i, a, b)
    ensures var c := h[a].slots[|h[a].slots| - 1].child; c in h && c != a && c != b && c != q
  {
    AtChild(h[a].slots, |h[a].slots| - 1, h[a].slots[|h[a].slots| - 1].child);
  }

  lemma LeftBorrowed(h: Heap, q: PageId, i: nat, a: PageId, b: PageId, repaired: bool, h': Heap)
    requires InnerPair(h, q, i, a, b) && h[a].slots[|h[a].slots| - 1].child in h
    requires var last := h[a].slots[|h[a].slots| - 1];
             var h1 := Lent(h, q, i, a, b, if repaired then last.key else h[b].slots[0].key);
             h' == h1[last.child := WithParent(h1[last.child], b)]
    ensures FromLeft(h, q, i, a, b, repaired, h')
  {
  }

  lemma RootHeap(h: Heap, innerMax: nat, left: PageId, key: int, right: PageId, r: PageId, k0: int, h': Heap)
    requires left in h && right in h && left != right && r !in h
    requires var h1 := h[r := Inner(innerMax, INVALID_PAGE_ID, [Slot(k0, left), Slot(key, right)])];
             var h2 := h1[left := WithParent(h1[left], r)];
             h' == h2[right := WithParent(h2[right], r)]
    ensures h' == UnderNewRoot(h, innerMax, left, key, right, r, k0)
  {
  }

  lemma PinnedRestored(before: map<PageId, nat>, after: map<PageId, nat>)
    requires Restored(before, after)
    ensures Pinned(after) == Pinned(before)
  {
    forall p ensures p in Pinned(after) <==> p in Pinned(before) {
    }
  }

  lemma ChildCovers(h: Heap, g: Shape, root: PageId, id: PageId, key: int)
    requires Core(h, g, root) && id in g && id in h && h[id].Inner? && Within(g[id], key)
    ensures |h[id].slots| >= 1
    ensures var c := h[id].slots[Route(h[id].slots, key)].child;
            c in g && c in h && c != id && Within(g[c], key) && g[c].level < g[id].level
  {
    assert PageOk(h, g, root, id);
    RouteCovers(h, g, id, key);
  }

  lemma LeafContents(h: Heap, g: Shape, root: PageId, m: map<int, RID>, id: PageId, key: int)
    requires Core(h, g, root) && Represents(h, g, m) && id in g && id in h && h[id].Leaf? && Within(g[id], key)
    ensures Sorted(h[id].entries)
    ensures HasKey(h[id].entries, key) <==> key in m
    ensures forall e :: e in h[id].entries ==> e.key in m && m[e.key] == e.rid
  {
    LeafFacts(h, g, root, id);
    KeyHome(h, g, root, m, id, key);
  }

  lemma LeafRoom(h: Heap, g: Shape, root: PageId, leafMax: nat, innerMax: nat, id: PageId)
    requires Core(h, g, root) && SizedBut(h, g, root, leafMax, innerMax, {}) && id in g && h[id].Leaf?
    ensures SizeOk(h, root, leafMax, innerMax, id)
  {
  }

  /** A page with one child more is either still within bounds or overfull by one. */
  lemma TakenUp(h: Heap, g: Shape, root: PageId, leafMax: nat, innerMax: nat, q: PageId, left: PageId, key: int,
      right: PageId)
    requires q in h && q in g && h[q].Inner? && SizeOk(h, root, leafMax, innerMax, q)
    ensures var h1 := WithChild(h, q, left, key, right);
            && h1 == h[q := WithSlots(h[q], InsertAfter(h[q].slots, left, key, right))]
            && h1[q].max == innerMax && Others(h, g, h1)
            && if |h1[q].slots| > innerMax then |h1[q].slots| == innerMax + 1
               else SizeOk(h1, root, leafMax, innerMax, q)
  {
  }

  lemma AdoptNone(h: Heap, ss: seq<Slot>, id: PageId)
    requires ss == []
    ensures Adopt(h, ss, id) == h
  {
  }

  lemma AdoptKeeps(h: Heap, ss: seq<Slot>, i: nat, id: PageId)
    requires i <= |ss| && id in h && !HasChild(ss, id)
    ensures Adopt(h, ss[..i], id)[id] == h[id]
  {
  }

  lemma AdoptOne(h: Heap, ss: seq<Slot>, i: nat, id: PageId)
    requires i < |ss| && ss[i].child in h
    ensures var a := Adopt(h, ss[..i], id); var c := ss[i].child;
            Adopt(h, ss[..i + 1], id) == a[c := WithParent(a[c], id)]
  {
    assert ss[..i + 1] == ss[..i] + [ss[i]];
  }

  /** Of the old pages, a split only touches the page itself and its kids. */
  lemma SplitOthers(h: Heap, g: Shape, root: PageId, id: PageId, n: nat, touched: set<PageId>, h': Heap)
    requires Core(h, g, root) && id in g && h[id].Inner? && n <= |h[id].slots|
    requires forall p :: p in h && p !in touched && !HasChild(h[id].slots[n..], p) ==> p in h' && h'[p] == h[p]
    requires forall p :: p in touched ==> p in g || p !in h
    ensures Others(h, g, h')
  {
    forall c | HasChild(h[id].slots[n..], c) ensures c in g {
      var j := ChildAt(h[id].slots[n..], c);
      AtChild(h[id].slots, n + j, c);
      assert PageOk(h, g, root, id);
      KidOf(h, g, root, id, c);
    }
  }

  lemma SplitKids(h: Heap, g: Shape, root: PageId, id: PageId, n: nat, right: PageId, k0: int)
    requires Core(h, g, root) && id in g && h[id].Inner? && n < |h[id].slots| && right !in h
    ensures var ss := WithKey(h[id].slots[n..], 0, k0);
            forall c :: HasChild(ss[0..|ss|], c) ==> c in h && c != id && c != right
  {
    var ss := WithKey(h[id].slots[n..], 0, k0);
    assert ss[0..|ss|] == ss;
    forall c | HasChild(ss, c) ensures c in h && c != id && c != right {
      var j := ChildAt(ss, c);
      assert h[id].slots[n + j].child == c;
      AtChild(h[id].slots, n + j, c);
      assert PageOk(h, g, root, id);
      KidOf(h, g, root, id, c);
    }
  }

  lemma HalvesAre(h: Heap, innerMax: nat, id: PageId, right: PageId, k0: int, h': Heap)
    requires id in h && h[id].Inner? && |h[id].slots| >= 2
    requires var ss, n := h[id].slots, |h[id].slots| / 2;
             h' == Adopt(h[id := WithSlots(h[id], ss[..n])][right := Inner(innerMax, INVALID_PAGE_ID,
               WithKey(ss[n..], 0, k0))], ss[n..], right)
    ensures h' == InnerHalves(h, innerMax, id, right, k0)
  {
  }

  lemma AdoptSame(h: Heap, id: PageId, right: PageId, n: nat, k0: int, max: nat, h1: Heap)
    requires id in h && h[id].Inner? && n < |h[id].slots|
    requires var ss := h[id].slots; var sb := WithKey(ss[n..], 0, k0);
             h1 == Adopt(h[id := WithSlots(h[id], ss[..n])][right := Inner(max, INVALID_PAGE_ID, sb)], sb[0..|sb|],
               right)
    ensures var ss := h[id].slots; var sb := WithKey(ss[n..], 0, k0);
            h1 == Adopt(h[id := WithSlots(h[id], ss[..n])][right := Inner(max, INVALID_PAGE_ID, sb)], ss[n..], right)
  {
    var sb := WithKey(h[id].slots[n..], 0, k0);
    assert sb[0..|sb|] == sb;
    WithKeyChildren(h[id].slots[n..], 0, k0);
  }

  /** The kids that move, seen from the page that splits. */
  lemma SplitFamily(h: Heap, g: Shape, root: PageId, id: PageId, n: nat)
    requires Core(h, g, root) && id in g && h[id].Inner? && n < |h[id].slots|
    ensures !HasChild(h[id].slots[n..], id)
  {
    forall c | HasChild(h[id].slots[n..], c) ensures c != id {
      var j := ChildAt(h[id].slots[n..], c);
      AtChild(h[id].slots, n + j, c);
      assert PageOk(h, g, root, id);
      KidOf(h, g, root, id, c);
    }
  }
}
