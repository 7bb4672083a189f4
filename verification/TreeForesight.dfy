/** An executable test of the guard: whether a removal as written would spoil the tree. */
module TreeForesight {
  import opened Common
  import opened TreePages
  import opened TreeShape
  import opened TreeSteps
  import opened TreeUpdates
  import opened TreeRemoval
  import opened TreeSoundness
  import opened PagePool
  import opened BPlusTree
  import opened TreeIterator

  lemma HeapFacts(t: Tree)
    requires t.Valid() && !t.IsEmpty()
    ensures Core(t.pool.heap, t.shape, t.root) && t.root in t.shape && INVALID_PAGE_ID !in t.pool.heap
  {
    hide SizedBut, Represents;
    RootCovers(t.pool.heap, t.shape, t.root);
  }

  lemma SeatFacts(t: Tree, x: PageId)
    requires t.Valid() && !t.IsEmpty() && x in t.shape && x in t.pool.heap && x != t.root
    ensures var q := t.pool.heap[x].parent;
            && q in t.pool.heap && t.pool.heap[q].Inner? && q in t.shape && ChildIndex(t.pool.heap[q].slots, x) >= 0
            && forall i :: 0 <= i < |t.pool.heap[q].slots| ==> t.pool.heap[q].slots[i].child in t.pool.heap
  {
    hide SizedBut, Represents, SlotsOk, RangesOk, EntriesOk;
    HeapFacts(t);
    var k := PlaceInParent(t.pool.heap, t.shape, t.root, x);
    var q := t.pool.heap[x].parent;
    forall i | 0 <= i < |t.pool.heap[q].slots|
      ensures t.pool.heap[q].slots[i].child in t.pool.heap
    {
      SomeKid(t.pool.heap, t.shape, t.root, q, i);
    }
  }

  method ParentOf(t: Tree, x: PageId) returns (q: PageId)
    requires t.Valid() && t.pool.unsaved == {} && t.pool.free >= 1 && x in t.pool.heap
    modifies t.pool`pins, t.pool`free, t.pool`unsaved
    ensures t.Valid() && t.pool.unsaved == {} && t.pool.pins == old(t.pool.pins) && t.pool.free == old(t.pool.free)
    ensures q == t.pool.heap[x].parent
  {
    hide Core, SizedBut, Represents, Pool.PagesOk, Pinned;
    t.pool.FetchPage(x);
    q := t.pool.GetParentPageId(x);
    t.pool.UnpinPage(x, false);
    assert t.pool.pins == old(t.pool.pins);
  }

  /** The parent of a page, its place there, and the neighbour it would turn to. */
  method FindSeat(t: Tree, x: PageId) returns (q: PageId, s: PageId, index: nat)
    requires t.Valid() && !t.IsEmpty() && t.pool.unsaved == {} && t.pool.free >= 1
    requires x in t.shape && x in t.pool.heap && x != t.root
    modifies t.pool`pins, t.pool`free, t.pool`unsaved
    ensures t.Valid() && t.pool.unsaved == {} && t.pool.pins == old(t.pool.pins) && t.pool.free == old(t.pool.free)
    ensures q == t.pool.heap[x].parent && q in t.pool.heap && t.pool.heap[q].Inner? && q in t.shape
    ensures index == ChildIndex(t.pool.heap[q].slots, x) && s == Sibling(t.pool.heap[q].slots, x)
    ensures s == INVALID_PAGE_ID || s in t.pool.heap
  {
    hide Core, SizedBut, Represents, Pool.PagesOk, Pinned;
    SeatFacts(t, x);
    q := ParentOf(t, x);
    t.pool.FetchPage(q);
    index := t.pool.ValueIndex(q, x);
    s := INVALID_PAGE_ID;
    if index > 0 {
      s := t.pool.SlotAt(q, index - 1).child;
    } else if index < t.pool.GetSize(q) - 1 {
      s := t.pool.SlotAt(q, index + 1).child;
    }
    t.pool.UnpinPage(q, false);
    assert t.pool.pins == old(t.pool.pins);
  }

  method Measure(t: Tree, x: PageId) returns (isLeaf: bool, count: nat, min: nat)
    requires t.Valid() && t.pool.unsaved == {} && t.pool.free >= 1 && x in t.pool.heap
    modifies t.pool`pins, t.pool`free, t.pool`unsaved
    ensures t.Valid() && t.pool.unsaved == {} && t.pool.pins == old(t.pool.pins) && t.pool.free == old(t.pool.free)
    ensures var n := t.pool.heap[x]; isLeaf == n.Leaf? && count == n.Count() && min == n.MinSize()
  {
    hide Core, SizedBut, Represents, Pool.PagesOk, Pinned;
    var pool := t.pool;
    pool.FetchPage(x);
    isLeaf, count, min := pool.IsLeafPage(x), pool.GetSize(x), pool.GetMinSize(x);
    pool.UnpinPage(x, false);
    assert pool.pins == old(pool.pins);
  }

  method KeyOfSlot(t: Tree, x: PageId, i: nat) returns (key: int)
    requires t.Valid() && t.pool.unsaved == {} && t.pool.free >= 1
    requires x in t.pool.heap && t.pool.heap[x].Inner? && i < |t.pool.heap[x].slots|
    modifies t.pool`pins, t.pool`free, t.pool`unsaved
    ensures t.Valid() && t.pool.unsaved == {} && t.pool.pins == old(t.pool.pins) && t.pool.free == old(t.pool.free)
    ensures key == t.pool.heap[x].slots[i].key
  {
    hide Core, SizedBut, Represents, Pool.PagesOk, Pinned;
    t.pool.FetchPage(x);
    key := t.pool.SlotAt(x, i).key;
    t.pool.UnpinPage(x, false);
    assert t.pool.pins == old(t.pool.pins);
  }

  /** The least stored key from `lo` on. */
  method LeastFrom(t: Tree, lo: int) returns (key: Option<int>)
    requires t.Valid() && t.pool.unsaved == {} && t.pool.free >= 1
    modifies t.pool`pins, t.pool`free, t.pool`unsaved
    ensures t.Valid() && t.pool.unsaved == {} && t.pool.pins == old(t.pool.pins) && t.pool.free == old(t.pool.free)
    ensures key.None? ==> forall k :: k in t.contents ==> k < lo
    ensures key.Some? ==>
            key.value in t.contents && lo <= key.value && forall k :: k in t.contents && lo <= k ==> key.value <= k
  {
    hide Core, SizedBut, Represents, Pool.PagesOk, Pinned;
    var it := BeginAt(t, lo, true);
    if it.IsEnd() {
      EndMeansNone(it, t, At(lo));
      return None;
    }
    var e := it.Deref(t, At(lo));
    return Some(e.key);
  }

  lemma EndMeansNone(it: Iterator, t: Tree, from: Bound)
    requires it.StandsAt(t, from) && it.IsEnd()
    ensures forall k :: k in t.contents ==> !Leq(from, k)
  {
  }

  /** Some stored key but `except` lies in the interval. */
  method AnyBetween(t: Tree, lo: int, hi: int, except: int) returns (any: bool)
    requires t.Valid() && t.pool.unsaved == {} && t.pool.free >= 1
    modifies t.pool`pins, t.pool`free, t.pool`unsaved
    ensures t.Valid() && t.pool.unsaved == {} && t.pool.pins == old(t.pool.pins) && t.pool.free == old(t.pool.free)
    ensures any <==> exists k :: k in t.contents && k != except && lo <= k < hi
  {
    hide Tree.Valid, Pool.Valid;
    var first := LeastFrom(t, lo);
    if first.None? || first.value >= hi {
      return false;
    }
    if first.value != except {
      return true;
    }
    var second := LeastFrom(t, except + 1);
    return second.Some? && second.value < hi;
  }

  /** Rebalancing the internal page `x` would spoil the tree. */
  method WouldSpoilInner(t: Tree, x: PageId, key: int) returns (b: bool)
    requires t.Valid() && !t.IsEmpty() && t.pool.unsaved == {} && t.pool.free >= 1
    requires x in t.shape && x in t.pool.heap && x != t.root && t.pool.heap[x].Inner?
    modifies t.pool`pins, t.pool`free, t.pool`unsaved
    ensures t.Valid() && t.pool.unsaved == {} && t.pool.pins == old(t.pool.pins) && t.pool.free == old(t.pool.free)
    ensures b <==> SpoilsInner(t.pool.heap, x, t.contents - {key})
  {
    hide Tree.Valid, Pool.Valid, SpoilsInner, NoneBetween;
    ghost var h, m := t.pool.heap, t.contents - {key};
    NoInvalid(t);
    var q, s, index := FindSeat(t, x);
    SpoilsInnerIs(h, x, q, s, index, m);
    if s == INVALID_PAGE_ID {
      return false;
    }
    var isLeaf, count, min := Measure(t, s);
    var _, own, _ := Measure(t, x);
    if isLeaf || count == 0 || own == 0 {
      return false;
    }
    if count <= min {
      return true;
    }
    if index == 0 {
      return false;
    }
    var stale := KeyOfSlot(t, x, 0);
    var right := KeyOfSlot(t, s, count - 1);
    BetweenIs(t.contents, key, stale, right);
    b := AnyBetween(t, if stale < right then stale else right, if stale < right then right else stale, key);
  }

  lemma SpoilsInnerIs(h: Heap, x: PageId, q: PageId, s: PageId, index: nat, m: map<int, RID>)
    requires x in h && h[x].Inner? && q == h[x].parent && q in h && h[q].Inner?
    requires index == ChildIndex(h[q].slots, x) && s == Sibling(h[q].slots, x)
    ensures SpoilsInner(h, x, m) <==>
            && s != INVALID_PAGE_ID && s in h && h[s].Inner? && |h[s].slots| > 0 && |h[x].slots| > 0
            && (|h[s].slots| <= h[s].MinSize()
                || (index > 0 && !NoneBetween(m, h[x].slots[0].key, h[s].slots[|h[s].slots| - 1].key)))
  {
  }

  lemma BetweenIs(m: map<int, RID>, key: int, s: int, t: int)
    ensures var lo, hi := if s < t then s else t, if s < t then t else s;
            NoneBetween(m - {key}, s, t) <==> !exists k :: k in m && k != key && lo <= k < hi
  {
    var lo, hi := if s < t then s else t, if s < t then t else s;
    assert forall k :: k in m - {key} <==> k in m && k != key;
    if k :| k in m && k != key && lo <= k < hi {
      assert k in m - {key};
    }
  }

  lemma NoInvalid(t: Tree)
    requires t.Valid() && !t.IsEmpty()
    ensures INVALID_PAGE_ID !in t.pool.heap
  {
    HeapFacts(t);
  }

  /** Removing `key` as written would spoil the tree. */
  method WouldSpoil(t: Tree, key: int) returns (b: bool)
    requires t.Valid() && t.pool.unsaved == {} && t.pool.free >= 1
    modifies t.pool`pins, t.pool`free, t.pool`unsaved
    ensures t.Valid() && t.pool.unsaved == {} && t.pool.pins == old(t.pool.pins) && t.pool.free == old(t.pool.free)
    ensures b <==> SpoilsRemoval(t.pool.heap, t.shape, t.root, key, t.contents - {key})
  {
    hide Tree.Valid, Pool.Valid, SpoilsRemoval, SpoilsLeaf, SpoilsInner, HasKey;
    var x := t.FindLeafPage(key);
    if t.IsEmpty() {
      NothingToSpoil(t, key);
      return false;
    }
    OnlyLeaf(t, x, key);
    var found := t.GetValue(key);
    var _, own, least := Measure(t, x);
    if x == t.root || found.None? || own != least {
      return false;
    }
    var q, s, index := FindSeat(t, x);
    var _, qCount, qMin := Measure(t, q);
    if s == INVALID_PAGE_ID || q == t.root {
      SpoilsLeafIs(t.pool.heap, t.root, x, q, s, t.contents - {key});
      NoInvalid(t);
      return false;
    }
    var _, sCount, sMin := Measure(t, s);
    SpoilsLeafIs(t.pool.heap, t.root, x, q, s, t.contents - {key});
    if sCount > sMin || qCount > qMin {
      return false;
    }
    b := WouldSpoilInner(t, q, key);
  }

  lemma SpoilsLeafIs(h: Heap, root: PageId, x: PageId, q: PageId, s: PageId, m: map<int, RID>)
    requires x in h && q == h[x].parent && q in h && h[q].Inner? && s == Sibling(h[q].slots, x)
    ensures SpoilsLeaf(h, root, x, m) <==>
            s in h && h[s].Count() <= h[s].MinSize() && q != root && h[q].Count() <= h[q].MinSize()
              && SpoilsInner(h, q, m)
  {
  }

  lemma NothingToSpoil(t: Tree, key: int)
    requires t.Valid() && t.IsEmpty()
    ensures !SpoilsRemoval(t.pool.heap, t.shape, t.root, key, t.contents - {key})
  {
  }

  /** The leaf that covers the key decides. */
  lemma OnlyLeaf(t: Tree, x: PageId, key: int)
    requires t.Valid() && !t.IsEmpty() && x in t.shape && x in t.pool.heap && t.pool.heap[x].Leaf?
             && Within(t.shape[x], key)
    ensures HasKey(t.pool.heap[x].entries, key) <==> key in t.contents
    ensures SpoilsRemoval(t.pool.heap, t.shape, t.root, key, t.contents - {key}) <==>
            x != t.root && key in t.contents && |t.pool.heap[x].entries| == t.pool.heap[x].MinSize()
            && SpoilsLeaf(t.pool.heap, t.root, x, t.contents - {key})
  {
    hide Core, SizedBut, Represents, SpoilsLeaf;
    OneLeaf(t.pool.heap, t.shape, t.root, x, key);
    LeafFacts(t.pool.heap, t.shape, t.root, x);
    KeyHome(t.pool.heap, t.shape, t.root, t.contents, x, key);
  }
}
