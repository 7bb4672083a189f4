/** What the page writes of a removal amount to: borrowing from a neighbour, merging with it,
    and dropping a root that has a single child. */
module TreeRemoval {
  import opened Common
  import opened TreePages
  import opened TreeShape
  import opened TreeSteps
  import opened LeafSteps
  import opened InnerSteps
  import opened TreeUpdates
  import opened TreeInsertion
  import opened TreeFrames

  // ---------- the neighbour ----------

  /** `a` and `b` are the kids `i` and `i + 1` of `q`; one of them lacks an entry. */
  ghost predicate Neighbours(h: Heap, g: Shape, root: PageId, leafMax: nat, innerMax: nat, m: map<int, RID>,
                             q: PageId, i: nat, a: PageId, b: PageId, x: PageId) {
    && leafMax >= 2 && innerMax >= 3 && Holds(h, g, root, leafMax, innerMax, {x}, m)
    && Siblings(h, g, root, q, i, a, b) && (x == a || x == b) && a in h && b in h && a in g && b in g
    && h[x].Leaf? == h[a].Leaf? && h[x].Leaf? == h[b].Leaf?
    && a != b && a != q && b != q && a != root && b != root && q >= 0
    && var max := if h[x].Leaf? then leafMax else innerMax;
       && h[a].max == max && h[b].max == max && h[x].Count() == h[x].MinSize() - 1
       && SizeOk(h, root, leafMax, innerMax, if x == a then b else a) && SizeOk(h, root, leafMax, innerMax, q)
  }

  /** The page is not the root and lacks one entry. */
  ghost predicate Underfull(h: Heap, g: Shape, root: PageId, leafMax: nat, innerMax: nat, m: map<int, RID>, x: PageId) {
    && leafMax >= 2 && innerMax >= 3 && Holds(h, g, root, leafMax, innerMax, {x}, m)
    && x in g && x in h && x != root && h[x].max == (if h[x].Leaf? then leafMax else innerMax)
    && h[x].Count() == h[x].MinSize() - 1
  }

  /** The neighbour on the left if there is one, otherwise the one on the right. */
  function Sibling(ss: seq<Slot>, x: PageId): PageId {
    var i := ChildIndex(ss, x);
    if i > 0 then ss[i - 1].child else if 0 <= i < |ss| - 1 then ss[i + 1].child else INVALID_PAGE_ID
  }

  /** An underfull page has a neighbour below the same parent: the no-sibling branches are dead. */
  lemma HasSibling(h: Heap, g: Shape, root: PageId, leafMax: nat, innerMax: nat, m: map<int, RID>, x: PageId)
    requires Underfull(h, g, root, leafMax, innerMax, m, x)
    ensures h[x].parent != INVALID_PAGE_ID
    ensures h[x].parent in g && h[x].parent in h && h[h[x].parent].Inner?
    ensures var q := h[x].parent; var ss := h[q].slots; var i := ChildIndex(ss, x); var s := Sibling(ss, x);
            && 0 <= i < |ss| && |ss| >= 2 && s >= 0 && s in h && s != x
            && (i > 0 ==> s == ss[i - 1].child && Neighbours(h, g, root, leafMax, innerMax, m, q, i - 1, s, x, x))
            && (i == 0 ==> s == ss[1].child && Neighbours(h, g, root, leafMax, innerMax, m, q, 0, x, s, x))
  {
    hide Core, SizedBut, Represents;
    PlaceOfUnderfull(h, g, root, leafMax, innerMax, m, x);
    var q := h[x].parent;
    var i := ChildIndex(h[q].slots, x);
    if i > 0 {
      NeighboursAt(h, g, root, leafMax, innerMax, m, q, i - 1, x);
    } else {
      NeighboursAt(h, g, root, leafMax, innerMax, m, q, 0, x);
    }
  }

  lemma PlaceOfUnderfull(h: Heap, g: Shape, root: PageId, leafMax: nat, innerMax: nat, m: map<int, RID>, x: PageId)
    requires Underfull(h, g, root, leafMax, innerMax, m, x)
    ensures var q := h[x].parent;
            && q != INVALID_PAGE_ID && q in g && q in h && h[q].Inner? && |h[q].slots| >= 2
            && 0 <= ChildIndex(h[q].slots, x) && h[q].slots[ChildIndex(h[q].slots, x)].child == x
  {
    hide EntriesOk, SlotsOk, RangesOk, ParentsOk, HasChild, Represents;
    UpFacts(h, g, root, x);
    var i := PlaceInParent(h, g, root, x);
    SizeOf(h, g, root, leafMax, innerMax, {x}, h[x].parent);
  }

  lemma NeighboursAt(h: Heap, g: Shape, root: PageId, leafMax: nat, innerMax: nat, m: map<int, RID>, q: PageId, i: nat,
      x: PageId)
    requires Underfull(h, g, root, leafMax, innerMax, m, x) && q == h[x].parent && q in g && h[q].Inner?
    requires i + 1 < |h[q].slots| && (h[q].slots[i].child == x || h[q].slots[i + 1].child == x)
    ensures var a, b := h[q].slots[i].child, h[q].slots[i + 1].child;
            a >= 0 && b >= 0 && Neighbours(h, g, root, leafMax, innerMax, m, q, i, a, b, x)
  {
    hide EntriesOk, SlotsOk, RangesOk, ParentsOk, HasChild, Represents, SizedBut;
    var a, b := h[q].slots[i].child, h[q].slots[i + 1].child;
    UpFacts(h, g, root, x);
    UpFacts(h, g, root, q);
    SiblingFacts(h, g, root, q, i, a, b);
    SizeOf(h, g, root, leafMax, innerMax, {x}, q);
    SizeOf(h, g, root, leafMax, innerMax, {x}, if x == a then b else a);
  }

  /** `s` is the left or the right neighbour of `x`, the kid `index` of `q`. */
  ghost predicate Beside(h: Heap, g: Shape, root: PageId, leafMax: nat, innerMax: nat, m: map<int, RID>,
                         q: PageId, index: nat, x: PageId, s: PageId, isLeft: bool) {
    if isLeft then index > 0 && Neighbours(h, g, root, leafMax, innerMax, m, q, index - 1, s, x, x)
    else Neighbours(h, g, root, leafMax, innerMax, m, q, index, x, s, x)
  }

  // ---------- leaves ----------

  ghost function LeafFromLeft(h: Heap, q: PageId, i: nat, a: PageId, b: PageId): Heap
    requires a in h && b in h && q in h && a != q && b != q && a != b
    requires h[a].Leaf? && h[b].Leaf? && h[q].Inner? && i + 1 < |h[q].slots| && |h[a].entries| > 0
  {
    var n := |h[a].entries| - 1;
    h[a := WithEntries(h[a], h[a].entries[..n])][b := WithEntries(h[b], [h[a].entries[n]] + h[b].entries)]
     [q := WithSlots(h[q], WithKey(h[q].slots, i + 1, h[a].entries[n].key))]
  }

  lemma LeafFromLeftStep(h: Heap, g: Shape, root: PageId, leafMax: nat, innerMax: nat, m: map<int, RID>,
                         q: PageId, i: nat, a: PageId, b: PageId)
    requires Neighbours(h, g, root, leafMax, innerMax, m, q, i, a, b, b) && h[a].Leaf?
             && |h[a].entries| > h[a].MinSize()
    ensures Holds(LeafFromLeft(h, q, i, a, b), ShiftShape(g, a, b, h[a].entries[|h[a].entries| - 1].key), root, leafMax,
            innerMax, {}, m)
  {
    hide Core, SizedBut, Represents;
    var n := |h[a].entries| - 1;
    var ea, eb := h[a].entries[..n], [h[a].entries[n]] + h[b].entries;
    assert ea + eb == h[a].entries + h[b].entries;
    ShiftLeavesStep(h, g, root, leafMax, innerMax, b, q, i, a, b, ea, eb);
    RepresentsMoves(h, g, ShiftLeavesHeap(h, q, i, a, b, ea, eb), ShiftShape(g, a, b, eb[0].key), m);
  }

  ghost function LeafFromRight(h: Heap, q: PageId, i: nat, a: PageId, b: PageId): Heap
    requires a in h && b in h && q in h && a != q && b != q && a != b
    requires h[a].Leaf? && h[b].Leaf? && h[q].Inner? && i + 1 < |h[q].slots| && |h[b].entries| > 1
  {
    h[b := WithEntries(h[b], h[b].entries[1..])][a := WithEntries(h[a], h[a].entries + [h[b].entries[0]])]
     [q := WithSlots(h[q], WithKey(h[q].slots, i + 1, h[b].entries[1].key))]
  }

  lemma LeafFromRightStep(h: Heap, g: Shape, root: PageId, leafMax: nat, innerMax: nat, m: map<int, RID>,
                          q: PageId, i: nat, a: PageId, b: PageId)
    requires Neighbours(h, g, root, leafMax, innerMax, m, q, i, a, b, a) && h[b].Leaf?
             && |h[b].entries| > h[b].MinSize()
    ensures Holds(LeafFromRight(h, q, i, a, b), ShiftShape(g, a, b, h[b].entries[1].key), root, leafMax, innerMax, {},
            m)
  {
    hide Core, SizedBut, Represents;
    var ea, eb := h[a].entries + [h[b].entries[0]], h[b].entries[1..];
    assert ea + eb == h[a].entries + h[b].entries;
    ShiftLeavesStep(h, g, root, leafMax, innerMax, a, q, i, a, b, ea, eb);
    assert LeafFromRight(h, q, i, a, b) == ShiftLeavesHeap(h, q, i, a, b, ea, eb);
    RepresentsMoves(h, g, ShiftLeavesHeap(h, q, i, a, b, ea, eb), ShiftShape(g, a, b, eb[0].key), m);
  }

  /** The right of two leaves is emptied into the left one, which takes over its place in the chain. */
  ghost function LeavesMerged(h: Heap, q: PageId, i: nat, a: PageId, b: PageId): Heap
    requires a in h && b in h && q in h && a != q && b != q && a != b
    requires h[a].Leaf? && h[b].Leaf? && h[q].Inner? && i + 1 < |h[q].slots|
  {
    h[b := WithEntries(h[b], [])][a := WithNext(WithEntries(h[a], h[a].entries + h[b].entries), h[b].next)]
     [q := WithSlots(h[q], RemoveAt(h[q].slots, i + 1))]
  }

  /** The parent of two merged pages, with one child less. */
  ghost predicate ParentLeft(h: Heap, h': Heap, g': Shape, q: PageId) {
    && q in h && h[q].Inner? && q in h' && q in g'
    && h'[q].Inner? && h'[q].parent == h[q].parent && h'[q].max == h[q].max && |h'[q].slots| == |h[q].slots| - 1
  }

  lemma LeavesMergedStep(h: Heap, g: Shape, root: PageId, leafMax: nat, innerMax: nat, m: map<int, RID>,
                         q: PageId, i: nat, a: PageId, b: PageId, x: PageId, h': Heap)
    requires Neighbours(h, g, root, leafMax, innerMax, m, q, i, a, b, x)
    requires h[a].Leaf? && |h[a].entries| + |h[b].entries| == 2 * h[a].MinSize() - 1
    requires h' == LeavesMerged(h, q, i, a, b) || h' == LeavesMerged(h, q, i, a, b) - {b}
    ensures Holds(h', MergeShape(g, a, b), root, leafMax, innerMax, {q}, m) && ParentLeft(h, h', MergeShape(g, a, b), q)
  {
    hide SizedBut, Represents, PageOk;
    MergeLeavesStep(h, g, root, leafMax, innerMax, x, q, i, a, b);
    var h1, g1 := MergeLeavesHeap(h, q, i, a, b), MergeShape(g, a, b);
    RepresentsMoves(h, g, h1, g1, m);
    StateAgrees(h1, h', g1, root, leafMax, innerMax, {q}, m);
  }

  // ---------- internal pages ----------

  /** A borrow from the left. As written, the stale slot-0 key of `b` becomes the separator;
      the repair is to copy the key of the donor's last slot first. */
  ghost function InnerFromLeft(h: Heap, q: PageId, i: nat, a: PageId, b: PageId, repaired: bool): Heap
    requires a in h && b in h && q in h && a != q && b != q && a != b
    requires h[a].Inner? && h[b].Inner? && h[q].Inner? && i + 1 < |h[q].slots| && |h[a].slots| > 0 && |h[b].slots| > 0
    requires h[a].slots[|h[a].slots| - 1].child in h
  {
    var n := |h[a].slots| - 1;
    var last := h[a].slots[n];
    var k0 := if repaired then last.key else h[b].slots[0].key;
    var h1 := h[a := WithSlots(h[a], h[a].slots[..n])]
               [b := WithSlots(h[b], PushFront(h[b].slots, k0, last.child, h[q].slots[i + 1].key))]
               [q := WithSlots(h[q], WithKey(h[q].slots, i + 1, k0))];
    h1[last.child := WithParent(h1[last.child], b)]
  }

  ghost predicate FromLeft(h: Heap, q: PageId, i: nat, a: PageId, b: PageId, repaired: bool, h': Heap) {
    && a in h && b in h && q in h && a != q && b != q && a != b
    && h[a].Inner? && h[b].Inner? && h[q].Inner? && i + 1 < |h[q].slots| && |h[a].slots| > 0 && |h[b].slots| > 0
    && h[a].slots[|h[a].slots| - 1].child in h && h' == InnerFromLeft(h, q, i, a, b, repaired)
  }

  lemma InnerFromLeftIsShift(h: Heap, g: Shape, root: PageId, q: PageId, i: nat, a: PageId, b: PageId)
    requires InnerSiblings(h, g, root, q, i, a, b) && |h[a].slots| >= 2 && q in h && a != q && b != q && a != b
    ensures var n := |h[a].slots| - 1; var last := h[a].slots[n];
            && last.child in h && Row(h, q, i, a, b)[n] == last
            && InnerFromLeft(h, q, i, a, b, true) == ShiftInnersHeap(h, q, i, a, b, n, last.key)
  {
    hide Core, HasChild, PageOk, SlotsOk, RangesOk, ParentsOk, ShiftInnersHeap;
    var n := |h[a].slots| - 1;
    var last := h[a].slots[n];
    var ss := Row(h, q, i, a, b);
    SiblingFacts(h, g, root, q, i, a, b);
    InnerFacts(h, g, root, a);
    InnerFacts(h, g, root, b);
    RowFacts(h, g, root, q, i, a, b);
    ShiftInnersFacts(h, g, root, q, i, a, b, n, last.key);
    AtChild(h[a].slots, n, last.child);
    assert ss[..n] == h[a].slots[..n];
    assert WithKey(ss[n..], 0, last.key) == PushFront(h[b].slots, last.key, last.child, h[q].slots[i + 1].key);
    var hs, hb := ShiftInnersHeap(h, q, i, a, b, n, last.key), InnerFromLeft(h, q, i, a, b, true);
    AtChild(ss[n..], 0, last.child);
    forall p | p in h && p != a && p != b && p != q ensures hs[p] == hb[p] {
      if p != last.child {
        RowTail(h, q, i, a, b, p);
        if HasChild(ss[..n], p) { var j := ChildAt(ss[..n], p); AtChild(h[a].slots, j, p); }
      }
    }
  }

  /** Apart from the moved one, the kids right of the cut were kids of `b` before. */
  lemma RowTail(h: Heap, q: PageId, i: nat, a: PageId, b: PageId, p: PageId)
    requires q in h && h[q].Inner? && i + 1 < |h[q].slots|
    requires a in h && b in h && h[a].Inner? && h[b].Inner? && |h[b].slots| >= 1 && |h[a].slots| >= 1
    requires p != h[a].slots[|h[a].slots| - 1].child
    ensures HasChild(Row(h, q, i, a, b)[|h[a].slots| - 1..], p) ==> HasChild(h[b].slots, p)
  {
    hide HasChild;
    var n := |h[a].slots| - 1;
    var tail := Row(h, q, i, a, b)[n..];
    if HasChild(tail, p) {
      var j := ChildAt(tail, p);
      assert j > 0;
      AtChild(h[b].slots, j - 1, p);
    }
  }

  lemma InnerFromLeftStep(h: Heap, g: Shape, root: PageId, leafMax: nat, innerMax: nat, m: map<int, RID>,
                          q: PageId, i: nat, a: PageId, b: PageId)
    requires Neighbours(h, g, root, leafMax, innerMax, m, q, i, a, b, b) && h[a].Inner? && |h[a].slots| > h[a].MinSize()
    ensures h[a].slots[|h[a].slots| - 1].child in h && |h[b].slots| > 0
    ensures Holds(InnerFromLeft(h, q, i, a, b, true), ShiftShape(g, a, b, h[a].slots[|h[a].slots| - 1].key), root,
            leafMax, innerMax, {}, m)
  {
    hide Core, SizedBut, Represents, HasChild;
    var n := |h[a].slots| - 1;
    var last := h[a].slots[n];
    assert InnerSiblings(h, g, root, q, i, a, b);
    InnerFromLeftIsShift(h, g, root, q, i, a, b);
    ShiftInnersStep(h, g, root, leafMax, innerMax, b, q, i, a, b, n, last.key);
    RepresentsMoves(h, g, ShiftInnersHeap(h, q, i, a, b, n, last.key), ShiftShape(g, a, b, last.key), m);
  }

  ghost function InnerFromRight(h: Heap, q: PageId, i: nat, a: PageId, b: PageId): Heap
    requires a in h && b in h && q in h && a != q && b != q && a != b
    requires h[a].Inner? && h[b].Inner? && h[q].Inner? && i + 1 < |h[q].slots| && |h[b].slots| > 1
    requires h[b].slots[0].child in h
  {
    var first := h[b].slots[0].child;
    var h1 := h[b := WithSlots(h[b], h[b].slots[1..])]
               [a := WithSlots(h[a], h[a].slots + [Slot(h[q].slots[i + 1].key, first)])]
               [q := WithSlots(h[q], WithKey(h[q].slots, i + 1, h[b].slots[1].key))];
    h1[first := WithParent(h1[first], a)]
  }

  ghost predicate FromRight(h: Heap, q: PageId, i: nat, a: PageId, b: PageId, h': Heap) {
    && a in h && b in h && q in h && a != q && b != q && a != b
    && h[a].Inner? && h[b].Inner? && h[q].Inner? && i + 1 < |h[q].slots| && |h[b].slots| > 1
    && h[b].slots[0].child in h && h' == InnerFromRight(h, q, i, a, b)
  }

  lemma InnerFromRightIsShift(h: Heap, g: Shape, root: PageId, q: PageId, i: nat, a: PageId, b: PageId)
    requires InnerSiblings(h, g, root, q, i, a, b) && |h[b].slots| >= 2 && q in h && a != q && b != q && a != b
    ensures var n := |h[a].slots| + 1; var k0 := h[b].slots[1].key;
            && h[b].slots[0].child in h && Row(h, q, i, a, b)[n].key == k0
            && InnerFromRight(h, q, i, a, b) == ShiftInnersHeap(h, q, i, a, b, n, k0)
  {
    hide Core, HasChild, PageOk, SlotsOk, RangesOk, ParentsOk, ShiftInnersHeap;
    var n := |h[a].slots| + 1;
    var first := h[b].slots[0].child;
    var k0 := h[b].slots[1].key;
    var ss := Row(h, q, i, a, b);
    SiblingFacts(h, g, root, q, i, a, b);
    InnerFacts(h, g, root, a);
    InnerFacts(h, g, root, b);
    RowFacts(h, g, root, q, i, a, b);
    ShiftInnersFacts(h, g, root, q, i, a, b, n, k0);
    AtChild(h[b].slots, 0, first);
    assert ss[..n] == h[a].slots + [Slot(h[q].slots[i + 1].key, first)];
    assert WithKey(ss[n..], 0, k0) == h[b].slots[1..];
    var hs, hb := ShiftInnersHeap(h, q, i, a, b, n, k0), InnerFromRight(h, q, i, a, b);
    AtChild(ss[..n], n - 1, first);
    forall p | p in h && p != a && p != b && p != q ensures hs[p] == hb[p] {
      if p != first {
        if HasChild(ss[..n], p) { var j := ChildAt(ss[..n], p); AtChild(h[a].slots, j, p); }
        if HasChild(ss[n..], p) { var j := ChildAt(ss[n..], p); AtChild(h[b].slots, j + 1, p); }
      }
    }
  }

  lemma InnerFromRightStep(h: Heap, g: Shape, root: PageId, leafMax: nat, innerMax: nat, m: map<int, RID>,
                           q: PageId, i: nat, a: PageId, b: PageId)
    requires Neighbours(h, g, root, leafMax, innerMax, m, q, i, a, b, a) && h[b].Inner? && |h[b].slots| > h[b].MinSize()
    ensures h[b].slots[0].child in h
    ensures Holds(InnerFromRight(h, q, i, a, b), ShiftShape(g, a, b, h[b].slots[1].key), root, leafMax, innerMax, {}, m)
  {
    hide Core, SizedBut, Represents, HasChild;
    var n, k0 := |h[a].slots| + 1, h[b].slots[1].key;
    assert InnerSiblings(h, g, root, q, i, a, b);
    InnerFromRightIsShift(h, g, root, q, i, a, b);
    ShiftInnersStep(h, g, root, leafMax, innerMax, a, q, i, a, b, n, k0);
    RepresentsMoves(h, g, ShiftInnersHeap(h, q, i, a, b, n, k0), ShiftShape(g, a, b, k0), m);
  }

  /** The right of two internal pages is emptied into the left one. As written, the loop that
      should hand over the moved kids runs over the size after the move, which is 0. */
  ghost function InnersMerged(h: Heap, q: PageId, i: nat, a: PageId, b: PageId, repaired: bool): Heap
    requires a in h && b in h && q in h && a != q && b != q && a != b
    requires h[a].Inner? && h[b].Inner? && h[q].Inner? && i + 1 < |h[q].slots| && |h[b].slots| > 0
  {
    var h1 := h[b := WithSlots(h[b], [])][a := WithSlots(h[a], Row(h, q, i, a, b))];
    var h2 := if repaired then Adopt(h1, h[b].slots, a) else h1;
    h2[q := WithSlots(h2[q], RemoveAt(h2[q].slots, i + 1))]
  }

  /** Adopting kids and emptying the right page gives what the merge of values gives, but for that page. */
  lemma MergedAgrees(h: Heap, g: Shape, root: PageId, q: PageId, i: nat, a: PageId, b: PageId, h': Heap)
    requires InnerSiblings(h, g, root, q, i, a, b) && a != b && a != q && b != q && a in h && b in h && a in g && b in g
    requires |h[b].slots| > 0
    requires h' == InnersMerged(h, q, i, a, b, true) || h' == InnersMerged(h, q, i, a, b, true) - {b}
    ensures var h1, g1 := MergeInnersHeap(h, q, i, a, b), MergeShape(g, a, b);
            g1.Keys <= h'.Keys && forall p :: p in g1 ==> h'[p] == h1[p]
    ensures ParentLeft(h, h', MergeShape(g, a, b), q)
  {
    hide PageOk, HasChild, MergeInnersHeap;
    MergeInnersFacts(h, g, root, q, i, a, b);
    RowFacts(h, g, root, q, i, a, b);
    hide SlotsOk, RangesOk;
  }

  lemma InnersMergedStep(h: Heap, g: Shape, root: PageId, leafMax: nat, innerMax: nat, m: map<int, RID>,
                         q: PageId, i: nat, a: PageId, b: PageId, x: PageId, h': Heap)
    requires Neighbours(h, g, root, leafMax, innerMax, m, q, i, a, b, x)
    requires h[a].Inner? && |h[b].slots| > 0 && |h[a].slots| + |h[b].slots| == 2 * h[a].MinSize() - 1
    requires h' == InnersMerged(h, q, i, a, b, true) || h' == InnersMerged(h, q, i, a, b, true) - {b}
    ensures Holds(h', MergeShape(g, a, b), root, leafMax, innerMax, {q}, m) && ParentLeft(h, h', MergeShape(g, a, b), q)
  {
    hide SizedBut, Represents, PageOk, HasChild, InnersMerged, MergeInnersHeap, MergeShape;
    assert InnerSiblings(h, g, root, q, i, a, b);
    MergedAgrees(h, g, root, q, i, a, b, h');
    MergeInnersStep(h, g, root, leafMax, innerMax, x, q, i, a, b);
    var h1, g1 := MergeInnersHeap(h, q, i, a, b), MergeShape(g, a, b);
    RepresentsMoves(h, g, h1, g1, m);
    StateAgrees(h1, h', g1, root, leafMax, innerMax, {q}, m);
  }

  lemma ShrinkHolds(h: Heap, g: Shape, root: PageId, leafMax: nat, innerMax: nat, m: map<int, RID>, h': Heap)
    requires Holds(h, g, root, leafMax, innerMax, {root}, m) && leafMax >= 2 && innerMax >= 3
    requires root in h && h[root].Inner? && |h[root].slots| == 1
    requires var c := h[root].slots[0].child;
             && c in h && c != root && h'.Keys >= h.Keys - {root}
             && forall p :: p in h && p != root ==> h'[p] == if p == c then WithParent(h[c], INVALID_PAGE_ID) else h[p]
    ensures Holds(h', g - {root}, h[root].slots[0].child, leafMax, innerMax, {}, m)
  {
    hide SizedBut, Represents, PageOk, HasChild;
    var c := h[root].slots[0].child;
    ShrinkStep(h, g, root, leafMax, innerMax);
    RepresentsMoves(h, g, ShrinkHeap(h, root, c), g - {root}, m);
    StateAgrees(ShrinkHeap(h, root, c), h', g - {root}, c, leafMax, innerMax, {}, m);
  }

  /** A leaf that underflows lacks exactly one entry. */
  lemma LacksOne(h: Heap, g: Shape, root: PageId, leafMax: nat, innerMax: nat, m: map<int, RID>, x: PageId, key: int)
    requires Holds(h, g, root, leafMax, innerMax, {}, m) && x in g && h[x].Leaf? && Within(g[x], key)
    ensures var h' := h[x := WithEntries(h[x], RemoveEntry(h[x].entries, key))];
            && h'[x].max == leafMax
            && (h'[x].Count() < h'[x].MinSize() && x != root <==>
                  x != root && HasKey(h[x].entries, key) && |h[x].entries| == h[x].MinSize())
            && (h'[x].Count() < h'[x].MinSize() && x != root ==> h'[x].Count() == h'[x].MinSize() - 1)
  {
    hide SizedBut, Represents;
    LeafFacts(h, g, root, x);
    SizeOf(h, g, root, leafMax, innerMax, {}, x);
    RemoveEntryFacts(h[x].entries, g[x], key);
  }

  /** A tree whose root is an empty leaf holds nothing. */
  lemma LastEntryGone(h: Heap, g: Shape, root: PageId, m: map<int, RID>)
    requires Core(h, g, root) && Represents(h, g, m) && h[root].Leaf? && h[root].entries == []
    ensures m == map[]
  {
    LeafFacts(h, g, root, root);
    RootCovers(h, g, root);
    forall k ensures k !in m {
      if k in m {
        var e := Entry(k, m[k]);
        assert Stored(h, g, e);
        StoredInCoveringLeaf(h, g, root, root, e);
      }
    }
    assert m.Keys == {};
  }

  lemma RootCovers(h: Heap, g: Shape, root: PageId)
    requires Core(h, g, root)
    ensures root >= 0 && root in g && root in h && forall key :: Within(g[root], key)
  {
    assert PageOk(h, g, root, root);
  }

  /** Every subtree holds an entry. */
  lemma SomeEntry(h: Heap, g: Shape, root: PageId, p: PageId, leafMax: nat, innerMax: nat) returns (e: Entry)
    requires WellFormed(h, g, root, leafMax, innerMax) && leafMax >= 2 && p in g
    ensures Stored(h, g, e)
    decreases g[p].level
  {
    assert PageOk(h, g, root, p);
    if h[p].Leaf? {
      SizeOf(h, g, root, leafMax, innerMax, {}, p);
      e := h[p].entries[0];
      assert EntryIn(h, g, p, e);
    } else {
      var c := h[p].slots[0].child;
      AtChild(h[p].slots, 0, c);
      KidOf(h, g, root, p, c);
      e := SomeEntry(h, g, root, c, leafMax, innerMax);
    }
  }

  // ---------- the steps of the rebalancing functions, for either neighbour ----------

  lemma PushFrontFacts(ss: seq<Slot>, stale: int, child: PageId, middle: int, key: int)
    ensures PushFront(ss, stale, child, middle) != [] && PushFront(ss, stale, child, middle)[0] == Slot(stale, child)
    ensures PushFront(ss, key, child, middle) != [] && PushFront(ss, key, child, middle)[0] == Slot(key, child)
    ensures WithKey(PushFront(ss, stale, child, middle), 0, key) == PushFront(ss, key, child, middle)
  {
  }

  lemma MergedKids(h: Heap, g: Shape, root: PageId, q: PageId, i: nat, a: PageId, b: PageId)
    requires InnerSiblings(h, g, root, q, i, a, b)
    ensures forall c :: HasChild(h[b].slots, c) ==> c in h && c != a && c != b && c != q
  {
    hide HasChild;
    RowFacts(h, g, root, q, i, a, b);
  }

  /** The last `|sb|` slots of the row list the kids that moved; the last 0 list none. */
  lemma AdoptTail(h: Heap, sa: seq<Slot>, sb: seq<Slot>, middle: int, a: PageId, moved: nat)
    requires |sb| >= 1 && (moved == |sb| || moved == 0)
    ensures var row := Joined(sa, middle, sb);
            var tail := row[|row| - moved..|row|];
            && (forall c :: HasChild(tail, c) ==> HasChild(sb, c))
            && Adopt(h, tail, a) == (if moved == 0 then h else Adopt(h, sb, a))
  {
    hide HasChild;
    var row := Joined(sa, middle, sb);
    var tail := row[|row| - moved..|row|];
    if moved == 0 {
      NoChild(tail);
    } else {
      assert tail == WithKey(sb, 0, middle);
      WithKeyChildren(sb, 0, middle);
    }
  }

  lemma NoChild(ss: seq<Slot>)
    requires ss == []
    ensures forall c :: !HasChild(ss, c)
  {
  }

  lemma OnlyKidFacts(h: Heap, g: Shape, root: PageId, leafMax: nat, innerMax: nat)
    requires Core(h, g, root) && root in h && h[root].Inner? && |h[root].slots| == 1
    ensures var c := h[root].slots[0].child; c in h && c in g && c != root && c >= 0 && root in g
  {
    ShrinkRoot(h, g, root);
    assert PageOk(h, g, root, h[root].slots[0].child);
  }

  lemma ShiftedInners(h: Heap, g: Shape, root: PageId, leafMax: nat, innerMax: nat, m: map<int, RID>,
                      q: PageId, index: nat, x: PageId, s: PageId, isLeft: bool, h': Heap) returns (key: int)
    requires Beside(h, g, root, leafMax, innerMax, m, q, index, x, s, isLeft) && h[x].Inner?
             && |h[s].slots| > h[s].MinSize()
    requires if isLeft then FromLeft(h, q, index - 1, s, x, true, h') else FromRight(h, q, index, x, s, h')
    ensures Holds(h', if isLeft then ShiftShape(g, s, x, key)
            else ShiftShape(g, x, s, key), root, leafMax, innerMax, {}, m)
    ensures Others(h, g, h')
  {
    hide Core, SizedBut, Represents;
    SomeKid(h, g, root, s, if isLeft then |h[s].slots| - 1 else 0);
    if isLeft {
      key := h[s].slots[|h[s].slots| - 1].key;
      InnerFromLeftStep(h, g, root, leafMax, innerMax, m, q, index - 1, s, x);
      OthersOf(h, g, h', {x, s, q, h[s].slots[|h[s].slots| - 1].child});
    } else {
      key := h[s].slots[1].key;
      InnerFromRightStep(h, g, root, leafMax, innerMax, m, q, index, x, s);
      OthersOf(h, g, h', {x, s, q, h[s].slots[0].child});
    }
  }

  lemma SomeKid(h: Heap, g: Shape, root: PageId, p: PageId, i: nat)
    requires Core(h, g, root) && p in g && h[p].Inner? && i < |h[p].slots|
    ensures h[p].slots[i].child in g && h[p].slots[i].child in h
  {
    AtChild(h[p].slots, i, h[p].slots[i].child);
    assert PageOk(h, g, root, p);
    KidOf(h, g, root, p, h[p].slots[i].child);
  }

  lemma MergedInners(h: Heap, g: Shape, root: PageId, leafMax: nat, innerMax: nat, m: map<int, RID>,
                     q: PageId, index: nat, x: PageId, s: PageId, isLeft: bool, h': Heap)
    requires Beside(h, g, root, leafMax, innerMax, m, q, index, x, s, isLeft) && h[x].Inner?
             && |h[s].slots| == h[s].MinSize()
    requires var r := if isLeft then InnersMerged(h, q, index - 1, s, x, true)
             else InnersMerged(h, q, index, x, s, true);
             h' == r || h' == r - {if isLeft then x else s}
    ensures var g' := if isLeft then MergeShape(g, s, x) else MergeShape(g, x, s);
            Holds(h', g', root, leafMax, innerMax, {q}, m) && ParentLeft(h, h', g', q) && SameFor(g, g', q)
              && SameFor(g, g', root)
    ensures Others(h, g, h')
  {
    hide Core, SizedBut, Represents, InnersMerged, Siblings;
    if isLeft {
      MergedInnersHere(h, g, root, leafMax, innerMax, m, q, index - 1, s, x, x, h');
    } else {
      MergedInnersHere(h, g, root, leafMax, innerMax, m, q, index, x, s, x, h');
    }
  }

  lemma MergedInnersHere(h: Heap, g: Shape, root: PageId, leafMax: nat, innerMax: nat, m: map<int, RID>,
                         q: PageId, i: nat, a: PageId, b: PageId, x: PageId, h': Heap)
    requires Neighbours(h, g, root, leafMax, innerMax, m, q, i, a, b, x)
    requires h[a].Inner? && |h[b].slots| > 0 && |h[a].slots| + |h[b].slots| == 2 * h[a].MinSize() - 1
    requires h' == InnersMerged(h, q, i, a, b, true) || h' == InnersMerged(h, q, i, a, b, true) - {b}
    ensures var g' := MergeShape(g, a, b);
            Holds(h', g', root, leafMax, innerMax, {q}, m) && ParentLeft(h, h', g', q) && SameFor(g, g', q)
              && SameFor(g, g', root)
    ensures Others(h, g, h')
  {
    hide Core, SizedBut, Represents, HasChild;
    InnersMergedStep(h, g, root, leafMax, innerMax, m, q, i, a, b, x, h');
    RootCovers(h, g, root);
    InnerFacts(h, g, root, b);
    OthersOf(h, g, h', set p | p in g);
  }

  ghost predicate SameFor(g: Shape, g': Shape, p: PageId) {
    p in g && p in g' && g'[p] == g[p]
  }

  lemma ShiftedLeaves(h: Heap, g: Shape, root: PageId, leafMax: nat, innerMax: nat, m: map<int, RID>,
                      q: PageId, index: nat, x: PageId, s: PageId, isLeft: bool, h': Heap) returns (key: int)
    requires Beside(h, g, root, leafMax, innerMax, m, q, index, x, s, isLeft) && h[x].Leaf?
             && |h[s].entries| > h[s].MinSize()
    requires h' == if isLeft then LeafFromLeft(h, q, index - 1, s, x) else LeafFromRight(h, q, index, x, s)
    ensures Holds(h', if isLeft then ShiftShape(g, s, x, key)
            else ShiftShape(g, x, s, key), root, leafMax, innerMax, {}, m)
    ensures Others(h, g, h')
  {
    hide Core, SizedBut, Represents;
    if isLeft {
      key := h[s].entries[|h[s].entries| - 1].key;
      LeafFromLeftStep(h, g, root, leafMax, innerMax, m, q, index - 1, s, x);
    } else {
      key := h[s].entries[1].key;
      LeafFromRightStep(h, g, root, leafMax, innerMax, m, q, index, x, s);
    }
    OthersOf(h, g, h', {x, s, q});
  }

  /** Merging leaves keeps everything but the occupancy of the parent. */
  lemma MergedLeaves(h: Heap, g: Shape, root: PageId, leafMax: nat, innerMax: nat, m: map<int, RID>,
                     q: PageId, index: nat, x: PageId, s: PageId, isLeft: bool, h': Heap)
    requires Beside(h, g, root, leafMax, innerMax, m, q, index, x, s, isLeft) && h[x].Leaf?
             && |h[s].entries| == h[s].MinSize()
    requires var r := if isLeft then LeavesMerged(h, q, index - 1, s, x) else LeavesMerged(h, q, index, x, s);
             h' == r || h' == r - {if isLeft then x else s}
    ensures var g' := if isLeft then MergeShape(g, s, x) else MergeShape(g, x, s);
            Holds(h', g', root, leafMax, innerMax, {q}, m) && ParentLeft(h, h', g', q) && SameFor(g, g', q)
              && SameFor(g, g', root)
    ensures Others(h, g, h')
  {
    hide Core, SizedBut, Represents, LeavesMerged, Siblings;
    if isLeft {
      MergedLeavesHere(h, g, root, leafMax, innerMax, m, q, index - 1, s, x, x, h');
    } else {
      MergedLeavesHere(h, g, root, leafMax, innerMax, m, q, index, x, s, x, h');
    }
  }

  lemma MergedLeavesHere(h: Heap, g: Shape, root: PageId, leafMax: nat, innerMax: nat, m: map<int, RID>,
                         q: PageId, i: nat, a: PageId, b: PageId, x: PageId, h': Heap)
    requires Neighbours(h, g, root, leafMax, innerMax, m, q, i, a, b, x)
    requires h[a].Leaf? && |h[a].entries| + |h[b].entries| == 2 * h[a].MinSize() - 1
    requires h' == LeavesMerged(h, q, i, a, b) || h' == LeavesMerged(h, q, i, a, b) - {b}
    ensures var g' := MergeShape(g, a, b);
            Holds(h', g', root, leafMax, innerMax, {q}, m) && ParentLeft(h, h', g', q) && SameFor(g, g', q)
              && SameFor(g, g', root)
    ensures Others(h, g, h')
  {
    hide Core, SizedBut, Represents, HasChild;
    LeavesMergedStep(h, g, root, leafMax, innerMax, m, q, i, a, b, x, h');
    RootCovers(h, g, root);
    OthersOf(h, g, h', {a, b, q});
  }
}
