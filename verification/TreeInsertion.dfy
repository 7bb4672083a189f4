/** What the page writes of an insertion amount to, split by split. */
module TreeInsertion {
  import opened Common
  import opened TreePages
  import opened TreeShape
  import opened TreeSteps
  import opened LeafSteps
  import opened InnerSteps
  import opened TreeUpdates

  /** Well-formed but for the occupancy of `except`, and holding exactly `m`. */
  ghost predicate Holds(h: Heap, g: Shape, root: PageId, leafMax: nat, innerMax: nat, except: set<PageId>,
      m: map<int, RID>) {
    Core(h, g, root) && SizedBut(h, g, root, leafMax, innerMax, except) && Represents(h, g, m)
  }

  /** The page `q` with one more child, right of `left`. */
  ghost function WithChild(h: Heap, q: PageId, left: PageId, key: int, right: PageId): Heap
    requires q in h && h[q].Inner?
  {
    h[q := WithSlots(h[q], InsertAfter(h[q].slots, left, key, right))]
  }

  lemma FirstLeaf(h: Heap, id: PageId, leafMax: nat, innerMax: nat, key: int, rid: RID)
    requires id >= 0 && id in h && leafMax >= 1
    requires h[id] == Leaf(leafMax, INVALID_PAGE_ID, INVALID_PAGE_ID, [Entry(key, rid)])
    ensures Holds(h, map[id := Info(0, NegInf, PosInf)], id, leafMax, innerMax, {}, map[key := rid])
  {
    var g: Shape := map[id := Info(0, NegInf, PosInf)];
    assert PageOk(h, g, id, id);
    assert SizeOk(h, id, leafMax, innerMax, id);
    assert h[id].entries[0] == Entry(key, rid);
    forall e ensures Stored(h, g, e) <==> e == Entry(key, rid) {
      if e == Entry(key, rid) { assert EntryIn(h, g, id, e); }
    }
  }

  lemma InsertSize(es: seq<Entry>, key: int, rid: RID)
    requires Sorted(es)
    ensures |InsertEntry(es, key, rid)| == (if HasKey(es, key) then |es| else |es| + 1)
    ensures HasKey(es, key) ==> InsertEntry(es, key, rid) == es
  {
    var i := LowerBound(es, key);
    if i < |es| && es[i].key == key {
      assert HasKey(es, key);
    } else {
      assert forall j :: 0 <= j < |es| ==> es[j].key != key;
    }
  }

  lemma SizeOf(h: Heap, g: Shape, root: PageId, leafMax: nat, innerMax: nat, except: set<PageId>, p: PageId)
    requires SizedBut(h, g, root, leafMax, innerMax, except) && p in g && p !in except
    ensures SizeOk(h, root, leafMax, innerMax, p)
  {
  }

  /** The page whose occupancy was open turns out to be fine. */
  lemma NowSized(h: Heap, g: Shape, root: PageId, leafMax: nat, innerMax: nat, x: PageId)
    requires SizedBut(h, g, root, leafMax, innerMax, {x}) && SizeOk(h, root, leafMax, innerMax, x)
    ensures SizedBut(h, g, root, leafMax, innerMax, {})
  {
    forall p | p in g ensures SizeOk(h, root, leafMax, innerMax, p) {
    }
  }

  /** The parent of a split page, which is not the root, before it takes up the new child. */
  ghost predicate ParentReady(h1: Heap, g: Shape, root: PageId, leafMax: nat, innerMax: nat, a: PageId, q: PageId) {
    && a in g && a != root && q in g && q >= 0 && g[q].level == g[a].level + 1
    && q in h1 && h1[q].Inner? && SizeOk(h1, root, leafMax, innerMax, q)
  }

  // ---------- a leaf splits ----------

  ghost predicate OverfullLeaf(h: Heap, g: Shape, root: PageId, leafMax: nat, innerMax: nat, m: map<int, RID>,
      a: PageId) {
    && leafMax >= 2 && innerMax >= 3 && Holds(h, g, root, leafMax, innerMax, {a}, m)
    && a in g && a in h && h[a].Leaf? && h[a].max == leafMax && |h[a].entries| == leafMax + 1
  }

  /** The pages after `MoveHalfTo` and the chain update, before any parent pointer is set. */
  ghost function LeafHalves(h: Heap, leafMax: nat, a: PageId, b: PageId): Heap
    requires a in h && h[a].Leaf?
  {
    var es := h[a].entries; var n := |es| / 2;
    h[a := h[a].(entries := es[..n], next := b)][b := Leaf(leafMax, INVALID_PAGE_ID, h[a].next, es[n..])]
  }

  /** After the writes to the two leaves, the parent only has to take up the new child. */
  lemma SplitLeafBelow(h: Heap, g: Shape, root: PageId, leafMax: nat, innerMax: nat, m: map<int, RID>,
                       a: PageId, b: PageId)
    requires OverfullLeaf(h, g, root, leafMax, innerMax, m, a) && h[a].parent != INVALID_PAGE_ID
    requires b >= 0 && b !in h
    ensures b !in g
    ensures var q := h[a].parent; var mid := h[a].entries[(leafMax + 1) / 2].key;
            var hp := LeafHalves(h, leafMax, a, b);
            var h1 := hp[b := WithParent(hp[b], q)];
            && ParentReady(h1, g, root, leafMax, innerMax, a, q)
            && Holds(WithChild(h1, q, a, mid, b), SplitShape(g, a, b, mid), root, leafMax, innerMax, {q}, m)
  {
    var es := h[a].entries;
    var n := |es| / 2;
    var ea, eb := es[..n], es[n..];
    var q := h[a].parent;
    UpFacts(h, g, root, a);
    SizeOf(h, g, root, leafMax, innerMax, {a}, q);
    assert es == ea + eb;
    SplitLeafStep(h, g, root, leafMax, innerMax, {}, a, b, ea, eb);
    var hp := LeafHalves(h, leafMax, a, b);
    assert WithChild(hp[b := WithParent(hp[b], q)], q, a, eb[0].key, b) == SplitLeafHeap(h, a, b, ea, eb);
    RepresentsMoves(h, g, SplitLeafHeap(h, a, b, ea, eb), SplitShape(g, a, b, eb[0].key), m);
  }

  /** A new root over the two halves `a` and `b` of the old one. */
  ghost function UnderNewRoot(h: Heap, innerMax: nat, a: PageId, key: int, b: PageId, r: PageId, k0: int): Heap
    requires a in h && b in h
  {
    h[r := Inner(innerMax, INVALID_PAGE_ID, [Slot(k0, a), Slot(key, b)])][a := WithParent(h[a],
      r)][b := WithParent(h[b], r)]
  }

  /** A split root ends up below a new root with two children. */
  lemma SplitLeafAtRoot(h: Heap, g: Shape, root: PageId, leafMax: nat, innerMax: nat, m: map<int, RID>,
                        b: PageId, r: PageId, k0: int)
    requires OverfullLeaf(h, g, root, leafMax, innerMax, m, root)
    requires b >= 0 && b !in h && r >= 0 && r !in h && r != b
    ensures var mid := h[root].entries[(leafMax + 1) / 2].key;
            Holds(UnderNewRoot(LeafHalves(h, leafMax, root, b), innerMax, root, mid, b, r, k0),
                  SplitShape(GrowShape(g, root, r), root, b, mid), r, leafMax, innerMax, {}, m)
  {
    var es := h[root].entries;
    var n := |es| / 2;
    var ea, eb := es[..n], es[n..];
    var h', g' := GrowHeap(h, root, r, innerMax, k0), GrowShape(g, root, r);
    GrowStep(h, g, root, leafMax, innerMax, r, k0);
    RepresentsMoves(h, g, h', g', m);
    assert es == ea + eb;
    SplitLeafStep(h', g', r, leafMax, innerMax, {r}, root, b, ea, eb);
    assert InsertAfter([Slot(k0, root)], root, eb[0].key, b) == [Slot(k0, root), Slot(eb[0].key, b)];
    var h1 := UnderNewRoot(LeafHalves(h, leafMax, root, b), innerMax, root, eb[0].key, b, r, k0);
    assert h1 == SplitLeafHeap(h', root, b, ea, eb);
    RepresentsMoves(h', g', h1, SplitShape(g', root, b, eb[0].key), m);
    NowSized(h1, SplitShape(g', root, b, eb[0].key), r, leafMax, innerMax, r);
  }

  // ---------- an internal page splits ----------

  ghost predicate OverfullInner(h: Heap, g: Shape, root: PageId, leafMax: nat, innerMax: nat, m: map<int, RID>,
      a: PageId) {
    && leafMax >= 2 && innerMax >= 3 && Holds(h, g, root, leafMax, innerMax, {a}, m)
    && a in g && a in h && h[a].Inner? && h[a].max == innerMax && |h[a].slots| == innerMax + 1
  }

  /** The pages after `MoveHalfTo` and the adoption loop, before the new page has a parent. */
  ghost function InnerHalves(h: Heap, innerMax: nat, a: PageId, b: PageId, k0: int): Heap
    requires a in h && h[a].Inner? && |h[a].slots| >= 2
  {
    var ss := h[a].slots; var n := |ss| / 2;
    Adopt(h[a := WithSlots(h[a], ss[..n])][b := Inner(innerMax, INVALID_PAGE_ID, WithKey(ss[n..], 0, k0))], ss[n..], b)
  }

  lemma SplitInnerBelow(h: Heap, g: Shape, root: PageId, leafMax: nat, innerMax: nat, m: map<int, RID>,
                        a: PageId, b: PageId, k0: int)
    requires OverfullInner(h, g, root, leafMax, innerMax, m, a) && h[a].parent != INVALID_PAGE_ID
    requires b >= 0 && b !in h
    ensures b !in g
    ensures var q := h[a].parent; var mid := h[a].slots[(innerMax + 1) / 2].key;
            var hp := InnerHalves(h, innerMax, a, b, k0);
            var h1 := hp[b := WithParent(hp[b], q)];
            && ParentReady(h1, g, root, leafMax, innerMax, a, q)
            && Holds(WithChild(h1, q, a, mid, b), SplitShape(g, a, b, mid), root, leafMax, innerMax, {q}, m)
  {
    hide HasChild, PageOk, SlotsOk, RangesOk;
    var ss := h[a].slots;
    var n := |ss| / 2;
    var q := h[a].parent;
    UpFacts(h, g, root, a);
    SizeOf(h, g, root, leafMax, innerMax, {a}, q);
    SplitInnerFacts(h, g, root, a, b, n, k0);
    Family(h, g, root, a);
    SplitInnerStep(h, g, root, leafMax, innerMax, {}, a, b, n, k0);
    var hp := InnerHalves(h, innerMax, a, b, k0);
    assert WithChild(hp[b := WithParent(hp[b], q)], q, a, ss[n].key, b) == SplitInnerHeap(h, a, b, n, k0);
    RepresentsMoves(h, g, SplitInnerHeap(h, a, b, n, k0), SplitShape(g, a, b, ss[n].key), m);
  }

  /** Splitting the root first and then growing a new one writes the same as the other way round. */
  lemma GrownHalves(h: Heap, root: PageId, innerMax: nat, b: PageId, k0: int, r: PageId, k1: int)
    requires root in h && h[root].Inner? && |h[root].slots| == innerMax + 1 && innerMax >= 3 && h[root].max == innerMax
    requires h[root].parent == INVALID_PAGE_ID && b !in h && r !in h && r != b && b >= 0 && r >= 0
    requires forall c :: HasChild(h[root].slots, c) ==> c in h && c != root && c != r
    ensures var n := (innerMax + 1) / 2;
            UnderNewRoot(InnerHalves(h, innerMax, root, b, k0), innerMax, root, h[root].slots[n].key, b, r, k1)
            == SplitInnerHeap(GrowHeap(h, root, r, innerMax, k1), root, b, n, k0)
  {
    hide HasChild;
    var ss, n := h[root].slots, (innerMax + 1) / 2;
    assert InsertAfter([Slot(k1, root)], root, ss[n].key, b) == [Slot(k1, root), Slot(ss[n].key, b)];
    forall c | HasChild(ss[n..], c) ensures HasChild(ss, c) {
      var j := ChildAt(ss[n..], c);
      AtChild(ss, n + j, c);
    }
  }

  lemma SplitInnerAtRoot(h: Heap, g: Shape, root: PageId, leafMax: nat, innerMax: nat, m: map<int, RID>,
                         b: PageId, k0: int, r: PageId, k1: int)
    requires OverfullInner(h, g, root, leafMax, innerMax, m, root)
    requires b >= 0 && b !in h && r >= 0 && r !in h && r != b
    ensures var mid := h[root].slots[(innerMax + 1) / 2].key;
            Holds(UnderNewRoot(InnerHalves(h, innerMax, root, b, k0), innerMax, root, mid, b, r, k1),
                  SplitShape(GrowShape(g, root, r), root, b, mid), r, leafMax, innerMax, {}, m)
  {
    hide HasChild, PageOk, SlotsOk, RangesOk;
    var ss := h[root].slots;
    var n := |ss| / 2;
    var h', g' := GrowHeap(h, root, r, innerMax, k1), GrowShape(g, root, r);
    GrowStep(h, g, root, leafMax, innerMax, r, k1);
    RepresentsMoves(h, g, h', g', m);
    SplitInnerStep(h', g', r, leafMax, innerMax, {r}, root, b, n, k0);
    SplitInnerFacts(h', g', r, root, b, n, k0);
    UpFacts(h, g, root, root);
    InnerFacts(h, g, root, root);
    var h1 := UnderNewRoot(InnerHalves(h, innerMax, root, b, k0), innerMax, root, ss[n].key, b, r, k1);
    GrownHalves(h, root, innerMax, b, k0, r, k1);
    RepresentsMoves(h', g', h1, SplitShape(g', root, b, ss[n].key), m);
    assert SizeOk(h1, r, leafMax, innerMax, r) by { assert h1[r].Count() == 2; }
    hide UnderNewRoot, InnerHalves, SplitInnerHeap, GrowHeap, SplitShape, GrowShape, Core;
    NowSized(h1, SplitShape(g', root, b, ss[n].key), r, leafMax, innerMax, r);
  }
}
