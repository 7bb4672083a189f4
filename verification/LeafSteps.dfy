/** Steps that rewrite leaves: a changed entry array, a split, a borrow and a merge. */
module LeafSteps {
  import opened Common
  import opened TreePages
  import opened TreeShape
  import opened TreeSteps

  // ---------- entry arrays ----------

  lemma ConcatSorted(a: seq<Entry>, b: seq<Entry>, ia: Info, ib: Info)
    requires EntriesOk(a, ia) && EntriesOk(b, ib)
    requires ia.hi.At? && ia.hi == ib.lo
    requires Below(ia.lo, ia.hi.k) && Above(ib.hi, ia.hi.k)
    ensures EntriesOk(a + b, Info(ia.level, ia.lo, ib.hi))
  {
    assert forall i :: 0 <= i < |a| ==> a[i].key < ia.hi.k;
    assert forall i :: 0 <= i < |b| ==> ia.hi.k <= b[i].key;
  }

  /** Cutting a sorted array at a key of its own. */
  lemma CutSorted(a: seq<Entry>, b: seq<Entry>, info: Info)
    requires EntriesOk(a + b, info) && b != []
    ensures EntriesOk(a, info.(hi := At(b[0].key)))
    ensures EntriesOk(b, info.(lo := At(b[0].key)))
    ensures a != [] ==> Below(info.lo, b[0].key)
    ensures Above(info.hi, b[0].key)
  {
    var es := a + b;
    assert forall i :: 0 <= i < |a| ==> a[i] == es[i];
    assert forall i :: 0 <= i < |b| ==> b[i] == es[|a| + i];
    assert es[|a|] == b[0];
    if a != [] {
      assert es[0].key < es[|a|].key;
    }
  }

  // ---------- one leaf ----------

  lemma RewriteLeaf(h: Heap, g: Shape, root: PageId, a: PageId, es: seq<Entry>)
    requires Core(h, g, root) && a in g && a in h && h[a].Leaf? && EntriesOk(es, g[a])
    ensures Core(h[a := WithEntries(h[a], es)], g, root)
  {
    var h' := h[a := WithEntries(h[a], es)];
    assert PageOk(h, g, root, a);
    LeafFacts(h, g, root, a);
    assert Local(h, g, h', g, {a});
    UpFrame(h, g, h', g, root, a);
    LocalStep(h, g, root, h', g, root, {a});
  }

  // ---------- split ----------

  ghost predicate SplitLeafPre(h: Heap, g: Shape, root: PageId, a: PageId, b: PageId, ea: seq<Entry>, eb: seq<Entry>) {
    && Core(h, g, root) && a in g && a != root && a in h && h[a].Leaf?
    && b >= 0 && b !in h
    && h[a].entries == ea + eb && ea != [] && eb != []
    && h[a].parent in h && h[h[a].parent].Inner?
  }

  ghost function SplitLeafHeap(h: Heap, a: PageId, b: PageId, ea: seq<Entry>, eb: seq<Entry>): Heap
    requires a in h && h[a].Leaf? && h[a].parent in h && h[h[a].parent].Inner? && eb != []
  {
    var q := h[a].parent;
    h[a := h[a].(entries := ea, next := b)]
     [b := Leaf(h[a].max, q, h[a].next, eb)]
     [q := WithSlots(h[q], InsertAfter(h[q].slots, a, eb[0].key, b))]
  }

  lemma SplitLeafParent(h: Heap, g: Shape, root: PageId, a: PageId, b: PageId, ea: seq<Entry>, eb: seq<Entry>)
    requires SplitLeafPre(h, g, root, a, b, ea, eb)
    ensures var h', g' := SplitLeafHeap(h, a, b, ea, eb), SplitShape(g, a, b, eb[0].key);
            && h[a].parent in g
            && PageOk(h', g', root, h[a].parent)
            && forall c :: HasChild(h'[h[a].parent].slots, c) <==> c == b || HasChild(h[h[a].parent].slots, c)
  {
    hide HasChild, SlotsOk, RangesOk, ParentsOk, EntriesOk, NextOk;
    var q := h[a].parent;
    var sep := eb[0].key;
    var h', g' := SplitLeafHeap(h, a, b, ea, eb), SplitShape(g, a, b, sep);
    var i := PlaceInParent(h, g, root, a);
    LeafFacts(h, g, root, a);
    InnerFacts(h, g, root, q);
    CutSorted(ea, eb, g[a]);
    KidsKeptFrame(h, g, h', g', q, a, b);
    ParentInsert(h, g, h', g', q, i, sep, a, b);
    UpFrame(h, g, h', g', root, q);
  }

  lemma SplitLeafKids(h: Heap, g: Shape, root: PageId, a: PageId, b: PageId, ea: seq<Entry>, eb: seq<Entry>)
    requires SplitLeafPre(h, g, root, a, b, ea, eb)
    ensures var h', g' := SplitLeafHeap(h, a, b, ea, eb), SplitShape(g, a, b, eb[0].key);
            && h[a].parent in g
            && PageOk(h', g', root, a) && PageOk(h', g', root, b) && PageOk(h', g', root, h[a].parent)
  {
    SplitLeafParent(h, g, root, a, b, ea, eb);
    var i := PlaceInParent(h, g, root, a);
    LeafFacts(h, g, root, a);
    CutSorted(ea, eb, g[a]);
  }

  lemma SplitLeafLocal(h: Heap, g: Shape, root: PageId, a: PageId, b: PageId, ea: seq<Entry>, eb: seq<Entry>)
    requires SplitLeafPre(h, g, root, a, b, ea, eb)
    ensures var g' := SplitShape(g, a, b, eb[0].key);
            root in g' && g'.Keys <= SplitLeafHeap(h, a, b, ea, eb).Keys && g'.Keys <= g.Keys + {a, b, h[a].parent}
    ensures a >= 0 && h[a].parent >= 0
    ensures Local(h, g, SplitLeafHeap(h, a, b, ea, eb), SplitShape(g, a, b, eb[0].key), {a, b, h[a].parent})
  {
    hide HasChild, SlotsOk, RangesOk, ParentsOk, EntriesOk;
    SplitLeafParent(h, g, root, a, b, ea, eb);
    LeafFacts(h, g, root, a);
    InnerFacts(h, g, root, h[a].parent);
    FreshIsNoParent(h, g, root, b);
    LeavesLocal(h, g, SplitLeafHeap(h, a, b, ea, eb), SplitShape(g, a, b, eb[0].key), h[a].parent, a, b);
  }

  /** A leaf hands its upper entries to a new right neighbour below the same parent. */
  lemma SplitLeaf(h: Heap, g: Shape, root: PageId, a: PageId, b: PageId, ea: seq<Entry>, eb: seq<Entry>)
    requires SplitLeafPre(h, g, root, a, b, ea, eb)
    ensures Core(SplitLeafHeap(h, a, b, ea, eb), SplitShape(g, a, b, eb[0].key), root)
  {
    var q := h[a].parent;
    var h', g' := SplitLeafHeap(h, a, b, ea, eb), SplitShape(g, a, b, eb[0].key);
    SplitLeafKids(h, g, root, a, b, ea, eb);
    SplitLeafLocal(h, g, root, a, b, ea, eb);
    LocalStep3(h, g, root, h', g', a, b, q);
  }

  // ---------- borrow ----------

  ghost predicate ShiftLeavesPre(h: Heap, g: Shape, root: PageId, q: PageId, i: nat, a: PageId, b: PageId,
                                 ea: seq<Entry>, eb: seq<Entry>) {
    && Siblings(h, g, root, q, i, a, b) && a in h && b in h && h[a].Leaf? && h[b].Leaf?
    && ea + eb == h[a].entries + h[b].entries && ea != [] && eb != []
  }

  ghost function ShiftLeavesHeap(h: Heap, q: PageId, i: nat, a: PageId, b: PageId, ea: seq<Entry>, eb: seq<Entry>): Heap
    requires q in h && h[q].Inner? && i + 1 < |h[q].slots| && eb != []
    requires a in h && b in h && h[a].Leaf? && h[b].Leaf?
  {
    h[a := WithEntries(h[a], ea)][b := WithEntries(h[b], eb)][q := WithSlots(h[q],
      WithKey(h[q].slots, i + 1, eb[0].key))]
  }

  lemma ShiftLeavesParent(h: Heap, g: Shape, root: PageId, q: PageId, i: nat, a: PageId, b: PageId,
                          ea: seq<Entry>, eb: seq<Entry>)
    requires ShiftLeavesPre(h, g, root, q, i, a, b, ea, eb)
    ensures a in g && b in g && q in g
    ensures var h', g' := ShiftLeavesHeap(h, q, i, a, b, ea, eb), ShiftShape(g, a, b, eb[0].key);
            && PageOk(h', g', root, q)
            && forall c :: HasChild(h'[q].slots, c) <==> HasChild(h[q].slots, c)
  {
    hide HasChild, SlotsOk, RangesOk, ParentsOk, EntriesOk, NextOk;
    SiblingFacts(h, g, root, q, i, a, b);
    var sep := eb[0].key;
    var h', g' := ShiftLeavesHeap(h, q, i, a, b, ea, eb), ShiftShape(g, a, b, sep);
    LeafFacts(h, g, root, a);
    LeafFacts(h, g, root, b);
    InnerFacts(h, g, root, q);
    ConcatSorted(h[a].entries, h[b].entries, g[a], g[b]);
    CutSorted(ea, eb, Info(g[a].level, g[a].lo, g[b].hi));
    KidsKeptFrame(h, g, h', g', q, a, b);
    ParentMoveSeparator(h, g, h', g', q, i, sep, a, b);
    UpFrame(h, g, h', g', root, q);
  }

  lemma ShiftLeavesKids(h: Heap, g: Shape, root: PageId, q: PageId, i: nat, a: PageId, b: PageId,
                        ea: seq<Entry>, eb: seq<Entry>)
    requires ShiftLeavesPre(h, g, root, q, i, a, b, ea, eb)
    ensures a in g && b in g
    ensures var h', g' := ShiftLeavesHeap(h, q, i, a, b, ea, eb), ShiftShape(g, a, b, eb[0].key);
            q in g && PageOk(h', g', root, a) && PageOk(h', g', root, b) && PageOk(h', g', root, q)
  {
    SiblingFacts(h, g, root, q, i, a, b);
    ShiftLeavesParent(h, g, root, q, i, a, b, ea, eb);
    ConcatSorted(h[a].entries, h[b].entries, g[a], g[b]);
    CutSorted(ea, eb, Info(g[a].level, g[a].lo, g[b].hi));
    NextUniqueLink(h, g, root, a, b);
  }

  /** The right sibling is the left one's successor in the chain. */
  lemma NextUniqueLink(h: Heap, g: Shape, root: PageId, a: PageId, b: PageId)
    requires Core(h, g, root) && a in g && b in g && g[a].level == 0 && g[b].level == 0
    requires g[a].hi.At? && g[b].lo == g[a].hi
    ensures a in h && h[a].Leaf? && h[a].next == b
  {
    assert PageOk(h, g, root, a) && PageOk(h, g, root, b);
    var n := h[a].next;
    assert PageOk(h, g, root, n);
    RangeNonEmpty(h, g, root, b);
    RangeNonEmpty(h, g, root, n);
    UniqueAtLevel(h, g, root, n, b, g[a].hi.k);
  }

  /** Two neighbouring leaves divide their entries anew. */
  lemma ShiftLeaves(h: Heap, g: Shape, root: PageId, q: PageId, i: nat, a: PageId, b: PageId,
                    ea: seq<Entry>, eb: seq<Entry>)
    requires ShiftLeavesPre(h, g, root, q, i, a, b, ea, eb)
    ensures a in g && b in g
    ensures Core(ShiftLeavesHeap(h, q, i, a, b, ea, eb), ShiftShape(g, a, b, eb[0].key), root)
  {
    hide HasChild, SlotsOk, RangesOk, ParentsOk, EntriesOk;
    SiblingFacts(h, g, root, q, i, a, b);
    var h', g' := ShiftLeavesHeap(h, q, i, a, b, ea, eb), ShiftShape(g, a, b, eb[0].key);
    ShiftLeavesParent(h, g, root, q, i, a, b, ea, eb);
    ShiftLeavesKids(h, g, root, q, i, a, b, ea, eb);
    LeafFacts(h, g, root, a);
    LeafFacts(h, g, root, b);
    InnerFacts(h, g, root, q);
    NotNextOfOthers(h, g, root, a, b);
    LeavesLocal(h, g, h', g', q, a, b);
    LocalStep3(h, g, root, h', g', a, b, q);
  }

  // ---------- merge ----------

  ghost predicate MergeLeavesPre(h: Heap, g: Shape, root: PageId, q: PageId, i: nat, a: PageId, b: PageId) {
    Siblings(h, g, root, q, i, a, b) && a in h && b in h && h[a].Leaf? && h[b].Leaf?
  }

  ghost function MergeLeavesHeap(h: Heap, q: PageId, i: nat, a: PageId, b: PageId): Heap
    requires q in h && h[q].Inner? && i + 1 < |h[q].slots|
    requires a in h && b in h && h[a].Leaf? && h[b].Leaf?
  {
    h[a := h[a].(entries := h[a].entries + h[b].entries, next := h[b].next)]
     [q := WithSlots(h[q], RemoveAt(h[q].slots, i + 1))]
  }

  lemma MergeLeavesParent(h: Heap, g: Shape, root: PageId, q: PageId, i: nat, a: PageId, b: PageId)
    requires MergeLeavesPre(h, g, root, q, i, a, b)
    ensures a in g && b in g && q in g
    ensures var h', g' := MergeLeavesHeap(h, q, i, a, b), MergeShape(g, a, b);
            && PageOk(h', g', root, q)
            && forall c :: HasChild(h'[q].slots, c) <==> c != b && HasChild(h[q].slots, c)
  {
    hide HasChild, SlotsOk, RangesOk, ParentsOk, EntriesOk, NextOk;
    SiblingFacts(h, g, root, q, i, a, b);
    var h', g' := MergeLeavesHeap(h, q, i, a, b), MergeShape(g, a, b);
    LeafFacts(h, g, root, a);
    LeafFacts(h, g, root, b);
    InnerFacts(h, g, root, q);
    KidsKeptFrame(h, g, h', g', q, a, b);
    ParentRemove(h, g, h', g', q, i, a, b);
    UpFrame(h, g, h', g', root, q);
  }

  lemma MergeLeavesKid(h: Heap, g: Shape, root: PageId, q: PageId, i: nat, a: PageId, b: PageId)
    requires MergeLeavesPre(h, g, root, q, i, a, b)
    ensures a in g && b in g
    ensures PageOk(MergeLeavesHeap(h, q, i, a, b), MergeShape(g, a, b), root, a)
  {
    SiblingFacts(h, g, root, q, i, a, b);
    var h', g' := MergeLeavesHeap(h, q, i, a, b), MergeShape(g, a, b);
    MergeLeavesParent(h, g, root, q, i, a, b);
    ConcatSorted(h[a].entries, h[b].entries, g[a], g[b]);
    assert HasChild(h[q].slots, a);
    assert NextOk(g, g[b], h[b].next);
    assert NextOk(g', g'[a], h'[a].next) by {
      if g[b].hi.At? {
        RangeNonEmpty(h, g, root, b);
      }
    }
  }

  /** The left of two neighbouring leaves takes over all entries of the right one. */
  lemma MergeLeaves(h: Heap, g: Shape, root: PageId, q: PageId, i: nat, a: PageId, b: PageId)
    requires MergeLeavesPre(h, g, root, q, i, a, b)
    ensures a in g && b in g
    ensures Core(MergeLeavesHeap(h, q, i, a, b), MergeShape(g, a, b), root)
  {
    hide HasChild, SlotsOk, RangesOk, ParentsOk, EntriesOk;
    SiblingFacts(h, g, root, q, i, a, b);
    var h', g' := MergeLeavesHeap(h, q, i, a, b), MergeShape(g, a, b);
    MergeLeavesParent(h, g, root, q, i, a, b);
    MergeLeavesKid(h, g, root, q, i, a, b);
    LeafFacts(h, g, root, a);
    LeafFacts(h, g, root, b);
    InnerFacts(h, g, root, q);
    NotNextOfOthers(h, g, root, a, b);
    LeavesLocal(h, g, h', g', q, a, b);
    LocalStep3(h, g, root, h', g', a, b, q);
  }
}
