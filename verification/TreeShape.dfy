/** Well-formedness of a B+ tree stored in pages, and the structural steps that keep it:
    splitting, merging and borrowing between neighbours, growing and shrinking the root. */
module TreeShape {
  import opened Common
  import opened TreePages

  type Heap = map<PageId, Node>

  datatype Bound = NegInf | At(k: int) | PosInf

  ghost predicate Leq(b: Bound, k: int) { b.NegInf? || (b.At? && b.k <= k) }
  ghost predicate Below(b: Bound, k: int) { b.NegInf? || (b.At? && b.k < k) }
  ghost predicate Above(b: Bound, k: int) { b.PosInf? || (b.At? && k < b.k) }

  /** What a page is responsible for: its height above the leaves and the keys lo <= k < hi. */
  datatype Info = Info(level: nat, lo: Bound, hi: Bound)

  ghost predicate Within(info: Info, k: int) { Leq(info.lo, k) && Above(info.hi, k) }

  /** The pages of one tree, each with its responsibility. */
  type Shape = map<PageId, Info>

  // ---------- per-page well-formedness ----------

  function LoAt(ss: seq<Slot>, info: Info, i: nat): Bound
    requires i < |ss|
  {
    if i == 0 then info.lo else At(ss[i].key)
  }

  function HiAt(ss: seq<Slot>, info: Info, i: nat): Bound
    requires i < |ss|
  {
    if i + 1 == |ss| then info.hi else At(ss[i + 1].key)
  }

  /** Separators ascend strictly and lie strictly inside the page's range. */
  ghost predicate SlotsOk(ss: seq<Slot>, info: Info) {
    && |ss| >= 1
    && (forall i, j :: 1 <= i < j < |ss| ==> ss[i].key < ss[j].key)
    && (forall i :: 1 <= i < |ss| ==> Below(info.lo, ss[i].key) && Above(info.hi, ss[i].key))
  }

  /** `c` hangs below `p` and covers exactly `lo..hi`. */
  ghost predicate KidOk(h: Heap, g: Shape, p: PageId, level: nat, c: PageId, lo: Bound, hi: Bound) {
    c in g && c in h && h[c].parent == p && g[c] == Info(level, lo, hi)
  }

  ghost predicate InnerOk(h: Heap, g: Shape, p: PageId)
    requires p in h && p in g
  {
    && h[p].Inner? && g[p].level > 0
    && SlotsOk(h[p].slots, g[p])
    && forall i :: 0 <= i < |h[p].slots| ==>
         KidOk(h, g, p, g[p].level - 1, h[p].slots[i].child, LoAt(h[p].slots, g[p], i), HiAt(h[p].slots, g[p], i))
  }

  /** The leaf chain continues exactly where this leaf's range ends. */
  ghost predicate NextOk(g: Shape, info: Info, next: PageId) {
    match info.hi
    case PosInf => next == INVALID_PAGE_ID
    case At(k) => next in g && g[next].level == 0 && g[next].lo == At(k)
    case NegInf => false
  }

  ghost predicate EntriesOk(es: seq<Entry>, info: Info) {
    Sorted(es) && forall i :: 0 <= i < |es| ==> Within(info, es[i].key)
  }

  ghost predicate LeafOk(h: Heap, g: Shape, p: PageId)
    requires p in h && p in g
  {
    h[p].Leaf? && g[p].level == 0 && EntriesOk(h[p].entries, g[p]) && NextOk(g, g[p], h[p].next)
  }

  /** Parent pointers are exact: the root has none, every other page is listed by its parent. */
  ghost predicate UpOk(h: Heap, g: Shape, root: PageId, p: PageId)
    requires p in h && p in g
  {
    if p == root then
      h[p].parent == INVALID_PAGE_ID && g[p].lo == NegInf && g[p].hi == PosInf
    else
      var q := h[p].parent;
      q in g && q in h && h[q].Inner? && HasChild(h[q].slots, p)
  }

  ghost predicate PageOk(h: Heap, g: Shape, root: PageId, p: PageId) {
    && p in g && p >= 0 && p in h
    && (if g[p].level == 0 then LeafOk(h, g, p) else InnerOk(h, g, p))
    && UpOk(h, g, root, p)
  }

  /** Everything except the occupancy bounds. */
  ghost predicate Core(h: Heap, g: Shape, root: PageId) {
    root in g && g.Keys <= h.Keys && forall p {:trigger PageOk(h, g, root, p)} :: p in g ==> PageOk(h, g, root, p)
  }

  // ---------- occupancy ----------

  ghost predicate SizeOk(h: Heap, root: PageId, leafMax: nat, innerMax: nat, p: PageId) {
    && p in h && h[p].max == (if h[p].Leaf? then leafMax else innerMax)
    && h[p].Count() <= h[p].max
    && (if p == root then h[p].Count() >= (if h[p].Leaf? then 1 else 2) else h[p].Count() >= h[p].MinSize())
  }

  /** All pages but `except` respect their bounds. */
  ghost predicate SizedBut(h: Heap, g: Shape, root: PageId, leafMax: nat, innerMax: nat, except: set<PageId>) {
    forall p {:trigger SizeOk(h, root, leafMax, innerMax, p)} ::
      p in g && p !in except ==> SizeOk(h, root, leafMax, innerMax, p)
  }

  ghost predicate WellFormed(h: Heap, g: Shape, root: PageId, leafMax: nat, innerMax: nat) {
    Core(h, g, root) && SizedBut(h, g, root, leafMax, innerMax, {})
  }

  // ---------- contents ----------

  ghost predicate EntryIn(h: Heap, g: Shape, p: PageId, e: Entry) {
    p in g && p in h && h[p].Leaf? && e in h[p].entries
  }

  ghost predicate Stored(h: Heap, g: Shape, e: Entry) {
    exists p :: EntryIn(h, g, p, e)
  }

  /** The leaves hold exactly the pairs of `m`. */
  ghost predicate Represents(h: Heap, g: Shape, m: map<int, RID>) {
    forall e :: Stored(h, g, e) <==> e.key in m && m[e.key] == e.rid
  }

  ghost predicate SameEntries(h: Heap, g: Shape, h': Heap, g': Shape) {
    forall e :: Stored(h, g, e) <==> Stored(h', g', e)
  }

  // ---------- consequences ----------

  lemma KidsDistinct(h: Heap, g: Shape, p: PageId, i: nat, j: nat)
    requires p in h && p in g && InnerOk(h, g, p)
    requires i < j < |h[p].slots|
    ensures h[p].slots[i].child != h[p].slots[j].child
  {
    var ss := h[p].slots;
    assert g[ss[i].child].lo == LoAt(ss, g[p], i);
    assert g[ss[j].child].lo == LoAt(ss, g[p], j);
  }

  /** `ValueIndex` finds the one slot that holds the child. */
  lemma IndexOfKid(h: Heap, g: Shape, p: PageId, i: nat)
    requires p in h && p in g && InnerOk(h, g, p) && i < |h[p].slots|
    ensures ChildIndex(h[p].slots, h[p].slots[i].child) == i
  {
    var ss := h[p].slots;
    var r := ChildIndex(ss, ss[i].child);
    if r < i {
      KidsDistinct(h, g, p, r, i);
    }
  }

  /** A page below the root has an index in its parent, and inherits its range from there. */
  lemma PlaceInParent(h: Heap, g: Shape, root: PageId, p: PageId) returns (i: nat)
    requires Core(h, g, root) && p in g && p != root
    ensures var q := h[p].parent;
            && q in g && q in h && h[q].Inner? && InnerOk(h, g, q)
            && i < |h[q].slots| && h[q].slots[i].child == p && i == ChildIndex(h[q].slots, p)
            && KidOk(h, g, q, g[q].level - 1, p, LoAt(h[q].slots, g[q], i), HiAt(h[q].slots, g[q], i))
  {
    assert PageOk(h, g, root, p);
    var q := h[p].parent;
    assert PageOk(h, g, root, q);
    i :| 0 <= i < |h[q].slots| && h[q].slots[i].child == p;
    IndexOfKid(h, g, q, i);
  }

  /** Routing a key that a page covers leads to a child that covers it. */
  lemma RouteCovers(h: Heap, g: Shape, p: PageId, key: int)
    requires p in h && p in g && InnerOk(h, g, p) && Within(g[p], key)
    ensures var c := h[p].slots[Route(h[p].slots, key)].child;
            c in g && c in h && g[c].level + 1 == g[p].level && Within(g[c], key) && h[c].parent == p
  {
    var r := Route(h[p].slots, key);
    assert KidOk(h, g, p, g[p].level - 1, h[p].slots[r].child, LoAt(h[p].slots, g[p], r), HiAt(h[p].slots, g[p], r));
  }

  lemma KidRangesDisjoint(h: Heap, g: Shape, p: PageId, i: nat, j: nat, key: int)
    requires p in h && p in g && InnerOk(h, g, p) && i < j < |h[p].slots|
    ensures !(Within(g[h[p].slots[i].child], key) && Within(g[h[p].slots[j].child], key))
  {
    var ss := h[p].slots;
    assert KidOk(h, g, p, g[p].level - 1, ss[i].child, LoAt(ss, g[p], i), HiAt(ss, g[p], i));
    assert KidOk(h, g, p, g[p].level - 1, ss[j].child, LoAt(ss, g[p], j), HiAt(ss, g[p], j));
    assert ss[i + 1].key <= ss[j].key;
  }

  lemma RangeInParent(h: Heap, g: Shape, root: PageId, p: PageId, key: int)
    requires Core(h, g, root) && p in g && p != root && Within(g[p], key)
    ensures h[p].parent in g && g[h[p].parent].level == g[p].level + 1 && Within(g[h[p].parent], key)
  {
    var i := PlaceInParent(h, g, root, p);
  }

  lemma LevelAtMostRoot(h: Heap, g: Shape, root: PageId, p: PageId, bound: nat)
    requires Core(h, g, root) && p in g
    requires forall q :: q in g ==> g[q].level <= bound
    ensures g[p].level <= g[root].level && (g[p].level == g[root].level ==> p == root)
    decreases bound - g[p].level
  {
    if p != root {
      var i := PlaceInParent(h, g, root, p);
      LevelAtMostRoot(h, g, root, h[p].parent, bound);
    }
  }

  lemma LevelBound(g: Shape) returns (bound: nat)
    ensures forall q :: q in g ==> g[q].level <= bound
  {
    if p :| p in g {
      var g' := g - {p};
      var b := LevelBound(g');
      bound := if b > g[p].level then b else g[p].level;
      forall q | q in g ensures g[q].level <= bound {
        if q != p { assert q in g' && g'[q] == g[q]; }
      }
    } else {
      bound := 0;
    }
  }

  lemma BelowRoot(h: Heap, g: Shape, root: PageId, p: PageId)
    requires Core(h, g, root) && p in g
    ensures g[p].level <= g[root].level && (g[p].level == g[root].level ==> p == root)
  {
    var bound := LevelBound(g);
    LevelAtMostRoot(h, g, root, p, bound);
  }

  /** Two pages of one level never cover the same key. */
  lemma UniqueAtLevel(h: Heap, g: Shape, root: PageId, p: PageId, q: PageId, key: int)
    requires Core(h, g, root) && p in g && q in g && g[p].level == g[q].level
    requires Within(g[p], key) && Within(g[q], key)
    ensures p == q
    decreases g[root].level - g[p].level
  {
    BelowRoot(h, g, root, p);
    BelowRoot(h, g, root, q);
    if p != root && q != root {
      var i := PlaceInParent(h, g, root, p);
      var j := PlaceInParent(h, g, root, q);
      RangeInParent(h, g, root, p, key);
      RangeInParent(h, g, root, q, key);
      BelowRoot(h, g, root, h[p].parent);
      UniqueAtLevel(h, g, root, h[p].parent, h[q].parent, key);
      if i != j {
        KidRangesDisjoint(h, g, h[p].parent, if i < j then i else j, if i < j then j else i, key);
      }
    }
  }

  /** A stored key can only be in the leaf that covers it. */
  lemma StoredInCoveringLeaf(h: Heap, g: Shape, root: PageId, leaf: PageId, e: Entry)
    requires Core(h, g, root) && leaf in g && g[leaf].level == 0 && Within(g[leaf], e.key)
    requires Stored(h, g, e)
    ensures EntryIn(h, g, leaf, e)
  {
    var p :| EntryIn(h, g, p, e);
    assert PageOk(h, g, root, p) && PageOk(h, g, root, leaf);
    UniqueAtLevel(h, g, root, p, leaf, e.key);
  }
}
