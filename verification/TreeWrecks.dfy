/** What is left of a tree that a removal as written has spoiled: all its entries, and which of them
    lookups still find. */
module TreeWrecks {
  import opened Common
  import opened TreePages
  import opened TreeShape
  import opened TreeSteps
  import opened InnerSteps
  import opened TreeRemoval
  import opened TreeDefects

  /** The keys that take a wrong turn at a stale separator: those below the common parent that lie
      between the stale key and the right one. */
  datatype Lost = Lost(lo: Bound, hi: Bound, stale: int, right: int)

  ghost predicate Loses(lost: Lost, k: int) {
    && Leq(lost.lo, k) && Above(lost.hi, k)
    && (lost.stale <= k < lost.right || lost.right <= k < lost.stale)
  }

  function Nothing(): Lost {
    Lost(NegInf, PosInf, 0, 0)
  }

  /** The leaves hold exactly `m`, and lookups find exactly what is not lost. */
  ghost predicate Readable(h: Heap, g: Shape, root: PageId, m: map<int, RID>, lost: Lost) {
    && root in g && Represents(h, g, m)
    && forall k :: Finds(h, root, k, g[root].level) <==> k in m && !Loses(lost, k)
  }

  /** The pages agree but for their parent pointers. */
  ghost predicate SamePages(h: Heap, h': Heap) {
    h'.Keys == h.Keys && forall p :: p in h ==> h'[p] == WithParent(h[p], h'[p].parent)
  }

  lemma {:induction false} LeafForSame(h: Heap, h': Heap, p: PageId, key: int, level: nat)
    requires SamePages(h, h')
    ensures LeafFor(h', p, key, level) == LeafFor(h, p, key, level)
    decreases level
  {
    if level > 0 && p in h && h[p].Inner? && h[p].slots != [] {
      LeafForSame(h, h', h[p].slots[Route(h[p].slots, key)].child, key, level - 1);
    }
  }

  /** Lookups do not read parent pointers. */
  lemma ReadableSame(h: Heap, g: Shape, root: PageId, m: map<int, RID>, lost: Lost, h': Heap)
    requires SamePages(h, h') && Readable(h, g, root, m, lost)
    ensures Readable(h', g, root, m, lost)
  {
    forall k
      ensures Finds(h', root, k, g[root].level) <==> Finds(h, root, k, g[root].level)
    {
      LeafForSame(h, h', root, k, g[root].level);
    }
    forall e
      ensures Stored(h', g, e) <==> Stored(h, g, e)
    {
      assert forall p :: EntryIn(h', g, p, e) <==> EntryIn(h, g, p, e);
    }
  }

  lemma ReadableWhole(h: Heap, g: Shape, root: PageId, m: map<int, RID>)
    requires Core(h, g, root) && Represents(h, g, m)
    ensures Readable(h, g, root, m, Nothing())
  {
    hide Core, Represents, Finds;
    forall k
      ensures root in g && (Finds(h, root, k, g[root].level) <==> k in m)
    {
      LookupExact(h, g, root, m, k);
    }
  }

  lemma ReadableStale(h: Heap, g: Shape, root: PageId, m: map<int, RID>, h': Heap, q: PageId, i: nat, b: PageId, s: int)
    requires Core(h, g, root) && Represents(h, g, m) && StaleSeparator(h, h', q, i, b, s) && q in g
    ensures Readable(h', g, root, m, Lost(LoAt(h[q].slots, g[q], i), g[q].hi, s, h[q].slots[i + 1].key))
  {
    var lost := Lost(LoAt(h[q].slots, g[q], i), g[q].hi, s, h[q].slots[i + 1].key);
    InnerFacts(h, g, root, q);
    assert forall e, p :: EntryIn(h', g, p, e) <==> EntryIn(h, g, p, e);
    assert forall e :: Stored(h', g, e) <==> Stored(h, g, e);
    assert Represents(h', g, m);
    forall k
      ensures root in g && (Finds(h', root, k, g[root].level) <==> k in m && !Loses(lost, k))
    {
      StaleLookups(h, g, root, m, h', q, i, b, s, k);
      if Loses(lost, k) { UpperRangeInside(h[q].slots, g[q], i, k); }
    }
  }

  // ---------- where the stale key comes from ----------

  /** The internal page `y` may borrow from a larger neighbour on its left: the key in its unread slot 0
      and the last key of the neighbour are the stale key and the right one. */
  ghost predicate StalePair(h: Heap, g: Shape, y: PageId, lost: Lost) {
    && y in h && y in g && h[y].Inner? && |h[y].slots| > 0
    && var p := h[y].parent;
       && p in h && p in g && h[p].Inner? && g[p].level > g[y].level && ChildIndex(h[p].slots, y) > 0
       && var s := Sibling(h[p].slots, y);
          && s in h && s in g && s != y && h[s].Inner? && g[s].level == g[y].level && |h[s].slots| > h[s].MinSize()
          && |h[s].slots| > 0 && lost.stale == h[y].slots[0].key && lost.right == h[s].slots[|h[s].slots| - 1].key
  }

  lemma StalePairHere(h: Heap, g: Shape, q: PageId, index: nat, x: PageId, s: PageId, lost: Lost)
    requires x in h && x in g && h[x].Inner? && |h[x].slots| > 0 && h[x].parent == q && q in h && q in g && h[q].Inner?
    requires g[q].level > g[x].level && index > 0 && index == ChildIndex(h[q].slots, x) && s == Sibling(h[q].slots, x)
    requires s in h && s in g && s != x && h[s].Inner? && g[s].level == g[x].level && |h[s].slots| > h[s].MinSize()
             && |h[s].slots| > 0
    requires lost.stale == h[x].slots[0].key && lost.right == h[s].slots[|h[s].slots| - 1].key
    ensures StalePair(h, g, x, lost)
  {
  }

  /** The page is `x` or one on a higher level. */
  ghost predicate StaleFrom(h: Heap, g: Shape, x: PageId, lost: Lost) {
    lost == Nothing() || exists y :: x in g && StalePair(h, g, y, lost) && (y == x || g[y].level > g[x].level)
  }

  /** The tree as rebalancing from `x` upwards has left it. */
  ghost predicate Wrecked(h0: Heap, g0: Shape, x: PageId, h: Heap, g: Shape, root: PageId, m: map<int, RID>) {
    exists lost :: Readable(h, g, root, m, lost) && StaleFrom(h0, g0, x, lost)
  }

  /** The tree as a removal has left it: what is lost, if anything, comes from one internal page. */
  ghost predicate Spoilt(h0: Heap, g0: Shape, h: Heap, g: Shape, root: PageId, m: map<int, RID>) {
    exists lost :: Readable(h, g, root, m, lost) && (lost == Nothing() || exists y :: StalePair(h0, g0, y, lost))
  }

  /** A step below `q` took a child from `q` that is not its first, and left all else on its level and
      above alone. */
  ghost predicate KeptAbove(h: Heap, g: Shape, h': Heap, g': Shape, q: PageId) {
    && q in g' && (forall p :: p in g' ==> p in g && g'[p].level == g[p].level)
    && (forall p :: p in g' && p in h' && p != q && g[p].level >= g[q].level ==> p in h && h'[p] == h[p])
    && q in h && q in h' && h[q].Inner? && h'[q].Inner? && h'[q].parent == h[q].parent
    && |h[q].slots| > 0 && |h'[q].slots| > 0 && h'[q].slots[0].key == h[q].slots[0].key
  }

  /** A merge is such a step. */
  lemma MergeKeptAbove(h: Heap, g: Shape, h': Heap, q: PageId, i: nat, a: PageId, b: PageId)
    requires a in g && b in g && q in g && g[a].level < g[q].level && g[b].level < g[q].level && a != q && b != q
    requires q in h && h[q].Inner? && i + 1 < |h[q].slots|
    requires q in h' && h'[q] == WithSlots(h[q], RemoveAt(h[q].slots, i + 1))
    requires forall p :: p in h' && p != a && p != b && p != q ==> p in h && h'[p] == h[p]
    ensures KeptAbove(h, g, h', MergeShape(g, a, b), q)
  {
  }

  lemma StaleBelow(h: Heap, g: Shape, x: PageId, h': Heap, g': Shape, q: PageId, lost: Lost)
    requires KeptAbove(h, g, h', g', q) && x in g && g[x].level < g[q].level && StaleFrom(h', g', q, lost)
    ensures StaleFrom(h, g, x, lost)
  {
    if lost != Nothing() {
      var y :| StalePair(h', g', y, lost) && (y == q || g'[y].level > g'[q].level);
      assert StalePair(h, g, y, lost);
    }
  }

  lemma WreckedBelow(h: Heap, g: Shape, x: PageId, h1: Heap, g1: Shape, q: PageId, h': Heap, g': Shape, root: PageId,
      m: map<int, RID>)
    requires KeptAbove(h, g, h1, g1, q) && x in g && g[x].level < g[q].level && Wrecked(h1, g1, q, h', g', root, m)
    ensures Wrecked(h, g, x, h', g', root, m)
  {
    hide KeptAbove, StaleFrom, Readable;
    var lost :| Readable(h', g', root, m, lost) && StaleFrom(h1, g1, q, lost);
    StaleBelow(h, g, x, h1, g1, q, lost);
  }

  /** The leaf that lost the entry plays no part. */
  lemma WreckedLeaf(h: Heap, g: Shape, x: PageId, h1: Heap, h': Heap, g': Shape, root: PageId, m: map<int, RID>)
    requires x in h && h[x].Leaf? && h1.Keys == h.Keys && h1[x].Leaf? && forall p :: p in h && p != x ==> h1[p] == h[p]
    requires Wrecked(h1, g, x, h', g', root, m)
    ensures Spoilt(h, g, h', g', root, m)
  {
    hide Readable;
    var lost :| Readable(h', g', root, m, lost) && StaleFrom(h1, g, x, lost);
    if lost != Nothing() {
      var y :| StalePair(h1, g, y, lost);
      assert StalePair(h, g, y, lost);
    }
  }

  lemma WreckedOnlyParents(h0: Heap, g0: Shape, x: PageId, h: Heap, g: Shape, root: PageId, m: map<int, RID>)
    requires Readable(h, g, root, m, Nothing())
    ensures Wrecked(h0, g0, x, h, g, root, m)
  {
    assert StaleFrom(h0, g0, x, Nothing());
  }
}
