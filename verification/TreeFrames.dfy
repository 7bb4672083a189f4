/** What the operations of the tree leave alone: the pins of all pages and the pages of others. */
module TreeFrames {
  import opened Common
  import opened TreePages
  import opened TreeShape
  import opened TreeSteps
  import opened TreeInsertion

  /** Every page is pinned as often as before; pages that came or went are not pinned at all. */
  ghost predicate Restored(before: map<PageId, nat>, after: map<PageId, nat>) {
    && (forall p :: p in after ==> after[p] == if p in before then before[p] else 0)
    && (forall p :: p in before && p !in after ==> before[p] == 0)
  }

  ghost function Dropped(pins: map<PageId, nat>, id: PageId): map<PageId, nat>
    requires id in pins && pins[id] > 0
  {
    pins[id := pins[id] - 1]
  }

  /** Pages that are not part of the tree. */
  ghost predicate Others(h: Heap, g: Shape, h': Heap) {
    forall p :: p in h && p !in g ==> p in h' && h'[p] == h[p]
  }

  lemma ReleasedRoot(pins: map<PageId, nat>, left: PageId, right: PageId, r: PageId, after: map<PageId, nat>)
    requires left in pins && pins[left] > 0 && right !in pins && r !in pins && r != right
    requires after == pins[right := 1][left := pins[left] - 1][right := 0][r := 0]
    ensures Restored(Dropped(pins, left), after)
  {
  }

  lemma ReleasedBelow(pins: map<PageId, nat>, left: PageId, right: PageId, mid: map<PageId, nat>,
      after: map<PageId, nat>)
    requires left in pins && pins[left] > 0 && right !in pins
    requires mid == pins[right := 1] && Restored(mid[left := mid[left] - 1][right := 0], after)
    ensures Restored(Dropped(pins, left), after)
  {
    var p1 := mid[left := mid[left] - 1][right := 0];
    assert p1.Keys == pins.Keys + {right};
    assert forall p :: p in pins ==> p1[p] == Dropped(pins, left)[p];
  }

  lemma ReleasedFetch(pins: map<PageId, nat>, id: PageId, after: map<PageId, nat>)
    requires id in pins && Restored(Dropped(pins[id := pins[id] + 1], id), after)
    ensures Restored(pins, after)
  {
    assert Dropped(pins[id := pins[id] + 1], id) == pins;
  }

  /** The last pin of the page may be followed by its deletion. */
  lemma ReleasedLast(pins: map<PageId, nat>, id: PageId, after: map<PageId, nat>)
    requires id in pins && pins[id] > 0
    requires after == pins[id := pins[id] - 1] || (pins[id] == 1 && after == pins - {id})
    ensures Restored(Dropped(pins, id), after)
  {
  }

  lemma ReleasedAll(pins: map<PageId, nat>, after: map<PageId, nat>)
    requires after == pins
    ensures Restored(pins, after)
  {
  }

  lemma OthersOf(h: Heap, g: Shape, h': Heap, touched: set<PageId>)
    requires forall p :: p in h && p !in touched ==> p in h' && h'[p] == h[p]
    requires forall p :: p in touched ==> p in g || p !in h
    ensures Others(h, g, h')
  {
  }

  lemma OthersTrans(h: Heap, g: Shape, h1: Heap, g1: Shape, h2: Heap)
    requires Others(h, g, h1) && Others(h1, g1, h2)
    requires forall p :: p in g1 ==> p in g || p !in h
    ensures Others(h, g, h2)
  {
  }

  lemma OthersSplit(h: Heap, g: Shape, h1: Heap, a: PageId, b: PageId, sep: int, h2: Heap)
    requires a in g && b !in h && Others(h, g, h1) && Others(h1, SplitShape(g, a, b, sep), h2)
    ensures Others(h, g, h2)
  {
    OthersTrans(h, g, h1, SplitShape(g, a, b, sep), h2);
  }

  lemma OthersUnder(h: Heap, g: Shape, h1: Heap, innerMax: nat, a: PageId, key: int, b: PageId, r: PageId, k0: int)
    requires a in g && a in h1 && b !in h && b in h1 && r !in h1 && Others(h, g, h1)
    ensures Others(h, g, UnderNewRoot(h1, innerMax, a, key, b, r, k0))
  {
  }

  /** Pinning the parent and the sibling of `x`, then releasing all three. */
  lemma ReleasedThree(pins: map<PageId, nat>, x: PageId, q: PageId, s: PageId, after: map<PageId, nat>)
    requires x in pins && q in pins && s in pins && x != q && x != s && q != s && pins[x] > 0
    requires after == pins[q := pins[q] + 1][s := pins[s] + 1][x := pins[x] - 1][s := pins[s]][q := pins[q]]
    ensures Restored(Dropped(pins, x), after)
  {
    assert after == Dropped(pins, x);
  }

  /** Pinning the parent and the sibling of `x`, then releasing `x` and the sibling. */
  ghost predicate ParentHeld(pins: map<PageId, nat>, x: PageId, q: PageId, s: PageId, mid: map<PageId, nat>) {
    && x in pins && q in pins && s in pins && x != q && x != s && q != s && pins[x] > 0 && q in mid
    && Restored(pins[q := pins[q] + 1][s := pins[s] + 1][x := pins[x] - 1][s := pins[s]], mid)
  }

  lemma ReleasedTwo(pins: map<PageId, nat>, x: PageId, q: PageId, s: PageId, mid: map<PageId, nat>)
    requires ParentHeld(pins, x, q, s, mid)
    ensures mid[q] == pins[q] + 1
  {
  }

  lemma ReleasedUp(pins: map<PageId, nat>, x: PageId, q: PageId, s: PageId, mid: map<PageId, nat>,
      after: map<PageId, nat>)
    requires ParentHeld(pins, x, q, s, mid) && mid[q] > 0 && Restored(Dropped(mid, q), after)
    ensures Restored(Dropped(pins, x), after)
  {
    var p1 := pins[q := pins[q] + 1][s := pins[s] + 1][x := pins[x] - 1][s := pins[s]];
    assert forall p :: p in pins && p != q ==> p1[p] == Dropped(pins, x)[p];
  }
}
