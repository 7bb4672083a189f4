/** The buffer pool manager keeps the contract that the B+ tree asks of its pool in `PagePool.Pool`:
    the same conditions for success, the same effect on pins, free frames and unsaved pages,
    and no effect on what the pages hold. */
module PoolContract {
  import opened Common
  import opened BufferPool

  /** Frames that hold no pinned page: `free` of the tree's pool. */
  ghost function FreeFrames(v: View): int {
    |v.fs| - |PinnedPages(v)|
  }

  lemma FreeMeansUnpinned(v: View)
    requires OkBut(v, {})
    ensures FreeFrames(v) >= 0 && (FreeFrames(v) > 0 <==> !AllPinned(v))
  {
    AllPinnedCount(v);
  }

  lemma PinnedByCount(v: View, p: PageId)
    ensures p in PinnedPages(v) <==> Pins(v, p) > 0
  {
  }

  /** How many frames are free after the pins of `p` have changed to `n`. */
  lemma FreeAfter(v: View, v': View, p: PageId, n: nat)
    requires |v'.fs| == |v.fs| && forall q :: Pins(v', q) == if q == p then n else Pins(v, q)
    ensures FreeFrames(v') == FreeFrames(v) + (if Pins(v, p) > 0 then 1 else 0) - (if n > 0 then 1 else 0)
  {
    hide Pins, PinnedPages;
    var rest := PinnedPages(v) - {p};
    forall q ensures (q in PinnedPages(v') <==> q in if n > 0 then rest + {p} else rest)
                  && (q in PinnedPages(v) <==> q in if Pins(v, p) > 0 then rest + {p} else rest) {
      PinnedByCount(v, q);
      PinnedByCount(v', q);
    }
    assert PinnedPages(v') == if n > 0 then rest + {p} else rest;
    assert PinnedPages(v) == if Pins(v, p) > 0 then rest + {p} else rest;
  }

  /** As `Pool.FetchPage`: it succeeds when the page is pinned already or a frame is free. */
  method FetchPage(pool: BufferPoolManager, p: PageId)
    requires pool.Valid() && 0 <= p < pool.nextId && (Pins(pool.V(), p) > 0 || FreeFrames(pool.V()) > 0)
    modifies pool, pool.frames, pool.replacer
    ensures pool.Valid() && SameContent(old(pool.V()), pool.V()) && pool.touched == old(pool.touched)
            && pool.nextId == old(pool.nextId)
    ensures forall q :: Pins(pool.V(), q) == Pins(old(pool.V()), q) + if q == p then 1 else 0
    ensures FreeFrames(pool.V()) == FreeFrames(old(pool.V())) - if Pins(old(pool.V()), p) == 0 then 1 else 0
  {
    hide OkBut, Loaded, SameContent, FreeFrames, AllPinned, Content;
    ghost var v := pool.V();
    FreeMeansUnpinned(v);
    if p !in v.table { NotResident(v, p); }
    var ok := pool.FetchPage(p);
    FreeAfter(v, pool.V(), p, Pins(v, p) + 1);
  }

  /** As `Pool.UnpinPage`: the last holder of a changed page says so. */
  method UnpinPage(pool: BufferPoolManager, p: PageId, isDirty: bool)
    requires pool.Valid() && Pins(pool.V(), p) > 0 && (isDirty || p !in pool.touched)
    modifies pool, pool.frames, pool.replacer
    ensures pool.Valid() && SameContent(old(pool.V()), pool.V()) && pool.nextId == old(pool.nextId)
    ensures pool.touched == old(pool.touched) - {p}
    ensures forall q :: Pins(pool.V(), q) == Pins(old(pool.V()), q) - if q == p then 1 else 0
    ensures FreeFrames(pool.V()) == FreeFrames(old(pool.V())) + if Pins(old(pool.V()), p) == 1 then 1 else 0
  {
    hide OkBut, SameContent, FreeFrames, Content, CleanEnough;
    ghost var v := pool.V();
    UntouchedIsClean(v, p, isDirty);
    var ok := pool.UnpinPage(p, isDirty);
    FreeAfter(v, pool.V(), p, Pins(v, p) - 1);
    OneGone(v.touched, pool.touched, p);
  }

  lemma OneGone(a: set<PageId>, b: set<PageId>, p: PageId)
    requires b <= a && p !in b && forall q :: q in a && q != p ==> q in b
    ensures b == a - {p}
  {
    var c: set<PageId> := a - {p};
    assert forall q :: q in b <==> q in c;
    assert b == c;
  }

  lemma UntouchedIsClean(v: View, p: PageId, isDirty: bool)
    requires OkBut(v, {}) && (isDirty || p !in v.touched)
    ensures CleanEnough(v, p, isDirty)
  {
    if p in v.table { TableFacts(v, p); }
  }

  /** As `Pool.NewLeaf` and `Pool.NewInternal`: a fresh id, a free frame less, and the first contents
      written while the page is pinned. */
  method NewPage(pool: BufferPoolManager, data: Data) returns (p: PageId)
    requires pool.Valid() && FreeFrames(pool.V()) > 0
    modifies pool, pool.frames, pool.replacer
    ensures pool.Valid() && p == old(pool.nextId) && pool.nextId == old(pool.nextId) + 1
    ensures forall q :: Content(pool.V(), q) == if q == p then data else Content(old(pool.V()), q)
    ensures forall q :: Pins(pool.V(), q) == if q == p then 1 else Pins(old(pool.V()), q)
    ensures Pins(old(pool.V()), p) == 0 && FreeFrames(pool.V()) == FreeFrames(old(pool.V())) - 1
    ensures pool.touched == old(pool.touched) + {p}
  {
    hide OkBut, FreeFrames, AllPinned, Loaded;
    ghost var v := pool.V();
    FreeMeansUnpinned(v);
    var r := pool.NewPage();
    p := r.value;
    NotResident(v, p);
    pool.Write(p, data);
    FreeAfter(v, pool.V(), p, 1);
  }

  /** As `Pool.DeletePage`: refused while the page is pinned. */
  method DeletePage(pool: BufferPoolManager, p: PageId) returns (ok: bool)
    requires pool.Valid()
    modifies pool, pool.frames, pool.replacer
    ensures pool.Valid() && pool.nextId == old(pool.nextId) && pool.touched == old(pool.touched)
    ensures ok <==> Pins(old(pool.V()), p) == 0
    ensures !ok ==> pool.V() == old(pool.V())
    ensures forall q :: q != p ==> Content(pool.V(), q) == Content(old(pool.V()), q)
    ensures forall q :: Pins(pool.V(), q) == Pins(old(pool.V()), q)
    ensures FreeFrames(pool.V()) == FreeFrames(old(pool.V()))
  {
    hide OkBut, FreeFrames, Content;
    ghost var v := pool.V();
    ok := pool.DeletePage(p);
    FreeAfter(v, pool.V(), p, Pins(v, p));
  }
}
