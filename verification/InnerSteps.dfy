/** Steps that rewrite internal pages: a split, a borrow and a merge, with the moved
    children adopted by their new parent. */
module InnerSteps {
  import opened Common
  import opened TreePages
  import opened TreeShape
  import opened TreeSteps

  /** Every child listed in `ss` gets the parent pointer `id`. */
  ghost function Adopt(h: Heap, ss: seq<Slot>, id: PageId): (r: Heap)
    ensures r.Keys == h.Keys
  {
    map p | p in h :: if HasChild(ss, p) then WithParent(h[p], id) else h[p]
  }

  /** The slots of two neighbours in one row, with the separator between them in its place. */
  function Joined(sa: seq<Slot>, m: int, sb: seq<Slot>): (r: seq<Slot>)
    requires |sb| >= 1
    ensures |r| == |sa| + |sb|
    ensures forall j :: 0 <= j < |sa| ==> r[j] == sa[j]
    ensures r[|sa|] == Slot(m, sb[0].child)
    ensures forall j :: |sa| < j < |r| ==> r[j] == sb[j - |sa|]
  {
    sa + WithKey(sb, 0, m)
  }

  // ---------- slot arrays ----------

  lemma JoinSlots(sa: seq<Slot>, ia: Info, sb: seq<Slot>, ib: Info, m: int)
    requires SlotsOk(sa, ia) && SlotsOk(sb, ib)
    requires ia.hi == At(m) && ib.lo == At(m) && Below(ia.lo, m) && Above(ib.hi, m)
    ensures SlotsOk(Joined(sa, m, sb), Info(ia.level, ia.lo, ib.hi))
  {
    assert forall j :: 1 <= j < |sa| ==> sa[j].key < m;
    assert forall j :: 1 <= j < |sb| ==> m < sb[j].key;
  }

  lemma JoinRanges(g: Shape, sa: seq<Slot>, ia: Info, sb: seq<Slot>, ib: Info, m: int)
    requires |sa| >= 1 && RangesOk(g, sa, ia) && |sb| >= 1 && RangesOk(g, sb, ib)
    requires ia.level == ib.level && ia.hi == At(m) && ib.lo == At(m)
    ensures RangesOk(g, Joined(sa, m, sb), Info(ia.level, ia.lo, ib.hi))
  {
    var r, info := Joined(sa, m, sb), Info(ia.level, ia.lo, ib.hi);
    var n := |sa|;
    forall j | 0 <= j < |r| ensures KidRange(g, r[j].child, info.level, LoAt(r, info, j), HiAt(r, info, j)) {
      if j < n {
        assert KidRange(g, sa[j].child, ia.level, LoAt(sa, ia, j), HiAt(sa, ia, j));
      } else {
        assert KidRange(g, sb[j - n].child, ib.level, LoAt(sb, ib, j - n), HiAt(sb, ib, j - n));
      }
    }
  }

  lemma JoinChildren(sa: seq<Slot>, m: int, sb: seq<Slot>)
    requires |sb| >= 1
    ensures forall c :: HasChild(Joined(sa, m, sb), c) <==> HasChild(sa, c) || HasChild(sb, c)
  {
    hide HasChild;
    var r := Joined(sa, m, sb);
    forall c | HasChild(sa, c) ensures HasChild(r, c) {
      var j := ChildAt(sa, c);
      AtChild(r, j, c);
    }
    forall c | HasChild(sb, c) ensures HasChild(r, c) {
      var j := ChildAt(sb, c);
      AtChild(r, |sa| + j, c);
    }
    forall c | HasChild(r, c) ensures HasChild(sa, c) || HasChild(sb, c) {
      var j := ChildAt(r, c);
      if j < |sa| { AtChild(sa, j, c); } else { AtChild(sb, j - |sa|, c); }
    }
  }

  lemma CutSlots(ss: seq<Slot>, info: Info, n: nat, k0: int)
    requires SlotsOk(ss, info) && 0 < n < |ss|
    ensures Below(info.lo, ss[n].key) && Above(info.hi, ss[n].key)
    ensures SlotsOk(ss[..n], info.(hi := At(ss[n].key)))
    ensures SlotsOk(WithKey(ss[n..], 0, k0), info.(lo := At(ss[n].key)))
  {
    assert forall j :: 0 < j < |ss| - n ==> WithKey(ss[n..], 0, k0)[j] == ss[n + j];
  }

  lemma CutRanges(g: Shape, ss: seq<Slot>, info: Info, n: nat, k0: int)
    requires RangesOk(g, ss, info) && 0 < n < |ss|
    ensures RangesOk(g, ss[..n], info.(hi := At(ss[n].key)))
    ensures RangesOk(g, WithKey(ss[n..], 0, k0), info.(lo := At(ss[n].key)))
  {
    var sa, ia := ss[..n], info.(hi := At(ss[n].key));
    forall j | 0 <= j < |sa| ensures KidRange(g, sa[j].child, ia.level, LoAt(sa, ia, j), HiAt(sa, ia, j)) {
      assert KidRange(g, ss[j].child, info.level, LoAt(ss, info, j), HiAt(ss, info, j));
    }
    UpperRanges(g, ss, info, n, k0);
  }

  lemma UpperRanges(g: Shape, ss: seq<Slot>, info: Info, n: nat, k0: int)
    requires RangesOk(g, ss, info) && 0 < n < |ss|
    ensures RangesOk(g, WithKey(ss[n..], 0, k0), info.(lo := At(ss[n].key)))
  {
    var sb, ib := WithKey(ss[n..], 0, k0), info.(lo := At(ss[n].key));
    assert sb[0].child == ss[n].child;
    assert forall j :: 0 < j < |sb| ==> sb[j] == ss[n + j];
    forall j | 0 <= j < |sb| ensures KidRange(g, sb[j].child, ib.level, LoAt(sb, ib, j), HiAt(sb, ib, j)) {
      assert KidRange(g, ss[n + j].child, info.level, LoAt(ss, info, n + j), HiAt(ss, info, n + j));
    }
  }

  lemma CutChildren(g: Shape, ss: seq<Slot>, info: Info, n: nat)
    requires SlotsOk(ss, info) && RangesOk(g, ss, info) && n <= |ss|
    ensures forall c :: HasChild(ss, c) <==> HasChild(ss[..n], c) || HasChild(ss[n..], c)
    ensures forall c :: !(HasChild(ss[..n], c) && HasChild(ss[n..], c))
  {
    hide HasChild, SlotsOk, RangesOk;
    forall c | HasChild(ss, c) ensures HasChild(ss[..n], c) || HasChild(ss[n..], c) {
      var j := ChildAt(ss, c);
      if j < n { AtChild(ss[..n], j, c); } else { AtChild(ss[n..], j - n, c); }
    }
    forall c | HasChild(ss[..n], c) ensures HasChild(ss, c) {
      var j := ChildAt(ss[..n], c);
      AtChild(ss, j, c);
    }
    forall c | HasChild(ss[n..], c) ensures HasChild(ss, c) && !HasChild(ss[..n], c) {
      var k := ChildAt(ss[n..], c);
      AtChild(ss, n + k, c);
      NotInPrefix(g, ss, info, n, n + k);
    }
  }

  lemma NotInPrefix(g: Shape, ss: seq<Slot>, info: Info, n: nat, k: nat)
    requires SlotsOk(ss, info) && RangesOk(g, ss, info) && n <= k < |ss|
    ensures !HasChild(ss[..n], ss[k].child)
  {
    forall j | 0 <= j < n ensures ss[..n][j].child != ss[k].child {
      RangesDistinct(g, ss, info, j, k);
    }
  }

  // ---------- the frame of an inner step ----------

  lemma InnersLocal(h: Heap, g: Shape, h': Heap, g': Shape, q: PageId, a: PageId, b: PageId)
    requires g.Keys <= h.Keys && q in h && q in h' && h'[q].Inner? && h'[q].parent == h[q].parent && q in g'
    requires a in g && h[a].parent == q && (b in g ==> h[b].parent == q) && a != q && b != q
    requires h[q].parent != q && h[q].parent != a && h[q].parent != b
    requires forall p :: p in h && p != a && p != b && p != q ==> p in h' && h'[p] == WithParent(h[p], h'[p].parent)
    requires forall p :: p in h && p != a && p != b && p != q && h[p].parent != a && h[p].parent != b ==>
               h'[p].parent == h[p].parent
    requires forall p :: p in g && p != a && p != b && p != q && (h[p].parent == a || h[p].parent == b) ==>
               var x := h'[p].parent; x in g' && x in h' && h'[x].Inner? && HasChild(h'[x].slots, p)
    requires forall p :: p in g && p != a && p != b && h[p].parent == q ==> HasChild(h'[q].slots, p)
    requires forall p :: p in g && p != a && p != b ==> p in g' && g'[p] == g[p]
    requires forall p :: p in g && h[p].Leaf? ==> h[p].next != a && h[p].next != b
    ensures Local(h, g, h', g', {a, b, q})
  {
  }

  lemma NextIsLeaf(h: Heap, g: Shape, root: PageId, a: PageId)
    requires Core(h, g, root) && a >= 0 && (a in g ==> g[a].level > 0)
    ensures forall p :: p in g && h[p].Leaf? ==> h[p].next != a
  {
    forall p | p in g && h[p].Leaf? ensures h[p].next != a {
      assert PageOk(h, g, root, p);
    }
  }

  lemma InnerPage(h: Heap, g: Shape, root: PageId, p: PageId)
    requires p in h && p in g && p >= 0 && h[p].Inner? && g[p].level > 0
    requires SlotsOk(h[p].slots, g[p]) && RangesOk(g, h[p].slots, g[p]) && ParentsOk(h, h[p].slots, p)
    requires UpOk(h, g, root, p)
    ensures PageOk(h, g, root, p)
  {
    InnerFromParts(h, g, p);
  }

  lemma RangesFrame(g: Shape, g': Shape, ss: seq<Slot>, info: Info)
    requires RangesOk(g, ss, info) && forall c :: HasChild(ss, c) && c in g ==> c in g' && g'[c] == g[c]
    ensures RangesOk(g', ss, info)
  {
    forall j | 0 <= j < |ss| ensures KidRange(g', ss[j].child, info.level, LoAt(ss, info, j), HiAt(ss, info, j)) {
      assert HasChild(ss, ss[j].child);
      assert KidRange(g, ss[j].child, info.level, LoAt(ss, info, j), HiAt(ss, info, j));
    }
  }

  // ---------- split ----------

  ghost predicate SplitInnerPre(h: Heap, g: Shape, root: PageId, a: PageId, b: PageId, n: nat) {
    && Core(h, g, root) && a in g && a != root && a in h && h[a].Inner?
    && b >= 0 && b !in h && 0 < n < |h[a].slots|
    && h[a].parent in h && h[h[a].parent].Inner?
  }

  ghost function SplitInnerBase(h: Heap, a: PageId, b: PageId, n: nat, k0: int): Heap
    requires a in h && h[a].Inner? && 0 < n < |h[a].slots| && h[a].parent in h && h[h[a].parent].Inner?
  {
    var q, ss := h[a].parent, h[a].slots;
    h[a := WithSlots(h[a], ss[..n])]
     [b := Inner(h[a].max, q, WithKey(ss[n..], 0, k0))]
     [q := WithSlots(h[q], InsertAfter(h[q].slots, a, ss[n].key, b))]
  }

  ghost function SplitInnerHeap(h: Heap, a: PageId, b: PageId, n: nat, k0: int): Heap
    requires a in h && h[a].Inner? && 0 < n < |h[a].slots| && h[a].parent in h && h[h[a].parent].Inner?
  {
    Adopt(SplitInnerBase(h, a, b, n, k0), h[a].slots[n..], b)
  }

  /** An internal page, its parent, its grandparent and its kids are all different pages. */
  lemma Family(h: Heap, g: Shape, root: PageId, a: PageId)
    requires Core(h, g, root) && a in g && a != root && h[a].Inner?
    ensures a >= 0 && h[a].parent >= 0 && h[a].parent in g && h[h[a].parent].Inner? && HasChild(h[h[a].parent].slots, a)
    ensures h[a].parent != a && h[h[a].parent].parent != a && h[h[a].parent].parent != h[a].parent
    ensures forall c :: HasChild(h[a].slots, c) ==>
              c in g && c in h && h[c].parent == a && c != a && c != h[a].parent && c != h[h[a].parent].parent
  {
    var q := h[a].parent;
    UpFacts(h, g, root, a);
    UpFacts(h, g, root, q);
    assert PageOk(h, g, root, a);
    forall c | HasChild(h[a].slots, c)
      ensures c in g && c in h && h[c].parent == a && c != a && c != q && c != h[q].parent
    {
      KidOf(h, g, root, a, c);
      UpFacts(h, g, root, c);
    }
  }

  ghost predicate SplitInnerResult(h: Heap, h': Heap, a: PageId, b: PageId, n: nat, k0: int)
    requires a in h && h[a].Inner? && 0 < n < |h[a].slots| && h[a].parent in h && h[h[a].parent].Inner?
  {
    var q := h[a].parent;
    && a in h' && h'[a] == WithSlots(h[a], h[a].slots[..n])
    && b in h' && h'[b] == Inner(h[a].max, q, WithKey(h[a].slots[n..], 0, k0))
    && q in h' && h'[q] == WithSlots(h[q], InsertAfter(h[q].slots, a, h[a].slots[n].key, b))
    && (forall p :: p in h && p != a && p != b && p != q ==>
          p in h' && h'[p] == if HasChild(h[a].slots[n..], p) then WithParent(h[p], b) else h[p])
  }

  lemma SplitInnerPages(h: Heap, a: PageId, b: PageId, n: nat, k0: int)
    requires a in h && h[a].Inner? && 0 < n < |h[a].slots| && h[a].parent in h && h[h[a].parent].Inner?
    requires !HasChild(h[a].slots[n..], a) && !HasChild(h[a].slots[n..], b) && !HasChild(h[a].slots[n..], h[a].parent)
    requires a != b && a != h[a].parent && b != h[a].parent
    ensures SplitInnerResult(h, SplitInnerHeap(h, a, b, n, k0), a, b, n, k0)
  {
  }

  lemma SplitInnerFacts(h: Heap, g: Shape, root: PageId, a: PageId, b: PageId, n: nat, k0: int)
    requires SplitInnerPre(h, g, root, a, b, n)
    ensures a >= 0 && h[a].parent >= 0 && h[a].parent in g && a != h[a].parent && b != h[a].parent && a != b && b !in g
    ensures SplitInnerResult(h, SplitInnerHeap(h, a, b, n, k0), a, b, n, k0)
    ensures forall c :: HasChild(h[a].slots, c) <==> HasChild(h[a].slots[..n], c) || HasChild(h[a].slots[n..], c)
    ensures forall c :: !(HasChild(h[a].slots[..n], c) && HasChild(h[a].slots[n..], c))
  {
    Family(h, g, root, a);
    InnerFacts(h, g, root, a);
    CutChildren(g, h[a].slots, g[a], n);
    SplitInnerPages(h, a, b, n, k0);
  }

  lemma SplitInnerLeft(h: Heap, g: Shape, root: PageId, a: PageId, b: PageId, n: nat, k0: int)
    requires SplitInnerPre(h, g, root, a, b, n)
    ensures InnerPartsOk(SplitInnerHeap(h, a, b, n, k0), SplitShape(g, a, b, h[a].slots[n].key), a)
  {
    hide HasChild, SlotsOk, RangesOk;
    var g' := SplitShape(g, a, b, h[a].slots[n].key);
    SplitInnerFacts(h, g, root, a, b, n, k0);
    Family(h, g, root, a);
    InnerFacts(h, g, root, a);
    CutSlots(h[a].slots, g[a], n, k0);
    CutRanges(g, h[a].slots, g[a], n, k0);
    RangesFrame(g, g', h[a].slots[..n], g'[a]);
  }

  lemma SplitInnerRight(h: Heap, g: Shape, root: PageId, a: PageId, b: PageId, n: nat, k0: int)
    requires SplitInnerPre(h, g, root, a, b, n)
    ensures InnerPartsOk(SplitInnerHeap(h, a, b, n, k0), SplitShape(g, a, b, h[a].slots[n].key), b)
  {
    hide HasChild, SlotsOk, RangesOk;
    var g' := SplitShape(g, a, b, h[a].slots[n].key);
    var sb := h[a].slots[n..];
    SplitInnerFacts(h, g, root, a, b, n, k0);
    Family(h, g, root, a);
    InnerFacts(h, g, root, a);
    CutSlots(h[a].slots, g[a], n, k0);
    CutRanges(g, h[a].slots, g[a], n, k0);
    WithKeyChildren(sb, 0, k0);
    RangesFrame(g, g', WithKey(sb, 0, k0), g'[b]);
  }

  lemma SplitInnerParent(h: Heap, g: Shape, root: PageId, a: PageId, b: PageId, n: nat, k0: int)
    requires SplitInnerPre(h, g, root, a, b, n)
    ensures var h', g', q := SplitInnerHeap(h, a, b, n, k0), SplitShape(g, a, b, h[a].slots[n].key), h[a].parent;
            && q in g && q in h' && h'[q].Inner? && PageOk(h', g', root, q)
            && forall c :: HasChild(h'[q].slots, c) <==> c == b || HasChild(h[q].slots, c)
  {
    hide HasChild, SlotsOk, RangesOk, ParentsOk;
    var q, sep := h[a].parent, h[a].slots[n].key;
    var h', g' := SplitInnerHeap(h, a, b, n, k0), SplitShape(g, a, b, sep);
    SplitInnerFacts(h, g, root, a, b, n, k0);
    var i := PlaceInParent(h, g, root, a);
    Family(h, g, root, a);
    InnerFacts(h, g, root, a);
    InnerFacts(h, g, root, q);
    CutSlots(h[a].slots, g[a], n, k0);
    KidsKeptFrame(h, g, h', g', q, a, b);
    ParentInsert(h, g, h', g', q, i, sep, a, b);
    UpFrame(h, g, h', g', root, q);
  }

  lemma SplitInnerLocal(h: Heap, g: Shape, root: PageId, a: PageId, b: PageId, n: nat, k0: int)
    requires SplitInnerPre(h, g, root, a, b, n)
    ensures var g' := SplitShape(g, a, b, h[a].slots[n].key);
            root in g' && g'.Keys <= SplitInnerHeap(h, a, b, n, k0).Keys && g'.Keys <= g.Keys + {a, b, h[a].parent}
    ensures a >= 0 && h[a].parent >= 0
    ensures Local(h, g, SplitInnerHeap(h, a, b, n, k0), SplitShape(g, a, b, h[a].slots[n].key), {a, b, h[a].parent})
  {
    hide HasChild, SlotsOk, RangesOk;
    var q := h[a].parent;
    var h', g' := SplitInnerHeap(h, a, b, n, k0), SplitShape(g, a, b, h[a].slots[n].key);
    SplitInnerFacts(h, g, root, a, b, n, k0);
    SplitInnerParent(h, g, root, a, b, n, k0);
    WithKeyChildren(h[a].slots[n..], 0, k0);
    Family(h, g, root, a);
    InnerFacts(h, g, root, a);
    InnerFacts(h, g, root, q);
    FreshIsNoParent(h, g, root, b);
    NextIsLeaf(h, g, root, a);
    NextIsLeaf(h, g, root, b);
    InnersLocal(h, g, h', g', q, a, b);
  }

  /** An internal page hands its upper slots, and the children in them, to a new right neighbour. */
  lemma SplitInner(h: Heap, g: Shape, root: PageId, a: PageId, b: PageId, n: nat, k0: int)
    requires SplitInnerPre(h, g, root, a, b, n)
    ensures Core(SplitInnerHeap(h, a, b, n, k0), SplitShape(g, a, b, h[a].slots[n].key), root)
  {
    var q := h[a].parent;
    var h', g' := SplitInnerHeap(h, a, b, n, k0), SplitShape(g, a, b, h[a].slots[n].key);
    SplitInnerFacts(h, g, root, a, b, n, k0);
    SplitInnerLeft(h, g, root, a, b, n, k0);
    SplitInnerRight(h, g, root, a, b, n, k0);
    SplitInnerParent(h, g, root, a, b, n, k0);
    Family(h, g, root, a);
    InnerPage(h', g', root, a);
    InnerPage(h', g', root, b);
    SplitInnerLocal(h, g, root, a, b, n, k0);
    LocalStep3(h, g, root, h', g', a, b, q);
  }

  // ---------- borrow ----------

  ghost predicate InnerSiblings(h: Heap, g: Shape, root: PageId, q: PageId, i: nat, a: PageId, b: PageId) {
    Siblings(h, g, root, q, i, a, b) && a in h && b in h && h[a].Inner? && h[b].Inner? && |h[b].slots| >= 1
  }

  /** The slots of the two neighbours `a` and `b` in one row. */
  function Row(h: Heap, q: PageId, i: nat, a: PageId, b: PageId): seq<Slot>
    requires q in h && h[q].Inner? && i + 1 < |h[q].slots|
    requires a in h && b in h && h[a].Inner? && h[b].Inner? && |h[b].slots| >= 1
  {
    Joined(h[a].slots, h[q].slots[i + 1].key, h[b].slots)
  }

  /** What the row knows: its kids, its range and who owns which kid. */
  lemma RowFacts(h: Heap, g: Shape, root: PageId, q: PageId, i: nat, a: PageId, b: PageId)
    requires InnerSiblings(h, g, root, q, i, a, b)
    ensures var ss := Row(h, q, i, a, b);
            && a in g && b in g && g[a].level == g[b].level && g[a].level > 0
            && SlotsOk(ss, Info(g[a].level, g[a].lo, g[b].hi)) && RangesOk(g, ss, Info(g[a].level, g[a].lo, g[b].hi))
            && (forall c :: HasChild(ss, c) <==> HasChild(h[a].slots, c) || HasChild(h[b].slots, c))
            && (forall c :: HasChild(ss, c) ==>
                  c in g && c in h && (h[c].parent == a || h[c].parent == b) && c != a && c != b && c != q
                    && c != h[q].parent)
  {
    hide HasChild, RangesOk, ParentsOk;
    var m := h[q].slots[i + 1].key;
    SiblingFacts(h, g, root, q, i, a, b);
    Family(h, g, root, a);
    Family(h, g, root, b);
    InnerFacts(h, g, root, a);
    InnerFacts(h, g, root, b);
    JoinSlots(h[a].slots, g[a], h[b].slots, g[b], m);
    JoinRanges(g, h[a].slots, g[a], h[b].slots, g[b], m);
    JoinChildren(h[a].slots, m, h[b].slots);
    forall c | HasChild(Row(h, q, i, a, b), c) ensures c != a && c != b {
      UpFacts(h, g, root, c);
    }
  }

  ghost function ShiftInnersBase(h: Heap, q: PageId, i: nat, a: PageId, b: PageId, n: nat, k0: int): Heap
    requires q in h && h[q].Inner? && i + 1 < |h[q].slots|
    requires a in h && b in h && h[a].Inner? && h[b].Inner? && |h[b].slots| >= 1
    requires 0 < n < |h[a].slots| + |h[b].slots|
  {
    var ss := Row(h, q, i, a, b);
    h[a := WithSlots(h[a], ss[..n])]
     [b := WithSlots(h[b], WithKey(ss[n..], 0, k0))]
     [q := WithSlots(h[q], WithKey(h[q].slots, i + 1, ss[n].key))]
  }

  /** The row is cut at `n`; kids that change sides are adopted. */
  ghost function ShiftInnersHeap(h: Heap, q: PageId, i: nat, a: PageId, b: PageId, n: nat, k0: int): Heap
    requires q in h && h[q].Inner? && i + 1 < |h[q].slots|
    requires a in h && b in h && h[a].Inner? && h[b].Inner? && |h[b].slots| >= 1
    requires 0 < n < |h[a].slots| + |h[b].slots|
  {
    var ss := Row(h, q, i, a, b);
    Adopt(Adopt(ShiftInnersBase(h, q, i, a, b, n, k0), ss[..n], a), ss[n..], b)
  }

  ghost predicate ShiftInnersResult(h: Heap, h': Heap, q: PageId, i: nat, a: PageId, b: PageId, n: nat, k0: int)
    requires q in h && h[q].Inner? && i + 1 < |h[q].slots|
    requires a in h && b in h && h[a].Inner? && h[b].Inner? && |h[b].slots| >= 1
    requires 0 < n < |h[a].slots| + |h[b].slots|
  {
    var ss := Row(h, q, i, a, b);
    && h'.Keys == h.Keys
    && h'[a] == WithSlots(h[a], ss[..n])
    && h'[b] == WithSlots(h[b], WithKey(ss[n..], 0, k0))
    && h'[q] == WithSlots(h[q], WithKey(h[q].slots, i + 1, ss[n].key))
    && (forall p :: p in h && p != a && p != b && p != q ==>
          h'[p] == if HasChild(ss[n..], p) then WithParent(h[p], b)
                   else if HasChild(ss[..n], p) then WithParent(h[p], a) else h[p])
  }

  lemma ShiftInnersPages(h: Heap, q: PageId, i: nat, a: PageId, b: PageId, n: nat, k0: int)
    requires q in h && h[q].Inner? && i + 1 < |h[q].slots|
    requires a in h && b in h && h[a].Inner? && h[b].Inner? && |h[b].slots| >= 1
    requires 0 < n < |h[a].slots| + |h[b].slots|
    requires a != b && a != q && b != q
    requires var ss := Row(h, q, i, a, b);
             forall c :: HasChild(ss[..n], c) || HasChild(ss[n..], c) ==> c != a && c != b && c != q
    ensures ShiftInnersResult(h, ShiftInnersHeap(h, q, i, a, b, n, k0), q, i, a, b, n, k0)
  {
    hide HasChild;
  }

  lemma ShiftInnersFacts(h: Heap, g: Shape, root: PageId, q: PageId, i: nat, a: PageId, b: PageId, n: nat, k0: int)
    requires InnerSiblings(h, g, root, q, i, a, b) && 0 < n < |h[a].slots| + |h[b].slots|
    ensures ShiftInnersResult(h, ShiftInnersHeap(h, q, i, a, b, n, k0), q, i, a, b, n, k0)
    ensures var ss := Row(h, q, i, a, b);
            && (forall c :: HasChild(ss, c) <==> HasChild(ss[..n], c) || HasChild(ss[n..], c))
            && (forall c :: !(HasChild(ss[..n], c) && HasChild(ss[n..], c)))
  {
    hide HasChild, SlotsOk, RangesOk, ParentsOk;
    SiblingFacts(h, g, root, q, i, a, b);
    RowFacts(h, g, root, q, i, a, b);
    CutChildren(g, Row(h, q, i, a, b), Info(g[a].level, g[a].lo, g[b].hi), n);
    ShiftInnersPages(h, q, i, a, b, n, k0);
  }

  lemma ShiftInnersParent(h: Heap, g: Shape, root: PageId, q: PageId, i: nat, a: PageId, b: PageId, n: nat, k0: int)
    requires InnerSiblings(h, g, root, q, i, a, b) && 0 < n < |h[a].slots| + |h[b].slots|
    ensures a in g && b in g && q in g
    ensures var h', g' := ShiftInnersHeap(h, q, i, a, b, n, k0), ShiftShape(g, a, b, Row(h, q, i, a, b)[n].key);
            && q in h' && h'[q].Inner? && PageOk(h', g', root, q)
            && forall c :: HasChild(h'[q].slots, c) <==> HasChild(h[q].slots, c)
  {
    hide HasChild, SlotsOk, RangesOk, ParentsOk;
    SiblingFacts(h, g, root, q, i, a, b);
    var ss, info := Row(h, q, i, a, b), Info(g[a].level, g[a].lo, g[b].hi);
    var h', g' := ShiftInnersHeap(h, q, i, a, b, n, k0), ShiftShape(g, a, b, ss[n].key);
    RowFacts(h, g, root, q, i, a, b);
    ShiftInnersFacts(h, g, root, q, i, a, b, n, k0);
    InnerFacts(h, g, root, q);
    CutSlots(ss, info, n, k0);
    KidsKeptFrame(h, g, h', g', q, a, b);
    ParentMoveSeparator(h, g, h', g', q, i, ss[n].key, a, b);
    UpFacts(h, g, root, q);
    UpFrame(h, g, h', g', root, q);
  }

  lemma ShiftInnersLeft(h: Heap, g: Shape, root: PageId, q: PageId, i: nat, a: PageId, b: PageId, n: nat, k0: int)
    requires InnerSiblings(h, g, root, q, i, a, b) && 0 < n < |h[a].slots| + |h[b].slots|
    ensures a in g && b in g
    ensures InnerPartsOk(ShiftInnersHeap(h, q, i, a, b, n, k0), ShiftShape(g, a, b, Row(h, q, i, a, b)[n].key), a)
  {
    hide HasChild, SlotsOk, RangesOk;
    SiblingFacts(h, g, root, q, i, a, b);
    var ss, info := Row(h, q, i, a, b), Info(g[a].level, g[a].lo, g[b].hi);
    var g' := ShiftShape(g, a, b, ss[n].key);
    RowFacts(h, g, root, q, i, a, b);
    ShiftInnersFacts(h, g, root, q, i, a, b, n, k0);
    CutSlots(ss, info, n, k0);
    CutRanges(g, ss, info, n, k0);
    RangesFrame(g, g', ss[..n], g'[a]);
  }

  lemma ShiftInnersRight(h: Heap, g: Shape, root: PageId, q: PageId, i: nat, a: PageId, b: PageId, n: nat, k0: int)
    requires InnerSiblings(h, g, root, q, i, a, b) && 0 < n < |h[a].slots| + |h[b].slots|
    ensures a in g && b in g
    ensures InnerPartsOk(ShiftInnersHeap(h, q, i, a, b, n, k0), ShiftShape(g, a, b, Row(h, q, i, a, b)[n].key), b)
  {
    hide HasChild, SlotsOk, RangesOk;
    SiblingFacts(h, g, root, q, i, a, b);
    var ss, info := Row(h, q, i, a, b), Info(g[a].level, g[a].lo, g[b].hi);
    var g' := ShiftShape(g, a, b, ss[n].key);
    RowFacts(h, g, root, q, i, a, b);
    ShiftInnersFacts(h, g, root, q, i, a, b, n, k0);
    CutSlots(ss, info, n, k0);
    CutRanges(g, ss, info, n, k0);
    WithKeyChildren(ss[n..], 0, k0);
    RangesFrame(g, g', WithKey(ss[n..], 0, k0), g'[b]);
  }

  lemma ShiftInnersLocal(h: Heap, g: Shape, root: PageId, q: PageId, i: nat, a: PageId, b: PageId, n: nat, k0: int)
    requires InnerSiblings(h, g, root, q, i, a, b) && 0 < n < |h[a].slots| + |h[b].slots|
    ensures a in g && b in g
    ensures Local(h, g, ShiftInnersHeap(h, q, i, a, b, n, k0), ShiftShape(g, a, b, Row(h, q, i, a, b)[n].key),
            {a, b, q})
  {
    hide HasChild, SlotsOk, RangesOk, ParentsOk, ShiftInnersHeap;
    SiblingFacts(h, g, root, q, i, a, b);
    var ss := Row(h, q, i, a, b);
    var h', g' := ShiftInnersHeap(h, q, i, a, b, n, k0), ShiftShape(g, a, b, ss[n].key);
    RowFacts(h, g, root, q, i, a, b);
    ShiftInnersFacts(h, g, root, q, i, a, b, n, k0);
    ShiftInnersParent(h, g, root, q, i, a, b, n, k0);
    WithKeyChildren(ss[n..], 0, k0);
    InnerFacts(h, g, root, a);
    InnerFacts(h, g, root, b);
    InnerFacts(h, g, root, q);
    Family(h, g, root, a);
    Family(h, g, root, b);
    NextIsLeaf(h, g, root, a);
    NextIsLeaf(h, g, root, b);
    InnersLocal(h, g, h', g', q, a, b);
  }

  /** Two neighbouring internal pages divide their slots anew; the separator moves with them. */
  lemma ShiftInners(h: Heap, g: Shape, root: PageId, q: PageId, i: nat, a: PageId, b: PageId, n: nat, k0: int)
    requires InnerSiblings(h, g, root, q, i, a, b) && 0 < n < |h[a].slots| + |h[b].slots|
    ensures a in g && b in g
    ensures Core(ShiftInnersHeap(h, q, i, a, b, n, k0), ShiftShape(g, a, b, Row(h, q, i, a, b)[n].key), root)
  {
    hide HasChild, SlotsOk, RangesOk, ParentsOk;
    SiblingFacts(h, g, root, q, i, a, b);
    var h', g' := ShiftInnersHeap(h, q, i, a, b, n, k0), ShiftShape(g, a, b, Row(h, q, i, a, b)[n].key);
    ShiftInnersFacts(h, g, root, q, i, a, b, n, k0);
    ShiftInnersParent(h, g, root, q, i, a, b, n, k0);
    ShiftInnersLeft(h, g, root, q, i, a, b, n, k0);
    ShiftInnersRight(h, g, root, q, i, a, b, n, k0);
    ShiftInnersLocal(h, g, root, q, i, a, b, n, k0);
    UpFacts(h, g, root, a);
    UpFacts(h, g, root, b);
    UpFacts(h, g, root, q);
    InnerPage(h', g', root, a);
    InnerPage(h', g', root, b);
    LocalStep3(h, g, root, h', g', a, b, q);
  }

  // ---------- merge ----------

  ghost function MergeInnersBase(h: Heap, q: PageId, i: nat, a: PageId, b: PageId): Heap
    requires q in h && h[q].Inner? && i + 1 < |h[q].slots|
    requires a in h && b in h && h[a].Inner? && h[b].Inner? && |h[b].slots| >= 1
  {
    h[a := WithSlots(h[a], Row(h, q, i, a, b))][q := WithSlots(h[q], RemoveAt(h[q].slots, i + 1))]
  }

  /** `a` takes the whole row and adopts the kids of `b`. */
  ghost function MergeInnersHeap(h: Heap, q: PageId, i: nat, a: PageId, b: PageId): Heap
    requires q in h && h[q].Inner? && i + 1 < |h[q].slots|
    requires a in h && b in h && h[a].Inner? && h[b].Inner? && |h[b].slots| >= 1
  {
    Adopt(MergeInnersBase(h, q, i, a, b), h[b].slots, a)
  }

  ghost predicate MergeInnersResult(h: Heap, h': Heap, q: PageId, i: nat, a: PageId, b: PageId)
    requires q in h && h[q].Inner? && i + 1 < |h[q].slots|
    requires a in h && b in h && h[a].Inner? && h[b].Inner? && |h[b].slots| >= 1
  {
    && h'.Keys == h.Keys
    && h'[a] == WithSlots(h[a], Row(h, q, i, a, b))
    && h'[q] == WithSlots(h[q], RemoveAt(h[q].slots, i + 1))
    && (forall p :: p in h && p != a && p != b && p != q ==>
          h'[p] == if HasChild(h[b].slots, p) then WithParent(h[p], a) else h[p])
  }

  lemma MergeInnersPages(h: Heap, q: PageId, i: nat, a: PageId, b: PageId)
    requires q in h && h[q].Inner? && i + 1 < |h[q].slots|
    requires a in h && b in h && h[a].Inner? && h[b].Inner? && |h[b].slots| >= 1
    requires a != b && a != q && b != q
    requires forall c :: HasChild(h[b].slots, c) ==> c != a && c != b && c != q
    ensures MergeInnersResult(h, MergeInnersHeap(h, q, i, a, b), q, i, a, b)
  {
    hide HasChild;
  }

  lemma MergeInnersFacts(h: Heap, g: Shape, root: PageId, q: PageId, i: nat, a: PageId, b: PageId)
    requires InnerSiblings(h, g, root, q, i, a, b)
    ensures MergeInnersResult(h, MergeInnersHeap(h, q, i, a, b), q, i, a, b)
  {
    hide HasChild, SlotsOk, RangesOk, ParentsOk;
    SiblingFacts(h, g, root, q, i, a, b);
    RowFacts(h, g, root, q, i, a, b);
    MergeInnersPages(h, q, i, a, b);
  }

  lemma MergeInnersParent(h: Heap, g: Shape, root: PageId, q: PageId, i: nat, a: PageId, b: PageId)
    requires InnerSiblings(h, g, root, q, i, a, b)
    ensures a in g && b in g && q in g
    ensures var h', g' := MergeInnersHeap(h, q, i, a, b), MergeShape(g, a, b);
            && q in h' && h'[q].Inner? && PageOk(h', g', root, q)
            && forall c :: HasChild(h'[q].slots, c) <==> c != b && HasChild(h[q].slots, c)
  {
    hide HasChild, SlotsOk, RangesOk, ParentsOk;
    SiblingFacts(h, g, root, q, i, a, b);
    var h', g' := MergeInnersHeap(h, q, i, a, b), MergeShape(g, a, b);
    RowFacts(h, g, root, q, i, a, b);
    MergeInnersFacts(h, g, root, q, i, a, b);
    InnerFacts(h, g, root, q);
    KidsKeptFrame(h, g, h', g', q, a, b);
    ParentRemove(h, g, h', g', q, i, a, b);
    UpFacts(h, g, root, q);
    Family(h, g, root, b);
    UpFrame(h, g, h', g', root, q);
  }

  lemma MergeInnersKid(h: Heap, g: Shape, root: PageId, q: PageId, i: nat, a: PageId, b: PageId)
    requires InnerSiblings(h, g, root, q, i, a, b)
    ensures a in g && b in g
    ensures InnerPartsOk(MergeInnersHeap(h, q, i, a, b), MergeShape(g, a, b), a)
  {
    hide HasChild, SlotsOk, RangesOk;
    SiblingFacts(h, g, root, q, i, a, b);
    var g' := MergeShape(g, a, b);
    RowFacts(h, g, root, q, i, a, b);
    MergeInnersFacts(h, g, root, q, i, a, b);
    Family(h, g, root, a);
    RangesFrame(g, g', Row(h, q, i, a, b), g'[a]);
  }

  lemma MergeInnersLocal(h: Heap, g: Shape, root: PageId, q: PageId, i: nat, a: PageId, b: PageId)
    requires InnerSiblings(h, g, root, q, i, a, b)
    ensures a in g && b in g
    ensures Local(h, g, MergeInnersHeap(h, q, i, a, b), MergeShape(g, a, b), {a, b, q})
  {
    hide HasChild, SlotsOk, RangesOk, ParentsOk;
    SiblingFacts(h, g, root, q, i, a, b);
    var h', g' := MergeInnersHeap(h, q, i, a, b), MergeShape(g, a, b);
    RowFacts(h, g, root, q, i, a, b);
    MergeInnersFacts(h, g, root, q, i, a, b);
    MergeInnersParent(h, g, root, q, i, a, b);
    InnerFacts(h, g, root, a);
    InnerFacts(h, g, root, b);
    InnerFacts(h, g, root, q);
    Family(h, g, root, a);
    Family(h, g, root, b);
    NextIsLeaf(h, g, root, a);
    NextIsLeaf(h, g, root, b);
    InnersLocal(h, g, h', g', q, a, b);
  }

  /** The left of two neighbouring internal pages takes over all slots of the right one. */
  lemma MergeInners(h: Heap, g: Shape, root: PageId, q: PageId, i: nat, a: PageId, b: PageId)
    requires InnerSiblings(h, g, root, q, i, a, b)
    ensures a in g && b in g
    ensures Core(MergeInnersHeap(h, q, i, a, b), MergeShape(g, a, b), root)
  {
    hide HasChild, SlotsOk, RangesOk, ParentsOk;
    SiblingFacts(h, g, root, q, i, a, b);
    var h', g' := MergeInnersHeap(h, q, i, a, b), MergeShape(g, a, b);
    MergeInnersFacts(h, g, root, q, i, a, b);
    MergeInnersParent(h, g, root, q, i, a, b);
    MergeInnersKid(h, g, root, q, i, a, b);
    MergeInnersLocal(h, g, root, q, i, a, b);
    UpFacts(h, g, root, a);
    UpFacts(h, g, root, b);
    UpFacts(h, g, root, q);
    InnerPage(h', g', root, a);
    LocalStep3(h, g, root, h', g', a, b, q);
  }

  // ---------- a new root, a dropped root ----------

  ghost function GrowHeap(h: Heap, root: PageId, r: PageId, max: nat, k0: int): Heap
    requires root in h
  {
    h[root := WithParent(h[root], r)][r := Inner(max, INVALID_PAGE_ID, [Slot(k0, root)])]
  }

  ghost function GrowShape(g: Shape, root: PageId, r: PageId): Shape
    requires root in g
  {
    g[r := Info(g[root].level + 1, NegInf, PosInf)]
  }

  /** A new page `r` above the root, with the old root as its only kid. */
  lemma GrowRoot(h: Heap, g: Shape, root: PageId, r: PageId, max: nat, k0: int)
    requires Core(h, g, root) && r >= 0 && r !in h
    ensures Core(GrowHeap(h, root, r, max, k0), GrowShape(g, root, r), r)
  {
    var h', g' := GrowHeap(h, root, r, max, k0), GrowShape(g, root, r);
    var ss := [Slot(k0, root)];
    AtChild(ss, 0, root);
    assert PageOk(h, g, root, root);
    FreshIsNoParent(h, g, root, r);
    NextIsLeaf(h, g, root, r);
    assert KidOk(h', g', r, g[root].level, root, NegInf, PosInf);
    assert PageOk(h', g', r, r);
    forall p | p in g ensures PageOk(h', g', r, p) {
      assert PageOk(h, g, root, p);
      if h[p].Inner? {
        forall c | HasChild(h[p].slots, c) ensures c in g' && c in h' && c in g && g'[c] == g[c] && h'[c].parent == p {
          KidOf(h, g, root, p, c);
          UpFacts(h, g, root, c);
        }
      }
      UpFacts(h, g, root, p);
      PageFrame(h, g, root, h', g', r, p);
    }
  }

  ghost function ShrinkHeap(h: Heap, root: PageId, c: PageId): Heap
    requires c in h
  {
    h[c := WithParent(h[c], INVALID_PAGE_ID)]
  }

  /** A root with a single kid is dropped; the kid becomes the root. */
  lemma ShrinkRoot(h: Heap, g: Shape, root: PageId)
    requires Core(h, g, root) && root in h && h[root].Inner? && |h[root].slots| == 1
    ensures h[root].slots[0].child in g && h[root].slots[0].child != root
    ensures var c := h[root].slots[0].child; Core(ShrinkHeap(h, root, c), g - {root}, c)
  {
    var c := h[root].slots[0].child;
    AtChild(h[root].slots, 0, c);
    assert PageOk(h, g, root, root);
    assert KidOk(h, g, root, g[root].level - 1, c, NegInf, PosInf);
    UpFacts(h, g, root, c);
    UpFacts(h, g, root, root);
    var h', g' := ShrinkHeap(h, root, c), g - {root};
    NextIsLeaf(h, g, root, root);
    InnerFacts(h, g, root, root);
    assert PageOk(h, g, root, c);
    forall p | p in g' ensures PageOk(h', g', c, p) {
      assert PageOk(h, g, root, p);
      UpFacts(h, g, root, p);
      if h[p].Inner? {
        forall d | HasChild(h[p].slots, d) ensures d in g' && d in h' && d in g && g'[d] == g[d] && h'[d].parent == p {
          KidOf(h, g, root, p, d);
          UpFacts(h, g, root, d);
        }
      }
      if p != c {
        OnlyKid(h, g, root, p);
      }
      PageFrame(h, g, root, h', g', c, p);
    }
  }

  lemma OnlyKid(h: Heap, g: Shape, root: PageId, p: PageId)
    requires Core(h, g, root) && root in h && h[root].Inner? && |h[root].slots| == 1
    requires p in g && p != root && p != h[root].slots[0].child
    ensures h[p].parent != root
  {
    UpFacts(h, g, root, p);
  }
}
