/** The structural steps of the B+ tree on page heaps: what a split, a borrow, a merge, a
    new root and a dropped root do to the pages, and that each of them keeps `Core`. */
module TreeSteps {
  import opened Common
  import opened TreePages
  import opened TreeShape

  // ---------- membership in a slot array ----------

  lemma ChildAt(ss: seq<Slot>, c: PageId) returns (j: nat)
    requires HasChild(ss, c)
    ensures j < |ss| && ss[j].child == c
  {
    j :| 0 <= j < |ss| && ss[j].child == c;
  }

  lemma AtChild(ss: seq<Slot>, j: nat, c: PageId)
    requires j < |ss| && ss[j].child == c
    ensures HasChild(ss, c)
  {
  }

  // ---------- pages that a step does not rewrite ----------

  /** A child of a well-formed page knows that page as its parent. */
  lemma KidOf(h: Heap, g: Shape, root: PageId, p: PageId, c: PageId)
    requires p in g && PageOk(h, g, root, p) && h[p].Inner? && HasChild(h[p].slots, c)
    ensures c in g && c in h && h[c].parent == p && g[c].level + 1 == g[p].level
  {
    var i :| 0 <= i < |h[p].slots| && h[p].slots[i].child == c;
    assert KidOk(h, g, p, g[p].level - 1, h[p].slots[i].child, LoAt(h[p].slots, g[p], i), HiAt(h[p].slots, g[p], i));
  }

  /** A page whose own contents stay the same (its parent may change) stays well-formed
      if its neighbours keep what it relies on. */
  lemma PageFrame(h: Heap, g: Shape, root: PageId, h': Heap, g': Shape, root': PageId, p: PageId)
    requires p in g && PageOk(h, g, root, p)
    requires p in g' && p in h' && h'[p] == WithParent(h[p], h'[p].parent) && g'[p] == g[p]
    requires h[p].Leaf? && h[p].next in g ==>
               h[p].next in g' && g'[h[p].next].level == g[h[p].next].level && g'[h[p].next].lo == g[h[p].next].lo
    requires h[p].Inner? ==> forall c :: HasChild(h[p].slots, c) ==>
               c in g' && c in h' && c in g && g'[c] == g[c] && h'[c].parent == p
    requires UpOk(h', g', root', p)
    ensures PageOk(h', g', root', p)
  {
    if h[p].Inner? {
      forall i | 0 <= i < |h[p].slots|
        ensures KidOk(h', g', p, g[p].level - 1, h[p].slots[i].child, LoAt(h[p].slots, g[p], i),
                HiAt(h[p].slots, g[p], i))
      {
        assert HasChild(h[p].slots, h[p].slots[i].child);
        assert KidOk(h, g, p, g[p].level - 1, h[p].slots[i].child, LoAt(h[p].slots, g[p], i),
          HiAt(h[p].slots, g[p], i));
      }
    }
  }

  /** What a rewrite of the pages `changed` must leave alone for everything else to stay well-formed. */
  ghost predicate Local(h: Heap, g: Shape, h': Heap, g': Shape, changed: set<PageId>) {
    && (forall p :: p in g && p !in changed ==>
          p in g' && p in h' && p in h && h'[p] == WithParent(h[p], h'[p].parent) && g'[p] == g[p])
    && (forall c :: c in g && c in h && h[c].parent !in changed ==>
          c in g' && c in h' && g'[c] == g[c] && h'[c].parent == h[c].parent)
    && (forall p :: p in g && p in h && p in h' && p !in changed && h[p].parent in changed ==>
          var q := h'[p].parent; q in g' && q in h' && h'[q].Inner? && HasChild(h'[q].slots, p))
    && (forall p :: p in g && p in h && p !in changed && h[p].Leaf? && h[p].next in g ==>
          var n := h[p].next; n in g' && g'[n].level == g[n].level && g'[n].lo == g[n].lo)
  }

  /** A rewrite of two leaves `a` and `b` and of their parent `q` is local. */
  lemma LeavesLocal(h: Heap, g: Shape, h': Heap, g': Shape, q: PageId, a: PageId, b: PageId)
    requires g.Keys <= h.Keys && q in h && q in h' && h'[q].Inner? && h'[q].parent == h[q].parent && q in g'
    requires forall p :: p in h && p != a && p != b && p != q ==> p in h' && h'[p] == h[p]
    requires forall p :: p in g && p != a && p != b ==> p in g' && g'[p] == g[p]
    requires forall p :: p in g ==> h[p].parent != a && h[p].parent != b
    requires a in g && h[a].parent == q && (b in g ==> h[b].parent == q) && a != q && b != q
    requires forall p :: p in g && p != a && p != b && h[p].parent == q ==> HasChild(h'[q].slots, p)
    requires a in g' && g'[a].level == g[a].level && g'[a].lo == g[a].lo
    requires b in g ==> forall p :: p in g && p != a && h[p].Leaf? ==> h[p].next != b
    ensures Local(h, g, h', g', {a, b, q})
  {
  }

  lemma LocalOthers(h: Heap, g: Shape, root: PageId, h': Heap, g': Shape, root': PageId, changed: set<PageId>)
    requires Core(h, g, root) && Local(h, g, h', g', changed) && INVALID_PAGE_ID !in changed
    requires root == root' || (root in changed && root' !in g) || (root' in changed && root in changed)
    ensures forall p {:trigger PageOk(h', g', root', p)} :: p in g && p !in changed ==> PageOk(h', g', root', p)
  {
    forall p | p in g && p !in changed ensures PageOk(h', g', root', p) {
      assert PageOk(h, g, root, p);
      if h[p].Inner? {
        forall c | HasChild(h[p].slots, c) ensures c in g' && c in h' && c in g && g'[c] == g[c] && h'[c].parent == p {
          KidOf(h, g, root, p, c);
        }
      }
      if p != root && h[p].parent !in changed {
        var q := h[p].parent;
        assert h'[q] == WithParent(h[q], h'[q].parent);
      }
      PageFrame(h, g, root, h', g', root', p);
    }
  }

  /** A local rewrite keeps `Core` if the rewritten and the new pages are well-formed afterwards. */
  lemma LocalStep(h: Heap, g: Shape, root: PageId, h': Heap, g': Shape, root': PageId, changed: set<PageId>)
    requires Core(h, g, root) && Local(h, g, h', g', changed) && INVALID_PAGE_ID !in changed
    requires root == root' || (root in changed && root' !in g) || (root' in changed && root in changed)
    requires root' in g' && g'.Keys <= h'.Keys && g'.Keys <= g.Keys + changed
    requires forall p {:trigger PageOk(h', g', root', p)} :: p in g' && p in changed ==> PageOk(h', g', root', p)
    ensures Core(h', g', root')
  {
    LocalOthers(h, g, root, h', g', root', changed);
  }

  lemma LocalStep3(h: Heap, g: Shape, root: PageId, h': Heap, g': Shape, a: PageId, b: PageId, q: PageId)
    requires Core(h, g, root) && Local(h, g, h', g', {a, b, q}) && a >= 0 && b >= 0 && q >= 0
    requires root in g' && g'.Keys <= h'.Keys && g'.Keys <= g.Keys + {a, b, q}
    requires PageOk(h', g', root, a) && (b in g' ==> PageOk(h', g', root, b)) && PageOk(h', g', root, q)
    ensures Core(h', g', root)
  {
    LocalStep(h, g, root, h', g', root, {a, b, q});
  }

  lemma FreshIsNoParent(h: Heap, g: Shape, root: PageId, b: PageId)
    requires Core(h, g, root) && b >= 0 && b !in h
    ensures forall p :: p in g ==> h[p].parent != b
  {
    forall p | p in g ensures h[p].parent != b {
      assert PageOk(h, g, root, p);
    }
  }

  /** `Core` only depends on the pages of the shape. */
  lemma CoreAgrees(h: Heap, h': Heap, g: Shape, root: PageId)
    requires Core(h, g, root) && g.Keys <= h'.Keys && forall p :: p in g ==> h'[p] == h[p]
    ensures Core(h', g, root)
  {
    forall p | p in g ensures PageOk(h', g, root, p) {
      assert PageOk(h, g, root, p);
      if h[p].Inner? {
        forall i | 0 <= i < |h[p].slots|
          ensures KidOk(h', g, p, g[p].level - 1, h[p].slots[i].child, LoAt(h[p].slots, g[p], i),
                  HiAt(h[p].slots, g[p], i))
        {
          assert KidOk(h, g, p, g[p].level - 1, h[p].slots[i].child, LoAt(h[p].slots, g[p], i),
            HiAt(h[p].slots, g[p], i));
        }
      }
    }
  }

  // ---------- children and ranges of one internal page ----------

  /** Kid `j` of a slot array is responsible for the range between its separators. */
  ghost predicate RangesOk(g: Shape, ss: seq<Slot>, info: Info) {
    forall j :: 0 <= j < |ss| ==> KidRange(g, ss[j].child, info.level, LoAt(ss, info, j), HiAt(ss, info, j))
  }

  ghost predicate KidRange(g: Shape, c: PageId, level: nat, lo: Bound, hi: Bound) {
    c in g && g[c].level + 1 == level && g[c].lo == lo && g[c].hi == hi
  }

  ghost predicate ParentsOk(h: Heap, ss: seq<Slot>, p: PageId) {
    forall c :: HasChild(ss, c) ==> c in h && h[c].parent == p
  }

  lemma InnerParts(h: Heap, g: Shape, p: PageId)
    requires p in h && p in g && InnerOk(h, g, p)
    ensures SlotsOk(h[p].slots, g[p]) && RangesOk(g, h[p].slots, g[p]) && ParentsOk(h, h[p].slots, p)
  {
    var ss := h[p].slots;
    forall j | 0 <= j < |ss|
      ensures KidRange(g, ss[j].child, g[p].level, LoAt(ss, g[p], j), HiAt(ss, g[p], j))
    {
      assert KidOk(h, g, p, g[p].level - 1, ss[j].child, LoAt(ss, g[p], j), HiAt(ss, g[p], j));
    }
    forall c | HasChild(ss, c) ensures c in h && h[c].parent == p {
      var j :| 0 <= j < |ss| && ss[j].child == c;
      assert KidOk(h, g, p, g[p].level - 1, ss[j].child, LoAt(ss, g[p], j), HiAt(ss, g[p], j));
    }
  }

  lemma InnerFromParts(h: Heap, g: Shape, p: PageId)
    requires p in h && p in g && h[p].Inner? && g[p].level > 0
    requires SlotsOk(h[p].slots, g[p]) && RangesOk(g, h[p].slots, g[p]) && ParentsOk(h, h[p].slots, p)
    ensures InnerOk(h, g, p)
  {
    var ss := h[p].slots;
    forall j | 0 <= j < |ss|
      ensures KidOk(h, g, p, g[p].level - 1, ss[j].child, LoAt(ss, g[p], j), HiAt(ss, g[p], j))
    {
      assert KidRange(g, ss[j].child, g[p].level, LoAt(ss, g[p], j), HiAt(ss, g[p], j));
      assert HasChild(ss, ss[j].child);
    }
  }

  lemma RangesDistinct(g: Shape, ss: seq<Slot>, info: Info, i: nat, j: nat)
    requires SlotsOk(ss, info) && RangesOk(g, ss, info) && i < j < |ss|
    ensures ss[i].child != ss[j].child
  {
    assert KidRange(g, ss[i].child, info.level, LoAt(ss, info, i), HiAt(ss, info, i));
    assert KidRange(g, ss[j].child, info.level, LoAt(ss, info, j), HiAt(ss, info, j));
  }

  // ---------- inserting, removing and moving a separator in a slot array ----------

  function InsertSlot(ss: seq<Slot>, i: nat, sep: int, b: PageId): (r: seq<Slot>)
    requires i < |ss|
    ensures |r| == |ss| + 1 && r[i + 1] == Slot(sep, b)
    ensures forall j :: 0 <= j <= i ==> r[j] == ss[j]
    ensures forall j :: i + 1 < j < |r| ==> r[j] == ss[j - 1]
  {
    ss[..i + 1] + [Slot(sep, b)] + ss[i + 1..]
  }

  lemma InsertSlotOk(ss: seq<Slot>, info: Info, i: nat, sep: int, b: PageId)
    requires SlotsOk(ss, info) && i < |ss|
    requires Below(LoAt(ss, info, i), sep) && Above(HiAt(ss, info, i), sep)
    ensures SlotsOk(InsertSlot(ss, i, sep, b), info)
  {
    var ss' := InsertSlot(ss, i, sep, b);
    assert forall j :: 0 <= j <= i ==> ss'[j] == ss[j];
    assert forall j :: i + 1 < j < |ss'| ==> ss'[j] == ss[j - 1];
    assert forall j :: 1 <= j <= i ==> ss[j].key < sep;
    assert forall j :: i < j < |ss| ==> sep < ss[j].key;
  }

  lemma InsertSlotChildren(ss: seq<Slot>, i: nat, sep: int, b: PageId)
    requires i < |ss|
    ensures forall c :: HasChild(InsertSlot(ss, i, sep, b), c) <==> c == b || HasChild(ss, c)
  {
    hide HasChild;
    var ss' := InsertSlot(ss, i, sep, b);
    AtChild(ss', i + 1, b);
    forall c | HasChild(ss, c) ensures HasChild(ss', c) {
      var j := ChildAt(ss, c);
      AtChild(ss', if j <= i then j else j + 1, c);
    }
    forall c | HasChild(ss', c) ensures c == b || HasChild(ss, c) {
      var j := ChildAt(ss', c);
      if j != i + 1 { AtChild(ss, if j <= i then j else j - 1, c); }
    }
  }

  /** Kid `i` is cut at `sep`; the upper part becomes kid `b`. */
  lemma InsertSlotRanges(g: Shape, g': Shape, ss: seq<Slot>, info: Info, i: nat, sep: int, b: PageId)
    requires SlotsOk(ss, info) && RangesOk(g, ss, info) && i < |ss|
    requires forall j :: 0 <= j < |ss| && j != i ==> ss[j].child in g' && g'[ss[j].child] == g[ss[j].child]
    requires KidRange(g', ss[i].child, info.level, LoAt(ss, info, i), At(sep))
    requires KidRange(g', b, info.level, At(sep), HiAt(ss, info, i))
    ensures RangesOk(g', InsertSlot(ss, i, sep, b), info)
  {
    var ss' := InsertSlot(ss, i, sep, b);
    forall j | 0 <= j < |ss'| ensures KidRange(g', ss'[j].child, info.level, LoAt(ss', info, j), HiAt(ss', info, j)) {
      if j < i {
        assert ss'[j] == ss[j] && ss'[j + 1] == ss[j + 1];
        assert KidRange(g, ss[j].child, info.level, LoAt(ss, info, j), HiAt(ss, info, j));
      } else if j > i + 1 {
        assert ss'[j] == ss[j - 1] && (j + 1 < |ss'| ==> ss'[j + 1] == ss[j]);
        assert KidRange(g, ss[j - 1].child, info.level, LoAt(ss, info, j - 1), HiAt(ss, info, j - 1));
      } else {
        assert ss'[i] == ss[i] && ss'[i + 1] == Slot(sep, b) && (i + 2 < |ss'| ==> ss'[i + 2] == ss[i + 1]);
      }
    }
  }

  lemma RemoveSlotOk(ss: seq<Slot>, info: Info, i: nat)
    requires SlotsOk(ss, info) && i + 1 < |ss|
    ensures SlotsOk(RemoveAt(ss, i + 1), info)
  {
    var ss' := RemoveAt(ss, i + 1);
    assert forall j :: 0 <= j <= i ==> ss'[j] == ss[j];
    assert forall j :: i < j < |ss'| ==> ss'[j] == ss[j + 1];
  }

  lemma RemoveSlotChildren(g: Shape, ss: seq<Slot>, info: Info, i: nat)
    requires SlotsOk(ss, info) && RangesOk(g, ss, info) && i + 1 < |ss|
    ensures forall c :: HasChild(RemoveAt(ss, i + 1), c) <==> c != ss[i + 1].child && HasChild(ss, c)
  {
    hide HasChild, SlotsOk, RangesOk;
    var ss' := RemoveAt(ss, i + 1);
    forall c | c != ss[i + 1].child && HasChild(ss, c) ensures HasChild(ss', c) {
      var j := ChildAt(ss, c);
      AtChild(ss', if j <= i then j else j - 1, c);
    }
    forall c | HasChild(ss', c) ensures c != ss[i + 1].child && HasChild(ss, c) {
      var j := ChildAt(ss', c);
      var k := if j <= i then j else j + 1;
      AtChild(ss, k, c);
      RangesDistinct(g, ss, info, if k < i + 1 then k else i + 1, if k < i + 1 then i + 1 else k);
    }
  }

  /** Kid `i` takes over the range of its right neighbour, which disappears. */
  lemma RemoveSlotRanges(g: Shape, g': Shape, ss: seq<Slot>, info: Info, i: nat)
    requires SlotsOk(ss, info) && RangesOk(g, ss, info) && i + 1 < |ss|
    requires forall j :: 0 <= j < |ss| && j != i && j != i + 1 ==>
                         ss[j].child in g' && g'[ss[j].child] == g[ss[j].child]
    requires KidRange(g', ss[i].child, info.level, LoAt(ss, info, i), HiAt(ss, info, i + 1))
    ensures RangesOk(g', RemoveAt(ss, i + 1), info)
  {
    var ss' := RemoveAt(ss, i + 1);
    forall j | 0 <= j < |ss'| ensures KidRange(g', ss'[j].child, info.level, LoAt(ss', info, j), HiAt(ss', info, j)) {
      if j < i {
        assert ss'[j] == ss[j] && ss'[j + 1] == ss[j + 1];
        assert KidRange(g, ss[j].child, info.level, LoAt(ss, info, j), HiAt(ss, info, j));
      } else if j > i {
        assert ss'[j] == ss[j + 1] && (j + 1 < |ss'| ==> ss'[j + 1] == ss[j + 2]);
        assert KidRange(g, ss[j + 1].child, info.level, LoAt(ss, info, j + 1), HiAt(ss, info, j + 1));
      } else {
        assert ss'[i] == ss[i] && (i + 1 < |ss'| ==> ss'[i + 1] == ss[i + 2]);
      }
    }
  }

  lemma MoveSeparatorOk(ss: seq<Slot>, info: Info, i: nat, sep: int)
    requires SlotsOk(ss, info) && i + 1 < |ss|
    requires Below(LoAt(ss, info, i), sep) && Above(HiAt(ss, info, i + 1), sep)
    ensures SlotsOk(WithKey(ss, i + 1, sep), info)
    ensures forall c :: HasChild(WithKey(ss, i + 1, sep), c) <==> HasChild(ss, c)
  {
    var ss' := WithKey(ss, i + 1, sep);
    assert forall j :: 1 <= j <= i ==> ss[j].key < sep;
    assert forall j :: i + 1 < j < |ss| ==> sep < ss[j].key;
    WithKeyChildren(ss, i + 1, sep);
  }

  lemma WithKeyChildren(ss: seq<Slot>, i: nat, k: int)
    requires i < |ss|
    ensures forall c :: HasChild(WithKey(ss, i, k), c) <==> HasChild(ss, c)
  {
    hide HasChild;
    var r := WithKey(ss, i, k);
    forall c | HasChild(ss, c) ensures HasChild(r, c) {
      var j := ChildAt(ss, c);
      AtChild(r, j, c);
    }
    forall c | HasChild(r, c) ensures HasChild(ss, c) {
      var j := ChildAt(r, c);
      AtChild(ss, j, c);
    }
  }

  /** The border between the kids `i` and `i + 1` moves to `sep`. */
  lemma MoveSeparatorRanges(g: Shape, g': Shape, ss: seq<Slot>, info: Info, i: nat, sep: int)
    requires SlotsOk(ss, info) && RangesOk(g, ss, info) && i + 1 < |ss|
    requires forall j :: 0 <= j < |ss| && j != i && j != i + 1 ==>
                         ss[j].child in g' && g'[ss[j].child] == g[ss[j].child]
    requires KidRange(g', ss[i].child, info.level, LoAt(ss, info, i), At(sep))
    requires KidRange(g', ss[i + 1].child, info.level, At(sep), HiAt(ss, info, i + 1))
    ensures RangesOk(g', WithKey(ss, i + 1, sep), info)
  {
    var ss' := WithKey(ss, i + 1, sep);
    forall j | 0 <= j < |ss'| ensures KidRange(g', ss'[j].child, info.level, LoAt(ss', info, j), HiAt(ss', info, j)) {
      assert ss'[j].child == ss[j].child;
      if j < i {
        assert ss'[j + 1] == ss[j + 1];
        assert KidRange(g, ss[j].child, info.level, LoAt(ss, info, j), HiAt(ss, info, j));
      } else if j > i + 1 {
        assert ss'[j] == ss[j] && (j + 1 < |ss| ==> ss'[j + 1] == ss[j + 1]);
        assert KidRange(g, ss[j].child, info.level, LoAt(ss, info, j), HiAt(ss, info, j));
      }
    }
  }

  // ---------- a parent whose kids were split, shifted or merged ----------

  ghost predicate InnerPartsOk(h: Heap, g: Shape, q: PageId) {
    && q in h && q in g && h[q].Inner? && g[q].level > 0
    && SlotsOk(h[q].slots, g[q]) && RangesOk(g, h[q].slots, g[q]) && ParentsOk(h, h[q].slots, q)
  }

  /** The kids other than `a` and `b` keep their info, and all kids keep their parent. */
  ghost predicate KidsKept(h: Heap, g: Shape, h': Heap, g': Shape, q: PageId, a: PageId, b: PageId)
    requires q in h && h[q].Inner?
  {
    && (forall c :: HasChild(h[q].slots, c) && c != b ==> c in h' && h'[c].parent == q)
    && (forall c :: HasChild(h[q].slots, c) && c != a && c != b ==> c in g && c in g' && g'[c] == g[c])
  }

  lemma KidsKeptFrame(h: Heap, g: Shape, h': Heap, g': Shape, q: PageId, a: PageId, b: PageId)
    requires q in h && h[q].Inner?
    requires forall c :: HasChild(h[q].slots, c) ==> c in g && c in h && h[c].parent == q && c != q
    requires forall p :: p in h && p != a && p != b && p != q && h[p].parent == q ==> p in h' && h'[p].parent == q
    requires forall p :: p in g && p != a && p != b ==> p in g' && g'[p] == g[p]
    requires a in h' && h'[a].parent == q
    ensures KidsKept(h, g, h', g', q, a, b)
  {
  }

  lemma OtherKid(g: Shape, ss: seq<Slot>, info: Info, i: nat, j: nat)
    requires SlotsOk(ss, info) && RangesOk(g, ss, info) && i < |ss| && j < |ss| && i != j
    ensures HasChild(ss, ss[j].child) && ss[j].child != ss[i].child
  {
    RangesDistinct(g, ss, info, if i < j then i else j, if i < j then j else i);
  }

  lemma ParentInsert(h: Heap, g: Shape, h': Heap, g': Shape, q: PageId, i: nat, sep: int, a: PageId, b: PageId)
    requires InnerPartsOk(h, g, q) && i < |h[q].slots| && h[q].slots[i].child == a
    requires q in h' && q in g' && h'[q] == WithSlots(h[q], InsertSlot(h[q].slots, i, sep, b)) && g'[q] == g[q]
    requires KidsKept(h, g, h', g', q, a, b) && !HasChild(h[q].slots, b) && b in h' && h'[b].parent == q
    requires Below(LoAt(h[q].slots, g[q], i), sep) && Above(HiAt(h[q].slots, g[q], i), sep)
    requires KidRange(g', a, g[q].level, LoAt(h[q].slots, g[q], i), At(sep))
    requires KidRange(g', b, g[q].level, At(sep), HiAt(h[q].slots, g[q], i))
    ensures InnerOk(h', g', q)
    ensures forall c :: HasChild(h'[q].slots, c) <==> c == b || HasChild(h[q].slots, c)
  {
    var ss := h[q].slots;
    forall j | 0 <= j < |ss| && j != i ensures ss[j].child in g' && g'[ss[j].child] == g[ss[j].child] {
      OtherKid(g, ss, g[q], i, j);
    }
    InsertSlotOk(ss, g[q], i, sep, b);
    InsertSlotRanges(g, g', ss, g[q], i, sep, b);
    InsertSlotChildren(ss, i, sep, b);
    InnerFromParts(h', g', q);
  }

  lemma ParentMoveSeparator(h: Heap, g: Shape, h': Heap, g': Shape, q: PageId, i: nat, sep: int, a: PageId, b: PageId)
    requires InnerPartsOk(h, g, q) && i + 1 < |h[q].slots|
    requires h[q].slots[i].child == a && h[q].slots[i + 1].child == b
    requires q in h' && q in g' && h'[q] == WithSlots(h[q], WithKey(h[q].slots, i + 1, sep)) && g'[q] == g[q]
    requires KidsKept(h, g, h', g', q, a, b) && b in h' && h'[b].parent == q
    requires Below(LoAt(h[q].slots, g[q], i), sep) && Above(HiAt(h[q].slots, g[q], i + 1), sep)
    requires KidRange(g', a, g[q].level, LoAt(h[q].slots, g[q], i), At(sep))
    requires KidRange(g', b, g[q].level, At(sep), HiAt(h[q].slots, g[q], i + 1))
    ensures InnerOk(h', g', q)
    ensures forall c :: HasChild(h'[q].slots, c) <==> HasChild(h[q].slots, c)
  {
    var ss := h[q].slots;
    forall j | 0 <= j < |ss| && j != i && j != i + 1 ensures ss[j].child in g' && g'[ss[j].child] == g[ss[j].child] {
      OtherKid(g, ss, g[q], i, j);
      OtherKid(g, ss, g[q], i + 1, j);
    }
    MoveSeparatorOk(ss, g[q], i, sep);
    MoveSeparatorRanges(g, g', ss, g[q], i, sep);
    InnerFromParts(h', g', q);
  }

  lemma ParentRemove(h: Heap, g: Shape, h': Heap, g': Shape, q: PageId, i: nat, a: PageId, b: PageId)
    requires InnerPartsOk(h, g, q) && i + 1 < |h[q].slots|
    requires h[q].slots[i].child == a && h[q].slots[i + 1].child == b
    requires q in h' && q in g' && h'[q] == WithSlots(h[q], RemoveAt(h[q].slots, i + 1)) && g'[q] == g[q]
    requires KidsKept(h, g, h', g', q, a, b)
    requires KidRange(g', a, g[q].level, LoAt(h[q].slots, g[q], i), HiAt(h[q].slots, g[q], i + 1))
    ensures InnerOk(h', g', q)
    ensures forall c :: HasChild(h'[q].slots, c) <==> c != b && HasChild(h[q].slots, c)
  {
    var ss := h[q].slots;
    forall j | 0 <= j < |ss| && j != i && j != i + 1 ensures ss[j].child in g' && g'[ss[j].child] == g[ss[j].child] {
      OtherKid(g, ss, g[q], i, j);
      OtherKid(g, ss, g[q], i + 1, j);
    }
    RemoveSlotOk(ss, g[q], i);
    RemoveSlotRanges(g, g', ss, g[q], i);
    RemoveSlotChildren(g, ss, g[q], i);
    InnerFromParts(h', g', q);
  }

  /** `q` keeps its place below its own parent when that parent keeps its slots. */
  lemma UpFrame(h: Heap, g: Shape, h': Heap, g': Shape, root: PageId, q: PageId)
    requires Core(h, g, root) && q in g && q in g' && q in h' && h'[q].parent == h[q].parent && g'[q] == g[q]
    requires q != root && h[q].parent in h ==>
             h[q].parent in g' && h[q].parent in h' && h'[h[q].parent] == h[h[q].parent]
    ensures UpOk(h', g', root, q)
  {
    assert PageOk(h, g, root, q);
  }

  lemma UpFacts(h: Heap, g: Shape, root: PageId, p: PageId)
    requires Core(h, g, root) && p in g
    ensures p >= 0 && root in g
    ensures p == root ==> h[p].parent == INVALID_PAGE_ID
    ensures p != root ==> var q := h[p].parent;
              q in g && q >= 0 && h[q].Inner? && HasChild(h[q].slots, p) && g[q].level == g[p].level + 1
  {
    assert PageOk(h, g, root, p);
    if p != root {
      assert PageOk(h, g, root, h[p].parent);
      KidOf(h, g, root, h[p].parent, p);
    }
  }

  lemma InnerFacts(h: Heap, g: Shape, root: PageId, q: PageId)
    requires Core(h, g, root) && q in g && h[q].Inner?
    ensures q >= 0 && InnerPartsOk(h, g, q)
    ensures q != root ==> h[q].parent in g && h[h[q].parent].Inner? && g[h[q].parent].level == g[q].level + 1
    ensures forall c :: HasChild(h[q].slots, c) ==> c in g && c in h && h[c].parent == q && g[c].level + 1 == g[q].level
    ensures forall p :: p in g && p in h && h[p].parent == q ==> HasChild(h[q].slots, p)
  {
    assert PageOk(h, g, root, q);
    InnerParts(h, g, q);
    if q != root { var k := PlaceInParent(h, g, root, q); }
    forall c | HasChild(h[q].slots, c) ensures c in g && c in h && h[c].parent == q && g[c].level + 1 == g[q].level {
      KidOf(h, g, root, q, c);
    }
    forall p | p in g && p in h && h[p].parent == q ensures HasChild(h[q].slots, p) {
      assert PageOk(h, g, root, p);
    }
  }

  lemma LeafFacts(h: Heap, g: Shape, root: PageId, a: PageId)
    requires Core(h, g, root) && a in g && h[a].Leaf?
    ensures a >= 0 && g[a].level == 0 && EntriesOk(h[a].entries, g[a]) && NextOk(g, g[a], h[a].next)
    ensures forall p :: p in g && p in h ==> h[p].parent != a
  {
    assert PageOk(h, g, root, a);
    forall p | p in g && p in h ensures h[p].parent != a {
      assert PageOk(h, g, root, p);
    }
  }

  // ---------- how a step changes the responsibilities ----------

  ghost function SplitShape(g: Shape, a: PageId, b: PageId, sep: int): Shape
    requires a in g
  {
    g[a := g[a].(hi := At(sep))][b := Info(g[a].level, At(sep), g[a].hi)]
  }

  ghost function ShiftShape(g: Shape, a: PageId, b: PageId, sep: int): Shape
    requires a in g && b in g
  {
    g[a := g[a].(hi := At(sep))][b := g[b].(lo := At(sep))]
  }

  ghost function MergeShape(g: Shape, a: PageId, b: PageId): Shape
    requires a in g && b in g
  {
    g[a := g[a].(hi := g[b].hi)] - {b}
  }

  // ---------- neighbours ----------

  /** `a` and `b` are the kids `i` and `i + 1` of `q`. */
  ghost predicate Siblings(h: Heap, g: Shape, root: PageId, q: PageId, i: nat, a: PageId, b: PageId) {
    && Core(h, g, root) && q in g && q in h && h[q].Inner?
    && i + 1 < |h[q].slots| && h[q].slots[i].child == a && h[q].slots[i + 1].child == b
  }

  lemma SiblingFacts(h: Heap, g: Shape, root: PageId, q: PageId, i: nat, a: PageId, b: PageId)
    requires Siblings(h, g, root, q, i, a, b)
    ensures PageOk(h, g, root, q) && InnerOk(h, g, q)
    ensures a in g && PageOk(h, g, root, a) && b in g && PageOk(h, g, root, b)
    ensures a != b && a != q && b != q && a != root && b != root
    ensures h[a].parent == q && h[b].parent == q && g[a].level == g[b].level && g[a].level + 1 == g[q].level
    ensures var m := h[q].slots[i + 1].key;
            && g[a].lo == LoAt(h[q].slots, g[q], i) && g[a].hi == At(m)
            && g[b].lo == At(m) && g[b].hi == HiAt(h[q].slots, g[q], i + 1)
            && Below(g[a].lo, m) && Above(g[b].hi, m)
  {
    assert PageOk(h, g, root, q);
    var ss := h[q].slots;
    assert KidOk(h, g, q, g[q].level - 1, ss[i].child, LoAt(ss, g[q], i), HiAt(ss, g[q], i));
    assert KidOk(h, g, q, g[q].level - 1, ss[i + 1].child, LoAt(ss, g[q], i + 1), HiAt(ss, g[q], i + 1));
    assert PageOk(h, g, root, a) && PageOk(h, g, root, b);
    KidsDistinct(h, g, q, i, i + 1);
  }

  /** No page has an empty range. */
  lemma RangeNonEmpty(h: Heap, g: Shape, root: PageId, p: PageId)
    requires Core(h, g, root) && p in g
    ensures g[p].hi.At? ==> Below(g[p].lo, g[p].hi.k)
    ensures g[p].hi != NegInf
    decreases g[root].level - g[p].level
  {
    BelowRoot(h, g, root, p);
    assert PageOk(h, g, root, p);
    if p != root {
      var i := PlaceInParent(h, g, root, p);
      BelowRoot(h, g, root, h[p].parent);
      RangeNonEmpty(h, g, root, h[p].parent);
    }
  }

  /** Only one leaf is followed by the leaf that starts where `a` ends. */
  lemma NextUnique(h: Heap, g: Shape, root: PageId, a: PageId, p: PageId)
    requires Core(h, g, root) && a in g && p in g && g[a].level == 0 && g[p].level == 0
    requires g[a].hi.At? && g[p].hi == g[a].hi
    ensures p == a
  {
    RangeNonEmpty(h, g, root, a);
    RangeNonEmpty(h, g, root, p);
    UniqueAtLevel(h, g, root, a, p, g[a].hi.k - 1);
  }

  lemma NotNextOfOthers(h: Heap, g: Shape, root: PageId, a: PageId, b: PageId)
    requires Core(h, g, root) && a in g && g[a].level == 0 && b in g && g[a].hi.At? && g[b].lo == g[a].hi
    ensures forall p :: p in g && p in h && p != a && h[p].Leaf? ==> h[p].next != b
  {
    forall p | p in g && p in h && p != a && h[p].Leaf? ensures h[p].next != b {
      assert PageOk(h, g, root, p) && PageOk(h, g, root, b);
      if g[p].hi == g[a].hi {
        NextUnique(h, g, root, a, p);
      }
    }
  }
}
