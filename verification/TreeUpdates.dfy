/** The steps of an insertion or a removal with everything they keep: `Core`, the stored
    entries, and the occupancy bounds of all pages but the one still to be repaired. */
module TreeUpdates {
  import opened Common
  import opened TreePages
  import opened TreeShape
  import opened TreeSteps
  import opened LeafSteps
  import opened InnerSteps

  // ---------- stored entries ----------

  lemma SameLeaves(h: Heap, g: Shape, h': Heap, g': Shape)
    requires forall p :: p in g && p in h && h[p].Leaf? ==>
               p in g' && p in h' && h'[p].Leaf? && h'[p].entries == h[p].entries
    requires forall p :: p in g' && p in h' && h'[p].Leaf? ==> p in g && p in h && h[p].Leaf?
    ensures SameEntries(h, g, h', g')
  {
    forall e ensures Stored(h, g, e) <==> Stored(h', g', e) {
      if Stored(h, g, e) {
        var p :| EntryIn(h, g, p, e);
        assert EntryIn(h', g', p, e);
      }
      if Stored(h', g', e) {
        var p :| EntryIn(h', g', p, e);
        assert EntryIn(h, g, p, e);
      }
    }
  }

  /** Only the leaves `a` and `b` differ, and together they hold the same entries. */
  lemma Regrouped(h: Heap, g: Shape, h': Heap, g': Shape, a: PageId, b: PageId)
    requires forall p, e :: p != a && p != b ==> (EntryIn(h, g, p, e) <==> EntryIn(h', g', p, e))
    requires forall e :: EntryIn(h, g, a, e) || EntryIn(h, g, b, e) <==> EntryIn(h', g', a, e) || EntryIn(h', g', b, e)
    ensures SameEntries(h, g, h', g')
  {
    forall e ensures Stored(h, g, e) <==> Stored(h', g', e) {
      if Stored(h, g, e) {
        var p :| EntryIn(h, g, p, e);
        assert EntryIn(h', g', p, e) || EntryIn(h', g', a, e) || EntryIn(h', g', b, e);
      }
      if Stored(h', g', e) {
        var p :| EntryIn(h', g', p, e);
        assert EntryIn(h, g, p, e) || EntryIn(h, g, a, e) || EntryIn(h, g, b, e);
      }
    }
  }

  lemma RepresentsMoves(h: Heap, g: Shape, h': Heap, g': Shape, m: map<int, RID>)
    requires Represents(h, g, m) && SameEntries(h, g, h', g')
    ensures Represents(h', g', m)
  {
    forall e ensures Stored(h', g', e) <==> e.key in m && m[e.key] == e.rid {
      assert Stored(h, g, e) <==> Stored(h', g', e);
    }
  }

  lemma InsertMembers(es: seq<Entry>, i: nat, x: Entry)
    requires i <= |es|
    ensures forall e :: e in es[..i] + [x] + es[i..] <==> e in es || e == x
  {
    assert es == es[..i] + es[i..];
  }

  lemma InsertSorted(es: seq<Entry>, info: Info, i: nat, x: Entry)
    requires EntriesOk(es, info) && Within(info, x.key) && i <= |es|
    requires forall j :: 0 <= j < i ==> es[j].key < x.key
    requires forall j :: i <= j < |es| ==> x.key < es[j].key
    ensures EntriesOk(es[..i] + [x] + es[i..], info)
  {
    var r := es[..i] + [x] + es[i..];
    assert forall j :: 0 <= j < i ==> r[j] == es[j];
    assert forall j :: i < j < |r| ==> r[j] == es[j - 1];
  }

  lemma InsertEntryFacts(es: seq<Entry>, info: Info, key: int, rid: RID)
    requires EntriesOk(es, info) && Within(info, key) && !HasKey(es, key)
    ensures var r := InsertEntry(es, key, rid);
            EntriesOk(r, info) && |r| == |es| + 1 && forall e :: e in r <==> e in es || e == Entry(key, rid)
  {
    var i := LowerBound(es, key);
    assert i < |es| ==> key < es[i].key;
    InsertMembers(es, i, Entry(key, rid));
    InsertSorted(es, info, i, Entry(key, rid));
  }

  lemma RemoveMembers(es: seq<Entry>, i: nat)
    requires Sorted(es) && i < |es|
    ensures forall e :: e in RemoveAt(es, i) <==> e in es && e.key != es[i].key
  {
    var r := RemoveAt(es, i);
    forall e | e in es && e.key != es[i].key ensures e in r {
      var j :| 0 <= j < |es| && es[j] == e;
      if j < i { assert r[j] == e; } else { assert r[j - 1] == e; }
    }
    forall e | e in r ensures e in es && e.key != es[i].key {
      var j :| 0 <= j < |r| && r[j] == e;
      if j < i { assert es[j] == e; } else { assert es[j + 1] == e; }
    }
  }

  lemma RemoveOrder(es: seq<Entry>, info: Info, i: nat)
    requires EntriesOk(es, info) && i < |es|
    ensures EntriesOk(RemoveAt(es, i), info) && |RemoveAt(es, i)| == |es| - 1
  {
    var r := RemoveAt(es, i);
    assert forall j :: 0 <= j < |r| ==> r[j] == es[if j < i then j else j + 1];
  }

  lemma RemoveEntryFacts(es: seq<Entry>, info: Info, key: int)
    requires EntriesOk(es, info)
    ensures var r := RemoveEntry(es, key);
            && EntriesOk(r, info)
            && |r| == (if HasKey(es, key) then |es| - 1 else |es|)
            && (forall e :: e in r <==> e in es && e.key != key)
  {
    hide LowerBound;
    var i := LowerBound(es, key);
    if i < |es| && es[i].key == key {
      RemoveMembers(es, i);
      RemoveOrder(es, info, i);
      assert es[i] in es;
    } else {
      assert forall j :: 0 <= j < |es| ==> es[j].key != key;
    }
  }

  // ---------- one leaf gains or loses an entry ----------

  lemma InsertStep(h: Heap, g: Shape, root: PageId, m: map<int, RID>, leafMax: nat, innerMax: nat, a: PageId, key: int,
      rid: RID)
    requires WellFormed(h, g, root, leafMax, innerMax) && Represents(h, g, m)
    requires a in g && h[a].Leaf? && Within(g[a], key)
    ensures HasKey(h[a].entries, key) <==> key in m
    ensures key !in m ==>
              var h' := h[a := WithEntries(h[a], InsertEntry(h[a].entries, key, rid))];
              && Core(h', g, root) && SizedBut(h', g, root, leafMax, innerMax, {a})
              && |h'[a].entries| == |h[a].entries| + 1 && Represents(h', g, m[key := rid])
  {
    hide EntriesOk, SizeOk;
    LeafFacts(h, g, root, a);
    KeyHome(h, g, root, m, a, key);
    if key !in m {
      InsertEntryFacts(h[a].entries, g[a], key, rid);
      var es := InsertEntry(h[a].entries, key, rid);
      var h' := h[a := WithEntries(h[a], es)];
      RewriteLeaf(h, g, root, a, es);
      SizedElsewhere(h, g, h', g, root, leafMax, innerMax, {}, {a});
      forall e ensures Stored(h', g, e) <==> e.key in m[key := rid] && m[key := rid][e.key] == e.rid {
        StoredAfterRewrite(h, g, root, a, es, e);
        if e.key == key { KeyUnique(h, g, root, m, e); }
      }
    }
  }

  /** A key of `m` lives in the leaf that covers it. */
  lemma KeyHome(h: Heap, g: Shape, root: PageId, m: map<int, RID>, a: PageId, key: int)
    requires Core(h, g, root) && Represents(h, g, m) && a in g && h[a].Leaf? && Within(g[a], key)
    ensures HasKey(h[a].entries, key) <==> key in m
    ensures key in m ==> Entry(key, m[key]) in h[a].entries
    ensures forall e :: e in h[a].entries ==> e.key in m && m[e.key] == e.rid
  {
    LeafFacts(h, g, root, a);
    forall e | e in h[a].entries ensures e.key in m && m[e.key] == e.rid {
      assert EntryIn(h, g, a, e);
      assert Stored(h, g, e);
    }
    if key in m {
      var e := Entry(key, m[key]);
      assert Stored(h, g, e);
      StoredInCoveringLeaf(h, g, root, a, e);
      var i :| 0 <= i < |h[a].entries| && h[a].entries[i] == e;
      assert h[a].entries[i].key == key;
    }
    if HasKey(h[a].entries, key) {
      var i :| 0 <= i < |h[a].entries| && h[a].entries[i].key == key;
      assert h[a].entries[i] in h[a].entries;
    }
  }

  lemma KeyUnique(h: Heap, g: Shape, root: PageId, m: map<int, RID>, e: Entry)
    requires Represents(h, g, m)
    ensures Stored(h, g, e) ==> e.key in m
  {
  }

  lemma StoredAfterRewrite(h: Heap, g: Shape, root: PageId, a: PageId, es: seq<Entry>, e: Entry)
    requires Core(h, g, root) && a in g && h[a].Leaf?
    ensures Stored(h[a := WithEntries(h[a], es)], g, e) <==> e in es || exists p :: p != a && EntryIn(h, g, p, e)
  {
    var h' := h[a := WithEntries(h[a], es)];
    if Stored(h', g, e) {
      var p :| EntryIn(h', g, p, e);
      assert p == a || EntryIn(h, g, p, e);
    }
    if e in es {
      assert EntryIn(h', g, a, e);
    }
    if exists p :: p != a && EntryIn(h, g, p, e) {
      var p :| p != a && EntryIn(h, g, p, e);
      assert EntryIn(h', g, p, e);
    }
  }

  /** Pages outside `touched` keep their occupancy. */
  lemma SizedElsewhere(h: Heap, g: Shape, h': Heap, g': Shape, root: PageId, leafMax: nat, innerMax: nat,
                       except: set<PageId>, touched: set<PageId>)
    requires SizedBut(h, g, root, leafMax, innerMax, except)
    requires forall p :: p in g' && p !in touched ==>
                         p in g && p in h && p in h' && h'[p] == WithParent(h[p], h'[p].parent)
    ensures SizedBut(h', g', root, leafMax, innerMax, except + touched)
  {
    forall p | p in g' && p !in except + touched ensures SizeOk(h', root, leafMax, innerMax, p) {
      assert SizeOk(h, root, leafMax, innerMax, p);
    }
  }

  lemma RemoveStep(h: Heap, g: Shape, root: PageId, m: map<int, RID>, leafMax: nat, innerMax: nat, a: PageId, key: int)
    requires WellFormed(h, g, root, leafMax, innerMax) && Represents(h, g, m)
    requires a in g && h[a].Leaf? && Within(g[a], key)
    ensures var h' := h[a := WithEntries(h[a], RemoveEntry(h[a].entries, key))];
            && Core(h', g, root) && SizedBut(h', g, root, leafMax, innerMax, {a})
            && |h'[a].entries| == (if key in m then |h[a].entries| - 1 else |h[a].entries|)
            && Represents(h', g, m - {key})
  {
    hide EntriesOk, SizeOk;
    LeafFacts(h, g, root, a);
    KeyHome(h, g, root, m, a, key);
    RemoveEntryFacts(h[a].entries, g[a], key);
    var es := RemoveEntry(h[a].entries, key);
    var h' := h[a := WithEntries(h[a], es)];
    RewriteLeaf(h, g, root, a, es);
    SizedElsewhere(h, g, h', g, root, leafMax, innerMax, {}, {a});
    forall e ensures Stored(h', g, e) <==> e.key in m - {key} && (m - {key})[e.key] == e.rid {
      StoredAfterRewrite(h, g, root, a, es, e);
      if Stored(h, g, e) && Within(g[a], e.key) { StoredInCoveringLeaf(h, g, root, a, e); }
      OnlyInItsLeaf(h, g, root, a, e);
    }
  }

  /** An entry whose key a leaf covers is in no other leaf. */
  lemma OnlyInItsLeaf(h: Heap, g: Shape, root: PageId, a: PageId, e: Entry)
    requires Core(h, g, root) && a in g && h[a].Leaf?
    ensures Within(g[a], e.key) ==> forall p :: EntryIn(h, g, p, e) ==> p == a
  {
    LeafFacts(h, g, root, a);
    if Within(g[a], e.key) {
      forall p | EntryIn(h, g, p, e) ensures p == a {
        LeafFacts(h, g, root, p);
        UniqueAtLevel(h, g, root, p, a, e.key);
      }
    }
  }

  // ---------- splits ----------

  /** The half of an overfull page that stays and the half that moves are both large enough. */
  ghost predicate HalvesFit(n: Node, x: nat, y: nat) {
    n.MinSize() <= x <= n.max && n.MinSize() <= y <= n.max
  }

  lemma SplitLeafStep(h: Heap, g: Shape, root: PageId, leafMax: nat, innerMax: nat, more: set<PageId>,
                      a: PageId, b: PageId, ea: seq<Entry>, eb: seq<Entry>)
    requires SplitLeafPre(h, g, root, a, b, ea, eb)
    requires SizedBut(h, g, root, leafMax, innerMax, {a} + more) && more <= {h[a].parent}
    requires h[a].max == leafMax && HalvesFit(h[a], |ea|, |eb|)
    ensures var h', g' := SplitLeafHeap(h, a, b, ea, eb), SplitShape(g, a, b, eb[0].key);
            && Core(h', g', root) && SizedBut(h', g', root, leafMax, innerMax, {h[a].parent})
               && SameEntries(h, g, h', g')
  {
    hide EntriesOk, SlotsOk, RangesOk, ParentsOk, HasChild, PageOk, InsertAfter;
    var q := h[a].parent;
    var h', g' := SplitLeafHeap(h, a, b, ea, eb), SplitShape(g, a, b, eb[0].key);
    SplitLeaf(h, g, root, a, b, ea, eb);
    SplitLeafLocal(h, g, root, a, b, ea, eb);
    UpFacts(h, g, root, a);
    forall p | p in g' && p != q ensures SizeOk(h', root, leafMax, innerMax, p) {
      if p != a && p != b { assert SizeOk(h, root, leafMax, innerMax, p); }
    }
    assert forall e :: e in h[a].entries <==> e in ea || e in eb;
    Regrouped(h, g, h', g', a, b);
  }

  lemma SplitInnerStep(h: Heap, g: Shape, root: PageId, leafMax: nat, innerMax: nat, more: set<PageId>,
                       a: PageId, b: PageId, n: nat, k0: int)
    requires SplitInnerPre(h, g, root, a, b, n)
    requires SizedBut(h, g, root, leafMax, innerMax, {a} + more) && more <= {h[a].parent}
    requires h[a].max == innerMax && HalvesFit(h[a], n, |h[a].slots| - n)
    ensures var h', g' := SplitInnerHeap(h, a, b, n, k0), SplitShape(g, a, b, h[a].slots[n].key);
            && Core(h', g', root) && SizedBut(h', g', root, leafMax, innerMax, {h[a].parent})
               && SameEntries(h, g, h', g')
  {
    hide EntriesOk, SlotsOk, RangesOk, ParentsOk, HasChild, PageOk, InsertAfter;
    var q := h[a].parent;
    var h', g' := SplitInnerHeap(h, a, b, n, k0), SplitShape(g, a, b, h[a].slots[n].key);
    SplitInner(h, g, root, a, b, n, k0);
    SplitInnerFacts(h, g, root, a, b, n, k0);
    UpFacts(h, g, root, a);
    forall p | p in g' && p != q ensures SizeOk(h', root, leafMax, innerMax, p) {
      if p != a && p != b { assert SizeOk(h, root, leafMax, innerMax, p); }
    }
    SameLeaves(h, g, h', g');
  }

  lemma GrowStep(h: Heap, g: Shape, root: PageId, leafMax: nat, innerMax: nat, r: PageId, k0: int)
    requires Core(h, g, root) && SizedBut(h, g, root, leafMax, innerMax, {root}) && r >= 0 && r !in h
    ensures var h', g' := GrowHeap(h, root, r, innerMax, k0), GrowShape(g, root, r);
            && Core(h', g', r) && SizedBut(h', g', r, leafMax, innerMax, {root, r}) && SameEntries(h, g, h', g')
  {
    hide EntriesOk, SlotsOk, RangesOk, ParentsOk, HasChild, PageOk;
    var h', g' := GrowHeap(h, root, r, innerMax, k0), GrowShape(g, root, r);
    GrowRoot(h, g, root, r, innerMax, k0);
    forall p | p in g' && p != root && p != r ensures SizeOk(h', r, leafMax, innerMax, p) {
      assert SizeOk(h, root, leafMax, innerMax, p);
    }
    SameLeaves(h, g, h', g');
  }

  // ---------- borrows ----------

  lemma ShiftLeavesStep(h: Heap, g: Shape, root: PageId, leafMax: nat, innerMax: nat, x: PageId,
                        q: PageId, i: nat, a: PageId, b: PageId, ea: seq<Entry>, eb: seq<Entry>)
    requires ShiftLeavesPre(h, g, root, q, i, a, b, ea, eb)
    requires SizedBut(h, g, root, leafMax, innerMax, {x}) && (x == a || x == b)
    requires h[x].max == leafMax && h[a].max == h[b].max && HalvesFit(h[a], |ea|, |eb|)
    ensures a in g && b in g
    ensures var h', g' := ShiftLeavesHeap(h, q, i, a, b, ea, eb), ShiftShape(g, a, b, eb[0].key);
            WellFormed(h', g', root, leafMax, innerMax) && SameEntries(h, g, h', g')
  {
    hide EntriesOk, SlotsOk, RangesOk, ParentsOk, HasChild, PageOk;
    SiblingFacts(h, g, root, q, i, a, b);
    var h', g' := ShiftLeavesHeap(h, q, i, a, b, ea, eb), ShiftShape(g, a, b, eb[0].key);
    ShiftLeaves(h, g, root, q, i, a, b, ea, eb);
    forall p | p in g' ensures SizeOk(h', root, leafMax, innerMax, p) {
      if p != a && p != b { assert SizeOk(h, root, leafMax, innerMax, p); }
    }
    forall e ensures e in h[a].entries || e in h[b].entries <==> e in ea || e in eb {
      assert e in h[a].entries + h[b].entries <==> e in ea + eb;
    }
    Regrouped(h, g, h', g', a, b);
  }

  lemma ShiftInnersStep(h: Heap, g: Shape, root: PageId, leafMax: nat, innerMax: nat, x: PageId,
                        q: PageId, i: nat, a: PageId, b: PageId, n: nat, k0: int)
    requires InnerSiblings(h, g, root, q, i, a, b) && 0 < n < |h[a].slots| + |h[b].slots|
    requires SizedBut(h, g, root, leafMax, innerMax, {x}) && (x == a || x == b)
    requires h[x].max == innerMax && h[a].max == h[b].max && HalvesFit(h[a], n, |h[a].slots| + |h[b].slots| - n)
    ensures a in g && b in g
    ensures var h', g' := ShiftInnersHeap(h, q, i, a, b, n, k0), ShiftShape(g, a, b, Row(h, q, i, a, b)[n].key);
            WellFormed(h', g', root, leafMax, innerMax) && SameEntries(h, g, h', g')
  {
    hide EntriesOk, SlotsOk, RangesOk, ParentsOk, HasChild, PageOk;
    SiblingFacts(h, g, root, q, i, a, b);
    var h', g' := ShiftInnersHeap(h, q, i, a, b, n, k0), ShiftShape(g, a, b, Row(h, q, i, a, b)[n].key);
    ShiftInners(h, g, root, q, i, a, b, n, k0);
    ShiftInnersFacts(h, g, root, q, i, a, b, n, k0);
    forall p | p in g' ensures SizeOk(h', root, leafMax, innerMax, p) {
      if p != a && p != b { assert SizeOk(h, root, leafMax, innerMax, p); }
    }
    SameLeaves(h, g, h', g');
  }

  // ---------- merges ----------

  lemma MergeLeavesStep(h: Heap, g: Shape, root: PageId, leafMax: nat, innerMax: nat, x: PageId,
                        q: PageId, i: nat, a: PageId, b: PageId)
    requires MergeLeavesPre(h, g, root, q, i, a, b)
    requires SizedBut(h, g, root, leafMax, innerMax, {x}) && (x == a || x == b)
    requires h[a].max == leafMax && h[a].MinSize() <= |h[a].entries| + |h[b].entries| <= leafMax
    ensures a in g && b in g
    ensures var h', g' := MergeLeavesHeap(h, q, i, a, b), MergeShape(g, a, b);
            && Core(h', g', root) && SizedBut(h', g', root, leafMax, innerMax, {q}) && SameEntries(h, g, h', g')
  {
    hide EntriesOk, SlotsOk, RangesOk, ParentsOk, HasChild, PageOk;
    SiblingFacts(h, g, root, q, i, a, b);
    var h', g' := MergeLeavesHeap(h, q, i, a, b), MergeShape(g, a, b);
    MergeLeaves(h, g, root, q, i, a, b);
    forall p | p in g' && p != q ensures SizeOk(h', root, leafMax, innerMax, p) {
      if p != a { assert SizeOk(h, root, leafMax, innerMax, p); }
    }
    assert forall e :: e in h[a].entries + h[b].entries <==> e in h[a].entries || e in h[b].entries;
    Regrouped(h, g, h', g', a, b);
  }

  lemma MergeInnersStep(h: Heap, g: Shape, root: PageId, leafMax: nat, innerMax: nat, x: PageId,
                        q: PageId, i: nat, a: PageId, b: PageId)
    requires InnerSiblings(h, g, root, q, i, a, b)
    requires SizedBut(h, g, root, leafMax, innerMax, {x}) && (x == a || x == b)
    requires h[a].max == innerMax && h[a].MinSize() <= |h[a].slots| + |h[b].slots| <= innerMax
    ensures a in g && b in g
    ensures var h', g' := MergeInnersHeap(h, q, i, a, b), MergeShape(g, a, b);
            && Core(h', g', root) && SizedBut(h', g', root, leafMax, innerMax, {q}) && SameEntries(h, g, h', g')
  {
    hide EntriesOk, SlotsOk, RangesOk, ParentsOk, HasChild, PageOk;
    SiblingFacts(h, g, root, q, i, a, b);
    var h', g' := MergeInnersHeap(h, q, i, a, b), MergeShape(g, a, b);
    MergeInners(h, g, root, q, i, a, b);
    MergeInnersFacts(h, g, root, q, i, a, b);
    forall p | p in g' && p != q ensures SizeOk(h', root, leafMax, innerMax, p) {
      if p != a { assert SizeOk(h, root, leafMax, innerMax, p); }
    }
    SameLeaves(h, g, h', g');
  }

  lemma ShrinkStep(h: Heap, g: Shape, root: PageId, leafMax: nat, innerMax: nat)
    requires Core(h, g, root) && root in h && h[root].Inner? && |h[root].slots| == 1
    requires SizedBut(h, g, root, leafMax, innerMax, {root}) && leafMax >= 2 && innerMax >= 3
    ensures var c := h[root].slots[0].child;
            && c in g && c != root
            && WellFormed(ShrinkHeap(h, root, c), g - {root}, c, leafMax, innerMax)
            && SameEntries(h, g, ShrinkHeap(h, root, c), g - {root})
  {
    hide EntriesOk, SlotsOk, RangesOk, ParentsOk, HasChild, PageOk;
    var c := h[root].slots[0].child;
    ShrinkRoot(h, g, root);
    var h', g' := ShrinkHeap(h, root, c), g - {root};
    forall p | p in g' ensures SizeOk(h', c, leafMax, innerMax, p) {
      assert SizeOk(h, root, leafMax, innerMax, p);
    }
    SameLeaves(h, g, h', g');
  }

  /** Everything above only depends on the pages of the shape. */
  lemma StateAgrees(h: Heap, h': Heap, g: Shape, root: PageId, leafMax: nat, innerMax: nat, except: set<PageId>,
      m: map<int, RID>)
    requires Core(h, g, root) && SizedBut(h, g, root, leafMax, innerMax, except) && Represents(h, g, m)
    requires g.Keys <= h'.Keys && forall p :: p in g ==> h'[p] == h[p]
    ensures Core(h', g, root) && SizedBut(h', g, root, leafMax, innerMax, except) && Represents(h', g, m)
  {
    hide PageOk;
    CoreAgrees(h, h', g, root);
    forall p | p in g && p !in except ensures SizeOk(h', root, leafMax, innerMax, p) {
      assert SizeOk(h, root, leafMax, innerMax, p);
    }
    SameLeaves(h, g, h', g);
    RepresentsMoves(h, g, h', g, m);
  }
}
