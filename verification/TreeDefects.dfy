/** What goes wrong in the code as written: the two internal rebalancing steps without their
    repair, and exactly which lookups they break. */
module TreeDefects {
  import opened Common
  import opened TreePages
  import opened TreeShape
  import opened TreeSteps
  import opened InnerSteps
  import opened TreeUpdates
  import opened TreeInsertion
  import opened TreeRemoval

  /** The leaf at which a lookup of `key` ends that starts at `p`, `level` levels above the leaves. */
  function LeafFor(h: Heap, p: PageId, key: int, level: nat): PageId
    decreases level
  {
    if level == 0 || p !in h || h[p].Leaf? || h[p].slots == [] then p
    else LeafFor(h, h[p].slots[Route(h[p].slots, key)].child, key, level - 1)
  }

  ghost predicate Finds(h: Heap, p: PageId, key: int, level: nat) {
    var l := LeafFor(h, p, key, level);
    l in h && h[l].Leaf? && HasKey(h[l].entries, key)
  }

  // ---------- lookups in a well-formed tree ----------

  lemma LookupStep(h: Heap, g: Shape, root: PageId, p: PageId, key: int)
    requires Core(h, g, root) && p in g && g[p].level > 0
    ensures p in h && h[p].Inner? && |h[p].slots| >= 1
    ensures var c := h[p].slots[Route(h[p].slots, key)].child;
            c in g && g[c].level == g[p].level - 1 && (Within(g[p], key) ==> Within(g[c], key))
  {
    assert PageOk(h, g, root, p);
    var r := Route(h[p].slots, key);
    assert KidOk(h, g, p, g[p].level - 1, h[p].slots[r].child, LoAt(h[p].slots, g[p], r), HiAt(h[p].slots, g[p], r));
    if Within(g[p], key) { RouteCovers(h, g, p, key); }
  }

  /** A lookup ends at the leaf that covers the key. */
  lemma {:induction false} LookupCovers(h: Heap, g: Shape, root: PageId, p: PageId, key: int)
    requires Core(h, g, root) && p in g && Within(g[p], key)
    ensures var l := LeafFor(h, p, key, g[p].level); l in g && l in h && h[l].Leaf? && Within(g[l], key)
    decreases g[p].level
  {
    assert PageOk(h, g, root, p);
    if g[p].level > 0 {
      LookupStep(h, g, root, p, key);
      LookupCovers(h, g, root, h[p].slots[Route(h[p].slots, key)].child, key);
    }
  }

  /** In a well-formed tree, lookups from the root find exactly the stored keys. */
  lemma LookupExact(h: Heap, g: Shape, root: PageId, m: map<int, RID>, key: int)
    requires Core(h, g, root) && Represents(h, g, m)
    ensures root in g && (Finds(h, root, key, g[root].level) <==> key in m)
  {
    RootCovers(h, g, root);
    LookupCovers(h, g, root, root, key);
    KeyHome(h, g, root, m, LeafFor(h, root, key, g[root].level), key);
  }

  // ---------- a borrow from the left, as written ----------

  /** `h'` is `h` but for the separator i + 1 of `q` and the unread slot-0 key of `b`. */
  ghost predicate StaleSeparator(h: Heap, h': Heap, q: PageId, i: nat, b: PageId, sep: int) {
    && q in h && b in h && q != b && h[q].Inner? && h[b].Inner? && i + 1 < |h[q].slots| && |h[b].slots| > 0
    && h'.Keys == h.Keys
    && h'[q] == WithSlots(h[q], WithKey(h[q].slots, i + 1, sep))
    && h'[b].Inner? && |h'[b].slots| > 0 && h'[b] == WithSlots(h[b], WithKey(h[b].slots, 0, h'[b].slots[0].key))
    && forall p :: p in h && p != q && p != b ==> h'[p] == h[p]
  }

  /** The keys of `q` that lie between the separator `s` and the right one, and reach the comparison. */
  ghost predicate Between(ss: seq<Slot>, info: Info, i: nat, s: int, key: int)
    requires i + 1 < |ss|
  {
    var t := ss[i + 1].key;
    Leq(LoAt(ss, info, i), key) && Above(info.hi, key) && (s <= key < t || t <= key < s)
  }

  lemma {:induction false} RouteSlotZero(ss: seq<Slot>, k: int, key: int, i: nat)
    requires i < |ss| && forall j :: 1 <= j <= i ==> ss[j].key <= key
    ensures RouteFrom(WithKey(ss, 0, k), key, i) == RouteFrom(ss, key, i)
    decreases |ss| - i
  {
    if i + 1 < |ss| && ss[i + 1].key <= key {
      RouteSlotZero(ss, k, key, i + 1);
    }
  }

  /** A wrong separator changes the route of exactly the keys between it and the right one. */
  lemma RouteStale(ss: seq<Slot>, info: Info, i: nat, s: int, key: int)
    requires SlotsOk(ss, info) && i + 1 < |ss| && Within(info, key)
    ensures Route(WithKey(ss, i + 1, s), key) == Route(ss, key) <==> !Between(ss, info, i, s, key)
  {
    RouteStaleFrom(ss, info, i, s, key, 0);
  }

  lemma {:induction false} RouteStaleFrom(ss: seq<Slot>, info: Info, i: nat, s: int, key: int, n: nat)
    requires SlotsOk(ss, info) && i + 1 < |ss| && Within(info, key) && n <= i
    requires forall j :: 1 <= j <= n ==> ss[j].key <= key
    ensures RouteFrom(WithKey(ss, i + 1, s), key, n) == RouteFrom(ss, key, n) <==> !Between(ss, info, i, s, key)
    decreases i - n
  {
    if n == i {
      RouteStaleAt(ss, info, i, s, key);
    } else if ss[n + 1].key <= key {
      RouteStaleFrom(ss, info, i, s, key, n + 1);
    } else {
      assert ss[n + 1].key <= ss[i].key < ss[i + 1].key;
    }
  }

  lemma RouteStaleAt(ss: seq<Slot>, info: Info, i: nat, s: int, key: int)
    requires i + 1 < |ss| && Within(info, key)
    requires forall j :: 1 <= j <= i ==> ss[j].key <= key
    ensures RouteFrom(WithKey(ss, i + 1, s), key, i) == RouteFrom(ss, key, i) <==> !Between(ss, info, i, s, key)
  {
    assert Leq(LoAt(ss, info, i), key);
    if s <= key && ss[i + 1].key <= key {
      RouteBeyond(ss, i, s, key, i + 1);
    }
  }

  lemma {:induction false} RouteBeyond(ss: seq<Slot>, i: nat, s: int, key: int, n: nat)
    requires i + 1 <= n < |ss| && s <= key
    requires forall j :: 1 <= j <= n ==> ss[j].key <= key
    ensures RouteFrom(WithKey(ss, i + 1, s), key, n) == RouteFrom(ss, key, n)
    decreases |ss| - n
  {
    if n + 1 < |ss| && ss[n + 1].key <= key {
      RouteBeyond(ss, i, s, key, n + 1);
    }
  }

  /** Away from `q`, a lookup takes the same step in both heaps. */
  lemma SameStep(h: Heap, h': Heap, q: PageId, i: nat, b: PageId, s: int, p: PageId, key: int)
    requires StaleSeparator(h, h', q, i, b, s) && p in h && p != q && h[p].Inner? && |h[p].slots| >= 1
    ensures h'[p].Inner? && |h'[p].slots| == |h[p].slots|
    ensures h'[p].slots[Route(h'[p].slots, key)].child == h[p].slots[Route(h[p].slots, key)].child
  {
    if p == b {
      RouteSlotZero(h[b].slots, h'[b].slots[0].key, key, 0);
    }
  }

  /** Keys that are not between the separators take the same step at `q`, too. */
  lemma SameTurn(h: Heap, g: Shape, root: PageId, h': Heap, q: PageId, i: nat, b: PageId, s: int, p: PageId, key: int)
    requires Core(h, g, root) && StaleSeparator(h, h', q, i, b, s) && p in g && q in g && Within(g[p], key)
             && g[p].level > 0
    requires Within(g[q], key) ==> !Between(h[q].slots, g[q], i, s, key)
    ensures p in h && h[p].Inner? && |h[p].slots| >= 1 && p in h' && h'[p].Inner? && |h'[p].slots| == |h[p].slots|
    ensures h'[p].slots[Route(h'[p].slots, key)].child == h[p].slots[Route(h[p].slots, key)].child
  {
    hide SlotsOk, Between, Route;
    LookupStep(h, g, root, p, key);
    if p == q {
      InnerFacts(h, g, root, q);
      RouteStale(h[q].slots, g[q], i, s, key);
    } else {
      SameStep(h, h', q, i, b, s, p, key);
    }
  }

  /** Keys that are not between the separators take the same way. */
  lemma {:induction false} SameWay(h: Heap, g: Shape, root: PageId, h': Heap, q: PageId, i: nat, b: PageId, s: int,
      p: PageId, key: int)
    requires Core(h, g, root) && StaleSeparator(h, h', q, i, b, s) && p in g && q in g && Within(g[p], key)
    requires Within(g[q], key) ==> !Between(h[q].slots, g[q], i, s, key)
    ensures LeafFor(h', p, key, g[p].level) == LeafFor(h, p, key, g[p].level)
    decreases g[p].level
  {
    hide SlotsOk, Between, Route, Core, StaleSeparator;
    if g[p].level > 0 {
      LookupStep(h, g, root, p, key);
      SameTurn(h, g, root, h', q, i, b, s, p, key);
      SameWay(h, g, root, h', q, i, b, s, h[p].slots[Route(h[p].slots, key)].child, key);
    }
  }

  /** Below `q`, a lookup stays inside the range of the page it starts from. */
  lemma {:induction false} StaysInRange(h: Heap, g: Shape, root: PageId, h': Heap, q: PageId, i: nat, b: PageId, s: int,
      p: PageId, key: int)
    requires Core(h, g, root) && StaleSeparator(h, h', q, i, b, s) && p in g && q in g && g[p].level < g[q].level
    ensures var l := LeafFor(h', p, key, g[p].level);
            l in g && l in h && h[l].Leaf? && forall k :: Within(g[l], k) ==> Within(g[p], k)
    decreases g[p].level
  {
    assert PageOk(h, g, root, p);
    if g[p].level > 0 {
      LookupStep(h, g, root, p, key);
      SameStep(h, h', q, i, b, s, p, key);
      var c := h[p].slots[Route(h[p].slots, key)].child;
      StaysInRange(h, g, root, h', q, i, b, s, c, key);
      KidInside(h, g, root, p, Route(h[p].slots, key));
    }
  }

  lemma KidInside(h: Heap, g: Shape, root: PageId, p: PageId, i: nat)
    requires Core(h, g, root) && p in g && p in h && h[p].Inner? && i < |h[p].slots|
    ensures var c := h[p].slots[i].child; c in g && forall k :: Within(g[c], k) ==> Within(g[p], k)
  {
    assert PageOk(h, g, root, p);
    var ss := h[p].slots;
    assert KidOk(h, g, p, g[p].level - 1, ss[i].child, LoAt(ss, g[p], i), HiAt(ss, g[p], i));
  }

  lemma WrongTurn(h: Heap, g: Shape, root: PageId, h': Heap, q: PageId, i: nat, b: PageId, s: int, key: int)
    requires Core(h, g, root) && StaleSeparator(h, h', q, i, b, s) && q in g && Within(g[q], key)
    requires Between(h[q].slots, g[q], i, s, key)
    ensures g[q].level > 0 && |h'[q].slots| == |h[q].slots|
    ensures var c := h[q].slots[Route(h'[q].slots, key)].child;
            c in g && g[c].level == g[q].level - 1 && !Within(g[c], key)
  {
    assert PageOk(h, g, root, q);
    var ss := h[q].slots;
    RouteStale(ss, g[q], i, s, key);
    RouteCovers(h, g, q, key);
    var r, r' := Route(ss, key), Route(h'[q].slots, key);
    KidRangesDisjoint(h, g, q, if r < r' then r else r', if r < r' then r' else r, key);
    assert KidOk(h, g, q, g[q].level - 1, ss[r'].child, LoAt(ss, g[q], r'), HiAt(ss, g[q], r'));
  }

  /** Keys between the separators are led into a subtree that does not cover them. */
  lemma {:induction false} WrongWay(h: Heap, g: Shape, root: PageId, h': Heap, q: PageId, i: nat, b: PageId, s: int,
      p: PageId, key: int)
    requires Core(h, g, root) && StaleSeparator(h, h', q, i, b, s) && p in g && q in g && Within(g[p], key)
    requires Within(g[q], key) && Between(h[q].slots, g[q], i, s, key) && g[q].level <= g[p].level
    ensures var l := LeafFor(h', p, key, g[p].level); l in g && l in h && h[l].Leaf? && !Within(g[l], key)
    decreases g[p].level
  {
    hide SlotsOk, EntriesOk, PageOk, Route, Between;
    WrongTurn(h, g, root, h', q, i, b, s, key);
    LookupStep(h, g, root, p, key);
    if g[p].level == g[q].level {
      UniqueAtLevel(h, g, root, p, q, key);
      StaysInRange(h, g, root, h', q, i, b, s, h[q].slots[Route(h'[q].slots, key)].child, key);
    } else {
      SameStep(h, h', q, i, b, s, p, key);
      WrongWay(h, g, root, h', q, i, b, s, h[p].slots[Route(h[p].slots, key)].child, key);
    }
  }

  /** With a wrong separator, lookups find exactly the stored keys that are not between. */
  lemma StaleLookups(h: Heap, g: Shape, root: PageId, m: map<int, RID>, h': Heap, q: PageId, i: nat, b: PageId, s: int,
      key: int)
    requires Core(h, g, root) && Represents(h, g, m) && StaleSeparator(h, h', q, i, b, s) && q in g
    ensures root in g
    ensures Finds(h', root, key, g[root].level) <==>
            key in m && !(Within(g[q], key) && Between(h[q].slots, g[q], i, s, key))
  {
    hide Between;
    RootCovers(h, g, root);
    if Within(g[q], key) && Between(h[q].slots, g[q], i, s, key) {
      BelowRoot(h, g, root, q);
      WrongWay(h, g, root, h', q, i, b, s, root, key);
      LeafFacts(h, g, root, LeafFor(h', root, key, g[root].level));
    } else {
      SameWay(h, g, root, h', q, i, b, s, root, key);
      LookupCovers(h, g, root, root, key);
      KeyHome(h, g, root, m, LeafFor(h, root, key, g[root].level), key);
    }
  }

  lemma StaleAfterBorrow(h: Heap, g: Shape, root: PageId, q: PageId, i: nat, a: PageId, b: PageId)
    requires InnerSiblings(h, g, root, q, i, a, b) && |h[a].slots| > 0 && a != b && a != q && b != q
    ensures h[a].slots[|h[a].slots| - 1].child in h
    ensures StaleSeparator(InnerFromLeft(h, q, i, a, b, true), InnerFromLeft(h, q, i, a, b, false), q, i, b,
            h[b].slots[0].key)
    ensures var hr := InnerFromLeft(h, q, i, a, b, true);
            hr[q] == WithSlots(h[q], WithKey(h[q].slots, i + 1, h[a].slots[|h[a].slots| - 1].key))
  {
    hide Core, HasChild, SlotsOk, RangesOk, ParentsOk;
    var n := |h[a].slots| - 1;
    RowFacts(h, g, root, q, i, a, b);
    SomeKid(h, g, root, a, n);
    AtChild(h[a].slots, n, h[a].slots[n].child);
  }

  lemma UpperRangeInside(ss: seq<Slot>, info: Info, i: nat, key: int)
    requires SlotsOk(ss, info) && i < |ss| && Leq(LoAt(ss, info, i), key)
    ensures Leq(info.lo, key)
  {
  }

  /** A borrow from the left as written: afterwards a stored key can still be found unless it lies
      between the stale slot-0 key of the recipient and the key of the donor's last slot. */
  lemma LeftBorrowAsWritten(h: Heap, g: Shape, root: PageId, leafMax: nat, innerMax: nat, m: map<int, RID>,
                            q: PageId, i: nat, a: PageId, b: PageId, key: int)
    requires Neighbours(h, g, root, leafMax, innerMax, m, q, i, a, b, b) && h[a].Inner? && |h[a].slots| > h[a].MinSize()
    ensures root in g && h[a].slots[|h[a].slots| - 1].child in h && |h[b].slots| > 0
    ensures var stale, right := h[b].slots[0].key, h[a].slots[|h[a].slots| - 1].key;
            Finds(InnerFromLeft(h, q, i, a, b, false), root, key, g[root].level) <==>
            key in m && !(Within(Info(0, g[a].lo, g[q].hi), key) && (stale <= key < right || right <= key < stale))
  {
    hide Core, SizedBut, Represents, HasChild, Route, RouteFrom, InnerFromLeft, SlotsOk, StaleSeparator, Finds;
    var n := |h[a].slots| - 1;
    var stale, right := h[b].slots[0].key, h[a].slots[n].key;
    StaleAfterBorrow(h, g, root, q, i, a, b);
    InnerFromLeftStep(h, g, root, leafMax, innerMax, m, q, i, a, b);
    var hr, gr := InnerFromLeft(h, q, i, a, b, true), ShiftShape(g, a, b, right);
    SiblingFacts(h, g, root, q, i, a, b);
    RootCovers(h, g, root);
    RootCovers(hr, gr, root);
    StaleLookups(hr, gr, root, m, InnerFromLeft(h, q, i, a, b, false), q, i, b, stale, key);
    if Within(Info(0, g[a].lo, g[q].hi), key) {
      UpperRangeInside(h[q].slots, g[q], i, key);
    }
  }

  // ---------- a merge, as written ----------

  /** A merge of internal pages as written leaves the moved kids with the parent pointer of the
      emptied page: the result is no well-formed tree, whatever the pages are held responsible for. */
  lemma MergeAsWritten(h: Heap, g: Shape, root: PageId, leafMax: nat, innerMax: nat, m: map<int, RID>,
                       q: PageId, i: nat, a: PageId, b: PageId, x: PageId, g': Shape)
    requires Neighbours(h, g, root, leafMax, innerMax, m, q, i, a, b, x) && h[a].Inner? && |h[b].slots| > 0
    requires a in g'
    ensures !Core(InnersMerged(h, q, i, a, b, false), g', root)
  {
    hide SizedBut, Represents, HasChild;
    var h' := InnersMerged(h, q, i, a, b, false);
    var c := h[b].slots[0].child;
    RowFacts(h, g, root, q, i, a, b);
    InnerFacts(h, g, root, b);
    AtChild(h[b].slots, 0, c);
    AtChild(h'[a].slots, |h[a].slots|, c);
    if Core(h', g', root) {
      InnerFacts(h', g', root, a);
    }
  }
}
