/** When the code as written still ends with a well-formed tree, and when no reading of the pages
    makes it one. */
module TreeSoundness {
  import opened Common
  import opened TreePages
  import opened TreeShape
  import opened TreeSteps
  import opened LeafSteps
  import opened InnerSteps
  import opened TreeUpdates
  import opened TreeInsertion
  import opened TreeFrames
  import opened TreeRemoval
  import opened TreeDefects
  import opened TreeWrecks

  /** Some assignment of responsibilities makes the pages a well-formed tree that holds `m`. */
  ghost predicate Sound(h: Heap, root: PageId, leafMax: nat, innerMax: nat, m: map<int, RID>) {
    exists g :: Holds(h, g, root, leafMax, innerMax, {}, m)
  }

  /** No stored key lies between the two separators. */
  ghost predicate NoneBetween(m: map<int, RID>, s: int, t: int) {
    forall k :: k in m ==> !(s <= k < t || t <= k < s)
  }

  // ---------- ranges ----------

  /** The page above `p` on the given level; it covers whatever `p` covers. */
  lemma {:induction false} Ancestor(h: Heap, g: Shape, root: PageId, p: PageId, level: nat) returns (y: PageId)
    requires Core(h, g, root) && p in g && root in g && g[p].level <= level <= g[root].level
    ensures y in g && g[y].level == level && forall k :: Within(g[p], k) ==> Within(g[y], k)
    decreases level - g[p].level
  {
    if g[p].level == level {
      y := p;
    } else {
      var i := PlaceInParent(h, g, root, p);
      BelowRoot(h, g, root, p);
      var q := h[p].parent;
      forall k | Within(g[p], k) ensures Within(g[q], k) {
        RangeInParent(h, g, root, p, k);
      }
      y := Ancestor(h, g, root, q, level);
    }
  }

  /** Every page covers a stored key. */
  lemma {:induction false} KeyInside(h: Heap, g: Shape, root: PageId, leafMax: nat, innerMax: nat, m: map<int, RID>,
      p: PageId) returns (k: int)
    requires Holds(h, g, root, leafMax, innerMax, {}, m) && leafMax >= 2 && p in g
    ensures k in m && Within(g[p], k)
    decreases g[p].level
  {
    assert PageOk(h, g, root, p);
    if h[p].Leaf? {
      SizeOf(h, g, root, leafMax, innerMax, {}, p);
      LeafFacts(h, g, root, p);
      k := h[p].entries[0].key;
      KeyHome(h, g, root, m, p, k);
      assert h[p].entries[0] in h[p].entries;
    } else {
      KidInside(h, g, root, p, 0);
      var c := h[p].slots[0].child;
      SomeKid(h, g, root, p, 0);
      AtChild(h[p].slots, 0, c);
      KidOf(h, g, root, p, c);
      k := KeyInside(h, g, root, leafMax, innerMax, m, c);
    }
  }

  /** The kids left and right of a separator, and what they cover next to it. */
  lemma AtSeparator(h: Heap, g: Shape, root: PageId, p: PageId, j: nat)
    requires Core(h, g, root) && p in g && h[p].Inner? && 1 <= j < |h[p].slots|
    ensures var ss := h[p].slots; var t := ss[j].key; var c := ss[j].child;
            && c in g && g[c].level == g[p].level - 1 && Within(g[c], t) && !Within(g[c], t - 1)
            && Within(g[p], t) && Within(g[p], t - 1)
  {
    InnerFacts(h, g, root, p);
    var ss := h[p].slots;
    SomeKid(h, g, root, p, j);
    assert KidRange(g, ss[j].child, g[p].level, LoAt(ss, g[p], j), HiAt(ss, g[p], j));
    assert j + 1 < |ss| ==> ss[j].key < ss[j + 1].key;
  }

  /** A key separates the kids of one page only. */
  lemma OneSeparator(h: Heap, g: Shape, root: PageId, p: PageId, j: nat, q: PageId, i: nat)
    requires Core(h, g, root) && p in g && q in g && h[p].Inner? && h[q].Inner?
    requires 1 <= j < |h[p].slots| && 1 <= i < |h[q].slots| && h[p].slots[j].key == h[q].slots[i].key
    ensures p == q && i == j
  {
    hide SlotsOk, RangesOk, EntriesOk, PageOk;
    var t := h[p].slots[j].key;
    AtSeparator(h, g, root, p, j);
    AtSeparator(h, g, root, q, i);
    RootCovers(h, g, root);
    BelowRoot(h, g, root, p);
    BelowRoot(h, g, root, q);
    if g[p].level < g[q].level {
      var y := Ancestor(h, g, root, p, g[q].level - 1);
      UniqueAtLevel(h, g, root, y, h[q].slots[i].child, t);
    } else if g[q].level < g[p].level {
      var y := Ancestor(h, g, root, q, g[p].level - 1);
      UniqueAtLevel(h, g, root, y, h[p].slots[j].child, t);
    } else {
      UniqueAtLevel(h, g, root, p, q, t);
      SeparatorsDiffer(h, g, root, p, i, j);
    }
  }

  lemma SeparatorsDiffer(h: Heap, g: Shape, root: PageId, p: PageId, i: nat, j: nat)
    requires Core(h, g, root) && p in g && h[p].Inner? && 1 <= i < |h[p].slots| && 1 <= j < |h[p].slots|
    requires h[p].slots[i].key == h[p].slots[j].key
    ensures i == j
  {
    InnerFacts(h, g, root, p);
  }

  // ---------- moving a border where no key lives ----------

  function MovedBound(b: Bound, t: int, s: int): Bound {
    if b == At(t) then At(s) else b
  }

  /** Every border at `t` moves to `s`. */
  ghost function MovedShape(g: Shape, t: int, s: int): Shape {
    map p | p in g :: Info(g[p].level, MovedBound(g[p].lo, t, s), MovedBound(g[p].hi, t, s))
  }

  /** The separator t between two kids of `q` was overwritten with `s`; no key lives between. */
  ghost predicate Shifted(h: Heap, g: Shape, root: PageId, leafMax: nat, innerMax: nat, m: map<int, RID>,
                          h': Heap, q: PageId, i: nat, b: PageId, s: int) {
    && Holds(h, g, root, leafMax, innerMax, {}, m) && leafMax >= 2 && q in g && b in g
       && StaleSeparator(h, h', q, i, b, s)
    && NoneBetween(m, s, h[q].slots[i + 1].key)
  }

  /** The separators of a page next to a moved border are on the right side of it, too. */
  lemma MovedBorder(h: Heap, g: Shape, root: PageId, leafMax: nat, innerMax: nat, m: map<int, RID>, p: PageId, t: int,
      s: int)
    requires Holds(h, g, root, leafMax, innerMax, {}, m) && leafMax >= 2 && p in g && h[p].Inner?
             && NoneBetween(m, s, t)
    ensures var info := MovedShape(g, t, s)[p];
            forall j :: 1 <= j < |h[p].slots| ==> Below(info.lo, h[p].slots[j].key) && Above(info.hi, h[p].slots[j].key)
  {
    InnerFacts(h, g, root, p);
    var ss := h[p].slots;
    var info := MovedShape(g, t, s)[p];
    forall j | 1 <= j < |ss| ensures Below(info.lo, ss[j].key) && Above(info.hi, ss[j].key) {
      KidInside(h, g, root, p, j - 1);
      KidInside(h, g, root, p, j);
      var k1 := KeyInside(h, g, root, leafMax, innerMax, m, ss[j - 1].child);
      var k2 := KeyInside(h, g, root, leafMax, innerMax, m, ss[j].child);
      assert KidRange(g, ss[j - 1].child, g[p].level, LoAt(ss, g[p], j - 1), HiAt(ss, g[p], j - 1));
      assert KidRange(g, ss[j].child, g[p].level, LoAt(ss, g[p], j), HiAt(ss, g[p], j));
      assert k1 < ss[j].key <= k2;
    }
  }

  /** The new separator fits between its neighbours. */
  lemma MovedFits(h: Heap, g: Shape, root: PageId, leafMax: nat, innerMax: nat, m: map<int, RID>, q: PageId, i: nat,
      s: int)
    requires Holds(h, g, root, leafMax, innerMax, {}, m) && leafMax >= 2 && q in g && h[q].Inner?
             && i + 1 < |h[q].slots|
    requires NoneBetween(m, s, h[q].slots[i + 1].key)
    ensures Below(LoAt(h[q].slots, g[q], i), s) && Above(HiAt(h[q].slots, g[q], i + 1), s)
  {
    InnerFacts(h, g, root, q);
    var ss := h[q].slots;
    KidInside(h, g, root, q, i);
    KidInside(h, g, root, q, i + 1);
    var k1 := KeyInside(h, g, root, leafMax, innerMax, m, ss[i].child);
    var k2 := KeyInside(h, g, root, leafMax, innerMax, m, ss[i + 1].child);
    assert KidRange(g, ss[i].child, g[q].level, LoAt(ss, g[q], i), HiAt(ss, g[q], i));
    assert KidRange(g, ss[i + 1].child, g[q].level, LoAt(ss, g[q], i + 1), HiAt(ss, g[q], i + 1));
  }

  lemma MovedLeaf(h: Heap, g: Shape, root: PageId, leafMax: nat, innerMax: nat, m: map<int, RID>,
                  h': Heap, q: PageId, i: nat, b: PageId, s: int, p: PageId)
    requires Shifted(h, g, root, leafMax, innerMax, m, h', q, i, b, s) && p in g && g[p].level == 0
    ensures PageOk(h', MovedShape(g, h[q].slots[i + 1].key, s), root, p)
  {
    var t := h[q].slots[i + 1].key;
    var g' := MovedShape(g, t, s);
    assert PageOk(h, g, root, p) && PageOk(h, g, root, q) && PageOk(h, g, root, b);
    forall e | e in h[p].entries ensures Within(g'[p], e.key) {
      KeyHome(h, g, root, m, p, e.key);
    }
    assert forall j :: 0 <= j < |h[p].entries| ==> h[p].entries[j] in h[p].entries;
    StillListed(h, g, root, h', q, i, b, s, p);
  }

  /** Parents still list their kids. */
  lemma StillListed(h: Heap, g: Shape, root: PageId, h': Heap, q: PageId, i: nat, b: PageId, s: int, p: PageId)
    requires Core(h, g, root) && StaleSeparator(h, h', q, i, b, s) && p in g
    ensures h'[p].parent == h[p].parent
    ensures p != root ==> h[p].parent in h' && h'[h[p].parent].Inner? && HasChild(h'[h[p].parent].slots, p)
  {
    UpFacts(h, g, root, p);
    if p != root {
      var x := h[p].parent;
      var j := ChildAt(h[x].slots, p);
      AtChild(h'[x].slots, j, p);
    }
  }

  lemma MovedInner(h: Heap, g: Shape, root: PageId, leafMax: nat, innerMax: nat, m: map<int, RID>,
                   h': Heap, q: PageId, i: nat, b: PageId, s: int, p: PageId)
    requires Shifted(h, g, root, leafMax, innerMax, m, h', q, i, b, s) && p in g && g[p].level > 0
    ensures PageOk(h', MovedShape(g, h[q].slots[i + 1].key, s), root, p)
  {
    var t := h[q].slots[i + 1].key;
    var g' := MovedShape(g, t, s);
    assert PageOk(h, g, root, p) && PageOk(h, g, root, q);
    StillListed(h, g, root, h', q, i, b, s, p);
    assert SlotsOk(h'[p].slots, g'[p]) by { MovedSlots(h, g, root, leafMax, innerMax, m, h', q, i, b, s, p); }
    forall j | 0 <= j < |h'[p].slots|
      ensures KidOk(h', g', p, g'[p].level - 1, h'[p].slots[j].child, LoAt(h'[p].slots, g'[p], j),
              HiAt(h'[p].slots, g'[p], j))
    {
      MovedKid(h, g, root, leafMax, innerMax, m, h', q, i, b, s, p, j);
    }
  }

  lemma SameSeparators(ss: seq<Slot>, ss': seq<Slot>, info: Info, info': Info)
    requires SlotsOk(ss, info) && |ss'| == |ss| && forall j :: 1 <= j < |ss| ==> ss'[j].key == ss[j].key
    requires forall j :: 1 <= j < |ss| ==> Below(info'.lo, ss[j].key) && Above(info'.hi, ss[j].key)
    ensures SlotsOk(ss', info')
  {
  }

  lemma OneOtherSeparator(ss: seq<Slot>, info: Info, i: nat, s: int, info': Info)
    requires SlotsOk(ss, info) && i + 1 < |ss|
    requires forall j :: 1 <= j < |ss| ==> Below(info'.lo, ss[j].key) && Above(info'.hi, ss[j].key)
    requires Below(LoAt(ss, info', i), s) && Above(HiAt(ss, info', i + 1), s)
    ensures SlotsOk(WithKey(ss, i + 1, s), info')
  {
    var ss' := WithKey(ss, i + 1, s);
    assert forall j :: 1 <= j <= i ==> ss[j].key <= ss[i].key;
    assert forall j :: i + 2 <= j < |ss| ==> ss[i + 2].key <= ss[j].key;
  }

  lemma MovedSlots(h: Heap, g: Shape, root: PageId, leafMax: nat, innerMax: nat, m: map<int, RID>,
                   h': Heap, q: PageId, i: nat, b: PageId, s: int, p: PageId)
    requires Shifted(h, g, root, leafMax, innerMax, m, h', q, i, b, s) && p in g && h[p].Inner? && p in h'
             && h'[p].Inner?
    ensures SlotsOk(h'[p].slots, MovedShape(g, h[q].slots[i + 1].key, s)[p])
  {
    hide SlotsOk, Core, SizedBut, Represents;
    var t := h[q].slots[i + 1].key;
    var info := MovedShape(g, t, s)[p];
    InnerFacts(h, g, root, p);
    MovedBorder(h, g, root, leafMax, innerMax, m, p, t, s);
    if p == q {
      MovedFits(h, g, root, leafMax, innerMax, m, q, i, s);
      SeparatorInside(h[q].slots, g[q], i + 1);
      assert info == g[q];
      OneOtherSeparator(h[q].slots, g[q], i, s, info);
    } else {
      SameSeparators(h[p].slots, h'[p].slots, g[p], info);
    }
  }

  lemma SeparatorInside(ss: seq<Slot>, info: Info, j: nat)
    requires SlotsOk(ss, info) && 1 <= j < |ss|
    ensures info.lo != At(ss[j].key) && info.hi != At(ss[j].key)
    ensures forall k :: 1 <= k < |ss| && k != j ==> ss[k].key != ss[j].key
  {
  }

  /** The borders of kid `j` move with the shape. */
  lemma MovedBounds(ss: seq<Slot>, ss': seq<Slot>, info: Info, j: nat, t: int, s: int, here: int)
    requires j < |ss| == |ss'| && (forall k :: 1 <= k < |ss| ==> (ss[k].key == t <==> k == here))
    requires forall k :: 1 <= k < |ss| ==> ss'[k].key == if k == here then s else ss[k].key
    ensures var info' := Info(info.level, MovedBound(info.lo, t, s), MovedBound(info.hi, t, s));
            LoAt(ss', info', j) == MovedBound(LoAt(ss, info, j), t, s)
              && HiAt(ss', info', j) == MovedBound(HiAt(ss, info, j), t, s)
  {
  }

  lemma MovedKid(h: Heap, g: Shape, root: PageId, leafMax: nat, innerMax: nat, m: map<int, RID>,
                 h': Heap, q: PageId, i: nat, b: PageId, s: int, p: PageId, j: nat)
    requires Shifted(h, g, root, leafMax, innerMax, m, h', q, i, b, s) && p in g && g[p].level > 0 && h[p].Inner?
    requires p in h' && h'[p].Inner? && |h'[p].slots| == |h[p].slots| && j < |h[p].slots|
    ensures var g' := MovedShape(g, h[q].slots[i + 1].key, s);
            KidOk(h', g', p, g[p].level - 1, h'[p].slots[j].child, LoAt(h'[p].slots, g'[p], j),
              HiAt(h'[p].slots, g'[p], j))
  {
    hide SlotsOk, Core, SizedBut, Represents, LoAt, HiAt;
    var ss := h[p].slots;
    var c := ss[j].child;
    var t := h[q].slots[i + 1].key;
    InnerFacts(h, g, root, p);
    SomeKid(h, g, root, p, j);
    AtChild(ss, j, c);
    assert KidRange(g, c, g[p].level, LoAt(ss, g[p], j), HiAt(ss, g[p], j));
    StillListed(h, g, root, h', q, i, b, s, c);
    forall k | 1 <= k < |ss| ensures ss[k].key == t <==> p == q && k == i + 1 {
      if ss[k].key == t { OneSeparator(h, g, root, p, k, q, i + 1); }
    }
    MovedBounds(ss, h'[p].slots, g[p], j, t, s, if p == q then i + 1 else -1);
  }

  /** A wrong separator that no key notices only moves the border. */
  lemma MovedHolds(h: Heap, g: Shape, root: PageId, leafMax: nat, innerMax: nat, m: map<int, RID>,
                   h': Heap, q: PageId, i: nat, b: PageId, s: int)
    requires Shifted(h, g, root, leafMax, innerMax, m, h', q, i, b, s)
    ensures Holds(h', MovedShape(g, h[q].slots[i + 1].key, s), root, leafMax, innerMax, {}, m)
  {
    hide PageOk;
    var g' := MovedShape(g, h[q].slots[i + 1].key, s);
    forall p | p in g' ensures PageOk(h', g', root, p) {
      if g[p].level == 0 { MovedLeaf(h, g, root, leafMax, innerMax, m, h', q, i, b, s, p); }
      else { MovedInner(h, g, root, leafMax, innerMax, m, h', q, i, b, s, p); }
    }
    forall p | p in g' ensures SizeOk(h', root, leafMax, innerMax, p) {
      assert SizeOk(h, root, leafMax, innerMax, p);
    }
    SameLeaves(h, g, h', g');
    RepresentsMoves(h, g, h', g', m);
  }

  // ---------- a border that cuts off keys ----------

  /** Two lookups of different lengths that both end in a leaf end in the same one. */
  lemma {:induction false} SameLeafFor(h: Heap, p: PageId, key: int, m: nat, n: nat)
    requires LeafFor(h, p, key, m) in h && h[LeafFor(h, p, key, m)].Leaf?
    requires LeafFor(h, p, key, n) in h && h[LeafFor(h, p, key, n)].Leaf?
    ensures LeafFor(h, p, key, m) == LeafFor(h, p, key, n)
    decreases m
  {
    if m > 0 && n > 0 && p in h && h[p].Inner? && h[p].slots != [] {
      SameLeafFor(h, h[p].slots[Route(h[p].slots, key)].child, key, m - 1, n - 1);
    }
  }

  /** If any stored key lies between, one lies between and within the two kids concerned. */
  lemma KeyCutOff(h: Heap, g: Shape, root: PageId, leafMax: nat, innerMax: nat, m: map<int, RID>, q: PageId, i: nat,
      s: int) returns (k: int)
    requires Holds(h, g, root, leafMax, innerMax, {}, m) && leafMax >= 2 && q in g && h[q].Inner?
             && i + 1 < |h[q].slots|
    requires !NoneBetween(m, s, h[q].slots[i + 1].key)
    ensures k in m && Within(g[q], k) && Between(h[q].slots, g[q], i, s, k)
  {
    InnerFacts(h, g, root, q);
    var ss := h[q].slots;
    var t := ss[i + 1].key;
    KidInside(h, g, root, q, i);
    KidInside(h, g, root, q, i + 1);
    var k1 := KeyInside(h, g, root, leafMax, innerMax, m, ss[i].child);
    var k2 := KeyInside(h, g, root, leafMax, innerMax, m, ss[i + 1].child);
    assert KidRange(g, ss[i].child, g[q].level, LoAt(ss, g[q], i), HiAt(ss, g[q], i));
    assert KidRange(g, ss[i + 1].child, g[q].level, LoAt(ss, g[q], i + 1), HiAt(ss, g[q], i + 1));
    SeparatorBounds(ss, g[q], i);
    k :| k in m && (s <= k < t || t <= k < s);
    if s < t {
      if !Leq(LoAt(ss, g[q], i), k) { k := k1; }
    } else {
      if !Above(g[q].hi, k) { k := k2; }
    }
  }

  lemma SeparatorBounds(ss: seq<Slot>, info: Info, i: nat)
    requires SlotsOk(ss, info) && i + 1 < |ss|
    ensures Below(LoAt(ss, info, i), ss[i + 1].key) && Above(HiAt(ss, info, i + 1), ss[i + 1].key)
            && Above(info.hi, ss[i + 1].key)
    ensures forall k :: Leq(LoAt(ss, info, i), k) ==> Leq(info.lo, k)
    ensures forall k :: Above(HiAt(ss, info, i + 1), k) ==> Above(info.hi, k)
  {
  }

  /** With the separator of `q` overwritten, the pages are a well-formed tree under some reading if and
      only if no stored key lies between the old separator and the new one. */
  lemma StaleExact(h: Heap, g: Shape, root: PageId, leafMax: nat, innerMax: nat, m: map<int, RID>,
                   h': Heap, q: PageId, i: nat, b: PageId, s: int)
    requires Holds(h, g, root, leafMax, innerMax, {}, m) && leafMax >= 2 && q in g && b in g
             && StaleSeparator(h, h', q, i, b, s)
    ensures Sound(h', root, leafMax, innerMax, m) <==> NoneBetween(m, s, h[q].slots[i + 1].key)
  {
    hide Core, SizedBut, Represents, Between;
    if NoneBetween(m, s, h[q].slots[i + 1].key) {
      MovedHolds(h, g, root, leafMax, innerMax, m, h', q, i, b, s);
    } else {
      var k := KeyCutOff(h, g, root, leafMax, innerMax, m, q, i, s);
      RootCovers(h, g, root);
      BelowRoot(h, g, root, q);
      WrongWay(h, g, root, h', q, i, b, s, root, k);
      var l := LeafFor(h', root, k, g[root].level);
      LeafFacts(h, g, root, l);
      forall g' ensures !Holds(h', g', root, leafMax, innerMax, {}, m) {
        if Holds(h', g', root, leafMax, innerMax, {}, m) {
          NotLostTwice(h, g, root, m, h', g', k, l);
        }
      }
    }
  }

  /** The leaf at which a lookup ends that finds its key covers it in every reading. */
  lemma NotLostTwice(h: Heap, g: Shape, root: PageId, m: map<int, RID>, h': Heap, g': Shape, k: int, l: PageId)
    requires Core(h, g, root) && Core(h', g', root) && Represents(h', g', m) && k in m
    requires l == LeafFor(h', root, k, g[root].level) && l in g && l in h && h[l].Leaf? && l in h' && h'[l] == h[l]
    ensures Within(g[l], k)
  {
    RootCovers(h', g', root);
    LookupCovers(h', g', root, root, k);
    LookupExact(h', g', root, m, k);
    SameLeafFor(h', root, k, g[root].level, g'[root].level);
    LeafFacts(h, g, root, l);
    var j :| 0 <= j < |h[l].entries| && h[l].entries[j].key == k;
  }

  // ---------- a parent pointer that leads astray ----------

  /** The pages with the parent pointers they should have. */
  ghost function Mended(h: Heap, astray: map<PageId, PageId>): (r: Heap)
    ensures r.Keys == h.Keys
  {
    map p | p in h :: if p in astray then WithParent(h[p], astray[p]) else h[p]
  }

  /** The pages with a wrong parent pointer belong to the tree, well below the given level. */
  ghost predicate Strayed(h: Heap, g: Shape, astray: map<PageId, PageId>, level: nat) {
    forall c :: c in astray ==> c in h && c in g && g[c].level + 2 <= level && h[c].parent != astray[c]
  }

  lemma NoStrays(h: Heap)
    ensures Mended(h, map[]) == h
  {
  }

  /** The pages list the same children, wherever their own parent pointers lead. */
  ghost predicate SameKids(h: Heap, h': Heap) {
    && h'.Keys == h.Keys
    && (forall p :: p in h ==> (h[p].Inner? <==> h'[p].Inner?))
    && (forall p :: p in h && h[p].Inner? ==> |h[p].slots| == |h'[p].slots|)
    && (forall p, j :: p in h && h[p].Inner? && 0 <= j < |h[p].slots| ==> h'[p].slots[j].child == h[p].slots[j].child)
  }

  /** Every page of one reading belongs to every other. */
  lemma {:induction false} AllReached(h: Heap, g: Shape, root: PageId, h': Heap, g': Shape, p: PageId)
    requires Core(h, g, root) && Core(h', g', root) && SameKids(h, h') && p in g && root in g
    ensures p in g'
    decreases g[root].level - g[p].level
  {
    BelowRoot(h, g, root, p);
    if p != root {
      var i := PlaceInParent(h, g, root, p);
      var q := h[p].parent;
      BelowRoot(h, g, root, q);
      AllReached(h, g, root, h', g', q);
      SomeKid(h', g', root, q, i);
    }
  }

  /** One wrong parent pointer spoils the tree for good. */
  lemma OnceAstray(h: Heap, g: Shape, root: PageId, h': Heap, leafMax: nat, innerMax: nat, m: map<int, RID>, c: PageId)
    requires Core(h, g, root) && SameKids(h, h') && root in g
    requires c in g && c != root && c in h' && h'[c].parent != h[c].parent
    ensures !Sound(h', root, leafMax, innerMax, m)
  {
    hide SizedBut, Represents;
    var i := PlaceInParent(h, g, root, c);
    var q := h[c].parent;
    forall g' ensures !Holds(h', g', root, leafMax, innerMax, {}, m) {
      if Core(h', g', root) {
        AllReached(h, g, root, h', g', q);
        InnerFacts(h', g', root, q);
        AtChild(h'[q].slots, i, c);
      }
    }
  }

  // ---------- the steps, on pages of which some have gone astray ----------

  /** Two internal neighbours below `q`, and their kids. */
  ghost predicate InnerPair(h: Heap, q: PageId, i: nat, a: PageId, b: PageId) {
    && a in h && b in h && q in h && a != b && a != q && b != q && h[a].Inner? && h[b].Inner? && h[q].Inner?
    && i + 1 < |h[q].slots| && 0 < |h[a].slots| <= h[a].max && 0 < |h[b].slots| <= h[b].max && h[a].max == h[b].max
    && (forall c :: HasChild(h[a].slots, c) || HasChild(h[b].slots, c) ==> c in h && c != a && c != b && c != q)
  }

  lemma PairOf(h: Heap, g: Shape, root: PageId, leafMax: nat, innerMax: nat, m: map<int, RID>,
               q: PageId, i: nat, a: PageId, b: PageId, x: PageId, astray: map<PageId, PageId>)
    requires Neighbours(Mended(h, astray), g, root, leafMax, innerMax, m, q, i, a, b, x) && Mended(h, astray)[x].Inner?
    requires Strayed(h, g, astray, g[x].level)
    ensures InnerPair(h, q, i, a, b)
    ensures a !in astray && b !in astray && q !in astray
    ensures forall c :: HasChild(h[a].slots, c) || HasChild(h[b].slots, c) ==> c !in astray
    ensures g[a].level == g[x].level && g[b].level == g[x].level && g[q].level == g[x].level + 1
  {
    hide HasChild, SlotsOk, RangesOk, EntriesOk, Represents, SizedBut;
    var hg := Mended(h, astray);
    SiblingFacts(hg, g, root, q, i, a, b);
    InnerFacts(hg, g, root, a);
    InnerFacts(hg, g, root, b);
    MergedKids(hg, g, root, q, i, a, b);
    RowFacts(hg, g, root, q, i, a, b);
  }

  lemma MendedFromLeft(h: Heap, q: PageId, i: nat, a: PageId, b: PageId, repaired: bool, h': Heap,
      astray: map<PageId, PageId>)
    requires FromLeft(h, q, i, a, b, repaired, h') && a !in astray && b !in astray && q !in astray
    requires h[a].slots[|h[a].slots| - 1].child !in astray
    ensures FromLeft(Mended(h, astray), q, i, a, b, repaired, Mended(h', astray))
  {
  }

  lemma MendedFromRight(h: Heap, q: PageId, i: nat, a: PageId, b: PageId, h': Heap, astray: map<PageId, PageId>)
    requires FromRight(h, q, i, a, b, h') && a !in astray && b !in astray && q !in astray
    requires h[b].slots[0].child !in astray
    ensures FromRight(Mended(h, astray), q, i, a, b, Mended(h', astray))
  {
  }

  /** The kids that a merge as written leaves behind. */
  ghost function LeftBehind(h: Heap, a: PageId, b: PageId): map<PageId, PageId>
    requires b in h && h[b].Inner?
  {
    map c | c in h && HasChild(h[b].slots, c) :: a
  }

  /** Mending the pages after a merge as written gives the merge as it should be. */
  lemma MendedMerge(h: Heap, q: PageId, i: nat, a: PageId, b: PageId, h': Heap, astray: map<PageId, PageId>)
    requires InnerPair(h, q, i, a, b) && a !in astray && b !in astray && q !in astray
    requires forall c :: HasChild(h[b].slots, c) ==> c !in astray
    requires h' == InnersMerged(h, q, i, a, b, false) || h' == InnersMerged(h, q, i, a, b, false) - {b}
    ensures var hg, hg' := Mended(h, astray), Mended(h', astray + LeftBehind(h, a, b));
            hg' == InnersMerged(hg, q, i, a, b, true) || hg' == InnersMerged(hg, q, i, a, b, true) - {b}
  {
    hide HasChild;
    var hg, more := Mended(h, astray), astray + LeftBehind(h, a, b);
    assert Mended(InnersMerged(h, q, i, a, b, false), more) == InnersMerged(hg, q, i, a, b, true);
  }

  lemma PairBeside(h: Heap, g: Shape, root: PageId, leafMax: nat, innerMax: nat, m: map<int, RID>,
                   q: PageId, index: nat, x: PageId, s: PageId, isLeft: bool, astray: map<PageId, PageId>)
    requires Beside(Mended(h, astray), g, root, leafMax, innerMax, m, q, index, x, s, isLeft)
             && Mended(h, astray)[x].Inner?
    requires Strayed(h, g, astray, g[x].level)
    ensures if isLeft then index > 0 && InnerPair(h, q, index - 1, s, x) else InnerPair(h, q, index, x, s)
    ensures x !in astray && s !in astray && q !in astray
    ensures forall c :: HasChild(h[x].slots, c) || HasChild(h[s].slots, c) ==> c !in astray
    ensures g[s].level == g[x].level && g[q].level == g[x].level + 1
  {
    hide HasChild, Neighbours, Strayed, InnerPair;
    if isLeft { PairOf(h, g, root, leafMax, innerMax, m, q, index - 1, s, x, x, astray); }
    else { PairOf(h, g, root, leafMax, innerMax, m, q, index, x, s, x, astray); }
    PairInner(h, q, if isLeft then index - 1 else index, if isLeft then s else x, if isLeft then x else s);
  }

  /** What the two neighbours and their parent look like. */
  lemma BesideFacts(h: Heap, g: Shape, root: PageId, leafMax: nat, innerMax: nat, m: map<int, RID>,
                    q: PageId, index: nat, x: PageId, s: PageId, isLeft: bool, astray: map<PageId, PageId>)
    requires Beside(Mended(h, astray), g, root, leafMax, innerMax, m, q, index, x, s, isLeft) && x in h && h[x].Inner?
    requires Strayed(h, g, astray, g[x].level) && x !in astray && s !in astray && q !in astray
    ensures x in h && s in h && q in h && x != s && x != q && s != q && s in g && q in g && x in g && root in g
            && root >= 0
    ensures h[s].Inner? && |h[s].slots| >= h[s].MinSize() && |h[s].slots| > 0 && |h[x].slots| > 0 && h[q].Inner?
    ensures g[x].level < g[q].level <= g[root].level
  {
    hide HasChild, InnerPair, Strayed, SizedBut, Represents;
    PairBeside(h, g, root, leafMax, innerMax, m, q, index, x, s, isLeft, astray);
    PairInner(h, q, if isLeft then index - 1 else index, if isLeft then s else x, if isLeft then x else s);
    PairSizes(h, q, if isLeft then index - 1 else index, if isLeft then s else x, if isLeft then x else s);
    RootCovers(Mended(h, astray), g, root);
    BelowRoot(Mended(h, astray), g, root, q);
  }

  lemma PairSizes(h: Heap, q: PageId, i: nat, a: PageId, b: PageId)
    requires InnerPair(h, q, i, a, b)
    ensures |h[a].slots| > 0 && |h[b].slots| > 0
  {
  }

  lemma PairInner(h: Heap, q: PageId, i: nat, a: PageId, b: PageId)
    requires InnerPair(h, q, i, a, b)
    ensures a in h && b in h && q in h && h[a].Inner? && h[b].Inner?
  {
  }

  lemma StillAstray(good: Heap, g: Shape, root: PageId, h: Heap, leafMax: nat, innerMax: nat, m: map<int, RID>,
      astray: map<PageId, PageId>)
    requires Core(good, g, root) && SameKids(good, h) && astray != map[]
    requires forall c :: c in astray ==> c in g && c != root && h[c].parent != good[c].parent
    ensures !Sound(h, root, leafMax, innerMax, m)
  {
    hide Sound;
    RootCovers(good, g, root);
    SomeStray(astray);
    var c :| c in astray;
    OnceAstray(good, g, root, h, leafMax, innerMax, m, c);
  }

  lemma SomeStray(astray: map<PageId, PageId>)
    requires astray != map[]
    ensures exists c :: c in astray
  {
    var none: map<PageId, PageId> := map[];
    assert (forall c :: c in astray <==> c in none) ==> astray == none;
  }

  lemma MendedKids(h: Heap, astray: map<PageId, PageId>)
    ensures SameKids(Mended(h, astray), h) && SamePages(Mended(h, astray), h)
  {
  }

  /** Where only parent pointers are wrong, everything can still be read. */
  lemma StrayedReadable(h: Heap, astray: map<PageId, PageId>, g: Shape, root: PageId, m: map<int, RID>)
    requires Core(Mended(h, astray), g, root) && Represents(Mended(h, astray), g, m)
    ensures Readable(h, g, root, m, Nothing())
  {
    hide Core, Represents, Readable, SameKids, SamePages;
    MendedKids(h, astray);
    ReadableWhole(Mended(h, astray), g, root, m);
    ReadableSame(Mended(h, astray), g, root, m, Nothing(), h);
  }

  /** Below the root, nobody is the root. */
  lemma StraysBelow(h: Heap, g: Shape, root: PageId, p: PageId, astray: map<PageId, PageId>)
    requires Core(Mended(h, astray), g, root) && p in g && Strayed(h, g, astray, g[p].level)
    ensures p !in astray && root !in astray && root in g
    ensures forall c :: c in astray ==> c in g && c in h && c != root && h[c].parent != Mended(h, astray)[c].parent
  {
    RootCovers(Mended(h, astray), g, root);
    BelowRoot(Mended(h, astray), g, root, p);
  }

  /** A borrow ends the rebalancing; this is what it leaves. */
  lemma BorrowedInner(h: Heap, g: Shape, root: PageId, leafMax: nat, innerMax: nat, m: map<int, RID>, q: PageId,
      index: nat,
                      x: PageId, s: PageId, isLeft: bool, repaired: bool, astray: map<PageId, PageId>, h': Heap)
                        returns (fine: bool, g': Shape)
    requires Beside(Mended(h, astray), g, root, leafMax, innerMax, m, q, index, x, s, isLeft)
             && Mended(h, astray)[x].Inner?
    requires Strayed(h, g, astray, g[x].level) && (repaired ==> astray == map[]) && |h[s].slots| > h[s].MinSize()
    requires if isLeft then FromLeft(h, q, index - 1, s, x, repaired, h') else FromRight(h, q, index, x, s, h')
    requires isLeft ==>
             x in h && h[x].parent == q && q in h && h[q].Inner? && index == ChildIndex(h[q].slots, x)
             && s == Sibling(h[q].slots, x)
    ensures fine ==> Holds(h', g', root, leafMax, innerMax, {}, m)
    ensures !fine ==> !Sound(h', root, leafMax, innerMax, m) && Wrecked(h, g, x, h', g', root, m)
    ensures fine <==> astray == map[]
                      && (repaired || !isLeft || NoneBetween(m, h[x].slots[0].key, h[s].slots[|h[s].slots| - 1].key))
    ensures Others(h, g, h')
  {
    hide HasChild, Core, SizedBut, Represents, Sound, Strayed, Neighbours, NoneBetween, FromLeft, FromRight, SameKids,
      Wrecked, Readable;
    PairBeside(h, g, root, leafMax, innerMax, m, q, index, x, s, isLeft, astray);
    LentKid(h, q, index, x, s, isLeft);
    if !isLeft || repaired {
      fine, g' := GoodBorrow(h, g, root, leafMax, innerMax, m, q, index, x, s, isLeft, repaired, astray, h');
      if !fine { WreckedOnlyParents(h, g, x, h', g', root, m); }
    } else {
      fine, g' := StaleBorrow(h, g, root, leafMax, innerMax, m, q, index, x, s, astray, h');
    }
    BorrowBystanders(h, g, root, leafMax, innerMax, m, q, index, x, s, isLeft, repaired, astray, h');
  }

  lemma LentKid(h: Heap, q: PageId, index: nat, x: PageId, s: PageId, isLeft: bool)
    requires if isLeft then index > 0 && InnerPair(h, q, index - 1, s, x) else InnerPair(h, q, index, x, s)
    ensures var c := h[s].slots[if isLeft then |h[s].slots| - 1 else 0].child; HasChild(h[s].slots, c)
  {
  }

  /** Pages outside a borrow keep their contents. */
  lemma BorrowOutside(h: Heap, q: PageId, index: nat, x: PageId, s: PageId, isLeft: bool, repaired: bool, h': Heap)
    requires if isLeft then index > 0 && FromLeft(h, q, index - 1, s, x, repaired, h')
             else FromRight(h, q, index, x, s, h')
    ensures h'.Keys == h.Keys
    ensures var lent := h[s].slots[if isLeft then |h[s].slots| - 1 else 0].child;
            forall c :: c in h && c != q && c != x && c != s && c != lent ==> h'[c] == h[c]
  {
  }

  /** The borrow as it should be: from the right, or repaired. */
  lemma GoodBorrow(h: Heap, g: Shape, root: PageId, leafMax: nat, innerMax: nat, m: map<int, RID>, q: PageId,
      index: nat,
                   x: PageId, s: PageId, isLeft: bool, repaired: bool, astray: map<PageId, PageId>, h': Heap)
                     returns (fine: bool, g': Shape)
    requires Beside(Mended(h, astray), g, root, leafMax, innerMax, m, q, index, x, s, isLeft)
             && Mended(h, astray)[x].Inner?
    requires Strayed(h, g, astray, g[x].level) && (!isLeft || repaired) && |h[s].slots| > h[s].MinSize()
    requires if isLeft then FromLeft(h, q, index - 1, s, x, repaired, h') else FromRight(h, q, index, x, s, h')
    ensures fine ==> Holds(h', g', root, leafMax, innerMax, {}, m)
    ensures !fine ==> !Sound(h', root, leafMax, innerMax, m) && Readable(h', g', root, m, Nothing())
    ensures fine <==> astray == map[]
  {
    hide HasChild, SizedBut, Represents, Sound, Strayed, FromLeft, FromRight, SameKids, SamePages, Core, ShiftShape,
      Readable;
    var hg, hg' := Mended(h, astray), Mended(h', astray);
    PairBeside(h, g, root, leafMax, innerMax, m, q, index, x, s, isLeft, astray);
    LentKid(h, q, index, x, s, isLeft);
    BorrowOutside(h, q, index, x, s, isLeft, repaired, h');
    if isLeft { MendedFromLeft(h, q, index - 1, s, x, repaired, h', astray); }
    else { MendedFromRight(h, q, index, x, s, h', astray); }
    var key := ShiftedInners(hg, g, root, leafMax, innerMax, m, q, index, x, s, isLeft, hg');
    g' := if isLeft then ShiftShape(g, s, x, key) else ShiftShape(g, x, s, key);
    fine := astray == map[];
    if fine {
      NoStrays(h');
    } else {
      StraysBelow(h, g, root, x, astray);
      MendedKids(h', astray);
      ShiftKeeps(g, if isLeft then s else x, if isLeft then x else s, key);
      StillAstray(hg', g', root, h', leafMax, innerMax, m, astray);
      StrayedReadable(h', astray, g', root, m);
    }
  }

  lemma ShiftKeeps(g: Shape, a: PageId, b: PageId, sep: int)
    requires a in g && b in g
    ensures ShiftShape(g, a, b, sep).Keys == g.Keys
  {
  }

  /** The borrow from the left as written. */
  lemma StaleBorrow(h: Heap, g: Shape, root: PageId, leafMax: nat, innerMax: nat, m: map<int, RID>, q: PageId,
      index: nat,
                    x: PageId, s: PageId, astray: map<PageId, PageId>, h': Heap) returns (fine: bool, g': Shape)
    requires Beside(Mended(h, astray), g, root, leafMax, innerMax, m, q, index, x, s, true)
             && Mended(h, astray)[x].Inner?
    requires Strayed(h, g, astray, g[x].level) && |h[s].slots| > h[s].MinSize()
    requires FromLeft(h, q, index - 1, s, x, false, h')
    requires x in h && h[x].parent == q && index == ChildIndex(h[q].slots, x) && s == Sibling(h[q].slots, x)
    ensures fine ==> Holds(h', g', root, leafMax, innerMax, {}, m)
    ensures !fine ==> !Sound(h', root, leafMax, innerMax, m) && Wrecked(h, g, x, h', g', root, m)
    ensures fine <==> astray == map[] && NoneBetween(m, h[x].slots[0].key, h[s].slots[|h[s].slots| - 1].key)
  {
    hide HasChild, SizedBut, Represents, Sound, Strayed, SameKids, Core, ShiftShape, InnerFromLeft, NoneBetween,
      StaleSeparator, Wrecked;
    var hg := Mended(h, astray);
    PairBeside(h, g, root, leafMax, innerMax, m, q, index, x, s, true, astray);
    LentKid(h, q, index, x, s, true);
    var good := InnerFromLeft(hg, q, index - 1, s, x, true);
    var key := ShiftedInners(hg, g, root, leafMax, innerMax, m, q, index, x, s, true, good);
    g' := ShiftShape(g, s, x, key);
    ShiftKeeps(g, s, x, key);
    var stale := h[x].slots[0].key;
    if astray == map[] {
      NoStrays(h);
      assert InnerSiblings(h, g, root, q, index - 1, s, x);
      StaleAfterBorrow(h, g, root, q, index - 1, s, x);
      StaleExact(good, g', root, leafMax, innerMax, m, h', q, index - 1, x, stale);
      fine := Sound(h', root, leafMax, innerMax, m);
    } else {
      fine := false;
      StraysBelow(h, g, root, x, astray);
      StaleKids(h, q, index, x, s, astray, h');
      StillAstray(good, g', root, h', leafMax, innerMax, m, astray);
    }
    if fine {
      g' := Reading(h', root, leafMax, innerMax, m);
    } else {
      StaleWreck(h, g, root, leafMax, innerMax, m, q, index, x, s, astray, h', g');
    }
  }

  /** What such a borrow leaves to be read. */
  lemma StaleWreck(h: Heap, g: Shape, root: PageId, leafMax: nat, innerMax: nat, m: map<int, RID>, q: PageId,
      index: nat,
                   x: PageId, s: PageId, astray: map<PageId, PageId>, h': Heap, g': Shape)
    requires Beside(Mended(h, astray), g, root, leafMax, innerMax, m, q, index, x, s, true)
             && Mended(h, astray)[x].Inner?
    requires Strayed(h, g, astray, g[x].level) && |h[s].slots| > h[s].MinSize()
    requires FromLeft(h, q, index - 1, s, x, false, h')
    requires x in h && h[x].parent == q && index == ChildIndex(h[q].slots, x) && s == Sibling(h[q].slots, x)
    requires FromLeft(Mended(h, astray), q, index - 1, s, x, true,
             InnerFromLeft(Mended(h, astray), q, index - 1, s, x, true))
    requires Holds(InnerFromLeft(Mended(h, astray), q, index - 1, s, x, true), g', root, leafMax, innerMax, {}, m)
             && g'.Keys == g.Keys
    ensures Wrecked(h, g, x, h', g', root, m)
  {
    hide HasChild, SizedBut, Represents, Strayed, Core, InnerFromLeft, StaleSeparator, Readable, SamePages, StalePair;
    var hg := Mended(h, astray);
    var good, worn := InnerFromLeft(hg, q, index - 1, s, x, true), InnerFromLeft(hg, q, index - 1, s, x, false);
    PairBeside(h, g, root, leafMax, innerMax, m, q, index, x, s, true, astray);
    LentKid(h, q, index, x, s, true);
    assert InnerSiblings(hg, g, root, q, index - 1, s, x);
    StaleAfterBorrow(hg, g, root, q, index - 1, s, x);
    BorrowOutside(hg, q, index, x, s, true, true, good);
    ReadableStale(good, g', root, m, worn, q, index - 1, x, h[x].slots[0].key);
    StalePagesOf(h, hg, q, index - 1, s, x);
    var lost := Lost(LoAt(good[q].slots, g'[q], index - 1), g'[q].hi, h[x].slots[0].key, good[q].slots[index].key);
    ReadableSame(worn, g', root, m, lost, h');
    assert StalePair(h, g, x, lost) by {
      hide *;
      StalePairHere(h, g, q, index, x, s, lost);
    }
    assert StaleFrom(h, g, x, lost);
  }

  lemma Reading(h: Heap, root: PageId, leafMax: nat, innerMax: nat, m: map<int, RID>) returns (g: Shape)
    requires Sound(h, root, leafMax, innerMax, m)
    ensures Holds(h, g, root, leafMax, innerMax, {}, m)
  {
    g :| Holds(h, g, root, leafMax, innerMax, {}, m);
  }

  lemma StaleKids(h: Heap, q: PageId, index: nat, x: PageId, s: PageId, astray: map<PageId, PageId>, h': Heap)
    requires index > 0 && InnerPair(h, q, index - 1, s, x) && FromLeft(h, q, index - 1, s, x, false, h')
    requires x !in astray && s !in astray && q !in astray && h[s].slots[|h[s].slots| - 1].child !in astray
    ensures var hg := Mended(h, astray);
            && FromLeft(hg, q, index - 1, s, x, true, InnerFromLeft(hg, q, index - 1, s, x, true))
            && SameKids(InnerFromLeft(hg, q, index - 1, s, x, true), h')
            && forall c :: c in astray && c in h ==>
                           h'[c] == h[c] && InnerFromLeft(hg, q, index - 1, s, x, true)[c] == hg[c]
  {
    hide HasChild, SameKids;
    var hg := Mended(h, astray);
    StaleKidsOf(h, hg, q, index - 1, s, x);
  }

  /** Wrong parent pointers and the stale key do not change who lists whom. */
  lemma StaleKidsOf(h: Heap, hg: Heap, q: PageId, i: nat, a: PageId, b: PageId)
    requires a in h && b in h && q in h && a != q && b != q && a != b && h[a].Inner? && h[b].Inner? && h[q].Inner?
    requires i + 1 < |h[q].slots| && |h[a].slots| > 0 && |h[b].slots| > 0 && h[a].slots[|h[a].slots| - 1].child in h
             && h.Keys == hg.Keys
    requires hg[q] == h[q] && hg[a] == h[a] && hg[b] == h[b] && forall p ::
             p in h ==> hg[p] == WithParent(h[p], hg[p].parent)
    ensures SameKids(InnerFromLeft(hg, q, i, a, b, true), InnerFromLeft(h, q, i, a, b, false))
  {
  }

  lemma StalePagesOf(h: Heap, hg: Heap, q: PageId, i: nat, a: PageId, b: PageId)
    requires a in h && b in h && q in h && a != q && b != q && a != b && h[a].Inner? && h[b].Inner? && h[q].Inner?
    requires i + 1 < |h[q].slots| && |h[a].slots| > 0 && |h[b].slots| > 0 && h[a].slots[|h[a].slots| - 1].child in h
             && h.Keys == hg.Keys
    requires hg[q] == h[q] && hg[a] == h[a] && hg[b] == h[b] && forall p ::
             p in h ==> hg[p] == WithParent(h[p], hg[p].parent)
    ensures SamePages(InnerFromLeft(hg, q, i, a, b, false), InnerFromLeft(h, q, i, a, b, false))
  {
  }

  lemma BorrowBystanders(h: Heap, g: Shape, root: PageId, leafMax: nat, innerMax: nat, m: map<int, RID>, q: PageId,
      index: nat,
                         x: PageId, s: PageId, isLeft: bool, repaired: bool, astray: map<PageId, PageId>, h': Heap)
    requires Beside(Mended(h, astray), g, root, leafMax, innerMax, m, q, index, x, s, isLeft)
             && Mended(h, astray)[x].Inner?
    requires Strayed(h, g, astray, g[x].level) && |h[s].slots| > h[s].MinSize()
    requires if isLeft then FromLeft(h, q, index - 1, s, x, repaired, h') else FromRight(h, q, index, x, s, h')
    ensures Others(h, g, h')
  {
    hide HasChild, Core, SizedBut, Represents, Strayed, FromLeft, FromRight;
    PairBeside(h, g, root, leafMax, innerMax, m, q, index, x, s, isLeft, astray);
    BorrowOutside(h, q, index, x, s, isLeft, repaired, h');
    var j := if isLeft then |h[s].slots| - 1 else 0;
    SomeKid(Mended(h, astray), g, root, s, j);
    OthersOf(h, g, h', {x, s, q, h[s].slots[j].child});
  }

  /** A merge goes on with the parent; as written, the kids of the right page stay behind. */
  lemma FoldedInner(h: Heap, g: Shape, root: PageId, leafMax: nat, innerMax: nat, m: map<int, RID>, q: PageId,
      index: nat,
                    x: PageId, s: PageId, isLeft: bool, repaired: bool, astray: map<PageId, PageId>, h': Heap)
                      returns (more: map<PageId, PageId>)
    requires Beside(Mended(h, astray), g, root, leafMax, innerMax, m, q, index, x, s, isLeft)
             && Mended(h, astray)[x].Inner?
    requires Strayed(h, g, astray, g[x].level) && (repaired ==> astray == map[]) && |h[s].slots| == h[s].MinSize()
    requires if isLeft then index > 0 && InnerPair(h, q, index - 1, s, x) else InnerPair(h, q, index, x, s)
    requires var r := if isLeft then InnersMerged(h, q, index - 1, s, x, repaired)
             else InnersMerged(h, q, index, x, s, repaired);
             h' == r || h' == r - {if isLeft then x else s}
    ensures var g' := if isLeft then MergeShape(g, s, x) else MergeShape(g, x, s);
            && Holds(Mended(h', more), g', root, leafMax, innerMax, {q}, m) && Strayed(h', g', more, g[q].level)
            && ParentLeft(h, h', g', q) && SameFor(g, g', q) && SameFor(g, g', root)
    ensures more == map[] <==> repaired
    ensures !repaired ==> KeptAbove(h, g, h', if isLeft then MergeShape(g, s, x) else MergeShape(g, x, s), q)
    ensures Others(h, g, h')
  {
    hide HasChild, Core, SizedBut, Represents, Strayed, InnersMerged, MergeShape, LeftBehind, KeptAbove;
    var hg := Mended(h, astray);
    var i, a, b := if isLeft then index - 1 else index, if isLeft then s else x, if isLeft then x else s;
    PairBeside(h, g, root, leafMax, innerMax, m, q, index, x, s, isLeft, astray);
    more := if repaired then astray else astray + LeftBehind(h, a, b);
    if repaired {
      NoStrays(h);
      NoStrays(h');
    } else {
      MendedMerge(h, q, i, a, b, h', astray);
    }
    MergedInners(hg, g, root, leafMax, innerMax, m, q, index, x, s, isLeft, Mended(h', more));
    FoldBystanders(h, g, root, leafMax, innerMax, m, q, i, a, b, x, repaired, astray, h');
  }

  /** What a merge writes. */
  lemma FoldWrites(h: Heap, q: PageId, i: nat, a: PageId, b: PageId, repaired: bool, h': Heap)
    requires InnerPair(h, q, i, a, b)
    requires h' == InnersMerged(h, q, i, a, b, repaired) || h' == InnersMerged(h, q, i, a, b, repaired) - {b}
    ensures h'.Keys <= h.Keys && forall p :: p in h && p != b ==> p in h'
    ensures forall p :: p in h && p != a && p != b && p != q ==>
                        h'[p] == if repaired && HasChild(h[b].slots, p) then WithParent(h[p], a) else h[p]
    ensures q in h' && h'[q] == WithSlots(h[q], RemoveAt(h[q].slots, i + 1))
  {
    hide HasChild;
  }

  lemma FoldBystanders(h: Heap, g: Shape, root: PageId, leafMax: nat, innerMax: nat, m: map<int, RID>, q: PageId,
      i: nat,
                       a: PageId, b: PageId, x: PageId, repaired: bool, astray: map<PageId, PageId>, h': Heap)
    requires Neighbours(Mended(h, astray), g, root, leafMax, innerMax, m, q, i, a, b, x) && Mended(h, astray)[x].Inner?
    requires Strayed(h, g, astray, g[x].level) && (repaired ==> astray == map[]) && InnerPair(h, q, i, a, b)
    requires h' == InnersMerged(h, q, i, a, b, repaired) || h' == InnersMerged(h, q, i, a, b, repaired) - {b}
    ensures Others(h, g, h')
    ensures var more := if repaired then astray else astray + LeftBehind(h, a, b);
            && Strayed(h', MergeShape(g, a, b), more, g[q].level) && (more == map[] <==> repaired)
    ensures ParentLeft(h, h', MergeShape(g, a, b), q)
    ensures !repaired ==> KeptAbove(h, g, h', MergeShape(g, a, b), q)
  {
    hide SizedBut, Represents, SlotsOk, RangesOk, EntriesOk, PageOk, HasChild, InnersMerged, InnerPair, Strayed,
      LeftBehind;
    var hg := Mended(h, astray);
    FoldWrites(h, q, i, a, b, repaired, h');
    PairOf(h, g, root, leafMax, innerMax, m, q, i, a, b, x, astray);
    PairInner(h, q, i, a, b);
    InnerFacts(hg, g, root, b);
    OthersOf(h, g, h', set p | p in g);
    if repaired { NoneStrayed(h', MergeShape(g, a, b), g[q].level); }
    else {
      MergeKeptAbove(h, g, h', q, i, a, b);
      FoldStrays(h, g, root, q, i, a, b, astray, h', g[x].level);
    }
  }

  lemma NoneStrayed(h: Heap, g: Shape, level: nat)
    ensures Strayed(h, g, map[], level)
  {
  }

  lemma FoldStrays(h: Heap, g: Shape, root: PageId, q: PageId, i: nat, a: PageId, b: PageId,
      astray: map<PageId, PageId>, h': Heap, level: nat)
    requires InnerPair(h, q, i, a, b) && Strayed(h, g, astray, level) && a in g && b in g && q in g
             && g[q].level == level + 1 && g[b].level == level
    requires forall p :: p in h && p != b ==> p in h'
    requires forall p :: p in h && p != a && p != b && p != q ==> h'[p] == h[p]
    requires a !in astray && b !in astray && q !in astray
    requires forall c :: HasChild(h[b].slots, c) ==>
                         c !in astray && c in g && Mended(h, astray)[c].parent == b && g[c].level + 1 == g[b].level
    ensures var more := astray + LeftBehind(h, a, b);
            Strayed(h', MergeShape(g, a, b), more, g[q].level) && more != map[]
  {
    hide HasChild;
    var more := astray + LeftBehind(h, a, b);
    AtChild(h[b].slots, 0, h[b].slots[0].child);
    assert h[b].slots[0].child in more;
  }

  // ---------- which removals spoil the tree ----------

  /** Rebalancing the internal page `x` as written spoils the tree: its neighbour is too small to lend a
      child, so the two are merged; or the neighbour on the left lends one, and some stored key lies
      between the key in the unread slot 0 of `x` and the last key of the neighbour. */
  ghost predicate SpoilsInner(h: Heap, x: PageId, m: map<int, RID>) {
    x in h && h[x].parent in h && h[h[x].parent].Inner? && h[x].Inner? && |h[x].slots| > 0 &&
    var ss := h[h[x].parent].slots;
    var s := Sibling(ss, x);
    s != INVALID_PAGE_ID && s in h && h[s].Inner? && |h[s].slots| > 0 &&
    (|h[s].slots| <= h[s].MinSize() ||
     (ChildIndex(ss, x) > 0 && !NoneBetween(m, h[x].slots[0].key, h[s].slots[|h[s].slots| - 1].key)))
  }

  /** The page `q` has just lost a child, and what follows spoils the tree. */
  ghost predicate SpoilsParent(h: Heap, root: PageId, q: PageId, m: map<int, RID>) {
    q in h && q != root && h[q].Count() < h[q].MinSize() && SpoilsInner(h, q, m)
  }

  /** The leaf `x` lacks an entry, and what follows spoils the tree: it is merged with a neighbour, and
      its parent gets too small. */
  ghost predicate SpoilsLeaf(h: Heap, root: PageId, x: PageId, m: map<int, RID>) {
    x in h && h[x].parent in h && h[h[x].parent].Inner? &&
    var q := h[x].parent;
    var s := Sibling(h[q].slots, x);
    s in h && h[s].Count() <= h[s].MinSize() && q != root && h[q].Count() <= h[q].MinSize() && SpoilsInner(h, q, m)
  }

  /** Removing `key` spoils the tree; `m` is what remains. */
  ghost predicate SpoilsRemoval(h: Heap, g: Shape, root: PageId, key: int, m: map<int, RID>) {
    exists x {:trigger SpoilsLeaf(h, root, x, m)} ::
      && x in g && x in h && x != root && h[x].Leaf? && Within(g[x], key) && HasKey(h[x].entries, key)
      && |h[x].entries| == h[x].MinSize() && SpoilsLeaf(h, root, x, m)
  }

  /** Only the pages at the level of `q` and above matter. */
  lemma SpoilsSame(h: Heap, g: Shape, root: PageId, q: PageId, h': Heap, m: map<int, RID>)
    requires Core(h, g, root) && q in g && q != root && h[q].Inner? && |h[q].slots| > 0
    requires q in h && q in h' && h'[q].Inner? && |h'[q].slots| > 0 && h'[q].parent == h[q].parent
             && h'[q].slots[0].key == h[q].slots[0].key
    requires forall p :: p in g && p != q && g[p].level >= g[q].level ==> p in h' && h'[p] == h[p]
    ensures SpoilsInner(h', q, m) <==> SpoilsInner(h, q, m)
  {
    hide SlotsOk, RangesOk, EntriesOk, SpoilsInner;
    UpFacts(h, g, root, q);
    var p := h[q].parent;
    var ss := h[p].slots;
    var k := PlaceInParent(h, g, root, q);
    InnerFacts(h, g, root, p);
    var j := if k > 0 then k - 1 else k + 1;
    if j < |ss| {
      SomeKid(h, g, root, p, j);
      LevelOfKid(h, g, root, p, j);
      OtherKid(g, ss, g[p], k, j);
    }
    hide Core;
    SpoilsLocal(h, h', q, m);
  }

  /** What the test reads: the page, its parent and its neighbour. */
  lemma SpoilsLocal(h: Heap, h': Heap, q: PageId, m: map<int, RID>)
    requires q in h && q in h' && h[q].Inner? && h'[q].Inner? && |h[q].slots| > 0 && |h'[q].slots| > 0
    requires h'[q].parent == h[q].parent && h'[q].slots[0].key == h[q].slots[0].key
    requires var p := h[q].parent; p in h && p in h' && h'[p] == h[p] && h[p].Inner?
    requires var s := Sibling(h[h[q].parent].slots, q); s != INVALID_PAGE_ID ==> s in h && s in h' && h'[s] == h[s]
    ensures SpoilsInner(h', q, m) <==> SpoilsInner(h, q, m)
  {
    hide NoneBetween;
  }

  lemma LevelOfKid(h: Heap, g: Shape, root: PageId, p: PageId, i: nat)
    requires Core(h, g, root) && p in g && h[p].Inner? && i < |h[p].slots|
    ensures var c := h[p].slots[i].child; c in g && g[c].level + 1 == g[p].level
  {
    AtChild(h[p].slots, i, h[p].slots[i].child);
    InnerFacts(h, g, root, p);
  }

  lemma OneLeaf(h: Heap, g: Shape, root: PageId, x: PageId, key: int)
    requires Core(h, g, root) && x in g && x in h && h[x].Leaf? && Within(g[x], key)
    ensures forall y :: y in g && y in h && h[y].Leaf? && Within(g[y], key) ==> y == x
  {
    hide SlotsOk, RangesOk, EntriesOk;
    LeafFacts(h, g, root, x);
    forall y | y in g && y in h && h[y].Leaf? && Within(g[y], key) ensures y == x {
      LeafFacts(h, g, root, y);
      UniqueAtLevel(h, g, root, x, y, key);
    }
  }

  /** The leaf that covers the key decides. */
  lemma SpoilsAtLeaf(h: Heap, g: Shape, root: PageId, leafMax: nat, innerMax: nat, m: map<int, RID>, x: PageId,
      key: int, m': map<int, RID>)
    requires Holds(h, g, root, leafMax, innerMax, {}, m) && x in g && h[x].Leaf? && Within(g[x], key) && x != root
    requires HasKey(h[x].entries, key) && |h[x].entries| == h[x].MinSize()
    ensures var h' := h[x := WithEntries(h[x], RemoveEntry(h[x].entries, key))];
            SpoilsRemoval(h, g, root, key, m') <==> SpoilsLeaf(h', root, x, m')
  {
    hide SizedBut, Represents, SpoilsInner, SlotsOk, RangesOk, EntriesOk;
    var h' := h[x := WithEntries(h[x], RemoveEntry(h[x].entries, key))];
    LeafFacts(h, g, root, x);
    UpFacts(h, g, root, x);
    var q := h[x].parent;
    var k := PlaceInParent(h, g, root, x);
    InnerFacts(h, g, root, q);
    if q != root { SpoilsSame(h, g, root, q, h', m'); }
    assert Sibling(h[q].slots, x) != x by {
      if k > 0 { OtherKid(g, h[q].slots, g[q], k, k - 1); }
      else if k + 1 < |h[q].slots| { OtherKid(g, h[q].slots, g[q], k, k + 1); }
    }
    assert SpoilsLeaf(h', root, x, m') <==> SpoilsLeaf(h, root, x, m');
    OneLeaf(h, g, root, x, key);
  }

  /** A removal that leaves its leaf large enough spoils nothing. */
  lemma SpoilsNothing(h: Heap, g: Shape, root: PageId, leafMax: nat, innerMax: nat, m: map<int, RID>, x: PageId,
      key: int, m': map<int, RID>)
    requires Holds(h, g, root, leafMax, innerMax, {}, m) && x in g && h[x].Leaf? && Within(g[x], key)
    requires x == root || !HasKey(h[x].entries, key) || |h[x].entries| != h[x].MinSize()
    ensures !SpoilsRemoval(h, g, root, key, m')
  {
    hide SizedBut, Represents, SpoilsInner;
    OneLeaf(h, g, root, x, key);
  }

  /** Merging the leaves `a` and `b` does not change what rebalancing their parent would do. */
  lemma SpoilsAfterMerge(h: Heap, g: Shape, root: PageId, leafMax: nat, innerMax: nat, m: map<int, RID>,
                         q: PageId, i: nat, a: PageId, b: PageId, x: PageId, h': Heap)
    requires Neighbours(h, g, root, leafMax, innerMax, m, q, i, a, b, x) && h[a].Leaf?
             && |h[a].entries| + |h[b].entries| == 2 * h[a].MinSize() - 1
    requires h' == LeavesMerged(h, q, i, a, b) || h' == LeavesMerged(h, q, i, a, b) - {b}
    ensures KeptAbove(h, g, h', MergeShape(g, a, b), q)
    ensures SpoilsParent(h', root, q, m) <==> q != root && h[q].Count() <= h[q].MinSize() && SpoilsInner(h, q, m)
  {
    hide SizedBut, Represents, SpoilsInner, SlotsOk, RangesOk, EntriesOk, KeptAbove;
    SiblingFacts(h, g, root, q, i, a, b);
    LeafFacts(h, g, root, a);
    LeafFacts(h, g, root, b);
    MergeKeptAbove(h, g, h', q, i, a, b);
    if q != root { SpoilsSame(h, g, root, q, h', m); }
  }

  lemma NoReading(h: Heap, g: Shape, root: PageId, leafMax: nat, innerMax: nat, m: map<int, RID>)
    requires !Sound(h, root, leafMax, innerMax, m)
    ensures !Holds(h, g, root, leafMax, innerMax, {}, m)
  {
  }

  /** What an underfull page looks at when it is to be rebalanced has not gone astray. */
  lemma InSight(h: Heap, g: Shape, root: PageId, leafMax: nat, innerMax: nat, m: map<int, RID>, x: PageId,
      astray: map<PageId, PageId>)
    requires Underfull(Mended(h, astray), g, root, leafMax, innerMax, m, x) && Strayed(h, g, astray, g[x].level)
    ensures x in h && x !in astray && h[x].parent in h && h[x].parent !in astray && h[h[x].parent].Inner?
    ensures Sibling(h[h[x].parent].slots, x) !in astray
  {
    hide SlotsOk, RangesOk, EntriesOk, HasChild, SizedBut, Represents;
    var hg := Mended(h, astray);
    HasSibling(hg, g, root, leafMax, innerMax, m, x);
    UpFacts(hg, g, root, x);
    var ss := hg[hg[x].parent].slots;
    var k := ChildIndex(ss, x);
    LevelOfKid(hg, g, root, hg[x].parent, if k > 0 then k - 1 else 1);
  }

  /** The guard, seen from the page itself. */
  lemma SpoilsHere(h: Heap, q: PageId, index: nat, x: PageId, s: PageId, isLeft: bool, m: map<int, RID>)
    requires x in h && q == h[x].parent && q in h && h[q].Inner? && s in h && s != INVALID_PAGE_ID
    requires index == ChildIndex(h[q].slots, x) && s == Sibling(h[q].slots, x) && (isLeft <==> index > 0)
    ensures h[x].Inner? && h[s].Inner? && |h[x].slots| > 0 && |h[s].slots| > 0 ==>
              (SpoilsInner(h, x, m) <==>
                 |h[s].slots| <= h[s].MinSize()
                   || (isLeft && !NoneBetween(m, h[x].slots[0].key, h[s].slots[|h[s].slots| - 1].key)))
  {
  }

  /** The parent is large enough after all. */
  lemma Settled(h: Heap, g: Shape, root: PageId, leafMax: nat, innerMax: nat, m: map<int, RID>, q: PageId,
      astray: map<PageId, PageId>) returns (fine: bool)
    requires Holds(Mended(h, astray), g, root, leafMax, innerMax, {q}, m) && q in g && Strayed(h, g, astray, g[q].level)
    requires SizeOk(h, root, leafMax, innerMax, q) && q !in astray
    ensures fine ==> Holds(h, g, root, leafMax, innerMax, {}, m)
    ensures !fine ==> !Sound(h, root, leafMax, innerMax, m) && Readable(h, g, root, m, Nothing())
    ensures fine <==> astray == map[]
  {
    hide Core, Represents, Strayed, Sound, SameKids, SamePages, Readable;
    var hg := Mended(h, astray);
    NowSized(hg, g, root, leafMax, innerMax, q);
    fine := astray == map[];
    if fine {
      NoStrays(h);
    } else {
      StraysBelow(h, g, root, q, astray);
      MendedKids(h, astray);
      StillAstray(hg, g, root, h, leafMax, innerMax, m, astray);
      StrayedReadable(h, astray, g, root, m);
    }
  }

  /** The root with a single kid is gone. */
  lemma Shrunk(h: Heap, g: Shape, root: PageId, leafMax: nat, innerMax: nat, m: map<int, RID>,
      astray: map<PageId, PageId>, h': Heap) returns (fine: bool)
    requires Holds(Mended(h, astray), g, root, leafMax, innerMax, {root}, m) && leafMax >= 2 && innerMax >= 3
    requires root in g && Strayed(h, g, astray, g[root].level) && root in h && h[root].Inner? && |h[root].slots| == 1
    requires var c := h[root].slots[0].child;
             && c in h && c != root && h'.Keys >= h.Keys - {root}
             && forall p :: p in h && p != root ==> p in h' && h'[p] == if p == c then WithParent(h[c], INVALID_PAGE_ID)
                else h[p]
    ensures var c := h[root].slots[0].child;
            && (fine ==> Holds(h', g - {root}, c, leafMax, innerMax, {}, m))
            && (!fine ==> !Sound(h', c, leafMax, innerMax, m) && Readable(h', g - {root}, c, m, Nothing()))
    ensures fine <==> astray == map[]
  {
    hide Core, SizedBut, Represents, Sound, SameKids, SamePages, HasChild, Readable;
    var hg, hg' := Mended(h, astray), Mended(h', astray);
    var c := h[root].slots[0].child;
    StraysBelow(h, g, root, root, astray);
    OnlyKidLevel(hg, g, root);
    ShrinkHolds(hg, g, root, leafMax, innerMax, m, hg');
    fine := astray == map[];
    if fine {
      NoStrays(h');
    } else {
      MendedKids(h', astray);
      StillAstray(hg', g - {root}, c, h', leafMax, innerMax, m, astray);
      StrayedReadable(h', astray, g - {root}, c, m);
    }
  }

  lemma OnlyKidLevel(h: Heap, g: Shape, root: PageId)
    requires Core(h, g, root) && root in h && h[root].Inner? && |h[root].slots| == 1
    ensures var c := h[root].slots[0].child; c in g && c in h && c != root && g[c].level + 1 == g[root].level
  {
    OnlyKidFacts(h, g, root, 0, 0);
    LevelOfKid(h, g, root, root, 0);
  }

  /** Merging leaves, for either neighbour: what the parent will do is what the leaf foretold. */
  lemma MergeSpoils(h: Heap, g: Shape, root: PageId, leafMax: nat, innerMax: nat, m: map<int, RID>,
                    q: PageId, index: nat, x: PageId, s: PageId, isLeft: bool, h': Heap)
    requires Beside(h, g, root, leafMax, innerMax, m, q, index, x, s, isLeft) && h[x].Leaf?
             && |h[s].entries| == h[s].MinSize()
    requires var r := if isLeft then LeavesMerged(h, q, index - 1, s, x) else LeavesMerged(h, q, index, x, s);
             h' == r || h' == r - {if isLeft then x else s}
    requires q == h[x].parent && s == Sibling(h[q].slots, x)
    ensures SpoilsParent(h', root, q, m) <==> SpoilsLeaf(h, root, x, m)
    ensures KeptAbove(h, g, h', if isLeft then MergeShape(g, s, x) else MergeShape(g, x, s), q)
  {
    hide Core, SizedBut, Represents, LeavesMerged, SpoilsInner, SpoilsParent, KeptAbove;
    assert h[s].Count() <= h[s].MinSize();
    if isLeft {
      SpoilsAfterMerge(h, g, root, leafMax, innerMax, m, q, index - 1, s, x, x, h');
    } else {
      SpoilsAfterMerge(h, g, root, leafMax, innerMax, m, q, index, x, s, x, h');
    }
  }
}
