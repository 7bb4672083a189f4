/** A well-formed tree is low: the number of keys grows exponentially with the height. */
module TreeHeight {
  import opened Common
  import opened TreePages
  import opened TreeShape
  import opened TreeSteps
  import opened TreeUpdates
  import opened TreeInsertion
  import opened TreeRemoval

  function Pow(b: nat, e: nat): nat {
    if e == 0 then 1 else b * Pow(b, e - 1)
  }

  /** The least number of keys below a page `level` levels above the leaves. */
  function Share(leafMax: nat, innerMax: nat, level: nat): nat {
    Pow((innerMax + 1) / 2, level) * (leafMax / 2)
  }

  /** A page with enough kids has the share of the level above. */
  lemma ShareUp(leafMax: nat, innerMax: nat, level: nat, n: nat)
    requires level > 0 && n >= (innerMax + 1) / 2
    ensures n * Share(leafMax, innerMax, level - 1) >= Share(leafMax, innerMax, level)
  {
    var min, below := (innerMax + 1) / 2, Pow((innerMax + 1) / 2, level - 1);
    Regroup(min, below, leafMax / 2);
    Grows(n, min, below * (leafMax / 2));
  }

  lemma Grows(n: nat, k: nat, x: nat)
    requires n >= k
    ensures n * x >= k * x
  {
  }

  lemma Regroup(a: nat, b: nat, c: nat)
    ensures a * (b * c) == (a * b) * c
  {
  }

  ghost function KeysWithin(m: map<int, RID>, info: Info): set<int> {
    set k | k in m && Within(info, k)
  }

  /** Two adjacent ranges hold together what their union holds. */
  lemma KeysSplit(m: map<int, RID>, lo: Bound, mid: int, hi: Bound)
    requires hi.At? ==> mid <= hi.k
    requires lo.At? ==> lo.k <= mid
    requires lo != PosInf && hi != NegInf
    ensures |KeysWithin(m, Info(0, lo, hi))| == |KeysWithin(m, Info(0, lo, At(mid)))|
            + |KeysWithin(m, Info(0, At(mid), hi))|
  {
    var a, b := KeysWithin(m, Info(0, lo, At(mid))), KeysWithin(m, Info(0, At(mid), hi));
    assert KeysWithin(m, Info(0, lo, hi)) == a + b;
    assert a !! b;
  }

  lemma KeysLevel(m: map<int, RID>, info: Info)
    ensures KeysWithin(m, info) == KeysWithin(m, Info(0, info.lo, info.hi))
  {
  }

  /** A leaf holds as many keys of its range as it has entries. */
  lemma LeafKeys(h: Heap, g: Shape, root: PageId, m: map<int, RID>, p: PageId)
    requires Core(h, g, root) && Represents(h, g, m) && p in g && h[p].Leaf?
    ensures |KeysWithin(m, g[p])| == |h[p].entries|
  {
    LeafFacts(h, g, root, p);
    var es := h[p].entries;
    KeyCount(es, |es|);
    assert KeysWithin(m, g[p]) == set j | 0 <= j < |es| :: es[j].key by {
      forall k ensures k in KeysWithin(m, g[p]) <==> k in set j | 0 <= j < |es| :: es[j].key {
        if Within(g[p], k) {
          KeyHome(h, g, root, m, p, k);
        }
        if k in set j | 0 <= j < |es| :: es[j].key {
          var j :| 0 <= j < |es| && es[j].key == k;
        }
      }
    }
  }

  lemma {:induction false} KeyCount(es: seq<Entry>, n: nat)
    requires Sorted(es) && n <= |es|
    ensures |set j | 0 <= j < n :: es[j].key| == n
  {
    if n > 0 {
      KeyCount(es, n - 1);
      var before, last := set j | 0 <= j < n - 1 :: es[j].key, es[n - 1].key;
      assert last !in before;
      assert (set j | 0 <= j < n :: es[j].key) == before + {last};
    }
  }

  lemma {:induction false} SubtreeKeys(h: Heap, g: Shape, root: PageId, leafMax: nat, innerMax: nat, m: map<int, RID>,
      p: PageId)
    requires Holds(h, g, root, leafMax, innerMax, {}, m) && p in g && p != root
    ensures |KeysWithin(m, g[p])| >= Share(leafMax, innerMax, g[p].level)
    decreases g[p].level, 0
  {
    hide Share, EntriesOk, SizedBut, Represents;
    assert PageOk(h, g, root, p);
    SizeOf(h, g, root, leafMax, innerMax, {}, p);
    if g[p].level == 0 {
      LeafKeys(h, g, root, m, p);
      LeafShare(leafMax, innerMax);
    } else {
      InnerFacts(h, g, root, p);
      KidKeys(h, g, root, leafMax, innerMax, m, p, |h[p].slots|);
      KeysLevel(m, g[p]);
      ShareUp(leafMax, innerMax, g[p].level, |h[p].slots|);
    }
  }

  lemma LeafShare(leafMax: nat, innerMax: nat)
    ensures Share(leafMax, innerMax, 0) == leafMax / 2
  {
  }

  /** The first `n` kids hold their share each. */
  lemma {:induction false} KidKeys(h: Heap, g: Shape, root: PageId, leafMax: nat, innerMax: nat, m: map<int, RID>,
      p: PageId, n: nat)
    requires Holds(h, g, root, leafMax, innerMax, {}, m) && p in g && h[p].Inner? && 1 <= n <= |h[p].slots|
             && g[p].level > 0
    ensures |KeysWithin(m, Info(0, g[p].lo, HiAt(h[p].slots, g[p], n - 1)))| >= n * Share(leafMax, innerMax,
            g[p].level - 1)
    decreases g[p].level - 1, n
  {
    hide Share, SizedBut, Represents, KeysWithin, HasChild, ParentsOk;
    assert PageOk(h, g, root, p);
    var ss := h[p].slots;
    var c := ss[n - 1].child;
    assert KidOk(h, g, p, g[p].level - 1, c, LoAt(ss, g[p], n - 1), HiAt(ss, g[p], n - 1));
    AtChild(ss, n - 1, c);
    UpFacts(h, g, root, c);
    RangeNonEmpty(h, g, root, p);
    SubtreeKeys(h, g, root, leafMax, innerMax, m, c);
    KeysLevel(m, g[c]);
    if n > 1 {
      KidKeys(h, g, root, leafMax, innerMax, m, p, n - 1);
      KeysSplit(m, g[p].lo, ss[n - 1].key, HiAt(ss, g[p], n - 1));
      OneShareMore(n, Share(leafMax, innerMax, g[p].level - 1));
    }
  }

  lemma OneShareMore(n: nat, share: nat)
    requires n > 0
    ensures n * share == (n - 1) * share + share
  {
  }

  /** A tree of height h >= 2 holds at least 2 * ceil(M / 2)^(h - 2) * floor(L / 2) keys. */
  lemma HeightBound(h: Heap, g: Shape, root: PageId, leafMax: nat, innerMax: nat, m: map<int, RID>)
    requires Holds(h, g, root, leafMax, innerMax, {}, m) && root in g && g[root].level >= 1
    ensures |m| >= 2 * Share(leafMax, innerMax, g[root].level - 1)
  {
    hide Share, SizedBut, Represents;
    assert PageOk(h, g, root, root);
    SizeOf(h, g, root, leafMax, innerMax, {}, root);
    var n := |h[root].slots|;
    KidKeys(h, g, root, leafMax, innerMax, m, root, n);
    assert KeysWithin(m, Info(0, NegInf, PosInf)) == m.Keys;
    Grows(n, 2, Share(leafMax, innerMax, g[root].level - 1));
  }
}
