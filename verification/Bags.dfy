/** Sequences seen as bags: mapping each element to several, and what does not depend on the order. */
module Bags {
  import opened Common

  predicate NoRepeats<T(==)>(s: seq<T>) {
    forall i, j :: 0 <= i < j < |s| ==> s[i] != s[j]
  }

  /** The results for every element, one after the other. */
  function FlatMap<A, B>(f: A -> seq<B>, s: seq<A>): seq<B> {
    if s == [] then [] else FlatMap(f, s[..|s| - 1]) + f(s[|s| - 1])
  }

  lemma FlatMapNone<A, B>(f: A -> seq<B>)
    ensures FlatMap(f, []) == []
  {
  }

  lemma FlatMapOneMore<A, B>(f: A -> seq<B>, s: seq<A>, a: A)
    ensures FlatMap(f, s + [a]) == FlatMap(f, s) + f(a)
  {
    assert (s + [a])[..|s|] == s;
  }

  lemma FlatMapSingle<A, B>(f: A -> seq<B>, a: A)
    ensures FlatMap(f, [a]) == f(a)
  {
    assert [a] == [] + [a];
    FlatMapOneMore(f, [], a);
  }

  lemma {:induction false} FlatMapConcat<A, B>(f: A -> seq<B>, s: seq<A>, t: seq<A>)
    ensures FlatMap(f, s + t) == FlatMap(f, s) + FlatMap(f, t)
  {
    if t == [] {
      assert s + t == s;
    } else {
      var front, last := t[..|t| - 1], t[|t| - 1];
      assert s + t == (s + front) + [last] && t == front + [last];
      FlatMapOneMore(f, s + front, last);
      FlatMapConcat(f, s, front);
    }
  }

  lemma {:induction false} FlatMapMember<A, B>(f: A -> seq<B>, s: seq<A>, b: B)
    ensures b in FlatMap(f, s) <==> exists a :: a in s && b in f(a)
  {
    if s != [] {
      var front, last := s[..|s| - 1], s[|s| - 1];
      FlatMapMember(f, front, b);
      assert forall a :: a in s <==> a in front || a == last;
    }
  }

  lemma WithoutOne<A>(s: seq<A>, k: nat)
    requires k < |s|
    ensures multiset(s) == multiset(Without(s, k)) + multiset{s[k]}
  {
    assert s == s[..k] + [s[k]] + s[k + 1..];
  }

  /** A permutation of `t` holds the last element of `t`; without it the rest is a permutation of the rest. */
  lemma Place<A>(s: seq<A>, t: seq<A>) returns (k: nat)
    requires multiset(s) == multiset(t) && t != []
    ensures k < |s| && s[k] == t[|t| - 1] && multiset(Without(s, k)) == multiset(t[..|t| - 1])
  {
    var front, last := t[..|t| - 1], t[|t| - 1];
    assert t == front + [last];
    assert last in multiset(s);
    k :| 0 <= k < |s| && s[k] == last;
    WithoutOne(s, k);
    assert multiset(t) == multiset(front) + multiset{last};
    assert multiset(Without(s, k)) == multiset(s) - multiset{last};
    assert multiset(front) == multiset(t) - multiset{last};
  }

  /** Taking out one element takes out its results. */
  lemma FlatMapWithout<A, B>(f: A -> seq<B>, s: seq<A>, k: nat)
    requires k < |s|
    ensures multiset(FlatMap(f, s)) == multiset(FlatMap(f, Without(s, k))) + multiset(f(s[k]))
  {
    hide FlatMap;
    var p, q, a := s[..k], s[k + 1..], s[k];
    FlatMapConcat(f, p + [a], q) by {
      assert s == (p + [a]) + q;
    }
    FlatMapOneMore(f, p, a);
    FlatMapConcat(f, p, q);
    assert s == (p + [a]) + q;
    Regroup(FlatMap(f, p), f(a), FlatMap(f, q));
  }

  lemma Regroup<B>(p: seq<B>, a: seq<B>, q: seq<B>)
    ensures multiset((p + a) + q) == multiset(p + q) + multiset(a)
  {
  }

  /** The bag of results depends on the bag of elements alone. */
  lemma {:induction false} FlatMapPermuted<A, B>(f: A -> seq<B>, s: seq<A>, t: seq<A>)
    requires multiset(s) == multiset(t)
    ensures multiset(FlatMap(f, s)) == multiset(FlatMap(f, t))
  {
    if t == [] {
      assert |s| == |multiset(s)| == |multiset(t)|;
    } else {
      var k := Place(s, t);
      FlatMapWithout(f, s, k);
      FlatMapPermuted(f, Without(s, k), t[..|t| - 1]);
    }
  }

  /** Two maps that give the same bag for every element. */
  lemma {:induction false} FlatMapAlike<A, B>(f: A -> seq<B>, g: A -> seq<B>, s: seq<A>)
    requires forall a :: a in s ==> multiset(f(a)) == multiset(g(a))
    ensures multiset(FlatMap(f, s)) == multiset(FlatMap(g, s))
  {
    if s != [] {
      var front := s[..|s| - 1];
      assert forall a :: a in front ==> a in s;
      assert s[|s| - 1] in s;
      FlatMapAlike(f, g, front);
    }
  }

  /** Two maps that agree on every element. */
  lemma {:induction false} FlatMapSame<A, B>(f: A -> seq<B>, g: A -> seq<B>, s: seq<A>)
    requires forall a :: a in s ==> f(a) == g(a)
    ensures FlatMap(f, s) == FlatMap(g, s)
  {
    if s != [] {
      var front := s[..|s| - 1];
      assert forall a :: a in front ==> a in s;
      assert s[|s| - 1] in s;
      FlatMapSame(f, g, front);
    }
  }

  function OnLeft<A, B, C>(g: (A, B) -> seq<C>, a: A): B -> seq<C> {
    b => g(a, b)
  }

  function OnRight<A, B, C>(g: (A, B) -> seq<C>, b: B): A -> seq<C> {
    a => g(a, b)
  }

  function ByRow<A, B, C>(g: (A, B) -> seq<C>, bs: seq<B>): A -> seq<C> {
    a => FlatMap(OnLeft(g, a), bs)
  }

  function ByColumn<A, B, C>(g: (A, B) -> seq<C>, as_: seq<A>): B -> seq<C> {
    b => FlatMap(OnRight(g, b), as_)
  }

  lemma NothingByRow<A, B, C>(g: (A, B) -> seq<C>, as_: seq<A>)
    ensures FlatMap(ByRow(g, []), as_) == []
  {
    if as_ != [] { NothingByRow(g, as_[..|as_| - 1]); }
  }

  lemma {:induction false} OneMoreColumn<A, B, C>(g: (A, B) -> seq<C>, as_: seq<A>, bs: seq<B>, b: B)
    ensures multiset(FlatMap(ByRow(g, bs + [b]), as_)) == multiset(FlatMap(ByRow(g, bs), as_))
            + multiset(ByColumn(g, as_)(b))
  {
    hide FlatMap;
    if as_ == [] {
      FlatMapNone(ByRow(g, bs));
      FlatMapNone(ByRow(g, bs + [b]));
      FlatMapNone(OnRight(g, b));
    } else {
      var front, a := as_[..|as_| - 1], as_[|as_| - 1];
      OneMoreColumn(g, front, bs, b);
      FlatMapOneMore(ByRow(g, bs), front, a);
      FlatMapOneMore(ByRow(g, bs + [b]), front, a);
      FlatMapOneMore(OnLeft(g, a), bs, b);
      assert ByRow(g, bs + [b])(a) == ByRow(g, bs)(a) + g(a, b);
      assert as_ == front + [a];
      FlatMapOneMore(OnRight(g, b), front, a);
      assert ByColumn(g, as_)(b) == ByColumn(g, front)(b) + g(a, b);
    }
  }

  /** Nested loops may be exchanged. */
  lemma {:induction false} Exchange<A, B, C>(g: (A, B) -> seq<C>, as_: seq<A>, bs: seq<B>)
    ensures multiset(FlatMap(ByRow(g, bs), as_)) == multiset(FlatMap(ByColumn(g, as_), bs))
  {
    if bs == [] {
      NothingByRow(g, as_);
    } else {
      var front, b := bs[..|bs| - 1], bs[|bs| - 1];
      assert bs == front + [b];
      Exchange(g, as_, front);
      OneMoreColumn(g, as_, front, b);
    }
  }

  // ---------- sums and sizes ----------

  function SumOf(ns: seq<int>): int {
    if ns == [] then 0 else SumOf(ns[..|ns| - 1]) + ns[|ns| - 1]
  }

  lemma {:induction false} SumConcat(s: seq<int>, t: seq<int>)
    ensures SumOf(s + t) == SumOf(s) + SumOf(t)
  {
    if t == [] {
      assert s + t == s;
    } else {
      assert (s + t)[..|s + t| - 1] == s + t[..|t| - 1];
      SumConcat(s, t[..|t| - 1]);
    }
  }

  lemma SumOneMore(s: seq<int>, n: int)
    ensures SumOf(s + [n]) == SumOf(s) + n
  {
    assert (s + [n])[..|s|] == s;
  }

  lemma SumMiddle(p: seq<int>, n: int, q: seq<int>)
    ensures SumOf((p + [n]) + q) == SumOf(p + q) + n
  {
    hide SumOf;
    SumConcat(p + [n], q);
    SumOneMore(p, n);
    SumConcat(p, q);
  }

  lemma SumWithout(s: seq<int>, k: nat)
    requires k < |s|
    ensures SumOf(s) == SumOf(Without(s, k)) + s[k]
  {
    hide SumOf;
    assert s == (s[..k] + [s[k]]) + s[k + 1..];
    SumMiddle(s[..k], s[k], s[k + 1..]);
  }

  lemma {:induction false} SumPermuted(s: seq<int>, t: seq<int>)
    requires multiset(s) == multiset(t)
    ensures SumOf(s) == SumOf(t)
  {
    if t == [] {
      assert |s| == |multiset(s)| == |multiset(t)|;
    } else {
      var k := Place(s, t);
      SumWithout(s, k);
      SumPermuted(Without(s, k), t[..|t| - 1]);
    }
  }

  /** Sequences without repetition and with the same elements are permutations of each other. */
  lemma SameElements<T>(s: seq<T>, t: seq<T>)
    requires NoRepeats(s) && NoRepeats(t) && forall x :: x in s <==> x in t
    ensures multiset(s) == multiset(t)
  {
    forall x
      ensures multiset(s)[x] == multiset(t)[x]
    {
      AtMostOnce(s, x);
      AtMostOnce(t, x);
    }
  }

  lemma {:induction false} AtMostOnce<T>(s: seq<T>, x: T)
    requires NoRepeats(s)
    ensures multiset(s)[x] == if x in s then 1 else 0
  {
    if s != [] {
      var front, last := s[..|s| - 1], s[|s| - 1];
      assert s == front + [last];
      assert NoRepeats(front) && last !in front;
      AtMostOnce(front, x);
    }
  }

  function Sizes<A, B>(f: A -> seq<B>, s: seq<A>): (sizes: seq<int>)
    ensures |sizes| == |s|
  {
    seq(|s|, k requires 0 <= k < |s| => |f(s[k])|)
  }

  lemma {:induction false} SizesAddUp<A, B>(f: A -> seq<B>, s: seq<A>)
    ensures SumOf(Sizes(f, s)) == |FlatMap(f, s)|
  {
    if s != [] {
      var n := |s| - 1;
      SizesAddUp(f, s[..n]);
      assert Sizes(f, s) == Sizes(f, s[..n]) + [|f(s[n])|];
      SumOneMore(Sizes(f, s[..n]), |f(s[n])|);
    }
  }

  /** Each element gives itself. */
  lemma {:induction false} FlatMapIdentity<A>(f: A -> seq<A>, s: seq<A>)
    requires forall k :: 0 <= k < |s| ==> f(s[k]) == [s[k]]
    ensures FlatMap(f, s) == s
  {
    hide FlatMap;
    if s == [] {
      FlatMapNone(f);
    } else {
      var n := |s| - 1;
      FlatMapIdentity(f, s[..n]);
      assert s == s[..n] + [s[n]];
      FlatMapOneMore(f, s[..n], s[n]);
    }
  }

  function Chained<A, B, C>(f: A -> seq<B>, g: B -> seq<C>): A -> seq<C> {
    a => FlatMap(g, f(a))
  }

  lemma {:induction false} FlatMapChained<A, B, C>(f: A -> seq<B>, g: B -> seq<C>, s: seq<A>)
    ensures FlatMap(g, FlatMap(f, s)) == FlatMap(Chained(f, g), s)
  {
    if s != [] {
      var n := |s| - 1;
      FlatMapChained(f, g, s[..n]);
      FlatMapConcat(g, FlatMap(f, s[..n]), f(s[n]));
    }
  }

  /** A map that leaves out some of the results of another gives fewer, unless it leaves out none. */
  lemma {:induction false} FlatMapFewer<A, B>(f: A -> seq<B>, g: A -> seq<B>, s: seq<A>)
    requires forall a :: a in s ==> f(a) == [] || f(a) == g(a)
    ensures |FlatMap(f, s)| <= |FlatMap(g, s)|
    ensures |FlatMap(f, s)| == |FlatMap(g, s)| ==> forall a :: a in s ==> f(a) == g(a)
  {
    if s != [] {
      var front, last := s[..|s| - 1], s[|s| - 1];
      assert last in s && forall a :: a in front ==> a in s;
      FlatMapFewer(f, g, front);
      assert forall a :: a in s ==> a in front || a == last;
    }
  }
}
