/** Mapping that keeps or drops: which elements are kept, by their positions and in order. */
module Places {
  import opened Bags

  predicate Ascending(s: seq<nat>) {
    forall i, j :: 0 <= i < j < |s| ==> s[i] < s[j]
  }

  /** `places` are those where `f` makes something of `s`. */
  ghost predicate ArePicked<A, B>(f: A -> seq<B>, s: seq<A>, places: seq<nat>) {
    forall i: nat :: i in places <==> i < |s| && f(s[i]) != []
  }

  /** `out` holds what `f` makes of the elements at `places`, one each. */
  ghost predicate AreValues<A, B>(out: seq<B>, f: A -> seq<B>, s: seq<A>, places: seq<nat>) {
    |out| == |places| && forall k :: 0 <= k < |places| ==> places[k] < |s| && f(s[places[k]]) == [out[k]]
  }

  ghost predicate Picks<A, B>(out: seq<B>, f: A -> seq<B>, s: seq<A>, places: seq<nat>) {
    Ascending(places) && ArePicked(f, s, places) && AreValues(out, f, s, places)
  }

  lemma OnePlaceMore(places: seq<nat>, n: nat, more: bool)
    requires Ascending(places) && forall i :: i in places ==> i < n
    ensures var all := if more then places + [n] else places;
            Ascending(all) && forall i: nat :: i in all <==> i in places || (more && i == n)
  {
    assert forall k :: 0 <= k < |places| ==> places[k] in places;
  }

  lemma PickOneMore<A, B>(out: seq<B>, f: A -> seq<B>, s: seq<A>, places: seq<nat>, a: A)
    requires Picks(out, f, s, places) && |f(a)| <= 1
    ensures Picks(out + f(a), f, s + [a], if f(a) != [] then places + [|s|] else places)
  {
    hide Ascending, ArePicked, AreValues;
    PickedAfter(f, s, places, a);
    ValuesAfter(out, f, s, places, a);
  }

  lemma PickedAfter<A, B>(f: A -> seq<B>, s: seq<A>, places: seq<nat>, a: A)
    requires Ascending(places) && ArePicked(f, s, places)
    ensures var all := if f(a) != [] then places + [|s|] else places;
            Ascending(all) && ArePicked(f, s + [a], all)
  {
    hide Ascending;
    OnePlaceMore(places, |s|, f(a) != []);
    forall i: nat | i < |s + [a]| ensures (s + [a])[i] == if i < |s| then s[i] else a {
    }
  }

  lemma ValuesAfter<A, B>(out: seq<B>, f: A -> seq<B>, s: seq<A>, places: seq<nat>, a: A)
    requires AreValues(out, f, s, places) && |f(a)| <= 1
    ensures AreValues(out + f(a), f, s + [a], if f(a) != [] then places + [|s|] else places)
  {
    var all, out' := if f(a) != [] then places + [|s|] else places, out + f(a);
    forall k | 0 <= k < |all| ensures all[k] < |s + [a]| && f((s + [a])[all[k]]) == [out'[k]] {
      if k < |places| {
        assert (s + [a])[all[k]] == s[places[k]] && out'[k] == out[k];
      } else {
        assert f(a) == [f(a)[0]] && (s + [a])[|s|] == a;
      }
    }
  }

  /** Mapping by a function that makes at most one of each element. */
  lemma {:induction false} FlatMapPicks<A, B>(f: A -> seq<B>, s: seq<A>) returns (places: seq<nat>)
    requires forall a :: a in s ==> |f(a)| <= 1
    ensures Picks(FlatMap(f, s), f, s, places)
  {
    places := [];
    if s != [] {
      hide Picks;
      var front, a := s[..|s| - 1], s[|s| - 1];
      assert s == front + [a];
      places := FlatMapPicks(f, front);
      PickOneMore(FlatMap(f, front), f, front, places, a);
      places := if f(a) != [] then places + [|front|] else places;
    }
  }

  // ---------- pairs ----------

  /** Ordered by the first position, and for the same first position by the second. */
  predicate InOrder(places: seq<(nat, nat)>) {
    forall a, b :: 0 <= a < b < |places| ==>
      places[a].0 < places[b].0 || (places[a].0 == places[b].0 && places[a].1 < places[b].1)
  }

  ghost predicate PicksPairs<A, B, C>(out: seq<C>, f: A -> (B -> seq<C>), s: seq<A>, t: seq<B>,
      places: seq<(nat, nat)>) {
    && InOrder(places)
    && (forall i: nat, j: nat :: (i, j) in places <==> i < |s| && j < |t| && f(s[i])(t[j]) != [])
    && |out| == |places|
    && forall k :: 0 <= k < |places| ==>
         places[k].0 < |s| && places[k].1 < |t| && f(s[places[k].0])(t[places[k].1]) == [out[k]]
  }

  /** The pairs of one more outer element come behind all others. */
  lemma RowAdded(places: seq<(nat, nat)>, n: nat, inner: seq<nat>) returns (all: seq<(nat, nat)>)
    requires InOrder(places) && Ascending(inner) && forall i: nat, j: nat :: (i, j) in places ==> i < n
    ensures InOrder(all) && |all| == |places| + |inner| && all[..|places|] == places
    ensures forall k :: 0 <= k < |inner| ==> all[|places| + k] == (n, inner[k])
    ensures forall i: nat, j: nat :: (i, j) in all <==> (i, j) in places || (i == n && j in inner)
  {
    var last := seq(|inner|, k requires 0 <= k < |inner| => (n, inner[k]));
    all := places + last;
    forall a | 0 <= a < |places| ensures places[a].0 < n {
      assert places[a] in places && places[a] == (places[a].0, places[a].1);
    }
    forall i: nat, j: nat
      ensures (i, j) in last <==> i == n && j in inner
    {
      if i == n && j in inner {
        var k :| 0 <= k < |inner| && inner[k] == j;
        assert last[k] == (i, j);
      }
    }
  }

  lemma PairsOneMore<A, B, C>(out: seq<C>, f: A -> (B -> seq<C>), s: seq<A>, t: seq<B>, places: seq<(nat, nat)>, a: A,
      more: seq<C>, inner: seq<nat>) returns (all: seq<(nat, nat)>)
    requires PicksPairs(out, f, s, t, places) && Picks(more, f(a), t, inner)
    ensures PicksPairs(out + more, f, s + [a], t, all)
  {
    hide InOrder, Ascending;
    all := RowAdded(places, |s|, inner);
    var out' := out + more;
    forall k | 0 <= k < |all|
      ensures all[k].0 < |s + [a]| && all[k].1 < |t| && f((s + [a])[all[k].0])(t[all[k].1]) == [out'[k]]
    {
      if k < |places| {
        assert all[k] == all[..|places|][k] == places[k] && out'[k] == out[k];
      } else {
        assert all[|places| + (k - |places|)] == (|s|, inner[k - |places|]) && out'[k] == more[k - |places|];
      }
    }
  }

  lemma {:induction false} FlatMapPairs<A(!new), B(!new), C>(g: A -> seq<C>, f: A -> (B -> seq<C>), s: seq<A>,
      t: seq<B>) returns (places: seq<(nat, nat)>)
    requires forall a :: a in s ==> g(a) == FlatMap(f(a), t)
    requires forall a, b :: |f(a)(b)| <= 1
    ensures PicksPairs(FlatMap(g, s), f, s, t, places)
  {
    places := [];
    if s != [] {
      hide Picks, PicksPairs;
      var front, a := s[..|s| - 1], s[|s| - 1];
      assert s == front + [a] && a in s;
      places := FlatMapPairs(g, f, front, t);
      var inner := FlatMapPicks(f(a), t);
      places := PairsOneMore(FlatMap(g, front), f, front, t, places, a, g(a), inner);
    }
  }
}
