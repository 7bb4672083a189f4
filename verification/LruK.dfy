/** The LRU-K replacer: bounded histories and a scan for the victim, against the definition
    of the policy on the whole access trace. */
module LruK {
  import opened Common

  type FrameId = nat

  datatype FrameEntry = FrameEntry(history: seq<nat>, evictable: bool)

  // ---------- the policy, on the trace ----------

  /** The times at which `f` was accessed, from `since` on; an access happens at its index in the trace. */
  function Accesses<T(==)>(trace: seq<T>, f: T, since: nat): (r: seq<nat>)
    ensures forall i :: 0 <= i < |r| ==> since <= r[i] < |trace| && trace[r[i]] == f
    ensures forall i, j :: 0 <= i < j < |r| ==> r[i] < r[j]
    decreases |trace|
  {
    if |trace| <= since then []
    else
      var front := Accesses(trace[..|trace| - 1], f, since);
      if trace[|trace| - 1] == f then front + [|trace| - 1] else front
  }

  function Last(s: seq<nat>, k: nat): (r: seq<nat>)
    ensures |r| == if |s| < k then |s| else k
  {
    if |s| < k then s else s[|s| - k..]
  }

  /** `f` goes before `g`: fewer than k accesses count as infinitely distant, the earliest first access
      breaks ties among those; otherwise the earlier k-th most recent access is further away. */
  predicate GoesBefore<T(==)>(trace: seq<T>, born: map<T, nat>, k: nat, f: T, g: T)
    requires k >= 1 && f in born && g in born
  {
    var a, b := Accesses(trace, f, born[f]), Accesses(trace, g, born[g]);
    if |a| < k then |b| < k ==> a != [] && b != [] && a[0] < b[0]
    else |b| >= k && a[|a| - k] < b[|b| - k]
  }

  /** The victim that LRU-K chooses among the candidates. */
  ghost predicate IsVictim<T>(trace: seq<T>, born: map<T, nat>, k: nat, candidates: set<T>, f: T)
    requires k >= 1 && candidates <= born.Keys
  {
    f in candidates && forall g :: g in candidates && g != f ==> GoesBefore(trace, born, k, f, g)
  }

  /** There is only one such victim, so the order of the scan cannot matter. */
  lemma VictimUnique<T>(trace: seq<T>, born: map<T, nat>, k: nat, candidates: set<T>, f: T, g: T)
    requires k >= 1 && candidates <= born.Keys
    requires forall h :: h in candidates ==> Accesses(trace, h, born[h]) != []
    requires IsVictim(trace, born, k, candidates, f) && IsVictim(trace, born, k, candidates, g)
    ensures f == g
  {
    var fg, gf := GoesBefore(trace, born, k, f, g), GoesBefore(trace, born, k, g, f);
  }

  // ---------- histories ----------

  /** The same comparison on histories. */
  predicate HistoryBefore(a: seq<nat>, b: seq<nat>, k: nat) {
    a != [] && b != [] && if |a| < k then |b| < k ==> a[0] < b[0] else |b| >= k && a[0] < b[0]
  }

  /** The history of a frame: its last k accesses since it is tracked. */
  ghost predicate Remembers(history: seq<nat>, trace: seq<FrameId>, f: FrameId, since: nat, k: nat) {
    since <= |trace| && history == Last(Accesses(trace, f, since), k) && history != []
  }

  lemma StillRemembers(history: seq<nat>, trace: seq<FrameId>, f: FrameId, since: nat, k: nat, x: FrameId)
    requires Remembers(history, trace, f, since, k) && x != f
    ensures Remembers(history, trace + [x], f, since, k)
  {
    Recorded(trace, f, since, x);
  }

  lemma NowRemembers(history: seq<nat>, trace: seq<FrameId>, f: FrameId, since: nat, k: nat)
    requires k >= 1 && (Remembers(history, trace, f, since, k) || (history == [] && since == |trace|))
    ensures var h := history + [|trace|]; Remembers(if |h| > k then h[1..] else h, trace + [f], f, since, k)
  {
    Recorded(trace, f, since, f);
    LastPush(Accesses(trace, f, since), k, |trace|);
  }

  lemma Recorded<T>(trace: seq<T>, f: T, since: nat, x: T)
    requires since <= |trace|
    ensures Accesses(trace + [x], f, since) == Accesses(trace, f, since) + if x == f then [|trace|] else []
  {
    assert (trace + [x])[..|trace|] == trace;
  }

  lemma LastPush(s: seq<nat>, k: nat, x: nat)
    requires k >= 1
    ensures Last(s + [x], k) == if |Last(s, k)| + 1 > k then (Last(s, k) + [x])[1..] else Last(s, k) + [x]
  {
  }

  lemma OneLess(s: set<FrameId>, f: FrameId)
    requires f in s
    ensures |s - {f}| == |s| - 1 && |s| > 0
  {
    assert s == {f} + (s - {f});
  }

  class LRUKReplacer {
    const k: nat
    var entries: map<FrameId, FrameEntry>
    var size: nat
    var now: nat
    /** All accesses so far, and since when each tracked frame has been tracked. */
    ghost var trace: seq<FrameId>
    ghost var born: map<FrameId, nat>

    ghost predicate Valid()
      reads this
    {
      && k >= 1 && now == |trace| && born.Keys == entries.Keys
      && (forall f :: f in entries ==> Remembers(entries[f].history, trace, f, born[f], k))
      && size == |Evictable()|
    }

    ghost function Evictable(): set<FrameId>
      reads this
    {
      set f | f in entries && entries[f].evictable
    }

    constructor (k: nat)
      requires k >= 1
      ensures Valid() && entries == map[] && this.k == k && trace == []
    {
      this.k := k;
      entries, size, now := map[], 0, 0;
      trace, born := [], map[];
    }

    method Evict() returns (victim: Option<FrameId>)
      requires Valid()
      modifies this
      ensures Valid() && trace == old(trace)
      ensures victim.None? <==> old(Evictable()) == {}
      ensures victim.None? ==> entries == old(entries) && born == old(born)
      ensures victim.Some? ==>
              old(Evictable()) <= old(born).Keys && IsVictim(trace, old(born), k, old(Evictable()), victim.value)
      ensures victim.Some? ==> victim.value in old(Evictable())
      ensures victim.Some? ==> entries == old(entries) - {victim.value} && born == old(born) - {victim.value}
    {
      hide Remembers, IsVictim;
      if size == 0 {
        assert Evictable() == {};
        return None;
      }
      SomeEvictable();
      victim := Scan();
      var gone := victim.value;
      assert Evictable() == {gone} + (Evictable() - {gone});
      entries := entries - {gone};
      born := born - {gone};
      size := size - 1;
      assert Evictable() == old(Evictable()) - {gone};
    }

    /** The running best over the entries, which come in an arbitrary order. */
    method Scan() returns (best: Option<FrameId>)
      requires Valid()
      ensures best.None? <==> Evictable() == {}
      ensures best.Some? ==>
              best.value in Evictable() && Evictable() <= born.Keys && IsVictim(trace, born, k, Evictable(), best.value)
    {
      hide Remembers, IsVictim;
      var maxDistance, earliest, foundInf := 0, now, false;
      best := None;
      var todo := entries.Keys;
      while todo != {}
        invariant todo <= entries.Keys
        invariant best.None? ==> !foundInf && maxDistance == 0 && forall f :: f in Evictable() ==> f in todo
        invariant best.Some? ==> best.value in Evictable() && entries[best.value].history != []
        invariant best.Some? ==> (foundInf <==> |entries[best.value].history| < k)
        invariant best.Some? ==> if foundInf then earliest == entries[best.value].history[0]
                                 else maxDistance == now - entries[best.value].history[0]
        invariant best.Some? ==> forall g :: g in Evictable() && g !in todo && g != best.value ==>
                                   HistoryBefore(entries[best.value].history, entries[g].history, k)
      {
        var f :| f in todo;
        todo := todo - {f};
        FrontIsAccess(f);
        var entry := entries[f];
        if !entry.evictable {
          continue;
        }
        if best.Some? { FrontIsAccess(best.value); }
        if |entry.history| < k {
          if !foundInf {
            foundInf, best, earliest := true, Some(f), entry.history[0];
          } else if entry.history[0] < earliest {
            earliest, best := entry.history[0], Some(f);
          }
        } else if !foundInf {
          var distance := now - entry.history[0];
          if distance > maxDistance {
            maxDistance, best := distance, Some(f);
          }
        }
      }
      if best.Some? {
        BestIsVictim(best.value);
      } else {
        assert Evictable() == {};
      }
    }

    lemma SomeEvictable()
      requires Valid() && size > 0
      ensures exists f :: f in Evictable()
    {
      assert Evictable() != {};
    }

    /** The front of a history is the time of an access to that frame. */
    lemma FrontIsAccess(f: FrameId)
      requires Valid() && f in entries
      ensures entries[f].history != [] && entries[f].history[0] < now && trace[entries[f].history[0]] == f
    {
    }

    lemma BestIsVictim(f: FrameId)
      requires Valid() && f in Evictable()
      requires forall g :: g in Evictable() && g != f ==>
                 entries[f].history != [] && entries[g].history != []
                   && HistoryBefore(entries[f].history, entries[g].history, k)
      ensures Evictable() <= born.Keys && IsVictim(trace, born, k, Evictable(), f)
    {
      forall g | g in Evictable() && g != f ensures GoesBefore(trace, born, k, f, g) {
      }
    }

    method RecordAccess(f: FrameId)
      requires Valid()
      modifies this
      ensures Valid() && trace == old(trace) + [f] && f in entries
      ensures born == if f in old(entries) then old(born) else old(born)[f := |old(trace)|]
      ensures entries.Keys == old(entries).Keys + {f}
              && (forall g :: g in old(entries) && g != f ==> entries[g] == old(entries)[g])
      ensures entries[f].evictable == (f in old(entries) && old(entries)[f].evictable)
    {
      hide Remembers;
      var entry := if f in entries then entries[f] else FrameEntry([], false);
      var history := entry.history + [now];
      if |history| > k {
        history := history[1..];
      }
      born := if f in entries then born else born[f := now];
      trace := trace + [f];
      now := now + 1;
      entries := entries[f := entry.(history := history)];
      assert Evictable() == old(Evictable());
      NowRemembers(entry.history, old(trace), f, born[f], k);
      forall g | g in entries && g != f ensures Remembers(entries[g].history, trace, g, born[g], k) {
        StillRemembers(entries[g].history, old(trace), g, born[g], k, f);
      }
    }

    method SetEvictable(f: FrameId, evictable: bool)
      requires Valid()
      modifies this
      ensures Valid() && trace == old(trace) && born == old(born)
      ensures entries == if f in old(entries) then old(entries)[f := old(entries)[f].(evictable := evictable)]
              else old(entries)
    {
      hide Remembers;
      if f !in entries {
        return;
      }
      ghost var before := Evictable();
      if entries[f].evictable && !evictable {
        OneLess(before, f);
        size := size - 1;
      } else if !entries[f].evictable && evictable {
        size := size + 1;
      }
      entries := entries[f := entries[f].(evictable := evictable)];
      assert Evictable() == if evictable then before + {f} else before - {f};
    }

    /** Refuses frames that are not evictable, which `Remove` answers with an `OneBaseException`. */
    method Remove(f: FrameId) returns (ok: bool)
      requires Valid()
      modifies this
      ensures Valid() && trace == old(trace)
      ensures ok <==> f in old(entries) ==> old(entries)[f].evictable
      ensures entries == if ok then old(entries) - {f} else old(entries)
      ensures born == if ok then old(born) - {f} else old(born)
    {
      hide Remembers;
      if f !in entries {
        assert entries - {f} == entries && born - {f} == born;
        return true;
      }
      if !entries[f].evictable {
        return false;
      }
      assert Evictable() == {f} + (Evictable() - {f});
      size := size - 1;
      entries := entries - {f};
      born := born - {f};
      assert Evictable() == old(Evictable()) - {f};
      return true;
    }

    function Size(): (n: nat)
      requires Valid()
      reads this
      ensures n == |Evictable()|
    {
      size
    }
  }
}
