/** Any run of client calls on the pool is a run of a plain page store with a bounded number of
    pages in memory: the replies, refusals included, are those of the store. */
module PoolRuns {
  import opened Common
  import opened BufferPool
  import opened LruK

  datatype Call =
    | NewPage
    | Fetch(page: PageId)
    | Read(page: PageId)
    | Write(page: PageId, data: Data)
    | Unpin(page: PageId, isDirty: bool)
    | Flush(page: PageId)
    | FlushAll
    | Delete(page: PageId)

  datatype Reply = Refused | Done | Created(page: PageId) | Got(data: Data)

  /** The plain store: what each page that was created and not deleted holds, who is pinned, which
      pages are in memory, and which pages were changed and not yet reported or flushed. `log` lists the
      pages created and fetched so far, `since` the place in it at which a page last came into memory. */
  datatype Store = Store(data: map<PageId, Data>, pins: map<PageId, nat>, resident: set<PageId>, unsaved: set<PageId>,
    nextId: nat, log: seq<PageId>, since: map<PageId, nat>)

  const EMPTY := Store(map[], map[], {}, {}, 0, [], map[])

  function PinsOf(s: Store, p: PageId): nat {
    if p in s.pins then s.pins[p] else 0
  }

  ghost function Pinned(s: Store): set<PageId> {
    set p | p in s.resident && PinsOf(s, p) > 0
  }

  /** All of the `frames` places in memory are taken by pinned pages. */
  ghost predicate Full(s: Store, frames: nat) {
    |Pinned(s)| == frames
  }

  ghost function Unpinned(s: Store): set<PageId> {
    set p | p in s.resident && PinsOf(s, p) == 0
  }

  /** `e` is the page that LRU-K chooses among those that nobody has pinned, by the log. */
  ghost predicate IsLeastUseful(s: Store, k: nat, e: PageId)
    requires k >= 1
  {
    Unpinned(s) <= s.since.Keys && IsVictim(s.log, s.since, k, Unpinned(s), e)
  }

  /** `p` comes in; if memory is full, the LRU-K victim leaves. */
  ghost predicate ComesIn(s: Store, s': Store, frames: nat, k: nat, p: PageId)
    requires k >= 1
  {
    && s'.since == s.since[p := |s.log|]
    && if |s.resident| < frames then s'.resident == s.resident + {p}
       else exists e :: IsLeastUseful(s, k, e) && s'.resident == s.resident - {e} + {p}
  }

  /** Exactly when a call is refused. */
  ghost predicate Refuses(s: Store, frames: nat, call: Call) {
    match call
    case NewPage => Full(s, frames)
    case Fetch(p) => !(0 <= p < s.nextId) || (Full(s, frames) && p !in s.resident)
    case Read(p) => PinsOf(s, p) == 0
    case Write(p, _) => PinsOf(s, p) == 0
    case Unpin(p, isDirty) => PinsOf(s, p) == 0 || (PinsOf(s, p) == 1 && !isDirty && p in s.unsaved)
    case Flush(p) => p !in s.resident
    case FlushAll => false
    case Delete(p) => PinsOf(s, p) > 0
  }

  /** What the reply and the next state of the store are. */
  ghost predicate Step(s: Store, frames: nat, k: nat, call: Call, reply: Reply, s': Store)
    requires k >= 1
  {
    if Refuses(s, frames, call) then reply == Refused && s' == s
    else
      match call
      case NewPage =>
        && reply == Created(s.nextId)
        && s' == Store(s.data[s.nextId := Zeros()], s.pins[s.nextId := 1], s'.resident, s.unsaved, s.nextId + 1,
                       s.log + [s.nextId], s'.since)
        && ComesIn(s, s', frames, k, s.nextId)
      case Fetch(p) =>
        && reply == Done
        && s' == s.(pins := s.pins[p := PinsOf(s, p) + 1], resident := s'.resident, log := s.log + [p],
                    since := s'.since)
        && if p in s.resident then s'.resident == s.resident && s'.since == s.since
           else ComesIn(s, s', frames, k, p)
      case Read(p) => reply.Got? && (p in s.data ==> reply.data == s.data[p]) && s' == s
      case Write(p, data) =>
        reply == Done && s' == s.(data := if p in s.data then s.data[p := data] else s.data, unsaved := s.unsaved + {p})
      case Unpin(p, isDirty) =>
        && reply == Done
        && s' == s.(pins := s.pins[p := PinsOf(s, p) - 1], unsaved := if isDirty then s.unsaved - {p} else s.unsaved)
      case Flush(p) => reply == Done && s' == s.(unsaved := s.unsaved - {p})
      case FlushAll => reply == Done && s' == s.(unsaved := {})
      case Delete(p) => reply == Done && s' == s.(data := s.data - {p}, resident := s.resident - {p})
  }

  /** The pool is in the state the store describes. */
  ghost predicate Agrees(v: View, s: Store) {
    && s.nextId == v.nextId && s.resident == v.table.Keys && v.touched <= s.unsaved
    && (forall p :: PinsOf(s, p) == Pins(v, p))
    && (forall p :: p in s.data ==> 0 <= p < v.nextId && Content(v, p) == s.data[p])
  }

  lemma FullIsAllPinned(v: View, s: Store)
    requires OkBut(v, {}) && Agrees(v, s)
    ensures Full(s, |v.fs|) <==> AllPinned(v)
    ensures |s.resident| < |v.fs| <==> v.free != []
    ensures |s.resident| <= |v.fs|
  {
    AllPinnedCount(v);
    assert Pinned(s) == PinnedPages(v);
  }

  /** The accesses to frames that the replacer has recorded are those to the pages in the log. */
  ghost predicate Logged(trace: seq<FrameId>, born: map<FrameId, nat>, table: map<PageId, FrameId>, s: Store) {
    && |trace| == |s.log|
    && forall p :: p in table ==>
         && table[p] in born && p in s.since && s.since[p] == born[table[p]]
         && Accesses(trace, table[p], born[table[p]]) == Accesses(s.log, p, s.since[p])
  }

  ghost predicate InStep(pool: BufferPoolManager, s: Store)
    reads pool, pool.frames, pool.replacer
  {
    Agrees(pool.V(), s) && Logged(pool.replacer.trace, pool.replacer.born, pool.table, s)
  }

  lemma HitLogged(v: View, trace: seq<FrameId>, born: map<FrameId, nat>, s: Store, p: PageId, s': Store)
    requires OkBut(v, {}) && Logged(trace, born, v.table, s) && p in v.table
    requires s'.log == s.log + [p] && s'.since == s.since
    requires forall f :: f in born ==> born[f] <= |trace|
    ensures Logged(trace + [v.table[p]], born, v.table, s')
  {
    hide OkBut;
    var f := v.table[p];
    forall q | q in v.table
      ensures Accesses(trace + [f], v.table[q], born[v.table[q]]) == Accesses(s'.log, q, s'.since[q])
    {
      OneFrameEach(v, p, q);
      Recorded(trace, v.table[q], born[v.table[q]], f);
      Recorded(s.log, q, s.since[q], p);
    }
  }

  /** Two pages are not in the same frame. */
  lemma OneFrameEach(v: View, p: PageId, q: PageId)
    requires OkBut(v, {}) && p in v.table && q in v.table
    ensures v.table[p] == v.table[q] <==> p == q
  {
  }

  lemma LoadLogged(v: View, trace: seq<FrameId>, born: map<FrameId, nat>, s: Store, table: map<PageId, FrameId>,
      p: PageId, s': Store)
    requires OkBut(v, {}) && Logged(trace, born, v.table, s) && p !in v.table && Loaded(v, table, p)
    requires s'.log == s.log + [p] && s'.since == s.since[p := |s.log|]
    requires forall f :: f in born ==> born[f] <= |trace|
    ensures p in table && Logged(trace + [table[p]], born[table[p] := |trace|], table, s')
  {
    hide OkBut;
    var f := table[p];
    OthersStay(v, table, p);
    Recorded(trace, f, |trace|, f);
    Recorded(s.log, p, |s.log|, p);
    forall q | q in table && q != p
      ensures q in v.table && table[q] == v.table[q] && table[q] != f
      ensures Accesses(trace + [f], table[q], born[table[q]]) == Accesses(s'.log, q, s'.since[q])
    {
      Recorded(trace, table[q], born[table[q]], f);
      Recorded(s.log, q, s.since[q], p);
    }
  }

  /** The pages that stay keep their frames, and the new page has one of its own. */
  lemma OthersStay(v: View, table: map<PageId, FrameId>, p: PageId)
    requires OkBut(v, {}) && p !in v.table && Loaded(v, table, p)
    ensures p in table && forall q :: q in table && q != p ==>
                                        q in v.table && table[q] == v.table[q] && table[q] != table[p]
  {
  }

  lemma DeleteLogged(v: View, trace: seq<FrameId>, born: map<FrameId, nat>, s: Store, p: PageId)
    requires OkBut(v, {}) && Logged(trace, born, v.table, s) && p in v.table
    ensures Logged(trace, born - {v.table[p]}, v.table - {p}, s)
  {
    hide OkBut;
    forall q | q in v.table && q != p ensures v.table[q] != v.table[p] {
      OneFrameEach(v, p, q);
    }
  }

  ghost function Idle(v: View): set<FrameId> {
    set f | f in v.entries && v.entries[f].evictable
  }

  lemma IdleIsUnpinned(v: View, s: Store, p: PageId)
    requires OkBut(v, {}) && Agrees(v, s) && p in v.table
    ensures p in Unpinned(s) <==> v.table[p] in Idle(v)
  {
    TableFacts(v, p);
    assert PinsOf(s, p) == Pins(v, p);
  }

  /** The victim among the frames holds the victim among the pages. */
  lemma VictimPage(v: View, trace: seq<FrameId>, born: map<FrameId, nat>, s: Store, k: nat, e: PageId)
    requires OkBut(v, {}) && Agrees(v, s) && Logged(trace, born, v.table, s) && k >= 1
    requires e in v.table && EvictedFrom(trace, born, k, Idle(v), v.table[e])
    ensures IsLeastUseful(s, k, e)
  {
    hide OkBut, Idle, Agrees, Unpinned;
    UnpinnedAreResident(v, s);
    forall p | p in Unpinned(s) ensures v.table[p] in Idle(v) && p in s.since {
      IdleIsUnpinned(v, s, p);
    }
    IdleIsUnpinned(v, s, e);
    forall p | p in Unpinned(s) && p != e ensures GoesBefore(s.log, s.since, k, e, p) {
      OneFrameEach(v, e, p);
      assert GoesBefore(trace, born, k, v.table[e], v.table[p]);
    }
  }

  lemma UnpinnedAreResident(v: View, s: Store)
    requires Agrees(v, s)
    ensures Unpinned(s) <= v.table.Keys
  {
  }

  lemma CameIn(v: View, trace: seq<FrameId>, born: map<FrameId, nat>, s: Store, k: nat, table: map<PageId, FrameId>,
      s': Store, p: PageId)
    requires OkBut(v, {}) && Agrees(v, s) && Logged(trace, born, v.table, s) && k >= 1
    requires p !in v.table && Loaded(v, table, p) && s'.resident == table.Keys && s'.since == s.since[p := |s.log|]
    requires p in table && (v.free == [] ==> EvictedFrom(trace, born, k, Idle(v), table[p]))
    ensures ComesIn(s, s', |v.fs|, k, p)
  {
    hide OkBut, Agrees, Logged, EvictedFrom, IsLeastUseful, Pins, Idle;
    FullIsAllPinned(v, s);
    ResidentAgrees(v, s);
    if v.free == [] {
      var e :| e in v.table && Pins(v, e) == 0 && table == (v.table - {e})[p := v.table[e]];
      VictimPage(v, trace, born, s, k, e);
      KeysAfter(v.table, e, p);
      hide *;
      assert IsLeastUseful(s, k, e) && s'.resident == s.resident - {e} + {p};
    }
  }

  lemma KeysAfter(table: map<PageId, FrameId>, e: PageId, p: PageId)
    requires e in table && p !in table
    ensures (table - {e})[p := table[e]].Keys == table.Keys - {e} + {p}
  {
  }

  lemma ResidentAgrees(v: View, s: Store)
    requires Agrees(v, s)
    ensures s.resident == v.table.Keys && s.nextId == v.nextId
  {
  }

  lemma BornBefore(r: LRUKReplacer)
    requires r.Valid()
    ensures r.k >= 1 && forall f :: f in r.born ==> r.born[f] <= |r.trace|
  {
  }

  method ServeNew(pool: BufferPoolManager, ghost s: Store) returns (reply: Reply, ghost s': Store)
    requires pool.Valid() && InStep(pool, s)
    modifies pool, pool.frames, pool.replacer
    ensures pool.Valid() && Step(s, pool.frames.Length, pool.replacer.k, NewPage, reply, s') && InStep(pool, s')
  {
    hide OkBut, Loaded, Full, ComesIn, Content, Pins, Logged, EvictedFrom, AllPinned, SameContent, Agrees, Step,
      Remembers;
    ghost var v, trace, born := pool.V(), pool.replacer.trace, pool.replacer.born;
    FullIsAllPinned(v, s);
    BornBefore(pool.replacer);
    UnusedId(v, {});
    ResidentAgrees(v, s);
    var p := pool.NewPage();
    if p.None? {
      NewRefused(v, s, pool.replacer.k);
      return Refused, s;
    }
    s' := Store(s.data[s.nextId := Zeros()], s.pins[s.nextId := 1], pool.table.Keys, s.unsaved, s.nextId + 1,
      s.log + [s.nextId], s.since[s.nextId := |s.log|]);
    LoadLogged(v, trace, born, s, pool.table, p.value, s');
    CameIn(v, trace, born, s, pool.replacer.k, pool.table, s', p.value);
    NewDone(v, s, pool.V(), s', pool.replacer.k);
    return Created(p.value), s';
  }

  lemma NewRefused(v: View, s: Store, k: nat)
    requires OkBut(v, {}) && Agrees(v, s) && AllPinned(v) && k >= 1
    ensures Step(s, |v.fs|, k, NewPage, Refused, s)
  {
    FullIsAllPinned(v, s);
  }

  lemma NewDone(v: View, s: Store, v': View, s': Store, k: nat)
    requires OkBut(v, {}) && Agrees(v, s) && !AllPinned(v) && k >= 1 && ComesIn(s, s', |v.fs|, k, s.nextId)
    requires s' == Store(s.data[s.nextId := Zeros()], s.pins[s.nextId := 1], v'.table.Keys, s.unsaved, s.nextId + 1,
                         s.log + [s.nextId], s'.since)
    requires v'.nextId == v.nextId + 1 && v'.touched == v.touched && SameContent(v, v')
    requires Content(v', v.nextId) == Zeros()
    requires forall q :: Pins(v', q) == if q == v.nextId then 1 else Pins(v, q)
    ensures Step(s, |v.fs|, k, NewPage, Created(v.nextId), s') && Agrees(v', s')
  {
    hide OkBut, ComesIn, Full, Content, Pins, AllPinned;
    FullIsAllPinned(v, s);
  }

  method ServeFetch(pool: BufferPoolManager, p: PageId, ghost s: Store) returns (reply: Reply, ghost s': Store)
    requires pool.Valid() && InStep(pool, s)
    modifies pool, pool.frames, pool.replacer
    ensures pool.Valid() && Step(s, pool.frames.Length, pool.replacer.k, Fetch(p), reply, s') && InStep(pool, s')
  {
    hide OkBut, Loaded, Full, ComesIn, Content, Pins, AllPinned, SameContent, Agrees, Step, Logged, EvictedFrom,
      Remembers;
    ResidentAgrees(pool.V(), s);
    BornBefore(pool.replacer);
    if p < 0 || p >= pool.nextId {
      NotAllocated(s, pool.frames.Length, pool.replacer.k, p);
      return Refused, s;
    }
    ghost var v, trace, born := pool.V(), pool.replacer.trace, pool.replacer.born;
    FullIsAllPinned(v, s);
    var ok := pool.FetchPage(p);
    if !ok {
      FetchRefused(v, s, pool.replacer.k, p);
      return Refused, s;
    }
    s' := s.(pins := s.pins[p := PinsOf(s, p) + 1], resident := pool.table.Keys, log := s.log + [p],
      since := if p in v.table then s.since else s.since[p := |s.log|]);
    if p in v.table {
      HitLogged(v, trace, born, s, p, s');
    } else {
      LoadLogged(v, trace, born, s, pool.table, p, s');
      CameIn(v, trace, born, s, pool.replacer.k, pool.table, s', p);
    }
    FetchDone(v, s, pool.V(), s', pool.replacer.k, p);
    return Done, s';
  }

  lemma NotAllocated(s: Store, frames: nat, k: nat, p: PageId)
    requires !(0 <= p < s.nextId) && k >= 1
    ensures Step(s, frames, k, Fetch(p), Refused, s)
  {
  }

  lemma FetchRefused(v: View, s: Store, k: nat, p: PageId)
    requires OkBut(v, {}) && Agrees(v, s) && p !in v.table && AllPinned(v) && k >= 1
    ensures Step(s, |v.fs|, k, Fetch(p), Refused, s)
  {
    FullIsAllPinned(v, s);
  }

  lemma FetchDone(v: View, s: Store, v': View, s': Store, k: nat, p: PageId)
    requires OkBut(v, {}) && Agrees(v, s) && 0 <= p < v.nextId && (p in v.table || !AllPinned(v)) && k >= 1
    requires s' == s.(pins := s.pins[p := PinsOf(s, p) + 1], resident := v'.table.Keys, log := s.log + [p],
                      since := s'.since)
    requires v'.nextId == v.nextId && v'.touched == v.touched && SameContent(v, v')
    requires forall q :: Pins(v', q) == Pins(v, q) + if q == p then 1 else 0
    requires if p in v.table then v'.table == v.table && s'.since == s.since else ComesIn(s, s', |v.fs|, k, p)
    ensures Step(s, |v.fs|, k, Fetch(p), Done, s') && Agrees(v', s')
  {
    hide OkBut, ComesIn, Full, Content, Pins;
    FullIsAllPinned(v, s);
  }

  function PinCount(pool: BufferPoolManager, p: PageId): (n: nat)
    requires pool.Valid()
    reads pool, pool.frames, pool.replacer
    ensures n == Pins(pool.V(), p)
  {
    if p in pool.table then pool.frames[pool.table[p]].pins else 0
  }

  method ServeAccess(pool: BufferPoolManager, call: Call, ghost s: Store) returns (reply: Reply, ghost s': Store)
    requires pool.Valid() && InStep(pool, s) && (call.Read? || call.Write?)
    modifies pool, pool.frames, pool.replacer
    ensures pool.Valid() && Step(s, pool.frames.Length, pool.replacer.k, call, reply, s') && InStep(pool, s')
  {
    hide OkBut, Content, Pins, Remembers;
    if PinCount(pool, call.page) == 0 {
      return Refused, s;
    }
    if call.Read? {
      var data := pool.Read(call.page);
      return Got(data), s;
    }
    pool.Write(call.page, call.data);
    s' := s.(data := if call.page in s.data then s.data[call.page := call.data]
      else s.data, unsaved := s.unsaved + {call.page});
    return Done, s';
  }

  /** `unsaved` is the client's own record of what it changed. */
  method ServeUnpin(pool: BufferPoolManager, p: PageId, isDirty: bool, changed: bool, ghost s: Store)
      returns (reply: Reply, ghost s': Store)
    requires pool.Valid() && InStep(pool, s) && changed == (p in s.unsaved)
    modifies pool, pool.frames, pool.replacer
    ensures pool.Valid() && Step(s, pool.frames.Length, pool.replacer.k, Unpin(p, isDirty), reply, s')
            && InStep(pool, s')
  {
    hide OkBut, Content, Pins, CleanEnough, Agrees, Step, SameContent, Remembers, Logged;
    ghost var v := pool.V();
    var pins := PinCount(pool, p);
    PinsAgree(v, s, p);
    if pins == 0 || (pins == 1 && !isDirty && changed) {
      UnpinRefused(s, pool.frames.Length, pool.replacer.k, p, isDirty);
      return Refused, s;
    }
    UnchangedIsClean(v, p, isDirty, changed);
    var ok := pool.UnpinPage(p, isDirty);
    s' := s.(pins := s.pins[p := PinsOf(s, p) - 1], unsaved := if isDirty then s.unsaved - {p} else s.unsaved);
    UnpinDone(v, s, pool.V(), s', pool.replacer.k, p, isDirty);
    LogAlone(pool.replacer.trace, pool.replacer.born, pool.table, s, s');
    return Done, s';
  }

  lemma PinsAgree(v: View, s: Store, p: PageId)
    requires Agrees(v, s)
    ensures PinsOf(s, p) == Pins(v, p) && (p in v.touched ==> p in s.unsaved)
  {
  }

  lemma UnpinRefused(s: Store, frames: nat, k: nat, p: PageId, isDirty: bool)
    requires k >= 1 && (PinsOf(s, p) == 0 || (PinsOf(s, p) == 1 && !isDirty && p in s.unsaved))
    ensures Step(s, frames, k, Unpin(p, isDirty), Refused, s)
  {
  }

  lemma UnpinDone(v: View, s: Store, v': View, s': Store, k: nat, p: PageId, isDirty: bool)
    requires k >= 1 && Agrees(v, s) && Pins(v, p) > 0 && !(Pins(v, p) == 1 && !isDirty && p in s.unsaved)
    requires s' == s.(pins := s.pins[p := PinsOf(s, p) - 1], unsaved := if isDirty then s.unsaved - {p} else s.unsaved)
    requires v'.nextId == v.nextId && v'.table == v.table && SameContent(v, v')
    requires v'.touched <= v.touched && (isDirty ==> p !in v'.touched)
    requires forall q :: Pins(v', q) == if q == p then Pins(v, q) - 1 else Pins(v, q)
    ensures Step(s, |v.fs|, k, Unpin(p, isDirty), Done, s') && Agrees(v', s')
  {
    hide Content, Pins;
  }

  lemma UnchangedIsClean(v: View, p: PageId, isDirty: bool, changed: bool)
    requires OkBut(v, {}) && (p in v.touched ==> changed) && !(Pins(v, p) == 1 && !isDirty && changed)
    ensures CleanEnough(v, p, isDirty)
  {
    if p in v.table { TableFacts(v, p); }
  }

  method ServeFlush(pool: BufferPoolManager, call: Call, ghost s: Store) returns (reply: Reply, ghost s': Store)
    requires pool.Valid() && InStep(pool, s) && (call.Flush? || call.FlushAll?)
    modifies pool, pool.frames, pool.replacer
    ensures pool.Valid() && Step(s, pool.frames.Length, pool.replacer.k, call, reply, s') && InStep(pool, s')
  {
    hide OkBut, Content, Pins, Remembers;
    if call.FlushAll? {
      pool.FlushAllPages();
      return Done, s.(unsaved := {});
    }
    var ok := pool.FlushPage(call.page);
    if !ok {
      return Refused, s;
    }
    return Done, s.(unsaved := s.unsaved - {call.page});
  }

  method ServeDelete(pool: BufferPoolManager, p: PageId, ghost s: Store) returns (reply: Reply, ghost s': Store)
    requires pool.Valid() && InStep(pool, s)
    modifies pool, pool.frames, pool.replacer
    ensures pool.Valid() && Step(s, pool.frames.Length, pool.replacer.k, Delete(p), reply, s') && InStep(pool, s')
  {
    hide OkBut, Content, Pins, Logged, Remembers;
    ghost var v, trace, born := pool.V(), pool.replacer.trace, pool.replacer.born;
    var ok := pool.DeletePage(p);
    if !ok {
      return Refused, s;
    }
    s' := s.(data := s.data - {p}, resident := s.resident - {p});
    if p in v.table {
      DeleteLogged(v, trace, born, s, p);
    } else {
      assert v.table - {p} == v.table;
    }
    LogAlone(pool.replacer.trace, pool.replacer.born, pool.table, s, s');
    return Done, s';
  }

  /** The log and the places are all that counts. */
  lemma LogAlone(trace: seq<FrameId>, born: map<FrameId, nat>, table: map<PageId, FrameId>, s: Store, s': Store)
    requires Logged(trace, born, table, s) && s'.log == s.log && s'.since == s.since
    ensures Logged(trace, born, table, s')
  {
  }


  method Serve(pool: BufferPoolManager, call: Call, changed: set<PageId>, ghost s: Store)
      returns (reply: Reply, ghost s': Store)
    requires pool.Valid() && InStep(pool, s) && changed == s.unsaved
    modifies pool, pool.frames, pool.replacer
    ensures pool.Valid() && Step(s, pool.frames.Length, pool.replacer.k, call, reply, s') && InStep(pool, s')
  {
    hide OkBut, Step, Agrees;
    match call {
      case NewPage => reply, s' := ServeNew(pool, s);
      case Fetch(p) => reply, s' := ServeFetch(pool, p, s);
      case Read(_) => reply, s' := ServeAccess(pool, call, s);
      case Write(_, _) => reply, s' := ServeAccess(pool, call, s);
      case Unpin(p, isDirty) => reply, s' := ServeUnpin(pool, p, isDirty, p in changed, s);
      case Flush(_) => reply, s' := ServeFlush(pool, call, s);
      case FlushAll => reply, s' := ServeFlush(pool, call, s);
      case Delete(p) => reply, s' := ServeDelete(pool, p, s);
    }
  }

  /** What the client notes down about its own changes. */
  function Note(changed: set<PageId>, call: Call, reply: Reply): set<PageId> {
    if reply == Refused then changed
    else
      match call
      case Write(p, _) => changed + {p}
      case Unpin(p, isDirty) => if isDirty then changed - {p} else changed
      case Flush(p) => changed - {p}
      case FlushAll => {}
      case _ => changed
  }

  lemma Noted(s: Store, frames: nat, k: nat, call: Call, reply: Reply, s': Store)
    requires k >= 1 && Step(s, frames, k, call, reply, s')
    ensures s'.unsaved == Note(s.unsaved, call, reply)
  {
  }

  /** The whole run of the pool is a run of the plain store, whatever is evicted when. */
  method Run(pool: BufferPoolManager, calls: seq<Call>, changed0: set<PageId>, ghost start: Store)
    returns (replies: seq<Reply>, ghost stores: seq<Store>)
    requires pool.Valid() && InStep(pool, start) && changed0 == start.unsaved
    modifies pool, pool.frames, pool.replacer
    ensures pool.Valid() && |replies| == |calls| && |stores| == |calls| + 1 && stores[0] == start
    ensures forall i :: 0 <= i < |calls| ==>
                        Step(stores[i], pool.frames.Length, pool.replacer.k, calls[i], replies[i], stores[i + 1])
    ensures InStep(pool, stores[|calls|])
  {
    hide OkBut, Step, Agrees;
    var changed := changed0;
    replies, stores := [], [start];
    for i := 0 to |calls|
      invariant pool.Valid() && |replies| == i && |stores| == i + 1 && stores[0] == start
      invariant InStep(pool, stores[i]) && changed == stores[i].unsaved
      invariant forall j :: 0 <= j < i ==>
                            Step(stores[j], pool.frames.Length, pool.replacer.k, calls[j], replies[j], stores[j + 1])
    {
      var reply;
      ghost var next;
      reply, next := Serve(pool, calls[i], changed, stores[i]);
      Noted(stores[i], pool.frames.Length, pool.replacer.k, calls[i], reply, next);
      changed := Note(changed, calls[i], reply);
      replies, stores := replies + [reply], stores + [next];
    }
  }

  /** A fresh pool agrees with the empty store. */
  method RunFresh(size: nat, k: nat, calls: seq<Call>)
      returns (pool: BufferPoolManager, replies: seq<Reply>, ghost stores: seq<Store>)
    requires k >= 1
    ensures fresh(pool) && pool.Valid() && pool.frames.Length == size && |replies| == |calls| && |stores| == |calls| + 1
    ensures stores[0] == EMPTY
    ensures forall i :: 0 <= i < |calls| ==> Step(stores[i], size, k, calls[i], replies[i], stores[i + 1])
  {
    hide OkBut, Step;
    pool := new BufferPoolManager(size, k);
    replies, stores := Run(pool, calls, {}, EMPTY);
  }
}
