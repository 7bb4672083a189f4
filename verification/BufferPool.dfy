/** The buffer pool manager: a write-back cache of pages in a fixed array of frames. */
module BufferPool {
  import opened Common
  import opened LruK

  type Data = seq<Byte>

  const PAGE_SIZE := 4096

  /** A reset frame, and a page that was never written. */
  function Zeros(): (r: Data)
    ensures |r| == PAGE_SIZE && forall b :: b in r ==> b == 0
  {
    seq(PAGE_SIZE, _ => 0)
  }

  datatype Frame = Frame(data: Data, pageId: PageId, pins: nat, dirty: bool)

  /** The disk: pages never written read as zeros. */
  type Disk = map<PageId, Data>

  function DiskAt(disk: Disk, p: PageId): Data {
    if p in disk then disk[p] else Zeros()
  }

  /** Everything the pool consists of. `touched` are the pages a client has written to and not yet
      reported as dirty. */
  datatype View = View(
    fs: seq<Frame>, free: seq<FrameId>, table: map<PageId, FrameId>, disk: Disk, nextId: nat,
    entries: map<FrameId, FrameEntry>, touched: set<PageId>)

  /** What a page holds, wherever it is. */
  function Content(v: View, p: PageId): Data {
    if p in v.table && v.table[p] < |v.fs| then v.fs[v.table[p]].data else DiskAt(v.disk, p)
  }

  function Pins(v: View, p: PageId): nat {
    if p in v.table && v.table[p] < |v.fs| then v.fs[v.table[p]].pins else 0
  }

  /** A frame is either on the free list or holds the page that the table says; it is tracked by the
      replacer exactly in the second case, and evictable exactly while it is not pinned. A clean page
      that nobody is changing equals the disk. */
  ghost predicate FrameOk(v: View, f: FrameId)
    requires f < |v.fs|
  {
    var x := v.fs[f];
    if x.pageId == INVALID_PAGE_ID then
      x.pins == 0 && !x.dirty && f in v.free && f !in v.entries
    else
      && x.pageId in v.table && v.table[x.pageId] == f && f !in v.free && 0 <= x.pageId < v.nextId
      && f in v.entries && (v.entries[f].evictable <==> x.pins == 0)
      && (!x.dirty && x.pageId !in v.touched ==> x.data == DiskAt(v.disk, x.pageId))
      && (x.pageId in v.touched ==> x.pins > 0)
  }

  /** All frames but the one in `hole`, which belongs to nobody. */
  ghost predicate OkBut(v: View, hole: set<FrameId>) {
    && (forall f {:trigger FrameOk(v, f)} :: 0 <= f < |v.fs| && f !in hole ==> FrameOk(v, f))
    && (forall p :: p in v.table ==>
                    p >= 0 && v.table[p] < |v.fs| && v.table[p] !in hole && v.fs[v.table[p]].pageId == p)
    && (forall i :: 0 <= i < |v.free| ==>
                    v.free[i] < |v.fs| && v.free[i] !in hole && v.fs[v.free[i]].pageId == INVALID_PAGE_ID)
    && (forall i, j :: 0 <= i < j < |v.free| ==> v.free[i] != v.free[j])
    && (forall f :: f in v.entries ==> f < |v.fs| && f !in hole && v.fs[f].pageId != INVALID_PAGE_ID)
    && (forall p :: p in v.disk ==> 0 <= p < v.nextId)
    && v.touched <= v.table.Keys
  }

  predicate CleanEnough(v: View, p: PageId, isDirty: bool) {
    p in v.table && v.table[p] < |v.fs| ==>
      var x := v.fs[v.table[p]];
      x.pins == 1 && !isDirty && !x.dirty ==> x.data == DiskAt(v.disk, p)
  }

  ghost predicate AllPinned(v: View) {
    forall f :: 0 <= f < |v.fs| ==> v.fs[f].pins > 0
  }

  ghost predicate SameContent(v: View, v': View) {
    forall p :: Content(v', p) == Content(v, p)
  }

  class BufferPoolManager {
    const frames: array<Frame>
    const replacer: LRUKReplacer
    var table: map<PageId, FrameId>
    var free: seq<FrameId>
    var disk: Disk
    var nextId: nat
    ghost var touched: set<PageId>

    ghost function V(): View
      reads this, frames, replacer
    {
      View(frames[..], free, table, disk, nextId, replacer.entries, touched)
    }

    ghost predicate Valid()
      reads this, frames, replacer
    {
      replacer.Valid() && OkBut(V(), {})
    }

    constructor (size: nat, k: nat)
      requires k >= 1
      ensures Valid() && fresh(frames) && fresh(replacer) && frames.Length == size
      ensures table == map[] && touched == {} && nextId == 0 && replacer.k == k && replacer.trace == []
      ensures forall p :: Content(V(), p) == Zeros()
    {
      frames := new Frame[size](_ => Frame(Zeros(), INVALID_PAGE_ID, 0, false));
      replacer := new LRUKReplacer(k);
      table, disk, nextId, touched := map[], map[], 0, {};
      free := seq(size, i => i);
      new;
      forall f | 0 <= f < size ensures FrameOk(V(), f) {
        assert free[f] == f && V().fs[f] == Frame(Zeros(), INVALID_PAGE_ID, 0, false);
      }
    }

    /** The access to a frame that is being pinned. */
    method RecordPin(f: FrameId)
      requires replacer.Valid()
      modifies replacer
      ensures replacer.Valid() && OtherEntries(old(V()), V(), f) && !replacer.entries[f].evictable
      ensures V() == old(V()).(entries := replacer.entries)
      ensures replacer.trace == old(replacer.trace) + [f]
      ensures replacer.born == if f in old(replacer.entries) then old(replacer.born)
              else old(replacer.born)[f := |old(replacer.trace)|]
    {
      hide Remembers;
      replacer.RecordAccess(f);
      replacer.SetEvictable(f, false);
    }

    /** The common start of `NewPage` and `FetchPage`: a frame from the free list, or else the
        replacer's victim, written back if dirty and taken out of the table. */
    method TakeFrame() returns (r: Option<FrameId>)
      requires Valid()
      modifies this, frames, replacer
      ensures replacer.Valid() && replacer.trace == old(replacer.trace)
      ensures r.None? <==> AllPinned(old(V()))
      ensures r.None? ==> V() == old(V()) && replacer.born == old(replacer.born)
      ensures r.Some? ==> replacer.born == old(replacer.born) - {r.value}
      ensures r.Some? ==> CanTake(old(V()), r.value) && V() == Taken(old(V()), r.value)
      ensures r.Some? && old(free) == [] ==>
                EvictedFrom(old(replacer.trace), old(replacer.born), replacer.k, old(replacer.Evictable()), r.value)
    {
      hide OkBut, IsVictim, Remembers;
      ghost var v := V();
      var f: FrameId;
      if free != [] {
        f := free[0];
        free := free[1..];
        FromFreeList(v);
      } else {
        NobodyEvictable(v);
        var victim := replacer.Evict();
        if victim.None? {
          assert forall g :: g in v.entries && v.entries[g].evictable ==> g in old(replacer.Evictable());
          return None;
        }
        f := victim.value;
        FromReplacer(v, f);
      }
      var page := frames[f];
      if page.dirty {
        disk := disk[page.pageId := page.data];
        frames[f] := page.(dirty := false);
      }
      if page.pageId != INVALID_PAGE_ID {
        table := table - {page.pageId};
      }
      assert V().fs == v.fs[f := page.(dirty := false)];
      return Some(f);
    }

    /** A frame for the page `p`, which is not in the pool: what taking it means for the pages. */
    method MakeRoom(ghost p: PageId) returns (r: Option<FrameId>)
      requires Valid() && p !in table
      modifies this, frames, replacer
      ensures replacer.Valid() && replacer.trace == old(replacer.trace)
      ensures r.None? <==> AllPinned(old(V()))
      ensures r.None? ==> V() == old(V()) && replacer.born == old(replacer.born)
      ensures r.Some? ==> r.value < frames.Length && OkBut(V(), {r.value}) && p !in table
      ensures r.Some? ==> nextId == old(nextId) && touched == old(touched) && SameContent(old(V()), V())
      ensures r.Some? ==> forall q :: Pins(V(), q) == Pins(old(V()), q)
      ensures r.Some? ==> Loaded(old(V()), table[p := r.value], p)
      ensures r.Some? ==> replacer.born == old(replacer.born) - {r.value}
      ensures r.Some? && old(free) == [] ==>
                EvictedFrom(old(replacer.trace), old(replacer.born), replacer.k, old(replacer.Evictable()), r.value)
    {
      hide OkBut, FrameOk, SameContent, Content, Pins, Taken, CanTake, Loaded, EvictedFrom, AllPinned, Remembers;
      ghost var v := V();
      r := TakeFrame();
      if r.Some? {
        TakenOk(v, r.value);
        TakenContent(v, r.value);
        TakenFields(v, r.value, p);
      }
    }

    /** Puts a page into a frame that belongs to nobody, pinned once. */
    method Install(f: FrameId, p: PageId, data: Data)
      requires replacer.Valid() && OkBut(V(), {f}) && f < frames.Length && p !in table && 0 <= p < nextId
      requires data == DiskAt(disk, p)
      modifies this`table, frames, replacer
      ensures Valid() && SameContent(old(V()), V()) && disk == old(disk)
      ensures forall q :: Pins(V(), q) == if q == p then 1 else Pins(old(V()), q)
      ensures table == old(table)[p := f]
      ensures replacer.trace == old(replacer.trace) + [f]
              && replacer.born == old(replacer.born)[f := |old(replacer.trace)|]
    {
      hide OkBut, SameContent, FrameOk, Remembers, Pins;
      ghost var v := V();
      frames[f] := Frame(data, p, 1, false);
      table := table[p := f];
      Untracked(v, f);
      RecordPin(f);
      assert V().fs == v.fs[f := Frame(data, p, 1, false)];
      Installed(v, V(), f, p, data);
    }

    method NewPage() returns (r: Option<PageId>)
      requires Valid()
      modifies this, frames, replacer
      ensures Valid() && touched == old(touched)
      ensures r.None? <==> AllPinned(old(V()))
      ensures r.None? ==> V() == old(V())
      ensures r.Some? ==>
              r.value == old(nextId) && r.value !in old(table) && r.value !in old(disk) && nextId == old(nextId) + 1
      ensures r.Some? ==> r.value in table && SameContent(old(V()), V()) && Content(V(), r.value) == Zeros()
      ensures r.Some? ==> forall q :: Pins(V(), q) == if q == r.value then 1 else Pins(old(V()), q)
      ensures r.Some? ==> Loaded(old(V()), table, r.value)
      ensures r.Some? && old(free) == [] ==> EvictedFrom(old(replacer.trace), old(replacer.born), replacer.k,
                                                         old(replacer.Evictable()), table[r.value])
      ensures r.Some? ==> replacer.trace == old(replacer.trace) + [table[r.value]]
                          && replacer.born == old(replacer.born)[table[r.value] := |old(replacer.trace)|]
      ensures r.None? ==> replacer.trace == old(replacer.trace) && replacer.born == old(replacer.born)
    {
      hide OkBut, FrameOk, Content, Pins, Loaded, EvictedFrom, AllPinned, Remembers;
      ghost var v := V();
      UnusedId(v, {});
      var f := MakeRoom(nextId);
      if f.None? {
        return None;
      }
      UnusedId(V(), {f.value});
      ghost var v1 := V();
      var p := nextId;
      nextId := nextId + 1;
      Allocated(v1, V(), f.value);
      Install(f.value, p, Zeros());
      return Some(p);
    }

    /** `p` was allocated before. */
    method FetchPage(p: PageId) returns (ok: bool)
      requires Valid() && 0 <= p < nextId
      modifies this, frames, replacer
      ensures Valid() && touched == old(touched) && nextId == old(nextId)
      ensures ok <==> p in old(table) || !AllPinned(old(V()))
      ensures !ok ==> V() == old(V())
      ensures ok ==> p in table && SameContent(old(V()), V())
      ensures ok ==> forall q :: Pins(V(), q) == Pins(old(V()), q) + if q == p then 1 else 0
      ensures ok ==> if p in old(table) then table == old(table) else Loaded(old(V()), table, p)
      ensures ok && p !in old(table) && old(free) == [] ==>
                EvictedFrom(old(replacer.trace), old(replacer.born), replacer.k, old(replacer.Evictable()), table[p])
      ensures ok ==> replacer.trace == old(replacer.trace) + [table[p]]
      ensures ok ==> replacer.born == if p in old(table) then old(replacer.born)
                                      else old(replacer.born)[table[p] := |old(replacer.trace)|]
      ensures !ok ==> replacer.trace == old(replacer.trace) && replacer.born == old(replacer.born)
    {
      hide OkBut, FrameOk, SameContent, Content, Pins, Loaded, EvictedFrom, AllPinned, Remembers;
      ghost var v := V();
      if p in table {
        PinAgain(p);
        return true;
      }
      NotResident(v, p);
      var f := MakeRoom(p);
      if f.None? {
        return false;
      }
      ghost var v1 := V();
      Install(f.value, p, if p in disk then disk[p] else Zeros());
      SameTwice(v, v1, V());
      return true;
    }

    /** The page is in the pool. */
    method PinAgain(p: PageId)
      requires Valid() && p in table
      modifies frames, replacer
      ensures Valid() && SameContent(old(V()), V())
      ensures forall q :: Pins(V(), q) == Pins(old(V()), q) + if q == p then 1 else 0
      ensures replacer.trace == old(replacer.trace) + [table[p]] && replacer.born == old(replacer.born)
    {
      hide OkBut, SameContent, Pins, Remembers;
      ghost var v := V();
      TableFacts(v, p);
      var f := table[p];
      frames[f] := frames[f].(pins := frames[f].pins + 1);
      RecordPin(f);
      assert V().fs == v.fs[f := v.fs[f].(pins := v.fs[f].pins + 1)];
      Repinned(v, V(), p);
    }

    /** A client looks at a page it has pinned. */
    method Read(p: PageId) returns (data: Data)
      requires Valid() && Pins(V(), p) > 0
      ensures data == Content(V(), p)
    {
      data := frames[table[p]].data;
    }

    /** A client writes to a page it has pinned. */
    method Write(p: PageId, data: Data)
      requires Valid() && Pins(V(), p) > 0
      modifies this`touched, frames
      ensures Valid() && touched == old(touched) + {p}
      ensures forall q :: Content(V(), q) == if q == p then data else Content(old(V()), q)
      ensures forall q :: Pins(V(), q) == Pins(old(V()), q)
    {
      hide OkBut;
      ghost var v := V();
      TableFacts(v, p);
      frames[table[p]] := frames[table[p]].(data := data);
      touched := touched + {p};
      assert V().fs == v.fs[v.table[p] := v.fs[v.table[p]].(data := data)];
      Rewritten(v, V(), p, data);
    }

    /** The rule for clients: the last pin of a page that differs from the disk is given back as dirty,
        unless the page counts as dirty already. */
    method UnpinPage(p: PageId, isDirty: bool) returns (ok: bool)
      requires Valid()
      requires CleanEnough(V(), p, isDirty)
      modifies this`touched, frames, replacer
      ensures Valid() && SameContent(old(V()), V()) && table == old(table)
      ensures ok <==> Pins(old(V()), p) > 0
      ensures forall q :: Pins(V(), q) == if ok && q == p then Pins(old(V()), q) - 1 else Pins(old(V()), q)
      ensures touched <= old(touched) && forall q :: q in old(touched) && q != p ==> q in touched
      ensures isDirty && ok ==> p !in touched
      ensures replacer.trace == old(replacer.trace) && replacer.born == old(replacer.born)
    {
      hide OkBut, SameContent;
      ghost var v := V();
      Unchanged(v);
      if p !in table {
        return false;
      }
      TableFacts(v, p);
      if frames[table[p]].pins == 0 {
        return false;
      }
      TakePinOff(p, isDirty);
      return true;
    }

    method TakePinOff(p: PageId, isDirty: bool)
      requires Valid() && p in table && V().fs[table[p]].pins > 0
      requires CleanEnough(V(), p, isDirty)
      modifies this`touched, frames, replacer
      ensures Valid() && SameContent(old(V()), V())
      ensures forall q :: Pins(V(), q) == if q == p then Pins(old(V()), q) - 1 else Pins(old(V()), q)
      ensures touched == old(touched) || touched == old(touched) - {p}
      ensures isDirty ==> p !in touched
      ensures replacer.trace == old(replacer.trace) && replacer.born == old(replacer.born)
    {
      hide OkBut, SameContent, Remembers;
      ghost var v := V();
      TableFacts(v, p);
      var f := table[p];
      if isDirty {
        frames[f] := frames[f].(dirty := true);
      }
      touched := if frames[f].dirty || frames[f].pins == 1 then touched - {p} else touched;
      frames[f] := frames[f].(pins := frames[f].pins - 1);
      if frames[f].pins == 0 {
        replacer.SetEvictable(f, true);
      }
      assert V().fs == v.fs[f := v.fs[f].(pins := v.fs[f].pins - 1, dirty := v.fs[f].dirty || isDirty)];
      Unpinned(v, V(), p, isDirty);
    }

    /** What was not flushed of a deleted page is dropped: the disk's version shows again. */
    method DeletePage(p: PageId) returns (ok: bool)
      requires Valid()
      modifies this, frames, replacer
      ensures Valid() && disk == old(disk) && nextId == old(nextId) && touched == old(touched)
      ensures ok <==> Pins(old(V()), p) == 0
      ensures !ok ==> V() == old(V())
      ensures ok ==> table == old(table) - {p} && Content(V(), p) == DiskAt(disk, p)
      ensures replacer.trace == old(replacer.trace)
      ensures replacer.born == if ok && p in old(table) then old(replacer.born) - {old(table)[p]}
                               else old(replacer.born)
      ensures forall q :: q != p ==> Content(V(), q) == Content(old(V()), q)
      ensures forall q :: Pins(V(), q) == Pins(old(V()), q)
    {
      hide OkBut;
      ghost var v := V();
      if p !in table {
        return true;
      }
      TableFacts(v, p);
      var f := table[p];
      if frames[f].pins > 0 {
        return false;
      }
      table := table - {p};
      var removed := replacer.Remove(f);
      frames[f] := Frame(Zeros(), INVALID_PAGE_ID, 0, false);
      free := free + [f];
      assert V().fs == v.fs[f := Frame(Zeros(), INVALID_PAGE_ID, 0, false)];
      Deleted(v, V(), p);
      return true;
    }

    method FlushPage(p: PageId) returns (ok: bool)
      requires Valid()
      modifies this`disk, this`touched, frames
      ensures Valid() && SameContent(old(V()), V()) && table == old(table)
      ensures ok <==> p in table
      ensures ok ==> DiskAt(disk, p) == Content(V(), p) && touched == old(touched) - {p}
      ensures !ok ==> V() == old(V())
      ensures forall q :: q != p ==> DiskAt(disk, q) == DiskAt(old(disk), q)
      ensures forall q :: Pins(V(), q) == Pins(old(V()), q)
    {
      hide OkBut;
      ghost var v := V();
      if p !in table {
        return false;
      }
      TableFacts(v, p);
      var f := table[p];
      disk := disk[p := frames[f].data];
      frames[f] := frames[f].(dirty := false);
      touched := touched - {p};
      assert V().fs == v.fs[f := v.fs[f].(dirty := false)];
      Flushed(v, V(), p);
      return true;
    }

    method FlushAllPages()
      requires Valid()
      modifies this`disk, this`touched, frames
      ensures Valid() && SameContent(old(V()), V()) && table == old(table) && touched == {}
      ensures forall p :: p in table ==> DiskAt(disk, p) == Content(V(), p)
      ensures forall q :: Pins(V(), q) == Pins(old(V()), q)
    {
      hide OkBut, FrameOk, SameContent, Content, Pins;
      var todo := table.Keys;
      TouchedFacts(V());
      Unchanged(V());
      while todo != {}
        invariant Valid() && SameContent(old(V()), V()) && table == old(table) && todo <= table.Keys && touched <= todo
        invariant forall p :: p in table && p !in todo ==> DiskAt(disk, p) == Content(V(), p)
        invariant forall q :: Pins(V(), q) == Pins(old(V()), q)
      {
        ghost var v := V();
        SomePage(todo);
        var p :| p in todo;
        var ok := FlushPage(p);
        SameTwice(old(V()), v, V());
        SameEverywhere(v, V());
        todo := todo - {p};
      }
    }
  }

  // ---------- taking a frame ----------

  /** The frame is free and first in line, or its page is not pinned. */
  ghost predicate CanTake(v: View, f: FrameId) {
    && f < |v.fs| && v.fs[f].pins == 0
    && if v.fs[f].pageId == INVALID_PAGE_ID then v.free != [] && v.free[0] == f else v.free == [] && f in v.entries
  }

  ghost function Taken(v: View, f: FrameId): View
    requires CanTake(v, f)
  {
    var x := v.fs[f];
    v.(fs := v.fs[f := x.(dirty := false)], free := if x.pageId == INVALID_PAGE_ID then v.free[1..] else v.free,
       table := v.table - {x.pageId}, disk := if x.dirty then v.disk[x.pageId := x.data]
         else v.disk, entries := v.entries - {f})
  }

  lemma FromFreeList(v: View)
    requires OkBut(v, {}) && v.free != []
    ensures var f := v.free[0];
            && CanTake(v, f) && !AllPinned(v) && v.fs[f].pageId == INVALID_PAGE_ID && !v.fs[f].dirty
            && v.table - {INVALID_PAGE_ID} == v.table && v.entries - {f} == v.entries
  {
    var f := v.free[0];
    assert FrameOk(v, f);
  }

  lemma FromReplacer(v: View, f: FrameId)
    requires OkBut(v, {}) && v.free == [] && f in v.entries && v.entries[f].evictable
    ensures CanTake(v, f) && !AllPinned(v) && v.fs[f].pageId != INVALID_PAGE_ID
  {
    assert FrameOk(v, f);
  }

  /** Without a free frame, nothing is evictable exactly when everything is pinned. */
  lemma NobodyEvictable(v: View)
    requires OkBut(v, {}) && v.free == []
    ensures AllPinned(v) <==> forall f :: f in v.entries ==> !v.entries[f].evictable
  {
    forall f | 0 <= f < |v.fs| ensures f in v.entries && (v.fs[f].pins > 0 <==> !v.entries[f].evictable) {
      assert FrameOk(v, f);
    }
  }

  lemma TakenOk(v: View, f: FrameId)
    requires OkBut(v, {}) && CanTake(v, f)
    ensures OkBut(Taken(v, f), {f})
  {
    var v' := Taken(v, f);
    forall g | 0 <= g < |v'.fs| && g != f ensures FrameOk(v', g) {
      TakenOther(v, f, g);
    }
    TakenLists(v, f);
    assert FrameOk(v, f);
    assert OkBut(v', {f}) by { hide FrameOk; }
  }

  /** A write-back loses nothing: the evicted page still reads the same, now from the disk. */
  lemma TakenContent(v: View, f: FrameId)
    requires OkBut(v, {}) && CanTake(v, f)
    ensures SameContent(v, Taken(v, f)) && forall p :: Pins(Taken(v, f), p) == Pins(v, p)
  {
    var v' := Taken(v, f);
    assert FrameOk(v, f);
    forall p ensures Content(v', p) == Content(v, p) && Pins(v', p) == Pins(v, p) {
      if p in v.table { assert v.table[p] == f <==> p == v.fs[f].pageId; }
    }
  }

  /** Which pages are in the pool, and where, after `p` was brought in: the first free frame displaces
      nobody; without one, a page that nobody has pinned leaves and `p` takes its frame. */
  ghost predicate Loaded(v: View, table: map<PageId, FrameId>, p: PageId) {
    if v.free != [] then table == v.table[p := v.free[0]]
    else exists e :: e in v.table && Pins(v, e) == 0 && table == (v.table - {e})[p := v.table[e]]
  }

  /** `f` is the frame that LRU-K evicts. */
  ghost predicate EvictedFrom(trace: seq<FrameId>, born: map<FrameId, nat>, k: nat, candidates: set<FrameId>,
      f: FrameId)
    requires k >= 1
  {
    candidates <= born.Keys && IsVictim(trace, born, k, candidates, f)
  }

  /** The page `p` is the next to come in, into the frame `f`. */
  lemma TakenFields(v: View, f: FrameId, p: PageId)
    requires OkBut(v, {}) && CanTake(v, f) && p !in v.table
    ensures var v' := Taken(v, f);
            && v'.nextId == v.nextId && v'.touched == v.touched && f < |v.fs| == |v'.fs|
            && v'.table.Keys <= v.table.Keys && Loaded(v, v'.table[p := f], p)
  {
    assert FrameOk(v, f);
    if v.free == [] { assert Pins(v, v.fs[f].pageId) == 0; }
  }

  lemma TakenOther(v: View, f: FrameId, g: FrameId)
    requires OkBut(v, {}) && CanTake(v, f) && g < |v.fs| && g != f
    ensures FrameOk(Taken(v, f), g)
  {
    assert FrameOk(v, f) && FrameOk(v, g);
    if v.fs[g].pageId == INVALID_PAGE_ID && v.fs[f].pageId == INVALID_PAGE_ID {
      var i :| 0 <= i < |v.free| && v.free[i] == g;
      assert i != 0 && v.free[1..][i - 1] == g;
    }
  }

  lemma TakenLists(v: View, f: FrameId)
    requires OkBut(v, {}) && CanTake(v, f)
    ensures var v' := Taken(v, f);
            && (forall p :: p in v'.table ==> v'.table[p] != f)
            && (forall i :: 0 <= i < |v'.free| ==> v'.free[i] in v.free && v'.free[i] != f)
            && (forall i, j :: 0 <= i < j < |v'.free| ==> v'.free[i] != v'.free[j])
  {
    assert FrameOk(v, f);
  }

  lemma UnusedId(v: View, hole: set<FrameId>)
    requires OkBut(v, hole)
    ensures v.nextId !in v.table && v.nextId !in v.disk && DiskAt(v.disk, v.nextId) == Zeros()
            && Content(v, v.nextId) == Zeros()
  {
    forall p | p in v.table ensures p < v.nextId {
      assert FrameOk(v, v.table[p]);
    }
  }

  lemma Allocated(v: View, v': View, f: FrameId)
    requires OkBut(v, {f}) && v' == v.(nextId := v.nextId + 1)
    ensures OkBut(v', {f}) && SameContent(v, v') && forall p :: Pins(v', p) == Pins(v, p)
  {
    forall g | 0 <= g < |v'.fs| && g != f ensures FrameOk(v', g) {
      assert FrameOk(v, g);
    }
  }

  lemma NotResident(v: View, p: PageId)
    requires p !in v.table
    ensures Pins(v, p) == 0
  {
  }

  lemma SameTwice(a: View, b: View, c: View)
    requires SameContent(a, b) && SameContent(b, c)
    ensures SameContent(a, c)
  {
  }

  lemma NoPages(s: set<PageId>)
    ensures (forall p :: p !in s) ==> s == {}
  {
    var none: set<PageId> := {};
    assert (forall p :: p in s <==> p in none) ==> s == none;
  }

  lemma SomePage(s: set<PageId>)
    requires s != {}
    ensures exists p :: p in s
  {
    NoPages(s);
  }

  lemma SameEverywhere(v: View, v': View)
    requires SameContent(v, v')
    ensures forall p :: Content(v', p) == Content(v, p)
  {
  }

  lemma Unchanged(v: View)
    ensures SameContent(v, v)
  {
  }

  // ---------- one frame changes ----------

  lemma TableFacts(v: View, p: PageId)
    requires OkBut(v, {}) && p in v.table
    ensures p >= 0 && v.table[p] < |v.fs| && v.fs[v.table[p]].pageId == p && FrameOk(v, v.table[p])
  {
    assert FrameOk(v, v.table[p]);
  }

  lemma TouchedFacts(v: View)
    requires OkBut(v, {})
    ensures v.touched <= v.table.Keys
  {
  }

  /** The replacer's entries but for those of `f`. */
  ghost predicate OtherEntries(v: View, v': View, f: FrameId) {
    v'.entries.Keys == v.entries.Keys + {f} && forall g :: g in v.entries && g != f ==> v'.entries[g] == v.entries[g]
  }

  lemma Untracked(v: View, f: FrameId)
    requires OkBut(v, {f})
    ensures f !in v.entries
  {
  }

  lemma Installed(v: View, v': View, f: FrameId, p: PageId, data: Data)
    requires OkBut(v, {f}) && f < |v.fs| && p !in v.table && 0 <= p < v.nextId && data == DiskAt(v.disk, p)
    requires v' == v.(fs := v.fs[f := Frame(data, p, 1, false)], table := v.table[p := f], entries := v'.entries)
    requires OtherEntries(v, v', f) && !v'.entries[f].evictable
    ensures OkBut(v', {}) && SameContent(v, v')
    ensures forall q :: Pins(v', q) == if q == p then 1 else Pins(v, q)
  {
    forall g | 0 <= g < |v'.fs| ensures FrameOk(v', g) {
      if g != f { assert FrameOk(v, g); }
    }
  }

  lemma Repinned(v: View, v': View, p: PageId)
    requires OkBut(v, {}) && p in v.table && v.table[p] < |v.fs|
    requires var f := v.table[p];
             v' == v.(fs := v.fs[f := v.fs[f].(pins := v.fs[f].pins + 1)], entries := v'.entries)
             && OtherEntries(v, v', f) && !v'.entries[f].evictable
    ensures OkBut(v', {}) && SameContent(v, v')
    ensures forall q :: Pins(v', q) == Pins(v, q) + if q == p then 1 else 0
  {
    forall g | 0 <= g < |v'.fs| ensures FrameOk(v', g) {
      assert FrameOk(v, g);
    }
  }

  lemma Rewritten(v: View, v': View, p: PageId, data: Data)
    requires OkBut(v, {}) && p in v.table && v.table[p] < |v.fs| && v.fs[v.table[p]].pins > 0
    requires var f := v.table[p];
             v' == v.(fs := v.fs[f := v.fs[f].(data := data)], touched := v.touched + {p})
    ensures OkBut(v', {})
    ensures forall q :: Content(v', q) == if q == p then data else Content(v, q)
    ensures forall q :: Pins(v', q) == Pins(v, q)
  {
    forall g | 0 <= g < |v'.fs| ensures FrameOk(v', g) {
      assert FrameOk(v, g);
    }
  }

  lemma Unpinned(v: View, v': View, p: PageId, isDirty: bool)
    requires OkBut(v, {}) && p in v.table && v.table[p] < |v.fs| && v.fs[v.table[p]].pins > 0
    requires var f := v.table[p]; var x := v.fs[f];
             && v' == v.(fs := v.fs[f := x.(pins := x.pins - 1, dirty := x.dirty || isDirty)], entries := v'.entries,
                         touched := if x.dirty || isDirty || x.pins == 1 then v.touched - {p} else v.touched)
             && v'.entries == (if x.pins == 1 && f in v.entries then v.entries[f := v.entries[f].(evictable := true)]
                else v.entries)
             && CleanEnough(v, p, isDirty)
    ensures OkBut(v', {}) && SameContent(v, v')
    ensures forall q :: Pins(v', q) == if q == p then Pins(v, q) - 1 else Pins(v, q)
  {
    forall g | 0 <= g < |v'.fs| ensures FrameOk(v', g) {
      assert FrameOk(v, g);
    }
  }

  lemma Deleted(v: View, v': View, p: PageId)
    requires OkBut(v, {}) && p in v.table && v.table[p] < |v.fs| && v.fs[v.table[p]].pins == 0
    requires var f := v.table[p];
             v' == v.(fs := v.fs[f := Frame(Zeros(), INVALID_PAGE_ID, 0, false)], table := v.table - {p},
               free := v.free + [f],
                      entries := v.entries - {f})
    ensures OkBut(v', {})
    ensures forall q :: q != p ==> Content(v', q) == Content(v, q)
    ensures forall q :: Pins(v', q) == Pins(v, q)
  {
    var f := v.table[p];
    assert FrameOk(v, f);
    forall g | 0 <= g < |v'.fs| ensures FrameOk(v', g) {
      assert FrameOk(v, g);
      assert g in v.free ==> g in v'.free;
    }
    assert v'.free[|v.free|] == f;
  }

  lemma Flushed(v: View, v': View, p: PageId)
    requires OkBut(v, {}) && p in v.table && v.table[p] < |v.fs|
    requires var f := v.table[p];
             v' == v.(fs := v.fs[f := v.fs[f].(dirty := false)], disk := v.disk[p := v.fs[f].data],
               touched := v.touched - {p})
    ensures OkBut(v', {}) && SameContent(v, v')
    ensures forall q :: Pins(v', q) == Pins(v, q)
  {
    TableFacts(v, p);
    forall g | 0 <= g < |v'.fs| ensures FrameOk(v', g) {
      assert FrameOk(v, g);
    }
  }

  /** Why a changed page must be unpinned as dirty: a page that goes down to no pins and counts as clean
      survives its eviction if and only if the frame equals the disk. */
  lemma CleanUnpinExact(v: View, f: FrameId)
    requires f < |v.fs| && v.fs[f].pins == 0 && !v.fs[f].dirty && v.fs[f].pageId != INVALID_PAGE_ID
    requires v.free == [] && f in v.entries
    requires v.fs[f].pageId in v.table && v.table[v.fs[f].pageId] == f
    requires forall p :: p in v.table && v.table[p] == f ==> p == v.fs[f].pageId
    ensures SameContent(v, Taken(v, f)) <==> v.fs[f].data == DiskAt(v.disk, v.fs[f].pageId)
  {
    var p := v.fs[f].pageId;
    assert Content(v, p) == v.fs[f].data && Content(Taken(v, f), p) == DiskAt(v.disk, p);
  }

  // ---------- counting frames ----------

  ghost function PinnedPages(v: View): set<PageId> {
    set p | p in v.table && Pins(v, p) > 0
  }

  lemma {:induction false} InjectiveSize(m: map<PageId, FrameId>, frames: set<FrameId>)
    requires forall p :: p in m ==> m[p] in frames
    requires forall p, q :: p in m && q in m && p != q ==> m[p] != m[q]
    requires forall f :: f in frames ==> exists p :: p in m && m[p] == f
    ensures |m.Keys| == |frames|
    decreases |frames|
  {
    if frames == {} {
      assert forall p :: p !in m.Keys;
      assert m.Keys == {};
    } else {
      HasMember(frames);
      var f :| f in frames;
      var p :| p in m && m[p] == f;
      forall g | g in frames - {f} ensures exists q :: q in m - {p} && (m - {p})[q] == g {
        var q :| q in m && m[q] == g;
        assert q in m - {p} && (m - {p})[q] == g;
      }
      InjectiveSize(m - {p}, frames - {f});
      assert m.Keys == (m - {p}).Keys + {p};
    }
  }

  ghost function Members(s: seq<FrameId>): (r: set<FrameId>)
    ensures forall f :: f in r <==> f in s
  {
    set f | f in s
  }

  lemma {:induction false} DistinctSize(s: seq<FrameId>)
    requires forall i, j :: 0 <= i < j < |s| ==> s[i] != s[j]
    ensures |Members(s)| == |s|
  {
    if s == [] {
      assert Members(s) == {};
    } else {
      DistinctSize(s[1..]);
      assert Members(s) == Members(s[1..]) + {s[0]};
    }
  }

  ghost function Below(n: nat): (r: set<FrameId>)
    ensures |r| == n && forall f: FrameId :: f in r <==> f < n
  {
    if n == 0 then {} else Below(n - 1) + {n - 1}
  }

  /** The frames that hold a page. */
  ghost function Used(v: View): (r: set<FrameId>)
    ensures forall f: FrameId :: f in r <==> f < |v.fs| && v.fs[f].pageId != INVALID_PAGE_ID
  {
    set f | f in Below(|v.fs|) && v.fs[f].pageId != INVALID_PAGE_ID
  }

  lemma UsedByPages(v: View)
    requires OkBut(v, {})
    ensures |v.table.Keys| == |Used(v)|
  {
    forall f | f in Used(v) ensures exists p :: p in v.table && v.table[p] == f {
      assert FrameOk(v, f);
      assert v.table[v.fs[f].pageId] == f;
    }
    InjectiveSize(v.table, Used(v));
  }

  lemma FreeOrUsed(v: View, f: FrameId)
    requires OkBut(v, {})
    ensures f < |v.fs| <==> f in v.free || f in Used(v)
    ensures !(f in v.free && f in Used(v))
  {
    if f < |v.fs| { assert FrameOk(v, f); }
  }

  /** The free list and the table share out the frames. */
  lemma FramesShared(v: View)
    requires OkBut(v, {})
    ensures |v.table.Keys| + |v.free| == |v.fs|
  {
    UsedByPages(v);
    assert |Members(v.free)| == |v.free| by { DistinctSize(v.free); }
    forall f: FrameId ensures f < |v.fs| <==> f in Members(v.free) + Used(v) {
      FreeOrUsed(v, f);
    }
    forall f: FrameId ensures !(f in Members(v.free) && f in Used(v)) {
      FreeOrUsed(v, f);
    }
    Partition(v, Members(v.free), Used(v));
  }

  lemma Partition(v: View, a: set<FrameId>, b: set<FrameId>)
    requires forall f: FrameId :: f < |v.fs| <==> f in a + b
    requires forall f: FrameId :: !(f in a && f in b)
    ensures |a| + |b| == |v.fs|
  {
    assert Below(|v.fs|) == a + b;
    assert a !! b;
  }

  /** All frames are pinned exactly when there are as many pinned pages as frames. */
  lemma AllPinnedCount(v: View)
    requires OkBut(v, {})
    ensures |PinnedPages(v)| <= |v.table.Keys| <= |v.fs|
    ensures AllPinned(v) <==> |PinnedPages(v)| == |v.fs|
    ensures v.free == [] <==> |v.table.Keys| == |v.fs|
  {
    FramesShared(v);
    SubsetSize(PinnedPages(v), v.table.Keys);
    if v.free != [] {
      FromFreeList(v);
    }
    if AllPinned(v) {
      assert PinnedPages(v) == v.table.Keys;
    }
    if |PinnedPages(v)| == |v.fs| {
      SameSize(PinnedPages(v), v.table.Keys);
      forall f | 0 <= f < |v.fs| ensures v.fs[f].pins > 0 {
        assert FrameOk(v, f);
        assert v.fs[f].pageId in PinnedPages(v);
      }
    }
  }

  lemma SameSize(a: set<PageId>, b: set<PageId>)
    requires a <= b && |a| == |b|
    ensures a == b
  {
    assert b == a + (b - a);
    assert |b - a| == 0;
  }
}
