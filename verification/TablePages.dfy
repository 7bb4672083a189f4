/** The slotted page: header, slot directory and tuple bytes in one array of bytes. */
module TablePages {
  import opened Common

  const PAGE_SIZE: nat := 4096
  const HEADER: nat := 16
  const SLOT: nat := 4

  // ---------- little-endian numbers in bytes ----------

  function Get16(d: seq<Byte>, o: nat): (x: nat)
    requires o + 2 <= |d|
    ensures x < 0x1_0000
  {
    var lo: int := d[o];
    var hi: int := d[o + 1];
    lo + 0x100 * hi
  }

  function Get32(d: seq<Byte>, o: nat): (x: nat)
    requires o + 4 <= |d|
    ensures x < 0x1_0000_0000
  {
    Get16(d, o) + 0x1_0000 * Get16(d, o + 2)
  }

  function Enc16(x: nat): (r: seq<Byte>)
    requires x < 0x1_0000
    ensures |r| == 2 && Get16(r, 0) == x
  {
    [x % 0x100, x / 0x100]
  }

  function Enc32(x: nat): (r: seq<Byte>)
    requires x < 0x1_0000_0000
    ensures |r| == 4 && Get32(r, 0) == x
  {
    var lo, hi := x % 0x1_0000, x / 0x1_0000;
    [lo % 0x100, lo / 0x100, hi % 0x100, hi / 0x100]
  }

  /** A page id is a signed number of 32 bits. */
  function ToId(x: nat): (p: PageId)
    requires x < 0x1_0000_0000
    ensures -0x8000_0000 <= p < 0x8000_0000 && OfId(p) == x
  {
    if x < 0x8000_0000 then x else x - 0x1_0000_0000
  }

  function OfId(p: PageId): (x: nat)
    requires -0x8000_0000 <= p < 0x8000_0000
    ensures x < 0x1_0000_0000
  {
    if p >= 0 then p else p + 0x1_0000_0000
  }

  /** `bs` written over `d` at `o`. */
  function Put(d: seq<Byte>, o: nat, bs: seq<Byte>): (r: seq<Byte>)
    requires o + |bs| <= |d|
    ensures |r| == |d|
    ensures forall k :: 0 <= k < |d| ==> r[k] == if o <= k < o + |bs| then bs[k - o] else d[k]
  {
    d[..o] + bs + d[o + |bs|..]
  }

  lemma PutIn(d: seq<Byte>, o: nat, bs: seq<Byte>)
    requires o + |bs| <= |d|
    ensures Put(d, o, bs)[o..o + |bs|] == bs
  {
  }

  // ---------- the layout ----------

  function NextId(d: seq<Byte>): PageId
    requires |d| == PAGE_SIZE
  {
    ToId(Get32(d, 0))
  }

  function Count(d: seq<Byte>): nat
    requires |d| == PAGE_SIZE
  {
    Get32(d, 4)
  }

  function FreePointer(d: seq<Byte>): nat
    requires |d| == PAGE_SIZE
  {
    Get32(d, 8)
  }

  function SlotEnd(d: seq<Byte>): nat
    requires |d| == PAGE_SIZE
  {
    HEADER + SLOT * Count(d)
  }

  predicate HasSlot(d: seq<Byte>, i: nat) {
    |d| == PAGE_SIZE && i < Count(d) && SlotEnd(d) <= PAGE_SIZE
  }

  function Offset(d: seq<Byte>, i: nat): nat
    requires |d| == PAGE_SIZE && HEADER + SLOT * i + SLOT <= PAGE_SIZE
  {
    Get16(d, HEADER + SLOT * i)
  }

  function Length(d: seq<Byte>, i: nat): nat
    requires |d| == PAGE_SIZE && HEADER + SLOT * i + SLOT <= PAGE_SIZE
  {
    Get16(d, HEADER + SLOT * i + 2)
  }

  /** A deleted tuple has length 0; a live one lies in the tuple area. */
  predicate SlotOk(d: seq<Byte>, i: nat)
    requires HasSlot(d, i)
  {
    Length(d, i) == 0 || (FreePointer(d) <= Offset(d, i) && Offset(d, i) + Length(d, i) <= PAGE_SIZE)
  }

  predicate Apart(d: seq<Byte>, i: nat, j: nat)
    requires HasSlot(d, i) && HasSlot(d, j)
  {
    Length(d, i) == 0 || Length(d, j) == 0 || Offset(d, i) + Length(d, i) <= Offset(d, j)
      || Offset(d, j) + Length(d, j) <= Offset(d, i)
  }

  /** Directory, free space and tuples do not overlap. */
  ghost predicate PageOk(d: seq<Byte>) {
    && |d| == PAGE_SIZE && SlotEnd(d) <= FreePointer(d) <= PAGE_SIZE
    && (forall i {:trigger SlotOk(d, i)} :: 0 <= i < Count(d) ==> SlotOk(d, i))
    && (forall i, j {:trigger Apart(d, i, j)} :: 0 <= i < j < Count(d) ==> Apart(d, i, j))
  }

  /** The bytes of a tuple; none if it was deleted. */
  function Tuple(d: seq<Byte>, i: nat): seq<Byte>
    requires HasSlot(d, i)
  {
    if Offset(d, i) + Length(d, i) <= PAGE_SIZE then d[Offset(d, i)..Offset(d, i) + Length(d, i)] else []
  }

  /** Free bytes as the page computes them, without a check. */
  function Remaining(d: seq<Byte>): int
    requires |d| == PAGE_SIZE
  {
    FreePointer(d) - SlotEnd(d)
  }

  // ---------- what the operations write ----------

  function Init(next: PageId): (r: seq<Byte>)
    requires -0x8000_0000 <= next < 0x8000_0000
    ensures |r| == PAGE_SIZE
  {
    Put(Put(Put(seq(PAGE_SIZE, _ => 0), 0, Enc32(OfId(next))), 4, Enc32(0)), 8, Enc32(PAGE_SIZE))
  }

  function WithNext(d: seq<Byte>, next: PageId): (r: seq<Byte>)
    requires |d| == PAGE_SIZE && -0x8000_0000 <= next < 0x8000_0000
    ensures |r| == PAGE_SIZE
  {
    Put(d, 0, Enc32(OfId(next)))
  }

  function WithSlot(d: seq<Byte>, i: nat, offset: nat, length: nat): (r: seq<Byte>)
    requires |d| == PAGE_SIZE && HEADER + SLOT * i + SLOT <= PAGE_SIZE && offset < 0x1_0000 && length < 0x1_0000
    ensures |r| == PAGE_SIZE
  {
    Put(Put(d, HEADER + SLOT * i, Enc16(offset)), HEADER + SLOT * i + 2, Enc16(length))
  }

  /** The tuple bytes below the free pointer, and the free pointer. */
  function WithBytes(d: seq<Byte>, t: seq<Byte>): (r: seq<Byte>)
    requires |d| == PAGE_SIZE && |t| <= FreePointer(d) <= PAGE_SIZE
    ensures |r| == PAGE_SIZE
  {
    Put(Put(d, 8, Enc32(FreePointer(d) - |t|)), FreePointer(d) - |t|, t)
  }

  function Fits(d: seq<Byte>, t: seq<Byte>): bool
    requires |d| == PAGE_SIZE
  {
    Remaining(d) >= |t| + SLOT
  }

  function Inserted(d: seq<Byte>, t: seq<Byte>): (r: seq<Byte>)
    requires |d| == PAGE_SIZE && FreePointer(d) <= PAGE_SIZE && Fits(d, t)
    ensures |r| == PAGE_SIZE
  {
    var n, at := Count(d), FreePointer(d) - |t|;
    Put(WithSlot(WithBytes(d, t), n, at, |t|), 4, Enc32(n + 1))
  }

  function WithoutTuple(d: seq<Byte>, i: nat): (r: seq<Byte>)
    requires HasSlot(d, i)
    ensures |r| == PAGE_SIZE
  {
    Put(Put(d, HEADER + SLOT * i + 2, Enc16(0)), HEADER + SLOT * i, Enc16(0))
  }

  /** As written, an update is accepted when its growth fits, although it takes room for all of it. */
  function Accepts(d: seq<Byte>, i: nat, t: seq<Byte>): bool
    requires HasSlot(d, i)
  {
    |t| <= Length(d, i) || |t| - Length(d, i) <= Remaining(d)
  }

  function Updated(d: seq<Byte>, i: nat, t: seq<Byte>): (r: seq<Byte>)
    requires HasSlot(d, i) && |t| <= FreePointer(WithoutTuple(d, i)) <= PAGE_SIZE
    ensures |r| == PAGE_SIZE
  {
    var d1 := WithoutTuple(d, i);
    WithSlot(WithBytes(d1, t), i, FreePointer(d1) - |t|, |t|)
  }

  // ---------- what they mean ----------

  lemma InitOk(next: PageId)
    requires -0x8000_0000 <= next < 0x8000_0000
    ensures PageOk(Init(next)) && Count(Init(next)) == 0 && NextId(Init(next)) == next
            && FreePointer(Init(next)) == PAGE_SIZE
  {
    var z: seq<Byte> := seq(PAGE_SIZE, _ => 0);
    var d1 := Put(z, 0, Enc32(OfId(next)));
    var d2 := Put(d1, 4, Enc32(0));
    Field32(z, 0, OfId(next));
    Field32(d1, 4, 0);
    Field32(d2, 8, PAGE_SIZE);
    Field32Out(d1, 4, Enc32(0), 0);
    Field32Out(d2, 8, Enc32(PAGE_SIZE), 0);
    Field32Out(d2, 8, Enc32(PAGE_SIZE), 4);
  }

  /** Where the numbers of a page are, low bytes first: the next page in bytes 0 to 3, as a signed number, the
      count in 4 to 7, the free pointer in 8 to 11, and from byte 16 on four bytes for each slot. */
  lemma Layout(d: seq<Byte>, i: nat)
    requires |d| == 4096 && 16 + 4 * i + 4 <= 4096
    ensures var b: seq<int> := seq(4096, k requires 0 <= k < 4096 => d[k] as int);
            && NextId(d) == b[0] + 256 * b[1] + 65536 * b[2] + 16777216 * (if b[3] < 128 then b[3] else b[3] - 256)
            && Count(d) == b[4] + 256 * b[5] + 65536 * b[6] + 16777216 * b[7]
            && FreePointer(d) == b[8] + 256 * b[9] + 65536 * b[10] + 16777216 * b[11]
            && Offset(d, i) == b[16 + 4 * i] + 256 * b[16 + 4 * i + 1]
            && Length(d, i) == b[16 + 4 * i + 2] + 256 * b[16 + 4 * i + 3]
  {
  }

  lemma Field32(d: seq<Byte>, o: nat, x: nat)
    requires o + 4 <= |d| && x < 0x1_0000_0000
    ensures Get32(Put(d, o, Enc32(x)), o) == x
  {
    assert Put(d, o, Enc32(x))[o..o + 4] == Enc32(x);
  }

  lemma Field16(d: seq<Byte>, o: nat, x: nat)
    requires o + 2 <= |d| && x < 0x1_0000
    ensures Get16(Put(d, o, Enc16(x)), o) == x
  {
    assert Put(d, o, Enc16(x))[o..o + 2] == Enc16(x);
  }

  lemma Field32Out(d: seq<Byte>, o: nat, bs: seq<Byte>, at: nat)
    requires o + |bs| <= |d| && at + 4 <= |d| && (at + 4 <= o || o + |bs| <= at)
    ensures Get32(Put(d, o, bs), at) == Get32(d, at)
  {
  }

  lemma Field16Out(d: seq<Byte>, o: nat, bs: seq<Byte>, at: nat)
    requires o + |bs| <= |d| && at + 2 <= |d| && (at + 2 <= o || o + |bs| <= at)
    ensures Get16(Put(d, o, bs), at) == Get16(d, at)
  {
  }

  /** `d'` agrees with `d` on the bytes from `lo` up to `hi`. */
  ghost predicate Same(d: seq<Byte>, d': seq<Byte>, lo: nat, hi: nat) {
    |d| == PAGE_SIZE && |d'| == PAGE_SIZE && forall k :: lo <= k < hi && k < PAGE_SIZE ==> d'[k] == d[k]
  }

  lemma SameSlot(d: seq<Byte>, d': seq<Byte>, i: nat)
    requires HEADER + SLOT * i + SLOT <= PAGE_SIZE && Same(d, d', HEADER + SLOT * i, HEADER + SLOT * i + SLOT)
    ensures Offset(d', i) == Offset(d, i) && Length(d', i) == Length(d, i)
  {
  }

  lemma SlotWritten(d: seq<Byte>, i: nat, offset: nat, length: nat)
    requires |d| == PAGE_SIZE && HEADER + SLOT * i + SLOT <= PAGE_SIZE && offset < 0x1_0000 && length < 0x1_0000
    ensures var r := WithSlot(d, i, offset, length);
            && Offset(r, i) == offset && Length(r, i) == length
            && Same(d, r, 0, HEADER + SLOT * i) && Same(d, r, HEADER + SLOT * i + SLOT, PAGE_SIZE)
  {
    var o := HEADER + SLOT * i;
    var d1 := Put(d, o, Enc16(offset));
    Field16(d, o, offset);
    Field16(d1, o + 2, length);
    Field16Out(d1, o + 2, Enc16(length), o);
  }

  lemma BytesWritten(d: seq<Byte>, t: seq<Byte>)
    requires |d| == PAGE_SIZE && |t| <= FreePointer(d) <= PAGE_SIZE && FreePointer(d) - |t| >= HEADER
    ensures var r, at := WithBytes(d, t), FreePointer(d) - |t|;
            && FreePointer(r) == at && r[at..at + |t|] == t && Same(d, r, 0, 8) && Same(d, r, 12, at)
               && Same(d, r, at + |t|, PAGE_SIZE)
  {
    var at := FreePointer(d) - |t|;
    var d1 := Put(d, 8, Enc32(at));
    Field32(d, 8, at);
    Field32Out(d1, at, t, 8);
    PutIn(d1, at, t);
  }

  /** The page after an insert, field by field. */
  lemma InsertedLayout(d: seq<Byte>, t: seq<Byte>)
    requires PageOk(d) && Fits(d, t)
    ensures var r, n, at := Inserted(d, t), Count(d), FreePointer(d) - |t|;
            && Count(r) == n + 1 && FreePointer(r) == at && NextId(r) == NextId(d)
               && SlotEnd(d) + SLOT <= at <= PAGE_SIZE
            && Offset(r, n) == at && Length(r, n) == |t| && r[at..at + |t|] == t
            && Same(d, r, HEADER, SlotEnd(d)) && Same(d, r, FreePointer(d), PAGE_SIZE)
  {
    hide Get16, Get32, Enc16, Enc32, Same, WithSlot, WithBytes, Put;
    var n, at := Count(d), FreePointer(d) - |t|;
    var d1 := WithBytes(d, t);
    BytesWritten(d, t);
    var d2 := WithSlot(d1, n, at, |t|);
    SlotWritten(d1, n, at, |t|);
    var r := Put(d2, 4, Enc32(n + 1));
    CountWritten(d2, n + 1);
    SlotEndAt(d, t);
    SameNumbers(d, d1, d2, r, at, n);
    SameChain(d, d1, d2, r, HEADER, SlotEnd(d), 12, at, 0, SlotEnd(d), 8, PAGE_SIZE);
    SameChain(d, d1, d2, r, FreePointer(d), PAGE_SIZE, FreePointer(d), PAGE_SIZE, SlotEnd(d) + SLOT, PAGE_SIZE, 8,
      PAGE_SIZE);
    SameBytes(d1, d2, r, at, |t|, SlotEnd(d) + SLOT);
  }

  lemma SlotEndAt(d: seq<Byte>, t: seq<Byte>)
    requires PageOk(d) && Fits(d, t)
    ensures HEADER <= SlotEnd(d) && SlotEnd(d) + SLOT <= FreePointer(d) - |t| && SlotEnd(d) == HEADER + SLOT * Count(d)
  {
  }

  lemma CountWritten(d: seq<Byte>, n: nat)
    requires |d| == PAGE_SIZE && n < 0x1_0000_0000
    ensures var r := Put(d, 4, Enc32(n));
            Count(r) == n && FreePointer(r) == FreePointer(d) && NextId(r) == NextId(d) && Same(d, r, 8, PAGE_SIZE)
  {
    Field32(d, 4, n);
    Field32Out(d, 4, Enc32(n), 8);
    Field32Out(d, 4, Enc32(n), 0);
  }

  /** What survives the writes of an insert in the header and in the new slot. */
  lemma SameNumbers(d: seq<Byte>, d1: seq<Byte>, d2: seq<Byte>, r: seq<Byte>, at: nat, n: nat)
    requires Same(d, d1, 0, 8) && Same(d1, d2, 0, HEADER + SLOT * n) && Same(d2, r, 8, PAGE_SIZE)
    requires HEADER + SLOT * n + SLOT <= PAGE_SIZE
    ensures NextId(d2) == NextId(d) && FreePointer(d2) == FreePointer(d1) && Offset(r, n) == Offset(d2, n)
            && Length(r, n) == Length(d2, n)
  {
    Get32Same(d, d1, 0);
    Get32Same(d1, d2, 0);
    Get32Same(d1, d2, 8);
    SameSlot(d2, r, n);
  }

  lemma SameChain(d: seq<Byte>, d1: seq<Byte>, d2: seq<Byte>, d3: seq<Byte>, lo: nat, hi: nat,
                  lo1: nat, hi1: nat, lo2: nat, hi2: nat, lo3: nat, hi3: nat)
    requires Same(d, d1, lo1, hi1) && Same(d1, d2, lo2, hi2) && Same(d2, d3, lo3, hi3)
    requires lo1 <= lo && lo2 <= lo && lo3 <= lo && hi <= hi1 && hi <= hi2 && hi <= hi3
    ensures Same(d, d3, lo, hi)
  {
  }

  lemma SameBytes(d1: seq<Byte>, d2: seq<Byte>, r: seq<Byte>, at: nat, n: nat, end: nat)
    requires Same(d1, d2, end, PAGE_SIZE) && Same(d2, r, 8, PAGE_SIZE) && 8 <= end <= at && at + n <= PAGE_SIZE
    ensures r[at..at + n] == d1[at..at + n]
  {
  }

  lemma Get32Same(d: seq<Byte>, d': seq<Byte>, o: nat)
    requires Same(d, d', o, o + 4) && o + 4 <= PAGE_SIZE
    ensures Get32(d', o) == Get32(d, o)
  {
  }

  /** The other tuples keep their slots and their bytes. */
  ghost predicate Untouched(d: seq<Byte>, d': seq<Byte>, except: int) {
    && |d| == PAGE_SIZE && |d'| == PAGE_SIZE && SlotEnd(d) <= PAGE_SIZE && SlotEnd(d') <= PAGE_SIZE
       && Count(d') >= Count(d)
    && forall i: nat :: i < Count(d) && i != except ==>
         Length(d', i) == Length(d, i) && Offset(d', i) == Offset(d, i)
           && (Length(d, i) > 0 ==> Tuple(d', i) == Tuple(d, i))
  }

  /** `i` now holds `t`; the rest of the page is as it was and nothing overlaps. */
  ghost predicate Stored(d: seq<Byte>, d': seq<Byte>, i: nat, t: seq<Byte>) {
    Untouched(d, d', i) && PageOk(d') && NextId(d') == NextId(d) && HasSlot(d', i) && Length(d', i) == |t|
      && (t != [] ==> Tuple(d', i) == t)
  }

  /** A slot whose entry and tuple were not written. */
  lemma KeptSlot(d: seq<Byte>, d': seq<Byte>, j: nat, from: nat, to: nat)
    requires HasSlot(d, j) && HasSlot(d', j) && SlotOk(d, j) && FreePointer(d') <= FreePointer(d)
    requires Same(d, d', from, to) && from <= HEADER + SLOT * j && HEADER + SLOT * j + SLOT <= to
    requires Same(d, d', FreePointer(d), PAGE_SIZE)
    ensures Offset(d', j) == Offset(d, j) && Length(d', j) == Length(d, j) && SlotOk(d', j)
    ensures Length(d, j) > 0 ==> Tuple(d', j) == Tuple(d, j)
  {
    SameSlot(d, d', j);
  }

  lemma InsertOk(d: seq<Byte>, t: seq<Byte>)
    requires PageOk(d) && Fits(d, t)
    ensures Stored(d, Inserted(d, t), Count(d), t) && Count(Inserted(d, t)) == Count(d) + 1
    ensures Remaining(Inserted(d, t)) == Remaining(d) - |t| - SLOT
  {
    hide Offset, Length, Count, FreePointer, Inserted, Same;
    var r, n, at := Inserted(d, t), Count(d), FreePointer(d) - |t|;
    InsertedLayout(d, t);
    forall i: nat | i < n ensures Offset(r, i) == Offset(d, i) && Length(r, i) == Length(d, i) && SlotOk(r, i)
      && (Length(d, i) > 0 ==> Tuple(r, i) == Tuple(d, i)) {
      assert SlotOk(d, i);
      KeptSlot(d, r, i, HEADER, SlotEnd(d));
    }
    forall i: nat, j: nat | i < j < n + 1 ensures Apart(r, i, j) {
      assert SlotOk(d, i);
      if j < n { assert Apart(d, i, j); }
    }
  }

  lemma DeletedLayout(d: seq<Byte>, i: nat)
    requires HasSlot(d, i)
    ensures var r := WithoutTuple(d, i);
            && Count(r) == Count(d) && FreePointer(r) == FreePointer(d) && NextId(r) == NextId(d)
            && Offset(r, i) == 0 && Length(r, i) == 0
            && Same(d, r, 0, HEADER + SLOT * i) && Same(d, r, HEADER + SLOT * i + SLOT, PAGE_SIZE)
  {
    var o := HEADER + SLOT * i;
    var d1 := Put(d, o + 2, Enc16(0));
    Field16(d, o + 2, 0);
    Field16(d1, o, 0);
    Field16Out(d1, o, Enc16(0), o + 2);
    Get32Same(d, WithoutTuple(d, i), 0);
    Get32Same(d, WithoutTuple(d, i), 4);
    Get32Same(d, WithoutTuple(d, i), 8);
  }

  lemma DeleteOk(d: seq<Byte>, i: nat)
    requires PageOk(d) && i < Count(d)
    ensures Stored(d, WithoutTuple(d, i), i, []) && Count(WithoutTuple(d, i)) == Count(d)
            && FreePointer(WithoutTuple(d, i)) == FreePointer(d)
  {
    hide Offset, Length, Count, FreePointer, WithoutTuple, Same;
    var r := WithoutTuple(d, i);
    DeletedLayout(d, i);
    TailSame(d, r, HEADER + SLOT * i + SLOT, FreePointer(d));
    forall j: nat | j < Count(d) && j != i ensures Offset(r, j) == Offset(d, j) && Length(r, j) == Length(d, j)
      && SlotOk(r, j) && (Length(d, j) > 0 ==> Tuple(r, j) == Tuple(d, j)) {
      assert SlotOk(d, j);
      if j < i { KeptSlot(d, r, j, 0, HEADER + SLOT * i); }
        else { KeptSlot(d, r, j, HEADER + SLOT * i + SLOT, PAGE_SIZE); }
    }
    forall j: nat, k: nat | j < k < Count(d) ensures Apart(r, j, k) {
      assert Apart(d, j, k);
    }
  }

  lemma TailSame(d: seq<Byte>, d': seq<Byte>, lo: nat, mid: nat)
    requires Same(d, d', lo, PAGE_SIZE) && lo <= mid
    ensures Same(d, d', mid, PAGE_SIZE)
  {
  }

  lemma UpdatedLayout(d: seq<Byte>, i: nat, t: seq<Byte>)
    requires PageOk(d) && i < Count(d) && |t| <= Remaining(d)
    ensures FreePointer(WithoutTuple(d, i)) == FreePointer(d)
    ensures var r, at := Updated(d, i, t), FreePointer(d) - |t|;
            && Count(r) == Count(d) && FreePointer(r) == at && NextId(r) == NextId(d)
            && Offset(r, i) == at && Length(r, i) == |t| && r[at..at + |t|] == t
            && Same(d, r, HEADER, HEADER + SLOT * i) && Same(d, r, HEADER + SLOT * i + SLOT, SlotEnd(d))
               && Same(d, r, FreePointer(d), PAGE_SIZE)
  {
    hide Get16, Get32, Enc16, Enc32, Same, WithSlot, WithBytes, Put, WithoutTuple;
    DeletedLayout(d, i);
    UpdateRoom(d, i, t);
    var o, at, free, end := HEADER + SLOT * i, FreePointer(d) - |t|, FreePointer(d), SlotEnd(d);
    var d1 := WithoutTuple(d, i);
    var d2 := WithBytes(d1, t);
    var r := WithSlot(d2, i, at, |t|);
    BytesWritten(d1, t);
    SlotWritten(d2, i, at, |t|);
    SameChain(d, d1, d2, r, HEADER, o, 0, o, 12, at, 0, o);
    SameChain(d, d1, d2, r, o + SLOT, end, o + SLOT, PAGE_SIZE, 12, at, o + SLOT, PAGE_SIZE);
    SameChain(d, d1, d2, r, free, PAGE_SIZE, o + SLOT, PAGE_SIZE, at + |t|, PAGE_SIZE, o + SLOT, PAGE_SIZE);
    Get32Within(d1, d2, 0, 8, 0);
    Get32Within(d1, d2, 0, 8, 4);
    Get32Within(d2, r, 0, o, 0);
    Get32Within(d2, r, 0, o, 4);
    Get32Within(d2, r, 0, o, 8);
    SameSlice(d2, r, o + SLOT, PAGE_SIZE, at, |t|);
  }

  lemma UpdateRoom(d: seq<Byte>, i: nat, t: seq<Byte>)
    requires PageOk(d) && i < Count(d) && |t| <= Remaining(d)
    ensures HEADER + SLOT * i + SLOT <= SlotEnd(d) <= FreePointer(d) - |t| && FreePointer(d) <= PAGE_SIZE
  {
  }

  lemma Get32Within(d: seq<Byte>, d': seq<Byte>, lo: nat, hi: nat, o: nat)
    requires Same(d, d', lo, hi) && lo <= o && o + 4 <= hi <= PAGE_SIZE
    ensures Get32(d', o) == Get32(d, o)
  {
    Get32Same(d, d', o);
  }

  lemma SameSlice(d: seq<Byte>, d': seq<Byte>, lo: nat, hi: nat, at: nat, n: nat)
    requires Same(d, d', lo, hi) && lo <= at && at + n <= hi <= PAGE_SIZE
    ensures d'[at..at + n] == d[at..at + n]
  {
  }

  lemma UpdateOk(d: seq<Byte>, i: nat, t: seq<Byte>)
    requires PageOk(d) && i < Count(d) && |t| <= Remaining(d)
    ensures FreePointer(WithoutTuple(d, i)) == FreePointer(d) && Stored(d, Updated(d, i, t), i, t)
            && Count(Updated(d, i, t)) == Count(d)
  {
    hide Offset, Length, Count, FreePointer, Updated, WithoutTuple, Same;
    UpdatedLayout(d, i, t);
    var r := Updated(d, i, t);
    forall j: nat | j < Count(d) && j != i ensures Offset(r, j) == Offset(d, j) && Length(r, j) == Length(d, j)
      && SlotOk(r, j) && (Length(d, j) > 0 ==> Tuple(r, j) == Tuple(d, j)) {
      assert SlotOk(d, j);
      if j < i { KeptSlot(d, r, j, HEADER, HEADER + SLOT * i); }
        else { KeptSlot(d, r, j, HEADER + SLOT * i + SLOT, SlotEnd(d)); }
    }
    forall j: nat, k: nat | j < k < Count(d) ensures Apart(r, j, k) {
      assert Apart(d, j, k) && SlotOk(d, j) && SlotOk(d, k);
    }
  }

  /** An accepted update is right if and only if the new size is at most the free space, not just the
      growth. Sizes above the free pointer would be written in front of the page. */
  lemma UpdateExact(d: seq<Byte>, i: nat, t: seq<Byte>)
    requires PageOk(d) && i < Count(d) && 0 < |t| <= FreePointer(d) && Accepts(d, i, t)
    ensures FreePointer(WithoutTuple(d, i)) == FreePointer(d)
    ensures Stored(d, Updated(d, i, t), i, t) && Count(Updated(d, i, t)) == Count(d) <==> |t| <= Remaining(d)
  {
    hide Offset, Length, Count, FreePointer, Updated, WithoutTuple, Same, Untouched;
    DeletedLayout(d, i);
    if |t| <= Remaining(d) {
      UpdateOk(d, i, t);
    } else {
      UpdatedOffset(d, i, t);
      var r := Updated(d, i, t);
      assert PageOk(r) && i < Count(r) ==> SlotOk(r, i);
    }
  }

  lemma UpdatedOffset(d: seq<Byte>, i: nat, t: seq<Byte>)
    requires PageOk(d) && i < Count(d) && |t| <= FreePointer(d)
    ensures FreePointer(WithoutTuple(d, i)) == FreePointer(d)
    ensures Offset(Updated(d, i, t), i) == FreePointer(d) - |t| && Length(Updated(d, i, t), i) == |t|
  {
    DeletedLayout(d, i);
    SlotWritten(WithBytes(WithoutTuple(d, i), t), i, FreePointer(d) - |t|, |t|);
  }

  /** A tuple of 2500 bytes on a fresh page: an update to 1590 bytes is accepted, since it shrinks, and
      runs into the header. */
  lemma UpdateSpoils(t: seq<Byte>, t': seq<Byte>)
    requires |t| == 2500 && |t'| == 1590
    ensures var d := Init(INVALID_PAGE_ID);
            && PageOk(d) && Fits(d, t) && PageOk(Inserted(d, t)) && HasSlot(Inserted(d, t), 0)
               && Accepts(Inserted(d, t), 0, t')
            && |t'| <= FreePointer(WithoutTuple(Inserted(d, t), 0)) <= PAGE_SIZE
            && !Stored(Inserted(d, t), Updated(Inserted(d, t), 0, t'), 0, t')
  {
    hide Offset, Length, Count, FreePointer, Updated, WithoutTuple, Inserted, Init, Same, Untouched;
    var d := Init(INVALID_PAGE_ID);
    InitOk(INVALID_PAGE_ID);
    InsertOk(d, t);
    InsertedLayout(d, t);
    var d1 := Inserted(d, t);
    UpdatedOffset(d1, 0, t');
    var r := Updated(d1, 0, t');
    assert PageOk(r) && HasSlot(r, 0) ==> SlotOk(r, 0);
  }

  // ---------- the page in memory ----------

  class TablePage {
    const data: array<Byte>

    ghost predicate Valid()
      reads this, data
    {
      data.Length == PAGE_SIZE && PageOk(data[..])
    }

    /** The page found in a frame. */
    constructor (bytes: seq<Byte>)
      requires |bytes| == PAGE_SIZE
      ensures fresh(data) && data.Length == PAGE_SIZE && data[..] == bytes
    {
      data := new Byte[PAGE_SIZE](i requires 0 <= i < PAGE_SIZE => bytes[i]);
    }

    function Read16(o: nat): (x: nat)
      requires data.Length == PAGE_SIZE && o + 2 <= PAGE_SIZE
      reads data
      ensures x == Get16(data[..], o)
    {
      var lo: int := data[o];
      var hi: int := data[o + 1];
      lo + 0x100 * hi
    }

    function Read32(o: nat): (x: nat)
      requires data.Length == PAGE_SIZE && o + 4 <= PAGE_SIZE
      reads data
      ensures x == Get32(data[..], o)
    {
      Read16(o) + 0x1_0000 * Read16(o + 2)
    }

    method Write16(o: nat, x: nat)
      requires data.Length == PAGE_SIZE && o + 2 <= PAGE_SIZE && x < 0x1_0000
      modifies data
      ensures data[..] == Put(old(data[..]), o, Enc16(x))
    {
      data[o], data[o + 1] := x % 0x100, x / 0x100;
    }

    method Write32(o: nat, x: nat)
      requires data.Length == PAGE_SIZE && o + 4 <= PAGE_SIZE && x < 0x1_0000_0000
      modifies data
      ensures data[..] == Put(old(data[..]), o, Enc32(x))
    {
      var lo, hi := x % 0x1_0000, x / 0x1_0000;
      data[o], data[o + 1], data[o + 2], data[o + 3] := lo % 0x100, lo / 0x100, hi % 0x100, hi / 0x100;
    }

    /** `memcpy` into the page. */
    method CopyIn(o: nat, bytes: seq<Byte>)
      requires data.Length == PAGE_SIZE && o + |bytes| <= PAGE_SIZE
      modifies data
      ensures data[..] == Put(old(data[..]), o, bytes)
    {
      for i := 0 to |bytes|
        invariant forall k :: 0 <= k < PAGE_SIZE ==> data[k] == if o <= k < o + i then bytes[k - o] else old(data[k])
      {
        data[o + i] := bytes[i];
      }
    }

    /** `memcpy` out of the page. */
    method CopyOut(o: nat, n: nat) returns (bytes: seq<Byte>)
      requires data.Length == PAGE_SIZE && o + n <= PAGE_SIZE
      ensures bytes == data[o..o + n]
    {
      bytes := [];
      for i := 0 to n
        invariant bytes == data[o..o + i]
      {
        bytes := bytes + [data[o + i]];
      }
    }

    function GetNextPageId(): (next: PageId)
      requires data.Length == PAGE_SIZE
      reads this, data
      ensures next == NextId(data[..])
    {
      ToId(Read32(0))
    }

    function GetNumTuples(): (n: nat)
      requires data.Length == PAGE_SIZE
      reads this, data
      ensures n == Count(data[..])
    {
      Read32(4)
    }

    function GetTupleSize(i: nat): (n: nat)
      requires Valid() && i < Count(data[..])
      reads this, data
      ensures n == Length(data[..], i)
    {
      Read16(HEADER + i * SLOT + 2)
    }

    method SetNextPageId(next: PageId)
      requires data.Length == PAGE_SIZE && -0x8000_0000 <= next < 0x8000_0000
      modifies data
      ensures data[..] == WithNext(old(data[..]), next)
    {
      Write32(0, OfId(next));
    }

    /** Bytes below the free pointer, and a slot that says where they are. */
    method PlaceTuple(i: nat, t: seq<Byte>)
      requires data.Length == PAGE_SIZE && |t| <= FreePointer(data[..]) <= PAGE_SIZE
               && HEADER + SLOT * i + SLOT <= PAGE_SIZE
      modifies data
      ensures data[..] == WithSlot(WithBytes(old(data[..]), t), i, FreePointer(old(data[..])) - |t|, |t|)
    {
      hide Get16, Get32, Enc16, Enc32;
      var at := Read32(8) - |t|;
      Write32(8, at);
      CopyIn(at, t);
      Write16(HEADER + i * SLOT, at);
      Write16(HEADER + i * SLOT + 2, |t|);
    }

    /** Refuses a tuple that does not fit; otherwise the tuple has a slot of its own and all others are
        as before. */
    method InsertTuple(t: seq<Byte>) returns (slot: Option<nat>)
      requires Valid()
      modifies data
      ensures Valid()
      ensures slot.Some? <==> Fits(old(data[..]), t)
      ensures slot.Some? <==> |t| + 4 <= FreePointer(old(data[..])) - (16 + 4 * Count(old(data[..])))
      ensures slot.None? ==> data[..] == old(data[..])
      ensures slot.Some? ==> slot.value == Count(old(data[..])) && data[..] == Inserted(old(data[..]), t)
      ensures slot.Some? ==>
              Stored(old(data[..]), data[..], slot.value, t) && Count(data[..]) == Count(old(data[..])) + 1
    {
      hide PageOk, Stored, Get16, Get32, Enc32, Enc16, WithSlot, WithBytes;
      PageBounds(data[..]);
      var n, at := Read32(4), Read32(8);
      if at - (HEADER + n * SLOT) < |t| + SLOT {
        return None;
      }
      InsertOk(data[..], t);
      StoredOk(data[..], Inserted(data[..], t), n, t);
      PlaceTuple(n, t);
      Write32(4, n + 1);
      return Some(n);
    }

    method GetTuple(i: nat) returns (t: seq<Byte>)
      requires Valid() && i < Count(data[..])
      ensures t == Tuple(data[..], i)
    {
      var offset, length := Read16(HEADER + i * SLOT), Read16(HEADER + i * SLOT + 2);
      assert offset == Offset(data[..], i) && length == Length(data[..], i);
      assert SlotOk(data[..], i);
      if offset + length > PAGE_SIZE {
        return [];
      }
      t := CopyOut(offset, length);
    }

    method DeleteTuple(i: nat)
      requires Valid() && i < Count(data[..])
      modifies data
      ensures Valid() && data[..] == WithoutTuple(old(data[..]), i) && Stored(old(data[..]), data[..], i, [])
              && Count(data[..]) == Count(old(data[..]))
    {
      hide PageOk, Stored;
      PageBounds(data[..]);
      DeleteOk(data[..], i);
      StoredOk(data[..], WithoutTuple(data[..], i), i, []);
      Write16(HEADER + i * SLOT + 2, 0);
      Write16(HEADER + i * SLOT, 0);
    }

    /** The check looks at the growth only. Whatever it accepts is written as long as the bytes stay on
        the page; the result is right exactly when the new size is at most the free space. */
    method UpdateTuple(i: nat, t: seq<Byte>) returns (ok: bool)
      requires Valid() && i < Count(data[..])
      requires Accepts(data[..], i, t) ==> |t| <= FreePointer(data[..])
      modifies data
      ensures ok <==> Accepts(old(data[..]), i, t)
      ensures ok <==> |t| - Length(old(data[..]), i) <= FreePointer(old(data[..])) - (16 + 4 * Count(old(data[..])))
      ensures !ok ==> data[..] == old(data[..])
      ensures ok ==> FreePointer(WithoutTuple(old(data[..]), i)) == FreePointer(old(data[..]))
                     && data[..] == Updated(old(data[..]), i, t)
      ensures ok && t != [] ==>
                (Stored(old(data[..]), data[..], i, t) && Count(data[..]) == Count(old(data[..])) <==>
                  |t| <= Remaining(old(data[..])))
    {
      hide PageOk, Stored, Get32, Get16, WithSlot, WithBytes, WithoutTuple;
      ghost var d := data[..];
      PageBounds(d);
      var oldSize := Read16(HEADER + i * SLOT + 2);
      if |t| > oldSize && |t| - oldSize > Read32(8) - (HEADER + Read32(4) * SLOT) {
        return false;
      }
      UpdatedOffset(d, i, t);
      if t != [] { UpdateExact(d, i, t); }
      DeleteTuple(i);
      PlaceTuple(i, t);
      return true;
    }
  }

  lemma PageBounds(d: seq<Byte>)
    requires PageOk(d)
    ensures |d| == PAGE_SIZE && HEADER <= SlotEnd(d) <= FreePointer(d) <= PAGE_SIZE
  {
  }

  lemma StoredOk(d: seq<Byte>, d': seq<Byte>, i: nat, t: seq<Byte>)
    requires Stored(d, d', i, t)
    ensures PageOk(d')
  {
  }
}
