/** Leaf and internal pages of the B+ tree: the array algorithms of the two page
    classes, each proved against a function on sequences. */
module TreePages {
  import opened Common

  datatype Entry = Entry(key: int, rid: RID)

  /** Slot 0 of an internal page has a key too; routing never reads it. */
  datatype Slot = Slot(key: int, child: PageId)

  /** The value of a page: header fields and the live part of its array. */
  datatype Node =
    | Leaf(max: nat, parent: PageId, next: PageId, entries: seq<Entry>)
    | Inner(max: nat, parent: PageId, slots: seq<Slot>)
  {
    function Count(): nat {
      if Leaf? then |entries| else |slots|
    }

    function MinSize(): nat {
      if Leaf? then max / 2 else (max + 1) / 2
    }
  }

  function WithParent(n: Node, p: PageId): Node {
    n.(parent := p)
  }

  function WithEntries(n: Node, es: seq<Entry>): Node
    requires n.Leaf?
  {
    n.(entries := es)
  }

  function WithSlots(n: Node, ss: seq<Slot>): Node
    requires n.Inner?
  {
    n.(slots := ss)
  }

  function WithNext(n: Node, next: PageId): Node
    requires n.Leaf?
  {
    n.(next := next)
  }

  ghost predicate Sorted(es: seq<Entry>) {
    forall i, j :: 0 <= i < j < |es| ==> es[i].key < es[j].key
  }

  // ---------- leaf array specifications ----------

  /** The first position whose key is not below `key`. */
  function LowerBound(es: seq<Entry>, key: int): (r: nat)
    ensures r <= |es|
    ensures forall j :: 0 <= j < r ==> es[j].key < key
    ensures r < |es| ==> key <= es[r].key
  {
    if es == [] || key <= es[0].key then 0 else
      var r := 1 + LowerBound(es[1..], key);
      assert forall j :: 0 < j < r ==> es[j] == es[1..][j - 1];
      r
  }

  lemma LowerBoundUnique(es: seq<Entry>, key: int, r: nat)
    requires r <= |es|
    requires forall j :: 0 <= j < r ==> es[j].key < key
    requires r < |es| ==> key <= es[r].key
    ensures r == LowerBound(es, key)
  {
  }

  ghost predicate HasKey(es: seq<Entry>, key: int) {
    exists i :: 0 <= i < |es| && es[i].key == key
  }

  /** Present keys leave the array as it is. */
  function InsertEntry(es: seq<Entry>, key: int, rid: RID): seq<Entry> {
    var i := LowerBound(es, key);
    if i < |es| && es[i].key == key then es else es[..i] + [Entry(key, rid)] + es[i..]
  }

  function RemoveEntry(es: seq<Entry>, key: int): seq<Entry> {
    var i := LowerBound(es, key);
    if i < |es| && es[i].key == key then RemoveAt(es, i) else es
  }

  // ---------- internal array specifications ----------

  /** Position of the child that a lookup of `key` descends into. */
  function Route(ss: seq<Slot>, key: int): (r: nat)
    requires |ss| >= 1
    ensures r < |ss|
    ensures forall j :: 1 <= j <= r ==> ss[j].key <= key
    ensures r + 1 < |ss| ==> key < ss[r + 1].key
  {
    RouteFrom(ss, key, 0)
  }

  function RouteFrom(ss: seq<Slot>, key: int, i: nat): (r: nat)
    requires i < |ss|
    requires forall j :: 1 <= j <= i ==> ss[j].key <= key
    ensures i <= r < |ss|
    ensures forall j :: 1 <= j <= r ==> ss[j].key <= key
    ensures r + 1 < |ss| ==> key < ss[r + 1].key
    decreases |ss| - i
  {
    if i + 1 == |ss| || key < ss[i + 1].key then i else RouteFrom(ss, key, i + 1)
  }

  ghost predicate HasChild(ss: seq<Slot>, id: PageId) {
    exists i :: 0 <= i < |ss| && ss[i].child == id
  }

  /** `ValueIndex`: the first slot that points at `id`, or -1. */
  function ChildIndex(ss: seq<Slot>, id: PageId): (r: int)
    ensures -1 <= r < |ss|
    ensures r >= 0 ==> ss[r].child == id && forall j :: 0 <= j < r ==> ss[j].child != id
    ensures r == -1 ==> forall j :: 0 <= j < |ss| ==> ss[j].child != id
  {
    if ss == [] then -1
    else if ss[0].child == id then 0
    else
      var r := ChildIndex(ss[1..], id);
      assert forall j :: 0 < j < |ss| ==> ss[j] == ss[1..][j - 1];
      if r == -1 then -1 else r + 1
  }

  function InsertAfter(ss: seq<Slot>, oldChild: PageId, key: int, id: PageId): seq<Slot> {
    var i := ChildIndex(ss, oldChild) + 1;
    ss[..i] + [Slot(key, id)] + ss[i..]
  }

  function WithKey(ss: seq<Slot>, i: nat, key: int): seq<Slot>
    requires i < |ss|
  {
    ss[i := Slot(key, ss[i].child)]
  }

  function RemoveAt<T>(ss: seq<T>, i: nat): (r: seq<T>)
    requires i < |ss|
    ensures |r| == |ss| - 1
    ensures forall j :: 0 <= j < i ==> r[j] == ss[j]
    ensures forall j :: i <= j < |r| ==> r[j] == ss[j + 1]
  {
    ss[..i] + ss[i + 1..]
  }

  /** What `MoveLastToFrontOf` leaves in the recipient: the old slot-0 key stays where it is. */
  function PushFront(ss: seq<Slot>, staleKey: int, child: PageId, middle: int): seq<Slot> {
    [Slot(staleKey, child)] + if ss == [] then [] else [Slot(middle, ss[0].child)] + ss[1..]
  }

  // ---------- the two shifting loops of `array_` ----------

  /** Moves a[at..n] one place to the right, last element first, and stores `x` in the gap. */
  method OpenGap<T>(a: array<T>, at: nat, n: nat, x: T)
    requires at <= n < a.Length
    modifies a
    ensures a[..n + 1] == old(a[..n])[..at] + [x] + old(a[..n])[at..]
  {
    var i := n;
    while i > at
      invariant at <= i <= n
      invariant forall j :: 0 <= j <= i ==> a[j] == old(a[j])
      invariant forall j :: i < j <= n ==> a[j] == old(a[j - 1])
    {
      a[i] := a[i - 1];
      i := i - 1;
    }
    a[at] := x;
  }

  /** Moves a[at + 1..n] one place to the left, first element first. */
  method CloseGap<T>(a: array<T>, at: nat, n: nat)
    requires at < n <= a.Length
    modifies a
    ensures a[..n - 1] == RemoveAt(old(a[..n]), at)
  {
    var i := at;
    while i < n - 1
      invariant at <= i <= n - 1
      invariant forall j :: 0 <= j < at || i <= j < n ==> a[j] == old(a[j])
      invariant forall j :: at <= j < i ==> a[j] == old(a[j + 1])
    {
      a[i] := a[i + 1];
      i := i + 1;
    }
  }

  // ---------- pages ----------

  class LeafPage {
    var size: nat
    var maxSize: nat
    var parent: PageId
    var next: PageId
    const array_: array<Entry>

    ghost predicate Valid()
      reads this
    {
      size <= array_.Length
    }

    ghost function Entries(): seq<Entry>
      requires Valid()
      reads this, array_
    {
      array_[..size]
    }

    ghost function View(): Node
      requires Valid()
      reads this, array_
    {
      Leaf(maxSize, parent, next, Entries())
    }

    /** A zeroed frame of the given capacity, then `Init`. */
    constructor (capacity: nat, max: nat)
      ensures Valid() && fresh(array_) && array_.Length == capacity
      ensures View() == Leaf(max, INVALID_PAGE_ID, INVALID_PAGE_ID, [])
    {
      array_ := new Entry[capacity](_ => Entry(0, RID(0, 0)));
      size, maxSize, parent, next := 0, max, INVALID_PAGE_ID, INVALID_PAGE_ID;
    }

    method KeyIndex(key: int) returns (r: nat)
      requires Valid() && Sorted(Entries())
      ensures r == LowerBound(Entries(), key)
    {
      var low, high := 0, size;
      while low < high
        invariant 0 <= low <= high <= size
        invariant forall j :: 0 <= j < low ==> Entries()[j].key < key
        invariant forall j :: high <= j < size ==> key <= Entries()[j].key
      {
        var mid := low + (high - low) / 2;
        assert array_[mid] == Entries()[mid];
        if array_[mid].key < key {
          low := mid + 1;
        } else {
          high := mid;
        }
      }
      r := low;
      LowerBoundUnique(Entries(), key, r);
    }

    method Lookup(key: int) returns (result: Option<RID>)
      requires Valid() && Sorted(Entries())
      ensures result.Some? <==> HasKey(Entries(), key)
      ensures result.Some? ==> Entry(key, result.value) in Entries()
    {
      var idx := KeyIndex(key);
      if idx < size && !(key < array_[idx].key) && !(array_[idx].key < key) {
        assert array_[idx] == Entries()[idx];
        result := Some(array_[idx].rid);
      } else {
        result := None;
      }
    }

    method Insert(key: int, rid: RID) returns (newSize: nat)
      requires Valid() && size < array_.Length && Sorted(Entries())
      modifies this`size, array_
      ensures Valid() && newSize == size
      ensures Entries() == InsertEntry(old(Entries()), key, rid)
    {
      var idx := KeyIndex(key);
      if idx < size && !(key < array_[idx].key) && !(array_[idx].key < key) {
        return size;
      }
      OpenGap(array_, idx, size, Entry(key, rid));
      size := size + 1;
      return size;
    }

    method RemoveAndDeleteRecord(key: int) returns (newSize: nat)
      requires Valid() && Sorted(Entries())
      modifies this`size, array_
      ensures Valid() && newSize == size
      ensures Entries() == RemoveEntry(old(Entries()), key)
    {
      var idx := KeyIndex(key);
      if idx >= size || key < array_[idx].key || array_[idx].key < key {
        return size;
      }
      CloseGap(array_, idx, size);
      size := size - 1;
      return size;
    }

    method MoveHalfTo(recipient: LeafPage)
      requires Valid() && recipient.Valid()
      requires this != recipient && array_ != recipient.array_
      requires recipient.array_.Length >= size
      modifies this`size, recipient`size, recipient.array_
      ensures Valid() && recipient.Valid()
      ensures Entries() == old(Entries())[..old(size) / 2]
      ensures recipient.Entries() == old(Entries())[old(size) / 2..]
    {
      var split := size / 2;
      var count := size - split;
      var i := 0;
      while i < count
        modifies recipient.array_
        invariant 0 <= i <= count
        invariant recipient.array_[..i] == array_[split..split + i]
      {
        recipient.array_[i] := array_[split + i];
        i := i + 1;
      }
      recipient.size := count;
      size := split;
    }

    method MoveAllTo(recipient: LeafPage)
      requires Valid() && recipient.Valid()
      requires this != recipient && array_ != recipient.array_
      requires recipient.size + size <= recipient.array_.Length
      modifies this`size, recipient`size, recipient.array_
      ensures Valid() && recipient.Valid()
      ensures Entries() == []
      ensures recipient.Entries() == old(recipient.Entries()) + old(Entries())
    {
      var start := recipient.size;
      var i := 0;
      while i < size
        modifies recipient.array_
        invariant 0 <= i <= size
        invariant recipient.array_[..start] == old(recipient.Entries())
        invariant recipient.array_[start..start + i] == array_[..i]
      {
        recipient.array_[start + i] := array_[i];
        i := i + 1;
      }
      recipient.size := recipient.size + size;
      assert recipient.Entries() == recipient.array_[..start] + recipient.array_[start..start + size];
      size := 0;
    }

    method MoveFirstToEndOf(recipient: LeafPage)
      requires Valid() && recipient.Valid() && size > 0
      requires this != recipient && array_ != recipient.array_
      requires recipient.size < recipient.array_.Length
      modifies this`size, array_, recipient`size, recipient.array_
      ensures Valid() && recipient.Valid()
      ensures Entries() == old(Entries())[1..]
      ensures recipient.Entries() == old(recipient.Entries()) + [old(Entries())[0]]
    {
      recipient.array_[recipient.size] := array_[0];
      recipient.size := recipient.size + 1;
      CloseGap(array_, 0, size);
      size := size - 1;
    }

    method MoveLastToFrontOf(recipient: LeafPage)
      requires Valid() && recipient.Valid() && size > 0
      requires this != recipient && array_ != recipient.array_
      requires recipient.size < recipient.array_.Length
      modifies this`size, recipient`size, recipient.array_
      ensures Valid() && recipient.Valid()
      ensures Entries() == old(Entries())[..old(size) - 1]
      ensures recipient.Entries() == [old(Entries())[old(size) - 1]] + old(recipient.Entries())
    {
      ghost var was := recipient.Entries();
      OpenGap(recipient.array_, 0, recipient.size, array_[size - 1]);
      recipient.size := recipient.size + 1;
      size := size - 1;
      assert recipient.Entries() == [array_[size]] + was;
    }
  }

  class InternalPage {
    var size: nat
    var maxSize: nat
    var parent: PageId
    const array_: array<Slot>

    ghost predicate Valid()
      reads this
    {
      size <= array_.Length
    }

    ghost function Slots(): seq<Slot>
      requires Valid()
      reads this, array_
    {
      array_[..size]
    }

    ghost function View(): Node
      requires Valid()
      reads this, array_
    {
      Inner(maxSize, parent, Slots())
    }

    /** A zeroed frame of the given capacity, then `Init`. */
    constructor (capacity: nat, max: nat)
      ensures Valid() && fresh(array_) && array_.Length == capacity
      ensures View() == Inner(max, INVALID_PAGE_ID, [])
    {
      array_ := new Slot[capacity](_ => Slot(0, 0));
      size, maxSize, parent := 0, max, INVALID_PAGE_ID;
    }

    method ValueIndex(id: PageId) returns (r: int)
      requires Valid()
      ensures r == ChildIndex(Slots(), id)
    {
      var i := 0;
      while i < size
        invariant 0 <= i <= size
        invariant forall j :: 0 <= j < i ==> Slots()[j].child != id
      {
        assert array_[i] == Slots()[i];
        if array_[i].child == id {
          return i;
        }
        i := i + 1;
      }
      return -1;
    }

    method Lookup(key: int) returns (id: PageId)
      requires Valid() && size > 0
      ensures id == Slots()[Route(Slots(), key)].child
    {
      id := array_[0].child;
      var i := 1;
      while i < size
        invariant 1 <= i <= size
        invariant id == Slots()[i - 1].child
        invariant forall j :: 1 <= j < i ==> Slots()[j].key <= key
        invariant Route(Slots(), key) == RouteFrom(Slots(), key, i - 1)
      {
        assert array_[i] == Slots()[i];
        if key < array_[i].key {
          break;
        }
        id := array_[i].child;
        i := i + 1;
      }
    }

    method PopulateNewRoot(left: PageId, key: int, right: PageId)
      requires array_.Length >= 2
      modifies this`size, array_
      ensures Valid()
      ensures Slots() == [Slot(old(array_[0].key), left), Slot(key, right)]
    {
      array_[0] := Slot(array_[0].key, left);
      array_[1] := Slot(key, right);
      size := 2;
    }

    method InsertNodeAfter(oldChild: PageId, key: int, id: PageId)
      requires Valid() && size < array_.Length
      modifies this`size, array_
      ensures Valid()
      ensures Slots() == InsertAfter(old(Slots()), oldChild, key, id)
    {
      var idx := ValueIndex(oldChild);
      OpenGap(array_, idx + 1, size, Slot(key, id));
      size := size + 1;
    }

    method SetKeyAt(i: nat, key: int)
      requires Valid() && i < size
      modifies array_
      ensures Valid() && Slots() == WithKey(old(Slots()), i, key)
    {
      array_[i] := Slot(key, array_[i].child);
    }

    method Remove(index: nat)
      requires Valid() && index < size
      modifies this`size, array_
      ensures Valid() && Slots() == RemoveAt(old(Slots()), index)
    {
      CloseGap(array_, index, size);
      size := size - 1;
    }

    method RemoveAndReturnOnlyChild() returns (id: PageId)
      requires Valid() && size > 0
      modifies this`size
      ensures Valid() && Slots() == [] && id == old(Slots())[0].child
    {
      id := array_[0].child;
      size := 0;
    }

    method MoveAllTo(recipient: InternalPage, middle: int)
      requires Valid() && recipient.Valid() && size > 0
      requires this != recipient && array_ != recipient.array_
      requires recipient.size + size <= recipient.array_.Length
      modifies this`size, array_, recipient`size, recipient.array_
      ensures Valid() && recipient.Valid()
      ensures Slots() == []
      ensures recipient.Slots() == old(recipient.Slots()) + WithKey(old(Slots()), 0, middle)
    {
      array_[0] := Slot(middle, array_[0].child);
      ghost var moved := Slots();
      var start := recipient.size;
      var i := 0;
      while i < size
        modifies recipient.array_
        invariant 0 <= i <= size
        invariant recipient.array_[..start] == old(recipient.Slots())
        invariant recipient.array_[start..start + i] == array_[..i]
        invariant Slots() == moved
      {
        recipient.array_[start + i] := array_[i];
        i := i + 1;
      }
      recipient.size := recipient.size + size;
      assert recipient.Slots() == recipient.array_[..start] + recipient.array_[start..start + size];
      size := 0;
    }

    /** The recipient's slot-0 key is whatever its frame held before. */
    method MoveHalfTo(recipient: InternalPage)
      requires Valid() && recipient.Valid() && size > 0
      requires this != recipient && array_ != recipient.array_
      requires recipient.array_.Length >= size
      modifies this`size, recipient`size, recipient.array_
      ensures Valid() && recipient.Valid()
      ensures Slots() == old(Slots())[..old(size) / 2]
      ensures recipient.Slots() == WithKey(old(Slots())[old(size) / 2..], 0, old(recipient.array_[0].key))
    {
      var split := size / 2;
      var count := size - split - 1;
      recipient.array_[0] := Slot(recipient.array_[0].key, array_[split].child);
      var i := 0;
      while i < count
        modifies recipient.array_
        invariant 0 <= i <= count
        invariant recipient.array_[0] == Slot(old(recipient.array_[0].key), array_[split].child)
        invariant forall j :: 0 < j <= i ==> recipient.array_[j] == array_[split + j]
      {
        recipient.array_[i + 1] := array_[split + 1 + i];
        i := i + 1;
      }
      recipient.size := count + 1;
      size := split;
    }

    method MoveFirstToEndOf(recipient: InternalPage, middle: int)
      requires Valid() && recipient.Valid() && size > 0
      requires this != recipient && array_ != recipient.array_
      requires recipient.size < recipient.array_.Length
      modifies this`size, array_, recipient`size, recipient.array_
      ensures Valid() && recipient.Valid()
      ensures Slots() == old(Slots())[1..]
      ensures recipient.Slots() == old(recipient.Slots()) + [Slot(middle, old(Slots())[0].child)]
    {
      recipient.array_[recipient.size] := Slot(middle, array_[0].child);
      recipient.size := recipient.size + 1;
      CloseGap(array_, 0, size);
      size := size - 1;
    }

    /** As written: slot 0 gets the moved child, but never the moved key. */
    method MoveLastToFrontOf(recipient: InternalPage, middle: int)
      requires Valid() && recipient.Valid() && size > 0 && recipient.size > 0
      requires this != recipient && array_ != recipient.array_
      requires recipient.size < recipient.array_.Length
      modifies this`size, recipient`size, recipient.array_
      ensures Valid() && recipient.Valid()
      ensures Slots() == old(Slots())[..old(size) - 1]
      ensures recipient.Slots() ==
              PushFront(old(recipient.Slots()), old(recipient.Slots()[0].key), old(Slots()[size - 1].child), middle)
    {
      ghost var was := recipient.Slots();
      OpenGap(recipient.array_, 0, recipient.size, Slot(recipient.array_[0].key, array_[size - 1].child));
      recipient.array_[1] := Slot(middle, recipient.array_[1].child);
      recipient.size := recipient.size + 1;
      size := size - 1;
      assert recipient.Slots() ==
             [Slot(was[0].key, array_[size].child)] + ([Slot(middle, was[0].child)] + was[1..]);
    }
  }
}
