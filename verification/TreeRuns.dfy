/** Any sequence of calls on the tree behaves like the same calls on a finite map. */
module TreeRuns {
  import opened Common
  import opened TreeFrames
  import opened TreeSoundness
  import opened BPlusTree
  import opened TreeForesight

  datatype Call = Insert(key: int, rid: RID) | Remove(key: int) | GetValue(key: int)

  datatype Reply = Inserted(ok: bool) | Removed | Found(rid: Option<RID>)

  function Answer(m: map<int, RID>, call: Call): (Reply, map<int, RID>) {
    match call
    case Insert(k, r) => (Inserted(k !in m), if k in m then m else m[k := r])
    case Remove(k) => (Removed, m - {k})
    case GetValue(k) => (Found(if k in m then Some(m[k]) else None), m)
  }

  function Answers(m: map<int, RID>, calls: seq<Call>): (seq<Reply>, map<int, RID>)
    decreases |calls|
  {
    if calls == [] then ([], m)
    else
      var (rs, m1) := Answers(m, calls[..|calls| - 1]);
      var (r, m2) := Answer(m1, calls[|calls| - 1]);
      (rs + [r], m2)
  }

  /** A removal that the code as written would pay for with the tree. */
  ghost predicate Spoils(t: Tree, call: Call)
    reads t, t.pool
  {
    call.Remove? && SpoilsRemoval(t.pool.heap, t.shape, t.root, call.key, t.contents - {call.key})
  }

  method Foresee(t: Tree, call: Call) returns (b: bool)
    requires t.Valid() && t.pool.unsaved == {} && t.pool.free >= 1
    modifies t.pool`pins, t.pool`free, t.pool`unsaved
    ensures t.Valid() && t.pool.unsaved == {} && t.pool.free == old(t.pool.free)
    ensures b <==> Spoils(t, call)
  {
    hide Tree.Valid, SpoilsRemoval;
    if !call.Remove? {
      return false;
    }
    b := WouldSpoil(t, call.key);
  }

  method Serve(t: Tree, call: Call) returns (reply: Reply)
    requires t.Valid() && t.pool.unsaved == {} && t.pool.free >= 4 && (t.repaired || !Spoils(t, call))
    modifies t, t.pool, t.pool.repr
    ensures t.Valid() && t.pool.unsaved == {} && fresh(t.pool.repr - old(t.pool.repr))
            && t.pool.free == old(t.pool.free)
    ensures (reply, t.contents) == Answer(old(t.contents), call)
  {
    hide Tree.Valid, SpoilsRemoval;
    match call {
      case Insert(k, r) =>
        var ok := t.Insert(k, r);
        reply := Inserted(ok);
      case Remove(k) =>
        t.Remove(k);
        reply := Removed;
      case GetValue(k) =>
        var r := t.GetValue(k);
        reply := Found(r);
    }
  }

  /** From any valid state, with four frames to spare. As written, the calls are served up to the first
      removal that would spoil the tree, if there is one. */
  method Run(t: Tree, calls: seq<Call>) returns (replies: seq<Reply>)
    requires t.Valid() && t.pool.unsaved == {} && t.pool.free >= 4
    modifies t, t.pool, t.pool.repr
    ensures t.Valid() && t.pool.unsaved == {} && fresh(t.pool.repr - old(t.pool.repr))
            && t.pool.free == old(t.pool.free)
    ensures |replies| <= |calls| && (replies, t.contents) == Answers(old(t.contents), calls[..|replies|])
    ensures |replies| < |calls| ==> !t.repaired && Spoils(t, calls[|replies|])
  {
    hide Tree.Valid, Spoils;
    replies := [];
    for i := 0 to |calls|
      invariant |replies| == i && t.Valid() && t.pool.unsaved == {} && t.pool.free == old(t.pool.free)
      invariant fresh(t.pool.repr - old(t.pool.repr))
      invariant (replies, t.contents) == Answers(old(t.contents), calls[..i])
    {
      assert calls[..i + 1][..i] == calls[..i];
      if !t.repaired {
        var spoils := Foresee(t, calls[i]);
        if spoils {
          return;
        }
      }
      ghost var repr := t.pool.repr;
      var reply := Serve(t, calls[i]);
      replies := replies + [reply];
      assert t.pool.repr - old(t.pool.repr) <= (t.pool.repr - repr) + (repr - old(t.pool.repr));
    }
    assert calls[..|calls|] == calls;
  }
}
