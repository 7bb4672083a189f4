/** The lock manager's critical sections. A call either returns or waits on the queue's
    condition variable; what it does when it wakes up is a section of its own. */
module LockTable {
  import opened Common

  type TxnId = nat

  datatype Mode = SHARED | EXCLUSIVE

  /** A node of the request list. The ticket is its identity: the iterator a waiting call keeps. */
  datatype Request = Request(ticket: nat, txn: TxnId, mode: Mode, granted: bool)

  datatype Queue = Queue(requests: seq<Request>, upgrading: bool)

  type Table = map<RID, Queue>

  datatype TxnState = GROWING | SHRINKING | COMMITTED | ABORTED

  datatype Txn = Txn(state: TxnState, shared: set<RID>, exclusive: set<RID>)

  /** What a critical section ends with: `false`, `true` without a new lock, `true` with one,
      or a wait that keeps an iterator to the request with this ticket. */
  datatype Reply = Refused | Held | Granted | Waits(ticket: nat)

  /** What one section reads and writes: the table and the caller's transaction. */
  datatype Local = Local(table: Table, next: nat, txn: Txn)

  function QueueAt(table: Table, rid: RID): Queue {
    if rid in table then table[rid] else Queue([], false)
  }

  // ---------- the wait predicates ----------

  predicate NoExclusive(rs: seq<Request>) {
    forall r :: r in rs && r.granted ==> r.mode != EXCLUSIVE
  }

  predicate OnlyMine(rs: seq<Request>, id: TxnId) {
    forall r :: r in rs && r.granted ==> r.txn == id
  }

  // ---------- list operations ----------

  function Appended(q: Queue, r: Request): Queue {
    q.(requests := q.requests + [r])
  }

  /** The node with the given ticket is marked granted. */
  function Grant(rs: seq<Request>, ticket: nat): (r: seq<Request>)
    ensures |r| == |rs|
    ensures forall i :: 0 <= i < |rs| ==> r[i] == if rs[i].ticket == ticket then rs[i].(granted := true) else rs[i]
  {
    if rs == [] then []
    else [if rs[0].ticket == ticket then rs[0].(granted := true) else rs[0]] + Grant(rs[1..], ticket)
  }

  /** The node with the given ticket leaves the list. */
  function EraseNode(rs: seq<Request>, ticket: nat): seq<Request> {
    if rs == [] then []
    else if rs[0].ticket == ticket then rs[1..]
    else [rs[0]] + EraseNode(rs[1..], ticket)
  }

  /** The first node of the transaction leaves the list. */
  function EraseFirst(rs: seq<Request>, id: TxnId): seq<Request> {
    if rs == [] then []
    else if rs[0].txn == id then rs[1..]
    else [rs[0]] + EraseFirst(rs[1..], id)
  }

  ghost predicate IsFirstOf(rs: seq<Request>, id: TxnId, i: nat) {
    i < |rs| && rs[i].txn == id && forall j :: 0 <= j < i ==> rs[j].txn != id
  }

  lemma {:induction false} EraseNodeExact(rs: seq<Request>, ticket: nat, i: nat)
    requires i < |rs| && rs[i].ticket == ticket && forall j :: 0 <= j < i ==> rs[j].ticket != ticket
    ensures EraseNode(rs, ticket) == Without(rs, i)
  {
    if i > 0 {
      EraseNodeExact(rs[1..], ticket, i - 1);
    }
  }

  /** One node of `id`, the first one, is gone; everything else keeps its order. */
  lemma {:induction false} EraseFacts(rs: seq<Request>, id: TxnId) returns (i: nat)
    ensures if i < |rs| then IsFirstOf(rs, id, i) && EraseFirst(rs, id) == Without(rs, i)
            else i == |rs| && EraseFirst(rs, id) == rs && forall j :: 0 <= j < i ==> rs[j].txn != id
  {
    if rs == [] || rs[0].txn == id {
      i := 0;
    } else {
      var k := EraseFacts(rs[1..], id);
      i := k + 1;
      assert forall j :: 0 < j < i ==> rs[j] == rs[1..][j - 1];
      if k < |rs[1..]| { WithoutLater(rs, k); }
      hide Without;
    }
  }

  lemma WithoutLater(rs: seq<Request>, k: nat)
    requires k + 1 < |rs|
    ensures Without(rs, k + 1) == [rs[0]] + Without(rs[1..], k)
  {
  }

  /** Index of the first granted node of the transaction, or the length of the list. */
  function FirstGranted(rs: seq<Request>, id: TxnId): (i: nat)
    ensures i <= |rs|
    ensures forall j :: 0 <= j < i ==> !(rs[j].txn == id && rs[j].granted)
    ensures i < |rs| ==> rs[i].txn == id && rs[i].granted
  {
    if rs == [] then 0
    else if rs[0].txn == id && rs[0].granted then 0
    else
      var k := FirstGranted(rs[1..], id);
      assert forall j :: 0 < j <= k && j < |rs| ==> rs[j] == rs[1..][j - 1];
      k + 1
  }

  // ---------- the critical sections ----------

  function WithQueue(l: Local, rid: RID, q: Queue): Local {
    l.(table := l.table[rid := q])
  }

  function ResumeShared(l: Local, id: TxnId, rid: RID, ticket: nat): (Local, Reply) {
    var q := QueueAt(l.table, rid);
    if l.txn.state == ABORTED then
      (WithQueue(l, rid, q.(requests := EraseNode(q.requests, ticket))), Refused)
    else if !NoExclusive(q.requests) then
      (l, Waits(ticket))
    else
      (WithQueue(l, rid, q.(requests := Grant(q.requests, ticket))).(txn := l.txn.(shared := l.txn.shared + {rid})),
        Granted)
  }

  function LockShared(l: Local, id: TxnId, rid: RID): (Local, Reply) {
    if l.txn.state == SHRINKING then
      (l.(txn := l.txn.(state := ABORTED)), Refused)
    else if l.txn.state == ABORTED then
      (l, Refused)
    else if rid in l.txn.shared || rid in l.txn.exclusive then
      (l, Held)
    else
      ResumeShared(WithQueue(l, rid,
        Appended(QueueAt(l.table, rid), Request(l.next, id, SHARED, false))).(next := l.next + 1),
                   id, rid, l.next)
  }

  function ResumeExclusive(l: Local, id: TxnId, rid: RID, ticket: nat): (Local, Reply) {
    var q := QueueAt(l.table, rid);
    if l.txn.state == ABORTED then
      (WithQueue(l, rid, q.(requests := EraseNode(q.requests, ticket))), Refused)
    else if !OnlyMine(q.requests, id) then
      (l, Waits(ticket))
    else
      (WithQueue(l, rid, q.(requests := Grant(q.requests, ticket))).(txn := l.txn.(exclusive := l.txn.exclusive
        + {rid})), Granted)
  }

  function LockExclusive(l: Local, id: TxnId, rid: RID): (Local, Reply) {
    if l.txn.state == SHRINKING then
      (l.(txn := l.txn.(state := ABORTED)), Refused)
    else if l.txn.state == ABORTED then
      (l, Refused)
    else if rid in l.txn.exclusive then
      (l, Held)
    else
      ResumeExclusive(WithQueue(l, rid,
        Appended(QueueAt(l.table, rid), Request(l.next, id, EXCLUSIVE, false))).(next := l.next + 1),
                      id, rid, l.next)
  }

  function ResumeUpgrade(l: Local, id: TxnId, rid: RID, ticket: nat): (Local, Reply) {
    var q := QueueAt(l.table, rid);
    if l.txn.state == ABORTED then
      (WithQueue(l, rid, q.(upgrading := false)), Refused)
    else if !OnlyMine(q.requests, id) then
      (l, Waits(ticket))
    else
      (WithQueue(l, rid, Queue(Grant(q.requests, ticket), false))
       .(txn := l.txn.(shared := l.txn.shared - {rid}, exclusive := l.txn.exclusive + {rid})), Granted)
  }

  /** As written the request loses its grant while it waits; the repair keeps it (`keep`). */
  function LockUpgrade(l: Local, id: TxnId, rid: RID, keep: bool): (Local, Reply) {
    var q := QueueAt(l.table, rid);
    if l.txn.state == SHRINKING then
      (l.(txn := l.txn.(state := ABORTED)), Refused)
    else if l.txn.state == ABORTED then
      (l, Refused)
    else if q.upgrading then
      (WithQueue(l, rid, q).(txn := l.txn.(state := ABORTED)), Refused)
    else
      var i := FirstGranted(q.requests, id);
      if i == |q.requests| then
        (WithQueue(l, rid, q), Refused)
      else
        var r := q.requests[i].(mode := EXCLUSIVE, granted := keep);
        ResumeUpgrade(WithQueue(l, rid, Queue(q.requests[i := r], true)), id, rid, r.ticket)
  }

  function Unlock(l: Local, id: TxnId, rid: RID): Local {
    var q := QueueAt(l.table, rid);
    WithQueue(l, rid, q.(requests := EraseFirst(q.requests, id)))
    .(txn := Txn(if l.txn.state == GROWING then SHRINKING
      else l.txn.state, l.txn.shared - {rid}, l.txn.exclusive - {rid}))
  }

  // ---------- what a call leaves behind, said of the queues ----------

  /** `r` now stands at the end of its queue, and no other request has changed. Tickets are given out in
      ascending order, so no request in the queue has the new one. */
  ghost predicate Enqueued(before: Table, after: Table, rid: RID, r: Request) {
    var q := QueueAt(before, rid);
    (forall i :: 0 <= i < |q.requests| ==> q.requests[i].ticket < r.ticket) ==>
      after == before[rid := Queue(q.requests + [r], q.upgrading)]
  }

  lemma SharedJoins(l: Local, id: TxnId, rid: RID)
    ensures var (l', reply) := LockShared(l, id, rid);
            reply == Granted || reply.Waits? ==>
              Enqueued(l.table, l'.table, rid, Request(l.next, id, SHARED, reply == Granted))
  {
    var q := QueueAt(l.table, rid);
    if forall i :: 0 <= i < |q.requests| ==> q.requests[i].ticket < l.next {
      GrantLast(q, Request(l.next, id, SHARED, false));
    }
  }

  lemma ExclusiveJoins(l: Local, id: TxnId, rid: RID)
    ensures var (l', reply) := LockExclusive(l, id, rid);
            reply == Granted || reply.Waits? ==>
              Enqueued(l.table, l'.table, rid, Request(l.next, id, EXCLUSIVE, reply == Granted))
  {
    var q := QueueAt(l.table, rid);
    if forall i :: 0 <= i < |q.requests| ==> q.requests[i].ticket < l.next {
      GrantLast(q, Request(l.next, id, EXCLUSIVE, false));
    }
  }

  lemma GrantLast(q: Queue, r: Request)
    requires forall i :: 0 <= i < |q.requests| ==> q.requests[i].ticket < r.ticket
    ensures Grant(q.requests + [r], r.ticket) == q.requests + [r.(granted := true)]
  {
  }

  /** The caller's first granted request, at `i`, asks for the exclusive mode now: with the grant when
      there is no other holder, and else, until it wakes up, only where the repair keeps it. */
  ghost predicate Upgraded(before: Table, after: Table, rid: RID, id: TxnId, granted: bool, keep: bool) {
    var rs := QueueAt(before, rid).requests;
    forall i: nat :: IsFirstGranted(rs, id, i)
                     && (forall j :: 0 <= j < |rs| && j != i ==> rs[j].ticket != rs[i].ticket) ==>
      after == before[rid := Queue(rs[i := Request(rs[i].ticket, id, EXCLUSIVE, granted || keep)], !granted)]
  }

  ghost predicate IsFirstGranted(rs: seq<Request>, id: TxnId, i: nat) {
    i < |rs| && rs[i].txn == id && rs[i].granted && forall j :: 0 <= j < i ==> !(rs[j].txn == id && rs[j].granted)
  }

  lemma UpgradeSays(l: Local, id: TxnId, rid: RID, keep: bool)
    ensures var q := QueueAt(l.table, rid); var (l', reply) := LockUpgrade(l, id, rid, keep);
            && (reply == Refused <==>
                || l.txn.state == SHRINKING || l.txn.state == ABORTED || q.upgrading
                || forall r :: r in q.requests && r.granted ==> r.txn != id)
            && (reply == Granted <==> reply != Refused && forall r :: r in q.requests && r.granted ==> r.txn == id)
            && (reply == Refused ==> forall r :: QueueAt(l'.table, r) == QueueAt(l.table, r))
            && (reply == Granted || reply.Waits? ==> Upgraded(l.table, l'.table, rid, id, reply == Granted, keep))
  {
    hide Grant;
    var q := QueueAt(l.table, rid);
    var rs, i := q.requests, FirstGranted(q.requests, id);
    if i < |rs| {
      var rs' := rs[i := rs[i].(mode := EXCLUSIVE, granted := keep)];
      OthersOnly(rs, rs', i, id);
      if forall j :: 0 <= j < |rs| && j != i ==> rs[j].ticket != rs[i].ticket {
        GrantOne(rs', i);
        var (l', reply) := LockUpgrade(l, id, rid, keep);
        if reply == Granted || reply.Waits? {
          var r := Request(rs[i].ticket, id, EXCLUSIVE, reply == Granted || keep);
          assert rs[i := r] == if reply == Granted then rs'[i := rs'[i].(granted := true)] else rs';
          assert l'.table == l.table[rid := Queue(rs[i := r], reply != Granted)];
        }
      }
      forall k: nat | IsFirstGranted(rs, id, k) ensures k == i {
      }
    }
  }

  /** Whether the caller's own request counts as granted makes no difference. */
  lemma OthersOnly(rs: seq<Request>, rs': seq<Request>, i: nat, id: TxnId)
    requires i < |rs| == |rs'| && rs' == rs[i := rs'[i]] && rs[i].txn == rs'[i].txn == id
    ensures OnlyMine(rs', id) <==> OnlyMine(rs, id)
  {
    forall j | 0 <= j < |rs| ensures rs'[j].txn == id <==> rs[j].txn == id {
    }
    if OnlyMine(rs', id) {
      forall j | 0 <= j < |rs| && rs[j].granted ensures rs[j].txn == id {
        assert rs'[j] in rs';
      }
    }
    if OnlyMine(rs, id) {
      forall j | 0 <= j < |rs| && rs'[j].granted ensures rs'[j].txn == id {
        assert rs[j] in rs;
      }
    }
  }

  lemma GrantOne(rs: seq<Request>, i: nat)
    requires i < |rs| && forall j :: 0 <= j < |rs| && j != i ==> rs[j].ticket != rs[i].ticket
    ensures Grant(rs, rs[i].ticket) == rs[i := rs[i].(granted := true)]
  {
  }

  /** The waiting request has the grant, and nothing else has changed. */
  ghost predicate Marked(rs: seq<Request>, rs': seq<Request>, ticket: nat) {
    |rs'| == |rs| && forall i :: 0 <= i < |rs| ==>
      rs'[i] == if rs[i].ticket == ticket then rs[i].(granted := true) else rs[i]
  }

  /** The waiting request is gone, and nothing else has changed. */
  ghost predicate LeftOut(rs: seq<Request>, rs': seq<Request>, ticket: nat) {
    forall i: nat :: i < |rs| && rs[i].ticket == ticket && (forall j :: 0 <= j < i ==> rs[j].ticket != ticket) ==>
      rs' == Without(rs, i)
  }

  lemma Refusal(rs: seq<Request>, ticket: nat)
    ensures LeftOut(rs, EraseNode(rs, ticket), ticket)
  {
    forall i: nat | i < |rs| && rs[i].ticket == ticket && forall j :: 0 <= j < i ==> rs[j].ticket != ticket
      ensures EraseNode(rs, ticket) == Without(rs, i)
    {
      EraseNodeExact(rs, ticket, i);
    }
  }

  // ---------- the classes ----------

  class Transaction {
    const id: TxnId
    var state: TxnState
    var shared: set<RID>
    var exclusive: set<RID>

    constructor (id: TxnId)
      ensures this.id == id && View() == Txn(GROWING, {}, {})
    {
      this.id, state, shared, exclusive := id, GROWING, {}, {};
    }

    ghost function View(): Txn
      reads this
    {
      Txn(state, shared, exclusive)
    }
  }

  class LockManager {
    const keepGranted: bool
    var table: Table
    var next: nat

    constructor (keepGranted: bool)
      ensures table == map[] && next == 0 && this.keepGranted == keepGranted
    {
      this.keepGranted := keepGranted;
      table, next := map[], 0;
    }

    ghost function At(txn: Transaction): Local
      reads this, txn
    {
      Local(table, next, txn.View())
    }

    /** `lock_table_[rid]` creates an empty queue for a new record. */
    method Touch(rid: RID)
      modifies this`table
      ensures table == old(table)[rid := QueueAt(old(table), rid)]
    {
      if rid in table {
        assert table == table[rid := table[rid]];
      } else {
        table := table[rid := Queue([], false)];
      }
    }

    method LockSharedCall(txn: Transaction, rid: RID) returns (reply: Reply)
      modifies this, txn
      ensures (At(txn), reply) == LockShared(old(At(txn)), txn.id, rid)
      ensures reply == Refused <==> old(txn.state) == SHRINKING || old(txn.state) == ABORTED
      ensures reply == Held <==> reply != Refused && (rid in old(txn.shared) || rid in old(txn.exclusive))
      ensures reply == Granted <==>
              && reply != Refused && reply != Held
              && forall r :: r in old(QueueAt(table, rid)).requests && r.granted ==> r.mode == SHARED
      ensures txn.state == if old(txn.state) == SHRINKING then ABORTED else old(txn.state)
      ensures txn.exclusive == old(txn.exclusive)
      ensures txn.shared == if reply == Granted then old(txn.shared) + {rid} else old(txn.shared)
      ensures reply == Refused || reply == Held ==> table == old(table) && next == old(next)
      ensures reply == Granted || reply.Waits? ==> next == old(next) + 1 && Enqueued(old(table), table, rid,
                                                     Request(old(next), txn.id, SHARED, reply == Granted))
      ensures reply.Waits? ==> reply.ticket == old(next)
    {
      hide Enqueued, Grant;
      SharedJoins(At(txn), txn.id, rid);
      if txn.state == SHRINKING {
        txn.state := ABORTED;
        return Refused;
      }
      if txn.state == ABORTED {
        return Refused;
      }
      if rid in txn.shared || rid in txn.exclusive {
        return Held;
      }
      Touch(rid);
      var ticket := next;
      table := table[rid := Appended(table[rid], Request(ticket, txn.id, SHARED, false))];
      assert table == old(table)[rid := table[rid]];
      next := next + 1;
      reply := WakeShared(txn, rid, ticket);
    }

    /** Evaluates the wait predicate and, if it holds, takes the lock. */
    method WakeShared(txn: Transaction, rid: RID, ticket: nat) returns (reply: Reply)
      requires rid in table
      modifies this, txn
      ensures (At(txn), reply) == ResumeShared(old(At(txn)), txn.id, rid, ticket)
      ensures reply == Refused <==> old(txn.state) == ABORTED
      ensures reply == Granted <==>
              && reply != Refused
              && forall r :: r in old(QueueAt(table, rid)).requests && r.granted ==> r.mode == SHARED
      ensures reply == Refused || reply == Granted || (reply == Waits(ticket) && table == old(table))
      ensures txn.state == old(txn.state) && next == old(next)
      ensures txn.shared == (if reply == Granted then old(txn.shared) + {rid} else old(txn.shared))
              && txn.exclusive == old(txn.exclusive)
      ensures forall r :: r != rid ==> QueueAt(table, r) == QueueAt(old(table), r)
      ensures reply == Granted ==> Marked(old(QueueAt(table, rid)).requests, QueueAt(table, rid).requests, ticket)
      ensures reply == Refused ==> LeftOut(old(QueueAt(table, rid)).requests, QueueAt(table, rid).requests, ticket)
    {
      hide EraseNode;
      Refusal(QueueAt(table, rid).requests, ticket);
      var q := table[rid];
      if txn.state == ABORTED {
        table := table[rid := q.(requests := EraseNode(q.requests, ticket))];
        return Refused;
      }
      var free := ScanNoExclusive(q.requests);
      if !free {
        return Waits(ticket);
      }
      table := table[rid := q.(requests := Grant(q.requests, ticket))];
      txn.shared := txn.shared + {rid};
      return Granted;
    }

    method LockExclusiveCall(txn: Transaction, rid: RID) returns (reply: Reply)
      modifies this, txn
      ensures (At(txn), reply) == LockExclusive(old(At(txn)), txn.id, rid)
      ensures reply == Refused <==> old(txn.state) == SHRINKING || old(txn.state) == ABORTED
      ensures reply == Held <==> reply != Refused && rid in old(txn.exclusive)
      ensures reply == Granted <==>
              && reply != Refused && reply != Held
              && forall r :: r in old(QueueAt(table, rid)).requests && r.granted ==> r.txn == txn.id
      ensures txn.state == if old(txn.state) == SHRINKING then ABORTED else old(txn.state)
      ensures txn.shared == old(txn.shared)
      ensures txn.exclusive == if reply == Granted then old(txn.exclusive) + {rid} else old(txn.exclusive)
      ensures reply == Refused || reply == Held ==> table == old(table) && next == old(next)
      ensures reply == Granted || reply.Waits? ==> next == old(next) + 1 && Enqueued(old(table), table, rid,
                                                     Request(old(next), txn.id, EXCLUSIVE, reply == Granted))
      ensures reply.Waits? ==> reply.ticket == old(next)
    {
      hide Enqueued, Grant;
      ExclusiveJoins(At(txn), txn.id, rid);
      if txn.state == SHRINKING {
        txn.state := ABORTED;
        return Refused;
      }
      if txn.state == ABORTED {
        return Refused;
      }
      if rid in txn.exclusive {
        return Held;
      }
      Touch(rid);
      var ticket := next;
      table := table[rid := Appended(table[rid], Request(ticket, txn.id, EXCLUSIVE, false))];
      assert table == old(table)[rid := table[rid]];
      next := next + 1;
      reply := WakeExclusive(txn, rid, ticket);
    }

    method WakeExclusive(txn: Transaction, rid: RID, ticket: nat) returns (reply: Reply)
      requires rid in table
      modifies this, txn
      ensures (At(txn), reply) == ResumeExclusive(old(At(txn)), txn.id, rid, ticket)
      ensures reply == Refused <==> old(txn.state) == ABORTED
      ensures reply == Granted <==>
              && reply != Refused
              && forall r :: r in old(QueueAt(table, rid)).requests && r.granted ==> r.txn == txn.id
      ensures reply == Refused || reply == Granted || (reply == Waits(ticket) && table == old(table))
      ensures txn.state == old(txn.state) && next == old(next)
      ensures txn.exclusive == (if reply == Granted then old(txn.exclusive) + {rid} else old(txn.exclusive))
              && txn.shared == old(txn.shared)
      ensures forall r :: r != rid ==> QueueAt(table, r) == QueueAt(old(table), r)
      ensures reply == Granted ==> Marked(old(QueueAt(table, rid)).requests, QueueAt(table, rid).requests, ticket)
      ensures reply == Refused ==> LeftOut(old(QueueAt(table, rid)).requests, QueueAt(table, rid).requests, ticket)
    {
      hide EraseNode;
      Refusal(QueueAt(table, rid).requests, ticket);
      var q := table[rid];
      if txn.state == ABORTED {
        table := table[rid := q.(requests := EraseNode(q.requests, ticket))];
        return Refused;
      }
      var free := ScanOnlyMine(q.requests, txn.id);
      if !free {
        return Waits(ticket);
      }
      table := table[rid := q.(requests := Grant(q.requests, ticket))];
      txn.exclusive := txn.exclusive + {rid};
      return Granted;
    }

    method LockUpgradeCall(txn: Transaction, rid: RID) returns (reply: Reply)
      modifies this, txn
      ensures (At(txn), reply) == LockUpgrade(old(At(txn)), txn.id, rid, keepGranted)
      ensures reply == Refused <==>
              || old(txn.state) == SHRINKING || old(txn.state) == ABORTED || old(QueueAt(table, rid)).upgrading
              || forall r :: r in old(QueueAt(table, rid)).requests && r.granted ==> r.txn != txn.id
      ensures reply == Granted <==>
              && reply != Refused
              && forall r :: r in old(QueueAt(table, rid)).requests && r.granted ==> r.txn == txn.id
      ensures reply != Held && next == old(next)
      ensures txn.state == if old(txn.state) == SHRINKING || old(QueueAt(table, rid)).upgrading then ABORTED
              else old(txn.state)
      ensures txn.shared == if reply == Granted then old(txn.shared) - {rid} else old(txn.shared)
      ensures txn.exclusive == if reply == Granted then old(txn.exclusive) + {rid} else old(txn.exclusive)
      ensures reply == Refused ==> forall r :: QueueAt(table, r) == QueueAt(old(table), r)
      ensures reply == Granted || reply.Waits? ==>
                Upgraded(old(table), table, rid, txn.id, reply == Granted, keepGranted)
    {
      hide Upgraded;
      UpgradeSays(At(txn), txn.id, rid, keepGranted);
      if txn.state == SHRINKING {
        txn.state := ABORTED;
        return Refused;
      }
      if txn.state == ABORTED {
        return Refused;
      }
      Touch(rid);
      var q := table[rid];
      if q.upgrading {
        txn.state := ABORTED;
        return Refused;
      }
      var i := 0;
      while i < |q.requests| && !(q.requests[i].txn == txn.id && q.requests[i].granted)
        invariant 0 <= i <= |q.requests|
        invariant forall j :: 0 <= j < i ==> !(q.requests[j].txn == txn.id && q.requests[j].granted)
      {
        i := i + 1;
      }
      assert i == FirstGranted(q.requests, txn.id);
      if i == |q.requests| {
        return Refused;
      }
      var r := q.requests[i].(mode := EXCLUSIVE, granted := keepGranted);
      table := table[rid := Queue(q.requests[i := r], true)];
      assert table == old(table)[rid := table[rid]];
      reply := WakeUpgrade(txn, rid, r.ticket);
    }

    method WakeUpgrade(txn: Transaction, rid: RID, ticket: nat) returns (reply: Reply)
      requires rid in table
      modifies this, txn
      ensures (At(txn), reply) == ResumeUpgrade(old(At(txn)), txn.id, rid, ticket)
      ensures reply == Refused <==> old(txn.state) == ABORTED
      ensures reply == Granted <==>
              && reply != Refused
              && forall r :: r in old(QueueAt(table, rid)).requests && r.granted ==> r.txn == txn.id
      ensures reply == Refused || reply == Granted || (reply == Waits(ticket) && table == old(table))
      ensures txn.state == old(txn.state) && next == old(next)
      ensures txn.shared == if reply == Granted then old(txn.shared) - {rid} else old(txn.shared)
      ensures txn.exclusive == if reply == Granted then old(txn.exclusive) + {rid} else old(txn.exclusive)
      ensures reply == Refused || reply == Granted ==> !QueueAt(table, rid).upgrading
      ensures forall r :: r != rid ==> QueueAt(table, r) == QueueAt(old(table), r)
      ensures reply == Granted ==> Marked(old(QueueAt(table, rid)).requests, QueueAt(table, rid).requests, ticket)
      ensures reply == Refused ==> QueueAt(table, rid).requests == old(QueueAt(table, rid)).requests
    {
      var q := table[rid];
      if txn.state == ABORTED {
        table := table[rid := q.(upgrading := false)];
        return Refused;
      }
      var free := ScanOnlyMine(q.requests, txn.id);
      if !free {
        return Waits(ticket);
      }
      table := table[rid := Queue(Grant(q.requests, ticket), false)];
      txn.shared := txn.shared - {rid};
      txn.exclusive := txn.exclusive + {rid};
      return Granted;
    }

    method UnlockCall(txn: Transaction, rid: RID)
      modifies this, txn
      ensures At(txn) == Unlock(old(At(txn)), txn.id, rid)
      ensures forall i: nat :: IsFirstOf(old(QueueAt(table, rid)).requests, txn.id, i) ==>
                QueueAt(table, rid).requests == Without(old(QueueAt(table, rid)).requests, i)
      ensures (forall r :: r in old(QueueAt(table, rid)).requests ==> r.txn != txn.id) ==>
                QueueAt(table, rid) == old(QueueAt(table, rid))
      ensures QueueAt(table, rid).upgrading == old(QueueAt(table, rid)).upgrading
      ensures forall r :: r != rid ==> QueueAt(table, r) == QueueAt(old(table), r)
      ensures txn.state == if old(txn.state) == GROWING then SHRINKING else old(txn.state)
      ensures txn.shared == old(txn.shared) - {rid} && txn.exclusive == old(txn.exclusive) - {rid}
    {
      hide EraseFirst;
      ghost var rs := QueueAt(table, rid).requests;
      ghost var first := EraseFacts(rs, txn.id);
      assert forall i: nat :: IsFirstOf(rs, txn.id, i) ==> i == first < |rs|;
      Touch(rid);
      var rest := WithoutFirst(table[rid].requests, txn.id);
      table := table[rid := table[rid].(requests := rest)];
      if txn.state == GROWING {
        txn.state := SHRINKING;
      }
      txn.shared := txn.shared - {rid};
      txn.exclusive := txn.exclusive - {rid};
    }
  }

  /** The loop of `Unlock`. */
  method WithoutFirst(rs: seq<Request>, id: TxnId) returns (rest: seq<Request>)
    ensures rest == EraseFirst(rs, id)
  {
    var i := 0;
    while i < |rs| && rs[i].txn != id
      invariant 0 <= i <= |rs|
      invariant EraseFirst(rs, id) == rs[..i] + EraseFirst(rs[i..], id)
    {
      EraseHere(rs, i, id);
      i := i + 1;
    }
    EraseHere(rs, i, id);
    return if i < |rs| then rs[..i] + rs[i + 1..] else rs;
  }

  lemma EraseHere(rs: seq<Request>, i: nat, id: TxnId)
    requires i <= |rs|
    ensures i == |rs| ==> rs[..i] + EraseFirst(rs[i..], id) == rs
    ensures i < |rs| && rs[i].txn == id ==> EraseFirst(rs[i..], id) == rs[i + 1..]
    ensures i < |rs| && rs[i].txn != id ==>
            rs[..i] + EraseFirst(rs[i..], id) == rs[..i + 1] + EraseFirst(rs[i + 1..], id)
  {
    if i < |rs| {
      assert rs[i..][0] == rs[i] && rs[i..][1..] == rs[i + 1..];
      assert rs[..i + 1] == rs[..i] + [rs[i]];
    }
  }

  /** The loop in the wait predicate of `LockShared`. */
  method ScanNoExclusive(rs: seq<Request>) returns (free: bool)
    ensures free == NoExclusive(rs)
  {
    var i := 0;
    while i < |rs|
      invariant 0 <= i <= |rs|
      invariant forall j :: 0 <= j < i ==> !(rs[j].granted && rs[j].mode == EXCLUSIVE)
    {
      if rs[i].granted && rs[i].mode == EXCLUSIVE {
        assert rs[i] in rs;
        return false;
      }
      i := i + 1;
    }
    return true;
  }

  /** The loop in the wait predicates of `LockExclusive` and `LockUpgrade`. */
  method ScanOnlyMine(rs: seq<Request>, id: TxnId) returns (free: bool)
    ensures free == OnlyMine(rs, id)
  {
    var i := 0;
    while i < |rs|
      invariant 0 <= i <= |rs|
      invariant forall j :: 0 <= j < i ==> !(rs[j].granted && rs[j].txn != id)
    {
      if rs[i].granted && rs[i].txn != id {
        assert rs[i] in rs;
        return false;
      }
      i := i + 1;
    }
    return true;
  }

  // ---------- commit and abort ----------

  function Own(rs: seq<Request>, id: TxnId): seq<Request> {
    if rs == [] then [] else (if rs[0].txn == id then [rs[0]] else []) + Own(rs[1..], id)
  }

  function Others(rs: seq<Request>, id: TxnId): seq<Request> {
    if rs == [] then [] else (if rs[0].txn != id then [rs[0]] else []) + Others(rs[1..], id)
  }

  /** Releasing takes the transaction's first request out for each of its sets that has the record, and
      leaves the requests of all others in their order. */
  lemma ReleasedExact(rs: seq<Request>, id: TxnId, rid: RID, shared: set<RID>, exclusive: set<RID>)
    ensures var rs' := Released(rs, id, rid, shared, exclusive);
            var n := (if rid in shared then 1 else 0) + (if rid in exclusive then 1 else 0);
            && Others(rs', id) == Others(rs, id)
            && Own(rs', id) == if n <= |Own(rs, id)| then Own(rs, id)[n..] else []
  {
    EraseFirstParts(rs, id);
    EraseFirstParts(EraseFirst(rs, id), id);
  }

  lemma {:induction false} EraseFirstParts(rs: seq<Request>, id: TxnId)
    ensures Others(EraseFirst(rs, id), id) == Others(rs, id)
    ensures Own(EraseFirst(rs, id), id) == if Own(rs, id) == [] then [] else Own(rs, id)[1..]
  {
    if rs != [] {
      EraseFirstParts(rs[1..], id);
    }
  }

  /** What releasing every lock of the two sets leaves of one queue. */
  function Released(rs: seq<Request>, id: TxnId, rid: RID, shared: set<RID>, exclusive: set<RID>): seq<Request> {
    var rs1 := if rid in shared then EraseFirst(rs, id) else rs;
    if rid in exclusive then EraseFirst(rs1, id) else rs1
  }

  class TransactionManager {
    const locks: LockManager
    var nextId: nat
    var txns: map<TxnId, Transaction>

    constructor (locks: LockManager)
      ensures this.locks == locks && nextId == 0 && txns == map[]
    {
      this.locks, nextId, txns := locks, 0, map[];
    }

    ghost predicate Valid()
      reads this, txns.Values
    {
      forall t :: t in txns ==> t < nextId && txns[t].id == t
    }

    method Begin() returns (txn: Transaction)
      requires Valid()
      modifies this
      ensures Valid() && fresh(txn) && txn.View() == Txn(GROWING, {}, {})
      ensures txn.id !in old(txns) && txns == old(txns)[txn.id := txn]
    {
      txn := new Transaction(nextId);
      txns := txns[nextId := txn];
      nextId := nextId + 1;
    }

    method Commit(txn: Transaction)
      modifies locks, txn
      ensures txn.View() == Txn(COMMITTED, {}, {})
      ensures forall rid :: QueueAt(locks.table, rid) ==
                var q := QueueAt(old(locks.table), rid);
                q.(requests := Released(q.requests, txn.id, rid, old(txn.shared), old(txn.exclusive)))
    {
      txn.state := COMMITTED;
      ReleaseAll(txn);
    }

    method Abort(txn: Transaction)
      modifies locks, txn
      ensures txn.View() == Txn(ABORTED, {}, {})
      ensures forall rid :: QueueAt(locks.table, rid) ==
                var q := QueueAt(old(locks.table), rid);
                q.(requests := Released(q.requests, txn.id, rid, old(txn.shared), old(txn.exclusive)))
    {
      txn.state := ABORTED;
      ReleaseAll(txn);
    }

    /** The two loops of `Commit` and `Abort`, over a snapshot of the sets. */
    method ReleaseAll(txn: Transaction)
      requires txn.state == COMMITTED || txn.state == ABORTED
      modifies locks, txn
      ensures txn.View() == Txn(old(txn.state), {}, {})
      ensures forall rid :: QueueAt(locks.table, rid) ==
                var q := QueueAt(old(locks.table), rid);
                q.(requests := Released(q.requests, txn.id, rid, old(txn.shared), old(txn.exclusive)))
    {
      var shared, exclusive := txn.shared, txn.exclusive;
      ghost var before := locks.table;
      var todo := shared;
      while todo != {}
        invariant todo <= shared && txn.state == old(txn.state)
        invariant forall rid :: QueueAt(locks.table, rid) ==
                    var q := QueueAt(before, rid); q.(requests := Released(q.requests, txn.id, rid, shared - todo, {}))
      {
        var rid :| rid in todo;
        locks.UnlockCall(txn, rid);
        todo := todo - {rid};
      }
      todo := exclusive;
      while todo != {}
        invariant todo <= exclusive && txn.state == old(txn.state)
        invariant forall rid :: QueueAt(locks.table, rid) ==
                    var q := QueueAt(before, rid);
                      q.(requests := Released(q.requests, txn.id, rid, shared, exclusive - todo))
      {
        var rid :| rid in todo;
        locks.UnlockCall(txn, rid);
        todo := todo - {rid};
      }
      txn.shared, txn.exclusive := {}, {};
    }
  }
}
