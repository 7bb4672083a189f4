/** As written, every upgrade that is overtaken after its transaction has read the record may end in a
    history that no serial order explains. */
module LockOvertaking {
  import opened Common
  import opened LockTable
  import opened LockRuns
  import opened LockSafety
  import opened LockExclusion
  import opened Serializability

  /** No order of the transactions agrees with the order of all conflicting operations. */
  ghost predicate Unserializable(ops: seq<Op>) {
    forall stamps :: !ConflictsOrdered(ops, stamps)
  }

  /** `t` is through with its call and may hold the record, `u` waits to upgrade it, and nobody else has
      a granted request. */
  ghost predicate Overtaken(s: State, t: TxnId, u: TxnId, rid: RID) {
    && t != u && Ready(s, t) && u in s.txns && Upgrading(s, u, rid) && s.txns[u].state == GROWING
    && OnlyMine(RequestsAt(s, rid), t)
  }

  /** The grant over the pending upgrade leads there. */
  lemma GrantOvertakes(s: State, a: Action, u: TxnId, rid: RID)
    requires Shaped(false, s) && OverPending(s, a) && rid == RidOf(s, a) && Upgrading(s, u, rid)
    ensures var s' := Next(false, s, a); Overtaken(s', a.t, u, rid) && rid in s'.txns[a.t].exclusive && s'.log == s.log
  {
    assert WaiterOk(false, s, u) && Tickets(RequestsAt(s, rid), s.next);
    if a.Wake? {
      var t := a.t;
      assert WaiterOk(false, s, t);
      var r :| r in RequestsAt(s, rid) && NodeOf(false, s.phases[t], t, r);
      TicketOwner(RequestsAt(s, rid), s.next, r);
      hide Shaped, Tickets, FlagOk, NodeOf;
      WakeOvertakes(s, t, u, rid);
    } else {
      hide Shaped, FlagOk, NodeOf;
      CallOvertakes(s, a.t, u, rid);
    }
  }

  lemma WakeOvertakes(s: State, t: TxnId, u: TxnId, rid: RID)
    requires PhasesOk(s) && OverPending(s, Wake(t)) && rid == s.phases[t].rid && Upgrading(s, u, rid) && u in s.txns
             && s.txns[u].state == GROWING
    requires forall r :: r in RequestsAt(s, rid) && r.ticket == s.phases[t].ticket ==> r.txn == t
    ensures var s' := Next(false, s, Wake(t));
            Overtaken(s', t, u, rid) && rid in s'.txns[t].exclusive && s'.log == s.log
  {
    hide LockShared, LockExclusive, LockUpgrade, ResumeShared, ResumeUpgrade, AfterUnlock, Grant;
    GrantedMine(RequestsAt(s, rid), s.phases[t].ticket, t);
  }

  lemma CallOvertakes(s: State, t: TxnId, u: TxnId, rid: RID)
    requires PhasesOk(s) && OverPending(s, Lock(t, ForExclusive, rid)) && Upgrading(s, u, rid) && u in s.txns
             && s.txns[u].state == GROWING
    requires Tickets(RequestsAt(s, rid), s.next)
    ensures var s' := Next(false, s, Lock(t, ForExclusive, rid));
            Overtaken(s', t, u, rid) && rid in s'.txns[t].exclusive && s'.log == s.log
  {
    var rs, q := RequestsAt(s, rid), Request(s.next, t, EXCLUSIVE, false);
    TicketOfNew(rs, s.next, q);
    hide LockShared, LockUpgrade, ResumeShared, ResumeUpgrade, AfterUnlock, Grant, Tickets;
    AppendMine(rs, q, t);
    GrantedMine(rs + [q], s.next, t);
  }

  lemma TicketOfNew(rs: seq<Request>, next: nat, q: Request)
    requires Tickets(rs, next) && q.ticket == next
    ensures forall r :: r in rs + [q] && r.ticket == next ==> r == q
  {
  }

  lemma TicketOwner(rs: seq<Request>, next: nat, r: Request)
    requires Tickets(rs, next) && r in rs
    ensures forall x :: x in rs && x.ticket == r.ticket ==> x == r
  {
  }

  lemma GrantedMine(rs: seq<Request>, ticket: nat, t: TxnId)
    requires OnlyMine(rs, t) && forall r :: r in rs && r.ticket == ticket ==> r.txn == t
    ensures OnlyMine(Grant(rs, ticket), t)
  {
    var rs' := Grant(rs, ticket);
    forall r | r in rs' && r.granted
      ensures r.txn == t
    {
      var i :| 0 <= i < |rs'| && rs'[i] == r;
      assert rs[i] in rs;
    }
  }

  lemma OvertakenWrites(s: State, t: TxnId, u: TxnId, rid: RID, value: int)
    requires Overtaken(s, t, u, rid) && rid in s.txns[t].exclusive
    ensures var s' := Next(false, s, Write(t, rid, value));
            Overtaken(s', t, u, rid) && s'.log == s.log + [Op(t, rid, true, value)]
  {
  }

  lemma OvertakenUnlocks(s: State, t: TxnId, u: TxnId, rid: RID)
    requires Overtaken(s, t, u, rid) && exists r :: r in RequestsAt(s, rid) && r.txn == t
    ensures var s' := Next(false, s, Unlock(t, rid));
            Overtaken(s', t, u, rid) && s'.log == s.log && |RequestsAt(s', rid)| < |RequestsAt(s, rid)|
  {
    ErasedOne(RequestsAt(s, rid), t);
  }

  lemma {:induction false} ErasedOne(rs: seq<Request>, t: TxnId)
    requires exists r :: r in rs && r.txn == t
    ensures |EraseFirst(rs, t)| < |rs| && forall r :: r in EraseFirst(rs, t) ==> r in rs
  {
    if rs[0].txn != t {
      assert rs == [rs[0]] + rs[1..];
      ErasedOne(rs[1..], t);
    }
  }

  /** `t` gives back everything it has on the record. */
  lemma {:induction false} GivesBack(before: seq<Action>, t: TxnId, u: TxnId, rid: RID) returns (more: seq<Action>)
    requires Overtaken(Run(false, before), t, u, rid)
    ensures var s := Run(false, before + more);
            && Overtaken(s, t, u, rid) && s.log == Run(false, before).log
            && forall r :: r in RequestsAt(s, rid) ==> r.txn != t
    decreases |RequestsAt(Run(false, before), rid)|
  {
    hide Next;
    var s := Run(false, before);
    if exists r :: r in RequestsAt(s, rid) && r.txn == t {
      OvertakenUnlocks(s, t, u, rid);
      RunSnoc(false, before, Unlock(t, rid));
      var rest := GivesBack(before + [Unlock(t, rid)], t, u, rid);
      more := [Unlock(t, rid)] + rest;
      assert before + more == before + [Unlock(t, rid)] + rest;
    } else {
      more := [];
      assert before + more == before;
    }
  }

  /** Then the upgrade is granted. */
  lemma UpgradeGranted(s: State, t: TxnId, u: TxnId, rid: RID, value: int)
    requires Overtaken(s, t, u, rid) && forall r :: r in RequestsAt(s, rid) ==> r.txn != t
    ensures var s' := Next(false, s, Wake(u));
            Ready(s', u) && rid in s'.txns[u].exclusive && s'.log == s.log
            && Next(false, s', Write(u, rid, value)).log == s.log + [Op(u, rid, true, value)]
  {
  }

  lemma Cycle(ops: seq<Op>, i: nat, j: nat, k: nat)
    requires i < j < k < |ops| && ops[i].rid == ops[j].rid == ops[k].rid && ops[i].txn == ops[k].txn != ops[j].txn
             && ops[j].isWrite
    ensures Unserializable(ops)
  {
    forall stamps
      ensures !ConflictsOrdered(ops, stamps)
    {
      assert Conflict(ops[i], ops[j]) && Conflict(ops[j], ops[k]);
    }
  }

  /** One write by each of the two follows. */
  lemma BothWrite(granted: seq<Action>, t: TxnId, u: TxnId, rid: RID) returns (more: seq<Action>)
    requires Overtaken(Run(false, granted), t, u, rid) && rid in Run(false, granted).txns[t].exclusive
    ensures Run(false, granted + more).log == Run(false, granted).log + [Op(t, rid, true, 0)] + [Op(u, rid, true, 0)]
  {
    hide Next, Overtaken;
    OvertakenWrites(Run(false, granted), t, u, rid, 0);
    RunSnoc(false, granted, Write(t, rid, 0));
    var written := granted + [Write(t, rid, 0)];
    var rest := GivesBack(written, t, u, rid);
    var free := written + rest;
    UpgradeGranted(Run(false, free), t, u, rid, 0);
    RunSnoc(false, free, Wake(u));
    RunSnoc(false, free + [Wake(u)], Write(u, rid, 0));
    hide Run;
    more := [Write(t, rid, 0)] + rest + [Wake(u)] + [Write(u, rid, 0)];
    assert granted + more == free + [Wake(u)] + [Write(u, rid, 0)];
  }

  /** Whenever an exclusive lock is about to be granted over an upgrade whose transaction has read the
      record, the run can go on to a history that is not serializable. */
  lemma OvertakingSpoils(actions: seq<Action>, a: Action, u: TxnId, rid: RID, i: nat) returns (more: seq<Action>)
    requires OverPending(Run(false, actions), a) && rid == RidOf(Run(false, actions), a)
             && Upgrading(Run(false, actions), u, rid)
    requires i < |Run(false, actions).log| && Run(false, actions).log[i].txn == u
             && Run(false, actions).log[i].rid == rid
    ensures Unserializable(Run(false, actions + [a] + more).log)
  {
    var s, t := Run(false, actions), a.t;
    hide Next, Overtaken, OverPending, Unserializable, Upgrading;
    ShapedAlways(false, actions);
    GrantOvertakes(s, a, u, rid);
    RunSnoc(false, actions, a);
    NotMyself(Run(false, actions + [a]), t, u, rid);
    more := BothWrite(actions + [a], t, u, rid);
    Cycle(s.log + [Op(t, rid, true, 0)] + [Op(u, rid, true, 0)], i, |s.log|, |s.log| + 1);
  }

  lemma NotMyself(s: State, t: TxnId, u: TxnId, rid: RID)
    requires Overtaken(s, t, u, rid)
    ensures t != u
  {
  }
}
