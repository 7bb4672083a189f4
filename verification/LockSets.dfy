/** Lock sets against queues, for clients that never ask for an exclusive lock on a record
    they hold shared. */
module LockSets {
  import opened Common
  import opened LockTable
  import opened LockRuns
  import opened LockSafety
  import opened LockExclusion

  ghost predicate Elsewhere(s: State, t: TxnId, rid: RID) {
    t in s.phases && s.phases[t].Waiting? && s.phases[t].kind != ForUpgrade && s.phases[t].rid == rid
  }

  /** What a request says about the lock sets of its transaction. */
  ghost predicate RequestMatches(s: State, rid: RID, r: Request) {
    r.txn in s.txns &&
    var x := s.txns[r.txn];
    if Upgrading(s, r.txn, rid) then rid in x.shared && rid !in x.exclusive
    else if !r.granted then Elsewhere(s, r.txn, rid) && rid !in x.shared && rid !in x.exclusive
    else if r.mode == SHARED then rid in x.shared && rid !in x.exclusive
    else rid in x.exclusive && rid !in x.shared
  }

  ghost predicate OneEach(rs: seq<Request>) {
    forall i, j :: 0 <= i < j < |rs| ==> rs[i].txn != rs[j].txn
  }

  ghost predicate HasRequest(rs: seq<Request>, t: TxnId) {
    exists r :: r in rs && r.txn == t
  }

  /** Every transaction has at most one request per record, and it agrees with the lock sets:
      granted shared exactly for the shared set, granted exclusive for the exclusive set,
      the pending upgrade still in the shared set. */
  ghost predicate MatchAt(s: State, rid: RID) {
    && OneEach(RequestsAt(s, rid))
    && (forall r :: r in RequestsAt(s, rid) ==> RequestMatches(s, rid, r))
    && (forall t :: t in s.txns && (rid in s.txns[t].shared || rid in s.txns[t].exclusive) ==>
                    HasRequest(RequestsAt(s, rid), t))
  }

  /** While a transaction releases its locks, the snapshots cover what it still holds. */
  ghost predicate EndingOk(s: State, t: TxnId) {
    t in s.txns && t in s.phases ==>
      && (s.phases[t].Ending? ==>
            s.txns[t].shared <= s.phases[t].shared + s.phases[t].exclusive
              && s.txns[t].exclusive <= s.phases[t].shared + s.phases[t].exclusive)
      && (s.phases[t].Over? ==> s.txns[t].shared == {} && s.txns[t].exclusive == {})
  }

  ghost predicate Matched(s: State) {
    && (forall rid {:trigger MatchAt(s, rid)} :: MatchAt(s, rid))
    && (forall t {:trigger EndingOk(s, t)} :: EndingOk(s, t))
  }

  /** The client rule. */
  ghost predicate AsksProperly(s: State, a: Action) {
    Enabled(s, a) && a.Lock? && a.kind == ForExclusive ==> a.rid !in s.txns[a.t].shared
  }

  // ---------- the list operations when everybody has one request ----------

  lemma OneEachErase(rs: seq<Request>, t: TxnId)
    requires OneEach(rs)
    ensures OneEach(EraseFirst(rs, t)) && !HasRequest(EraseFirst(rs, t), t)
  {
    var i := EraseFacts(rs, t);
    var rs' := EraseFirst(rs, t);
    forall r | r in rs' ensures r.txn != t {
      var j :| 0 <= j < |rs'| && rs'[j] == r;
      if i < |rs| { assert rs[if j < i then j else j + 1] == r; }
    }
  }

  lemma OneEachGrant(rs: seq<Request>, k: nat)
    requires OneEach(rs)
    ensures OneEach(Grant(rs, k))
  {
  }

  lemma OneEachUnique(rs: seq<Request>, a: Request, b: Request)
    requires OneEach(rs) && a in rs && b in rs && a.txn == b.txn
    ensures a == b
  {
    var i :| 0 <= i < |rs| && rs[i] == a;
    var j :| 0 <= j < |rs| && rs[j] == b;
  }

  // ---------- one section ----------

  /** The queue afterwards: others as before, and one request of `t` that fits the reply. */
  ghost predicate MineAfter(rs': seq<Request>, t: TxnId, kind: Kind, reply: Reply, keep: bool) {
    && OneEach(rs') && HasRequest(rs', t)
    && forall r :: r in rs' && r.txn == t ==>
         if reply.Waits? then NodeOf(keep, Waiting(kind, RID(0, 0), reply.ticket, false), t, r)
         else r.granted && r.mode == if kind == ForShared then SHARED else EXCLUSIVE
  }

  lemma ResumeMine(keep: bool, l: Local, t: TxnId, kind: Kind, rid: RID, ticket: nat)
    requires l.txn.state == GROWING && OneEach(QueueAt(l.table, rid).requests)
    requires exists r ::
             r in QueueAt(l.table, rid).requests && NodeOf(keep, Waiting(kind, RID(0, 0), ticket, false), t, r)
    ensures var (l', reply) := match kind
                               case ForShared => ResumeShared(l, t, rid, ticket)
                               case ForExclusive => ResumeExclusive(l, t, rid, ticket)
                               case ForUpgrade => ResumeUpgrade(l, t, rid, ticket);
            MineAfter(QueueAt(l'.table, rid).requests, t, kind, reply, keep)
  {
    hide Grant, OneEach, HasRequest, NoExclusive, OnlyMine, EraseNode;
    var rs := QueueAt(l.table, rid).requests;
    var n :| n in rs && NodeOf(keep, Waiting(kind, RID(0, 0), ticket, false), t, n);
    GrantMine(rs, t, n);
    WaitMine(rs, t, n);
  }

  lemma GrantMine(rs: seq<Request>, t: TxnId, n: Request)
    requires OneEach(rs) && n in rs && n.txn == t
    ensures OneEach(Grant(rs, n.ticket)) && HasRequest(Grant(rs, n.ticket), t)
    ensures forall r :: r in Grant(rs, n.ticket) && r.txn == t ==> r == n.(granted := true)
  {
    var g := Grant(rs, n.ticket);
    GrantMembers(rs, n.ticket);
    OneEachGrant(rs, n.ticket);
    assert n.(granted := true) in g;
    forall r | r in g && r.txn == t ensures r == n.(granted := true) { OneEachUnique(g, r, n.(granted := true)); }
  }

  lemma WaitMine(rs: seq<Request>, t: TxnId, n: Request)
    requires OneEach(rs) && n in rs && n.txn == t
    ensures HasRequest(rs, t) && forall r :: r in rs && r.txn == t ==> r == n
  {
    forall r | r in rs && r.txn == t ensures r == n { OneEachUnique(rs, r, n); }
  }

  /** A new request of somebody who had none. */
  lemma EnqueueMine(rs: seq<Request>, t: TxnId, n: Request)
    requires OneEach(rs) && !HasRequest(rs, t) && n.txn == t
    ensures OneEach(rs + [n]) && n in rs + [n]
  {
  }

  lemma MarkMine(rs: seq<Request>, i: nat, n: Request)
    requires OneEach(rs) && i < |rs| && n.txn == rs[i].txn
    ensures OneEach(rs[i := n]) && n in rs[i := n]
  {
    assert rs[i := n][i] == n;
  }

  lemma CallMine(keep: bool, l: Local, t: TxnId, kind: Kind, rid: RID)
    requires l.txn.state == GROWING && OneEach(QueueAt(l.table, rid).requests)
    requires if kind == ForUpgrade then true else !HasRequest(QueueAt(l.table, rid).requests, t)
    ensures var (l', reply) := match kind
                               case ForShared => LockShared(l, t, rid)
                               case ForExclusive => LockExclusive(l, t, rid)
                               case ForUpgrade => LockUpgrade(l, t, rid, keep);
            reply.Waits? || reply.Granted? ==> MineAfter(QueueAt(l'.table, rid).requests, t, kind, reply, keep)
  {
    hide OneEach, HasRequest, MineAfter, ResumeShared, ResumeExclusive, ResumeUpgrade;
    var q := QueueAt(l.table, rid);
    if kind == ForUpgrade {
      var i := FirstGranted(q.requests, t);
      if !q.upgrading && i < |q.requests| {
        var n := q.requests[i].(mode := EXCLUSIVE, granted := keep);
        MarkMine(q.requests, i, n);
        assert NodeOf(keep, Waiting(kind, RID(0, 0), n.ticket, false), t, n);
        ResumeMine(keep, WithQueue(l, rid, Queue(q.requests[i := n], true)), t, kind, rid, n.ticket);
      }
    } else if rid !in l.txn.exclusive && (kind == ForExclusive || rid !in l.txn.shared) {
      var n := Request(l.next, t, if kind == ForShared then SHARED else EXCLUSIVE, false);
      EnqueueMine(q.requests, t, n);
      assert NodeOf(keep, Waiting(kind, RID(0, 0), l.next, false), t, n);
      ResumeMine(keep, WithQueue(l, rid, Appended(q, n)).(next := l.next + 1), t, kind, rid, l.next);
    }
  }

  // ---------- steps ----------

  lemma NoRequestYet(s: State, t: TxnId, rid: RID)
    requires MatchAt(s, rid) && t in s.txns && t in s.phases && s.phases[t].Idle?
    requires rid !in s.txns[t].shared && rid !in s.txns[t].exclusive
    ensures !HasRequest(RequestsAt(s, rid), t)
  {
  }

  /** After a call or a wake-up that waits or is granted, the caller's request looks as it should. */
  lemma SectionMine(keep: bool, s: State, a: Action)
    requires Shaped(keep, s) && Matched(s) && Enabled(s, a) && (a.Lock? || a.Wake?) && AsksProperly(s, a)
    ensures var (l', reply) := Section(keep, s, a.t, a);
            (reply.Waits? || reply.Granted?) && (a.Lock? ==> !reply.Held?) ==>
              MineAfter(QueueAt(l'.table, RidOf(s, a)).requests, a.t, KindOf(s, a), reply, keep)
  {
    hide MineAfter, LockUpgrade, ResumeShared, ResumeExclusive, ResumeUpgrade, OneEach, HasRequest, RequestMatches,
      FlagOk, Tickets;
    var rid, t := RidOf(s, a), a.t;
    assert MatchAt(s, rid);
    if a.Wake? {
      WaiterNode(keep, s, t);
      ResumeMine(keep, LocalOf(s, t), t, KindOf(s, a), rid, s.phases[t].ticket);
    } else if s.txns[t].state == GROWING {
      if a.kind != ForUpgrade && rid !in s.txns[t].shared && rid !in s.txns[t].exclusive {
        NoRequestYet(s, t, rid);
      }
      if a.kind == ForUpgrade || (rid !in s.txns[t].shared && rid !in s.txns[t].exclusive) {
        CallMine(keep, LocalOf(s, t), t, a.kind, rid);
      }
    } else {
      UpgradeRefused(LocalOf(s, t), t, rid, keep);
    }
  }

  lemma UpgradeRefused(l: Local, t: TxnId, rid: RID, keep: bool)
    requires l.txn.state == SHRINKING || l.txn.state == ABORTED
    ensures LockUpgrade(l, t, rid, keep).1.Refused?
  {
  }

  /** What the caller held before it was granted the lock or started to wait. */
  lemma HeldBefore(keep: bool, s: State, a: Action, t: TxnId, kind: Kind, rid: RID, reply: Reply)
    requires Shaped(keep, s) && Compatible(keep, s) && Matched(s) && Enabled(s, a) && (a.Lock? || a.Wake?)
             && AsksProperly(s, a)
    requires t == a.t && kind == KindOf(s, a) && rid == RidOf(s, a) && reply == Section(keep, s, t, a).1
    ensures reply.Waits? || reply.Granted? ==>
              if kind == ForUpgrade then reply.Waits? ==> rid in s.txns[t].shared && rid !in s.txns[t].exclusive
              else rid !in s.txns[t].shared && rid !in s.txns[t].exclusive
  {
    hide OneEach, HasRequest, FlagOk, Tickets, Holders, XHolders, NoExclusive, OnlyMine, Grant, EraseNode;
    assert MatchAt(s, rid);
    if a.Wake? {
      WaiterNode(keep, s, t);
      var p := s.phases[t];
      var r :| r in RequestsAt(s, rid) && NodeOf(keep, Waiting(p.kind, RID(0, 0), p.ticket, false), t, r);
      assert RequestMatches(s, rid, r);
    } else if kind == ForUpgrade && reply.Waits? {
      UpgraderShares(keep, s, t, rid, reply);
    }
  }

  /** An upgrade that has to wait starts from a shared lock. */
  lemma UpgraderShares(keep: bool, s: State, t: TxnId, rid: RID, reply: Reply)
    requires Shaped(keep, s) && Compatible(keep, s) && MatchAt(s, rid) && Ready(s, t)
    requires reply == LockUpgrade(LocalOf(s, t), t, rid, keep).1 && reply.Waits?
    ensures rid in s.txns[t].shared && rid !in s.txns[t].exclusive
  {
    var rs := RequestsAt(s, rid);
    var i := FirstGranted(rs, t);
    var r := rs[i];
    assert r in rs && RequestMatches(s, rid, r);
    if r.mode == EXCLUSIVE {
      assert t in XHolders(rs) && CompatibleAt(keep, s, rid);
      AloneAfterMark(rs, i, t, keep);
    }
  }

  lemma AloneAfterMark(rs: seq<Request>, i: nat, t: TxnId, keep: bool)
    requires i < |rs| && rs[i].txn == t && Holders(rs) <= {t}
    ensures OnlyMine(rs[i := rs[i].(mode := EXCLUSIVE, granted := keep)], t)
  {
    var rs' := rs[i := rs[i].(mode := EXCLUSIVE, granted := keep)];
    forall x | x in rs' && x.granted ensures x.txn == t {
      var j :| 0 <= j < |rs'| && rs'[j] == x;
      if j != i { assert rs[j] in rs && rs[j].txn in Holders(rs); }
    }
  }

  lemma MatchedLock(keep: bool, s: State, a: Action)
    requires Shaped(keep, s) && Compatible(keep, s) && Matched(s) && Enabled(s, a) && (a.Lock? || a.Wake?)
             && AsksProperly(s, a)
    ensures Matched(Next(keep, s, a))
  {
    hide Holders, XHolders, Tickets, NodeOf, WaiterOk, Next, NoExclusive, OnlyMine, FlagOk, OneEach, HasRequest, Took,
      Queued, Shaped,
         MineAfter, MatchAt, Section, SectionOk;
    var t, kind, rid, reply := LockStep(keep, s, a);
    SectionIs(keep, s, a, t, kind, rid, reply);
    var s' := Next(keep, s, a);
    SectionMine(keep, s, a);
    HeldBefore(keep, s, a, t, kind, rid, Section(keep, s, t, a).1);
    forall d ensures MatchAt(s', d) {
      assert MatchAt(s, d);
      MatchAfter(keep, s, s', t, kind, rid, reply, a.Wake?, d);
    }
    forall u ensures EndingOk(s', u) {
      assert EndingOk(s, u);
      assert u != t && u in s.txns ==> s'.txns[u] == s.txns[u];
    }
  }

  lemma SectionIs(keep: bool, s: State, a: Action, t: TxnId, kind: Kind, rid: RID, reply: Reply)
    requires Shaped(keep, s) && Enabled(s, a) && (a.Lock? || a.Wake?) && t == a.t && kind == KindOf(s, a)
             && rid == RidOf(s, a)
    requires SectionOk(keep, QueueAt(s.table, rid), QueueAt(Next(keep, s, a).table, rid), t, kind, s.txns[t],
             Next(keep, s, a).txns[t], rid, reply, s.next, Next(keep, s, a).next, a.Wake?)
    requires PhaseAfter(Next(keep, s, a).phases[t], kind, rid, reply)
    requires Next(keep, s, a).clock == if reply.Granted? then s.clock + 1 else s.clock
    ensures Section(keep, s, t, a).0.table == Next(keep, s, a).table
    ensures var r := Section(keep, s, t, a).1;
            (r.Granted? <==> reply.Granted?) && (r.Waits? <==> reply.Waits?) && (r.Waits? ==> r == reply)
  {
    hide LockShared, LockExclusive, LockUpgrade, ResumeShared, ResumeExclusive, ResumeUpgrade;
  }

  /** Nothing changes about a record that the section does not touch. */
  lemma MatchElsewhere(s: State, s': State, t: TxnId, d: RID)
    requires MatchAt(s, d) && t in s.txns && t in s.phases && t in s'.phases
    requires s'.txns.Keys == s.txns.Keys && s'.phases == s.phases[t := s'.phases[t]]
    requires RequestsAt(s', d) == RequestsAt(s, d) && forall u :: u in s.txns && u != t ==> s'.txns[u] == s.txns[u]
    requires (d in s'.txns[t].shared <==> d in s.txns[t].shared)
             && (d in s'.txns[t].exclusive <==> d in s.txns[t].exclusive)
    requires !(s.phases[t].Waiting? && s.phases[t].rid == d) && !(s'.phases[t].Waiting? && s'.phases[t].rid == d)
    ensures MatchAt(s', d)
  {
    hide OneEach, HasRequest;
    forall r | r in RequestsAt(s', d) ensures RequestMatches(s', d, r) {
      assert RequestMatches(s, d, r);
    }
  }

  lemma MatchAfter(keep: bool, s: State, s': State, t: TxnId, kind: Kind, rid: RID, reply: Reply, woke: bool, d: RID)
    requires StepFrame(s, s', t, rid) && t in s.phases && s'.phases == s.phases[t := s'.phases[t]]
             && PhaseAfter(s'.phases[t], kind, rid, reply)
    requires SectionOk(keep, QueueAt(s.table, rid), QueueAt(s'.table, rid), t, kind, s.txns[t], s'.txns[t], rid, reply,
             s.next, s'.next, woke)
    requires if woke then s.phases[t].Waiting? && s.phases[t].kind == kind && s.phases[t].rid == rid
                          && (reply.Waits? || reply.Granted?)
             else s.phases[t].Idle?
    requires MatchAt(s, d) && MatchAt(s, rid)
    requires reply.Waits? || reply.Granted? ==>
               && MineAfter(RequestsAt(s', rid), t, kind, reply, keep)
               && if kind == ForUpgrade then reply.Waits? ==> rid in s.txns[t].shared && rid !in s.txns[t].exclusive
                  else rid !in s.txns[t].shared && rid !in s.txns[t].exclusive
    ensures MatchAt(s', d)
  {
    hide Holders, XHolders, Tickets, NoExclusive, OnlyMine, OneEach;
    var rs, rs' := RequestsAt(s, d), RequestsAt(s', d);
    if d != rid || reply.Refused? || reply.Held? {
      MatchElsewhere(s, s', t, d);
    } else {
      forall r | r in rs' ensures RequestMatches(s', d, r) {
        if r.txn != t {
          assert r in rs;
          assert RequestMatches(s, d, r);
        }
      }
      forall u | u in s'.txns && (d in s'.txns[u].shared || d in s'.txns[u].exclusive) ensures HasRequest(rs', u) {
        if u != t {
          assert HasRequest(rs, u);
        }
      }
    }
  }

  lemma MatchedUnlock(keep: bool, s: State, t: TxnId, rid: RID)
    requires Shaped(keep, s) && Matched(s) && t in s.txns && !s.phases[t].Waiting?
    ensures Matched(AfterUnlock(s, t, rid))
  {
    hide Tickets, NodeOf, WaiterOk, FlagOk, AfterUnlock, MatchAt, OthersSame;
    UnlockStep(s, t, rid);
    var s' := AfterUnlock(s, t, rid);
    assert RequestsAt(s', rid) == EraseFirst(RequestsAt(s, rid), t) by { UnlockList(s, t, rid); }
    forall d ensures MatchAt(s', d) {
      assert MatchAt(s, d);
      UnlockMatch(s, s', t, rid, d);
    }
    forall u ensures EndingOk(s', u) {
      assert EndingOk(s, u);
    }
  }

  lemma UnlockMatch(s: State, s': State, t: TxnId, rid: RID, d: RID)
    requires StepFrame(s, s', t, rid) && s'.phases == Notify(s.phases, rid) && t in s.phases && !s.phases[t].Waiting?
    requires s'.txns[t].shared == s.txns[t].shared - {rid} && s'.txns[t].exclusive == s.txns[t].exclusive - {rid}
    requires OthersSame(RequestsAt(s, rid), RequestsAt(s', rid), t)
             && RequestsAt(s', rid) == EraseFirst(RequestsAt(s, rid), t)
    requires forall r :: r in RequestsAt(s', rid) ==> r in RequestsAt(s, rid)
    requires MatchAt(s, d)
    ensures MatchAt(s', d)
  {
    hide OneEach;
    var rs, rs' := RequestsAt(s, d), RequestsAt(s', d);
    if d == rid { OneEachErase(rs, t); }
    forall r | r in rs' ensures RequestMatches(s', d, r) {
      assert RequestMatches(s, d, r);
    }
    forall u | u in s'.txns && (d in s'.txns[u].shared || d in s'.txns[u].exclusive) ensures HasRequest(rs', u) {
      assert HasRequest(rs, u);
      var r :| r in rs && r.txn == u;
      assert r in rs';
    }
  }

  lemma UnlockList(s: State, t: TxnId, rid: RID)
    requires t in s.txns
    ensures RequestsAt(AfterUnlock(s, t, rid), rid) == EraseFirst(RequestsAt(s, rid), t)
  {
  }

  /** Steps that leave the table alone. */
  lemma MatchedFrame(s: State, s': State)
    requires Matched(s) && s'.table == s.table && s.txns.Keys <= s'.txns.Keys
    requires forall u :: u in s.txns ==>
                         s'.txns[u].shared == s.txns[u].shared && s'.txns[u].exclusive == s.txns[u].exclusive
    requires forall u :: u in s'.txns && u !in s.txns ==> s'.txns[u].shared == {} && s'.txns[u].exclusive == {}
    requires forall u, d :: Upgrading(s', u, d) <==> Upgrading(s, u, d)
    requires forall u, d :: Elsewhere(s', u, d) <==> Elsewhere(s, u, d)
    requires forall u :: EndingOk(s', u)
    ensures Matched(s')
  {
    hide OneEach, HasRequest;
    forall d ensures MatchAt(s', d) {
      assert MatchAt(s, d);
      forall r | r in RequestsAt(s', d) ensures RequestMatches(s', d, r) {
        assert RequestMatches(s, d, r);
      }
    }
  }

  lemma MatchedRelease(keep: bool, s: State, a: Action)
    requires Shaped(keep, s) && Matched(s) && Enabled(s, a) && a.Release?
    ensures Matched(Next(keep, s, a))
  {
    hide Shaped, AfterUnlock, MatchAt;
    var s1, s' := AfterUnlock(s, a.t, a.rid), Next(keep, s, a);
    MatchedUnlock(keep, s, a.t, a.rid);
    PhasesMatch(keep, s);
    UnlockStep(s, a.t, a.rid);
    forall u ensures EndingOk(s', u) { assert EndingOk(s, u) && EndingOk(s1, u); }
    MatchedFrame(s1, s');
  }

  lemma PhasesMatch(keep: bool, s: State)
    requires Shaped(keep, s)
    ensures s.phases.Keys == s.txns.Keys && s.nextTxn !in s.txns
  {
  }

  lemma EndingElse(keep: bool, s: State, a: Action)
    requires PhasesOk(s) && Enabled(s, a) && TableAlone(a) && forall u :: EndingOk(s, u)
    ensures forall u {:trigger EndingOk(Next(keep, s, a), u)} :: EndingOk(Next(keep, s, a), u)
    ensures var s' := Next(keep, s, a);
            && (forall u :: u in s.txns ==>
                            s'.txns[u].shared == s.txns[u].shared && s'.txns[u].exclusive == s.txns[u].exclusive)
            && (forall u, d :: Elsewhere(s', u, d) <==> Elsewhere(s, u, d))
  {
    hide Section, Settle, AfterUnlock, ValueAt;
    forall u ensures EndingOk(Next(keep, s, a), u) { assert EndingOk(s, u); }
    assert a.Finish? ==> EndingOk(s, a.t);
  }

  lemma MatchedElse(keep: bool, s: State, a: Action)
    requires Shaped(keep, s) && Matched(s) && Enabled(s, a) && !a.Lock? && !a.Wake?
    ensures Matched(Next(keep, s, a))
  {
    hide MatchAt;
    if a.Unlock? {
      assert Next(keep, s, a) == AfterUnlock(s, a.t, a.rid);
      hide Next, AfterUnlock;
      MatchedUnlock(keep, s, a.t, a.rid);
    } else if a.Release? {
      hide Next;
      MatchedRelease(keep, s, a);
    } else {
      hide Next;
      ElseLocks(keep, s, a);
      EndingElse(keep, s, a);
      MatchedFrame(s, Next(keep, s, a));
    }
  }

  ghost predicate AlwaysAsksProperly(keep: bool, actions: seq<Action>)
    decreases |actions|
  {
    actions != [] ==>
      && AlwaysAsksProperly(keep, actions[..|actions| - 1])
      && AsksProperly(Run(keep, actions[..|actions| - 1]), actions[|actions| - 1])
  }

  /** In every run whose clients keep the rule, as written and repaired: lock sets match requests. */
  lemma {:induction false} LockSetsMatch(keep: bool, actions: seq<Action>)
    requires AlwaysAsksProperly(keep, actions)
    ensures Matched(Run(keep, actions))
    decreases |actions|
  {
    if actions == [] {
      StartMatched();
    } else {
      var before, a := actions[..|actions| - 1], actions[|actions| - 1];
      LockSetsMatch(keep, before);
      ShapedAlways(keep, before);
      CompatibleAlways(keep, before);
      var s := Run(keep, before);
      if Enabled(s, a) {
        if a.Lock? || a.Wake? { MatchedLock(keep, s, a); } else { MatchedElse(keep, s, a); }
      }
    }
  }

  lemma StartMatched()
    ensures Matched(Start)
  {
  }

  /** After commit or abort is through, no queue has a request of the transaction left. */
  lemma NothingLeft(keep: bool, actions: seq<Action>, t: TxnId, rid: RID)
    requires AlwaysAsksProperly(keep, actions)
    requires var s := Run(keep, actions); t in s.txns && t in s.phases && s.phases[t].Over?
    ensures !HasRequest(RequestsAt(Run(keep, actions), rid), t)
  {
    LockSetsMatch(keep, actions);
    var s := Run(keep, actions);
    assert MatchAt(s, rid) && EndingOk(s, t);
  }

  /** `Unlock` takes one request: it leaves none behind if and only if there was at most one. */
  lemma UnlockExact(rs: seq<Request>, t: TxnId)
    ensures !HasRequest(EraseFirst(rs, t), t) <==>
            forall i, j :: 0 <= i < j < |rs| ==> !(rs[i].txn == t && rs[j].txn == t)
  {
    var i := EraseFacts(rs, t);
    var rs' := EraseFirst(rs, t);
    if j, k :| 0 <= j < k < |rs| && rs[j].txn == t && rs[k].txn == t {
      assert rs'[k - 1] == rs[k] && rs[k] in rs';
    } else {
      forall r | r in rs' ensures r.txn != t {
        var j :| 0 <= j < |rs'| && rs'[j] == r;
        if i < |rs| { assert rs[if j < i then j else j + 1] == r; }
      }
    }
  }
}
