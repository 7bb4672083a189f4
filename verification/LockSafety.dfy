/** What every step of every run keeps: the shape of the queues, and mutual exclusion. */
module LockSafety {
  import opened Common
  import opened LockTable
  import opened LockRuns

  // ---------- the effect of one section on one queue ----------

  ghost predicate OthersSame(rs: seq<Request>, rs': seq<Request>, t: TxnId) {
    forall r: Request {:trigger r in rs} {:trigger r in rs'} :: r.txn != t ==> (r in rs' <==> r in rs)
  }

  /** The queue before and after `t` was granted the lock. */
  ghost predicate Took(q: Queue, q': Queue, t: TxnId, kind: Kind, next: nat) {
    && OthersSame(q.requests, q'.requests, t) && Tickets(q'.requests, next)
    && Holders(q'.requests) == Holders(q.requests) + {t}
    && XHolders(q'.requests) == XHolders(q.requests) + (if kind == ForShared then {} else {t})
    && (if kind == ForShared then XHolders(q.requests) == {} else Holders(q.requests) <= {t})
    && q'.upgrading == (kind != ForUpgrade && q.upgrading)
  }

  /** The queue before and after `t` started to wait. */
  ghost predicate Queued(keep: bool, q: Queue, q': Queue, t: TxnId, kind: Kind, ticket: nat, next: nat) {
    && OthersSame(q.requests, q'.requests, t) && Tickets(q'.requests, next)
    && (exists r :: r in q'.requests && NodeOf(keep, Waiting(kind, RID(0, 0), ticket, false), t, r))
    && (if kind == ForUpgrade then
          && Holders(q.requests) - {t} <= Holders(q'.requests) <= Holders(q.requests)
          && XHolders(q.requests) - {t} <= XHolders(q'.requests) <= XHolders(q.requests) + (if keep then {t} else {})
          && t in Holders(q.requests) && (keep ==> t in Holders(q'.requests))
        else
          Holders(q'.requests) == Holders(q.requests) && XHolders(q'.requests) == XHolders(q.requests))
    && q'.upgrading == (kind == ForUpgrade || q.upgrading)
  }

  lemma HoldersSplit(rs: seq<Request>, rs': seq<Request>, t: TxnId)
    requires OthersSame(rs, rs', t)
    ensures Holders(rs) - {t} == Holders(rs') - {t} && XHolders(rs) - {t} == XHolders(rs') - {t}
  {
    forall u | u != t ensures u in Holders(rs) <==> u in Holders(rs') {
      if u in Holders(rs) {
        var r :| r in rs && r.granted && r.txn == u;
        assert r in rs';
      }
      if u in Holders(rs') {
        var r :| r in rs' && r.granted && r.txn == u;
        assert r in rs;
      }
    }
    forall u | u != t ensures u in XHolders(rs) <==> u in XHolders(rs') {
      if u in XHolders(rs) {
        var r :| r in rs && r.granted && r.mode == EXCLUSIVE && r.txn == u;
        assert r in rs';
      }
      if u in XHolders(rs') {
        var r :| r in rs' && r.granted && r.mode == EXCLUSIVE && r.txn == u;
        assert r in rs;
      }
    }
  }

  lemma PredicatesByHolders(rs: seq<Request>, t: TxnId)
    ensures NoExclusive(rs) <==> XHolders(rs) == {}
    ensures OnlyMine(rs, t) <==> Holders(rs) <= {t}
  {
    if NoExclusive(rs) { assert XHolders(rs) == {}; }
    if XHolders(rs) == {} {
      assert forall r :: r in rs && r.granted && r.mode == EXCLUSIVE ==> r.txn in XHolders(rs);
    }
    if Holders(rs) <= {t} {
      forall r | r in rs && r.granted ensures r.txn == t {
        assert r.txn in Holders(rs);
      }
    }
  }

  lemma EnqueueEffect(keep: bool, q: Queue, t: TxnId, kind: Kind, next: nat)
    requires Tickets(q.requests, next) && kind != ForUpgrade
    ensures Queued(keep, q, Appended(q, Request(next, t, if kind == ForShared then SHARED else EXCLUSIVE, false)), t,
            kind, next, next + 1)
  {
    var r := Request(next, t, if kind == ForShared then SHARED else EXCLUSIVE, false);
    var q' := Appended(q, r);
    assert forall x :: x in q'.requests <==> x in q.requests || x == r;
    assert NodeOf(keep, Waiting(kind, RID(0, 0), next, false), t, r);
    assert Holders(q'.requests) == Holders(q.requests);
    assert XHolders(q'.requests) == XHolders(q.requests);
  }

  lemma MarkEffect(keep: bool, q: Queue, t: TxnId, i: nat, next: nat)
    requires Tickets(q.requests, next) && i < |q.requests| && q.requests[i].txn == t && q.requests[i].granted
    ensures var r := q.requests[i].(mode := EXCLUSIVE, granted := keep);
            Queued(keep, q, Queue(q.requests[i := r], true), t, ForUpgrade, r.ticket, next)
  {
    var rs := q.requests;
    var r := rs[i].(mode := EXCLUSIVE, granted := keep);
    var rs' := rs[i := r];
    forall x: Request | x.txn != t ensures x in rs' <==> x in rs {
      if x in rs {
        var j :| 0 <= j < |rs| && rs[j] == x;
        assert rs'[j] == x;
      }
    }
    assert rs'[i] == r && rs[i] in rs;
    assert NodeOf(keep, Waiting(ForUpgrade, RID(0, 0), r.ticket, false), t, r);
    HoldersSplit(rs, rs', t);
    assert t in Holders(rs);
    if keep { assert r in rs'; }
  }

  lemma GrantExact(rs: seq<Request>, next: nat, n: Request)
    requires Tickets(rs, next) && n in rs
    ensures forall x :: x in Grant(rs, n.ticket) <==> (x in rs && x != n) || x == n.(granted := true)
  {
    GrantMembers(rs, n.ticket);
    forall x | x in rs && x.ticket == n.ticket ensures x == n { SameTicket(rs, next, x, n); }
    forall x | x in Grant(rs, n.ticket) && x.ticket == n.ticket ensures x == n.(granted := true) {
      if x in rs { SameTicket(rs, next, x, n); } else { SameTicket(rs, next, x.(granted := false), n); }
    }
  }

  lemma GrantHolders(rs: seq<Request>, rs': seq<Request>, n: Request)
    requires n in rs && forall x :: x in rs' <==> (x in rs && x != n) || x == n.(granted := true)
    ensures Holders(rs') == Holders(rs) + {n.txn}
    ensures XHolders(rs') == XHolders(rs) + (if n.mode == EXCLUSIVE then {n.txn} else {})
  {
    assert n.(granted := true) in rs';
    forall u ensures u in Holders(rs') <==> u in Holders(rs) || u == n.txn {
      if u in Holders(rs) && u != n.txn {
        var x :| x in rs && x.granted && x.txn == u;
        assert x in rs';
      }
    }
    forall u ensures u in XHolders(rs') <==> u in XHolders(rs) || (n.mode == EXCLUSIVE && u == n.txn) {
      if u in XHolders(rs) {
        var x :| x in rs && x.granted && x.mode == EXCLUSIVE && x.txn == u;
        assert x in rs' || x == n;
      }
    }
  }

  /** Marking a node granted makes its transaction a holder. */
  lemma GrantEffect(keep: bool, q: Queue, t: TxnId, kind: Kind, ticket: nat, next: nat, flag: bool)
    requires Tickets(q.requests, next)
    requires exists r :: r in q.requests && NodeOf(keep, Waiting(kind, RID(0, 0), ticket, false), t, r)
    requires if kind == ForShared then NoExclusive(q.requests) else OnlyMine(q.requests, t)
    requires flag == (kind != ForUpgrade && q.upgrading)
    ensures Took(q, Queue(Grant(q.requests, ticket), flag), t, kind, next)
  {
    hide Holders, XHolders, Tickets, NoExclusive, OnlyMine, Grant;
    var rs, rs' := q.requests, Grant(q.requests, ticket);
    var n :| n in rs && NodeOf(keep, Waiting(kind, RID(0, 0), ticket, false), t, n);
    assert n.ticket == ticket && n.txn == t && (n.mode == EXCLUSIVE <==> kind != ForShared);
    hide NodeOf;
    GrantExact(rs, next, n);
    GrantHolders(rs, rs', n);
    GrantTickets(rs, ticket);
    PredicatesByHolders(rs, t);
  }

  // ---------- the effect of a call or a wake-up ----------

  ghost predicate SectionOk(keep: bool, q: Queue, q': Queue, t: TxnId, kind: Kind, x: Txn, x': Txn, rid: RID,
      reply: Reply, next: nat, next': nat, woke: bool) {
    match reply
    case Refused => !woke && q' == q && x' == x.(state := x'.state) && (x'.state == x.state || x'.state == ABORTED)
      && next' == next
    case Held => !woke && q' == q && x' == x && next' == next
    case Waits(k) =>
      && x' == x && x.state == GROWING && next <= next' && (woke ==> q' == q)
         && (!woke ==> Queued(keep, q, q', t, kind, k, next'))
      && (kind == ForUpgrade && !woke ==> !q.upgrading)
      && (if kind == ForShared then !NoExclusive(q'.requests) else !OnlyMine(q'.requests, t))
    case Granted =>
      && x.state == GROWING && next <= next' && Took(q, q', t, kind, next')
      && x' == Txn(GROWING,
                   if kind == ForShared then x.shared + {rid} else if kind == ForExclusive then x.shared
                     else x.shared - {rid},
                   if kind == ForShared then x.exclusive else x.exclusive + {rid})
      && (kind == ForUpgrade && !woke ==> !q.upgrading)
  }

  lemma ResumeEffect(keep: bool, l: Local, t: TxnId, kind: Kind, rid: RID, ticket: nat)
    requires l.txn.state == GROWING && Tickets(QueueAt(l.table, rid).requests, l.next)
    requires exists r ::
             r in QueueAt(l.table, rid).requests && NodeOf(keep, Waiting(kind, RID(0, 0), ticket, false), t, r)
    ensures var q := QueueAt(l.table, rid);
            var (l', reply) := match kind
                               case ForShared => ResumeShared(l, t, rid, ticket)
                               case ForExclusive => ResumeExclusive(l, t, rid, ticket)
                               case ForUpgrade => ResumeUpgrade(l, t, rid, ticket);
            && l'.next == l.next && (forall d :: d != rid ==> QueueAt(l'.table, d) == QueueAt(l.table, d))
            && SectionOk(keep, q, QueueAt(l'.table, rid), t, kind, l.txn, l'.txn, rid, reply, l.next, l.next, true)
            && (reply.Waits? ==> reply.ticket == ticket && l' == l)
            && (reply.Waits? || reply.Granted?)
  {
    hide Took, Queued;
    var q := QueueAt(l.table, rid);
    if if kind == ForShared then NoExclusive(q.requests) else OnlyMine(q.requests, t) {
      GrantEffect(keep, q, t, kind, ticket, l.next, kind != ForUpgrade && q.upgrading);
    }
  }

  lemma QueuedThenTook(keep: bool, q: Queue, q1: Queue, q': Queue, t: TxnId, kind: Kind, ticket: nat, next: nat)
    requires Queued(keep, q, q1, t, kind, ticket, next) && Took(q1, q', t, kind, next)
    ensures Took(q, q', t, kind, next)
  {
    hide Holders, XHolders, Tickets;
    assert q'.upgrading == (kind != ForUpgrade && q.upgrading);
  }

  lemma CallEffect(keep: bool, l: Local, t: TxnId, kind: Kind, rid: RID)
    requires l.txn.state != COMMITTED && Tickets(QueueAt(l.table, rid).requests, l.next)
    ensures var q := QueueAt(l.table, rid);
            var (l', reply) := match kind
                               case ForShared => LockShared(l, t, rid)
                               case ForExclusive => LockExclusive(l, t, rid)
                               case ForUpgrade => LockUpgrade(l, t, rid, keep);
            && (forall d :: d != rid ==> QueueAt(l'.table, d) == QueueAt(l.table, d))
            && SectionOk(keep, q, QueueAt(l'.table, rid), t, kind, l.txn, l'.txn, rid, reply, l.next, l'.next, false)
  {
    hide ResumeShared, ResumeExclusive, ResumeUpgrade, Took, Queued, NoExclusive, OnlyMine, Tickets, FirstGranted;
    if kind == ForUpgrade {
      hide LockUpgrade, LockShared, LockExclusive;
      UpgradeEffect(keep, l, t, rid);
    } else if l.txn.state == GROWING && rid !in l.txn.exclusive && (kind == ForExclusive || rid !in l.txn.shared) {
      EnqueuedEffect(keep, l, t, kind, rid);
    }
  }

  lemma EnqueuedEffect(keep: bool, l: Local, t: TxnId, kind: Kind, rid: RID)
    requires l.txn.state == GROWING && Tickets(QueueAt(l.table, rid).requests, l.next) && kind != ForUpgrade
    ensures var q := QueueAt(l.table, rid);
            var r := Request(l.next, t, if kind == ForShared then SHARED else EXCLUSIVE, false);
            var l1 := WithQueue(l, rid, Appended(q, r)).(next := l.next + 1);
            var (l', reply) := if kind == ForShared then ResumeShared(l1, t, rid, l.next)
              else ResumeExclusive(l1, t, rid, l.next);
            && (forall d :: d != rid ==> QueueAt(l'.table, d) == QueueAt(l.table, d))
            && SectionOk(keep, q, QueueAt(l'.table, rid), t, kind, l.txn, l'.txn, rid, reply, l.next, l'.next, false)
  {
    hide Took, Holders, XHolders, Tickets;
    var q := QueueAt(l.table, rid);
    var q1 := Appended(q, Request(l.next, t, if kind == ForShared then SHARED else EXCLUSIVE, false));
    var l1 := WithQueue(l, rid, q1).(next := l.next + 1);
    EnqueueEffect(keep, q, t, kind, l.next);
    ResumeEffect(keep, l1, t, kind, rid, l.next);
    var (l', reply) := if kind == ForShared then ResumeShared(l1, t, rid, l.next)
      else ResumeExclusive(l1, t, rid, l.next);
    if reply.Granted? {
      QueuedThenTook(keep, q, q1, QueueAt(l'.table, rid), t, kind, l.next, l1.next);
    }
  }

  lemma UpgradeEffect(keep: bool, l: Local, t: TxnId, rid: RID)
    requires l.txn.state != COMMITTED && Tickets(QueueAt(l.table, rid).requests, l.next)
    ensures var q := QueueAt(l.table, rid);
            var (l', reply) := LockUpgrade(l, t, rid, keep);
            && (forall d :: d != rid ==> QueueAt(l'.table, d) == QueueAt(l.table, d))
            && SectionOk(keep, q, QueueAt(l'.table, rid), t, ForUpgrade, l.txn, l'.txn, rid, reply, l.next, l'.next,
               false)
  {
    hide Took, Holders, XHolders, Tickets;
    var q := QueueAt(l.table, rid);
    var i := FirstGranted(q.requests, t);
    if l.txn.state == GROWING && !q.upgrading && i < |q.requests| {
      var r := q.requests[i].(mode := EXCLUSIVE, granted := keep);
      var q1 := Queue(q.requests[i := r], true);
      var l1 := WithQueue(l, rid, q1);
      MarkEffect(keep, q, t, i, l.next);
      ResumeEffect(keep, l1, t, ForUpgrade, rid, r.ticket);
      var (l', reply) := ResumeUpgrade(l1, t, rid, r.ticket);
      if reply.Granted? {
        QueuedThenTook(keep, q, q1, QueueAt(l'.table, rid), t, ForUpgrade, r.ticket, l.next);
      }
    }
  }

  // ---------- a step of the whole system ----------

  /** Nothing but the queue of `rid`, the caller's own transaction and its phase moved. */
  ghost predicate StepFrame(s: State, s': State, t: TxnId, rid: RID) {
    && t in s.txns && s'.txns.Keys == s.txns.Keys && s'.nextTxn == s.nextTxn && s'.phases.Keys == s.phases.Keys
    && s'.data == s.data && s'.log == s.log
    && (forall u :: u in s.txns && u != t ==> s'.txns[u] == s.txns[u])
    && (forall d :: d != rid ==> QueueAt(s'.table, d) == QueueAt(s.table, d))
  }

  ghost predicate PhaseAfter(p: Phase, kind: Kind, rid: RID, reply: Reply) {
    p == if reply.Waits? then Waiting(kind, rid, reply.ticket, false) else Idle
  }

  lemma WaiterNode(keep: bool, s: State, t: TxnId)
    requires Shaped(keep, s) && t in s.txns && s.phases[t].Waiting?
    ensures WaiterOk(keep, s, t) && s.txns[t].state == GROWING
    ensures var p := s.phases[t];
            exists r :: r in RequestsAt(s, p.rid) && NodeOf(keep, Waiting(p.kind, RID(0, 0), p.ticket, false), t, r)
  {
    assert WaiterOk(keep, s, t);
    var r :| r in RequestsAt(s, s.phases[t].rid) && NodeOf(keep, s.phases[t], t, r);
    assert NodeOf(keep, Waiting(s.phases[t].kind, RID(0, 0), s.phases[t].ticket, false), t, r);
  }

  /** Everything a call or a wake-up does. */
  /** What a lock section does to the state. */
  ghost predicate LockStepped(keep: bool, s: State, a: Action, s': State, rid: RID, kind: Kind, reply: Reply)
    requires a.Lock? || a.Wake?
  {
    && a.t in s.txns && a.t in s.phases
    && StepFrame(s, s', a.t, rid) && s'.phases == s.phases[a.t := s'.phases[a.t]]
       && PhaseAfter(s'.phases[a.t], kind, rid, reply)
    && SectionOk(keep, QueueAt(s.table, rid), QueueAt(s'.table, rid), a.t, kind, s.txns[a.t], s'.txns[a.t], rid, reply,
       s.next, s'.next, a.Wake?)
    && s'.clock == (if reply.Granted? then s.clock + 1 else s.clock)
    && s'.stamps == (if reply.Granted? then s.stamps[a.t := s.clock] else s.stamps)
    && (a.Wake? && reply.Waits? ==> s.phases[a.t].Waiting? && reply.ticket == s.phases[a.t].ticket)
    && (a.Wake? ==> reply.Waits? || reply.Granted?)
  }

  lemma CallStep(keep: bool, s: State, a: Action)
    requires Enabled(s, a) && a.Lock? && PhasesOk(s) && Tickets(RequestsAt(s, a.rid), s.next)
    ensures LockStepped(keep, s, a, Next(keep, s, a), a.rid, a.kind, Section(keep, s, a.t, a).1)
  {
    hide SectionOk, LockShared, LockExclusive, LockUpgrade, ResumeShared, ResumeExclusive, ResumeUpgrade, Tickets;
    CallEffect(keep, LocalOf(s, a.t), a.t, a.kind, a.rid);
  }

  lemma WakeStep(keep: bool, s: State, a: Action)
    requires Enabled(s, a) && a.Wake? && s.phases.Keys == s.txns.Keys
             && Tickets(RequestsAt(s, s.phases[a.t].rid), s.next)
    requires WaiterOk(keep, s, a.t)
    requires var p := s.phases[a.t];
             exists r :: r in RequestsAt(s, p.rid) && NodeOf(keep, Waiting(p.kind, RID(0, 0), p.ticket, false), a.t, r)
    ensures LockStepped(keep, s, a, Next(keep, s, a), s.phases[a.t].rid, s.phases[a.t].kind, Section(keep, s, a.t, a).1)
  {
    hide SectionOk, LockShared, LockExclusive, LockUpgrade, ResumeShared, ResumeExclusive, ResumeUpgrade, Tickets,
      NodeOf;
    ResumeEffect(keep, LocalOf(s, a.t), a.t, s.phases[a.t].kind, s.phases[a.t].rid, s.phases[a.t].ticket);
  }

  lemma LockStep(keep: bool, s: State, a: Action) returns (t: TxnId, kind: Kind, rid: RID, reply: Reply)
    requires Shaped(keep, s) && Enabled(s, a) && (a.Lock? || a.Wake?)
    ensures t == a.t && kind == KindOf(s, a) && rid == RidOf(s, a)
    ensures var s' := Next(keep, s, a);
            && StepFrame(s, s', t, rid) && s'.phases == s.phases[t := s'.phases[t]]
               && PhaseAfter(s'.phases[t], kind, rid, reply)
            && SectionOk(keep, QueueAt(s.table, rid), QueueAt(s'.table, rid), t, kind, s.txns[t], s'.txns[t], rid,
               reply, s.next, s'.next, a.Wake?)
            && s'.clock == (if reply.Granted? then s.clock + 1 else s.clock)
            && s'.stamps == (if reply.Granted? then s.stamps[t := s.clock] else s.stamps)
            && (a.Wake? && reply.Waits? ==> reply.ticket == s.phases[t].ticket)
            && (a.Wake? ==> reply.Waits? || reply.Granted?)
            && (a.Wake? ==> WaiterOk(keep, s, t))
  {
    t, kind, rid, reply := a.t, KindOf(s, a), RidOf(s, a), Section(keep, s, a.t, a).1;
    assert Tickets(RequestsAt(s, rid), s.next);
    hide Section, Next, SectionOk, Tickets, FlagOk, NodeOf, StepFrame, PhaseAfter;
    if a.Lock? {
      CallStep(keep, s, a);
    } else {
      WaiterNode(keep, s, t);
      assert WaiterOk(keep, s, t);
      WakeStep(keep, s, a);
    }
    hide WaiterOk;
  }

  // ---------- the shape survives ----------

  lemma WaiterKept(keep: bool, s: State, s': State, u: TxnId)
    requires WaiterOk(keep, s, u) && u in s.txns && u in s.phases && u in s'.txns && u in s'.phases
             && s'.txns[u].state == s.txns[u].state
    requires s'.phases[u] == s.phases[u]
             || (s.phases[u].Waiting? && s'.phases[u].Waiting?
                && s'.phases[u] == s.phases[u].(signalled := s'.phases[u].signalled))
    requires s.phases[u].Waiting? ==>
               forall r: Request {:trigger r in RequestsAt(s', s.phases[u].rid)} ::
                 r.txn == u && r in RequestsAt(s, s.phases[u].rid) ==> r in RequestsAt(s', s.phases[u].rid)
    ensures WaiterOk(keep, s', u)
  {
    if s.phases[u].Waiting? {
      var r :| r in RequestsAt(s, s.phases[u].rid) && NodeOf(keep, s.phases[u], u, r);
      assert r in RequestsAt(s', s.phases[u].rid) && NodeOf(keep, s'.phases[u], u, r);
    }
  }

  /** Flags elsewhere are untouched when nobody starts or stops upgrading there. */
  lemma FlagKept(s: State, s': State, rid: RID)
    requires FlagOk(s, rid) && QueueAt(s'.table, rid).upgrading == QueueAt(s.table, rid).upgrading
    requires forall t :: Upgrading(s', t, rid) <==> Upgrading(s, t, rid)
    ensures FlagOk(s', rid)
  {
  }

  lemma TicketsGrow(rs: seq<Request>, next: nat, next': nat)
    requires Tickets(rs, next) && next <= next'
    ensures Tickets(rs, next')
  {
  }

  /** The queues after a lock section. */
  lemma LockQueues(keep: bool, s: State, a: Action)
    requires Shaped(keep, s) && Enabled(s, a) && (a.Lock? || a.Wake?)
    ensures var s' := Next(keep, s, a);
            && (forall d {:trigger RequestsAt(s', d)} :: Tickets(RequestsAt(s', d), s'.next))
            && (forall d, r {:trigger r in RequestsAt(s', d)} :: r in RequestsAt(s', d) ==> r.txn in s'.txns)
  {
    hide Holders, XHolders, Tickets, NodeOf, FlagOk, Next, WaiterOk, NoExclusive, OnlyMine, Upgrading, PhaseAfter;
    var t, kind, rid, reply := LockStep(keep, s, a);
    var s' := Next(keep, s, a);
    forall d ensures Tickets(RequestsAt(s', d), s'.next) {
      TicketsGrow(RequestsAt(s, d), s.next, s'.next);
    }
    forall d, r | r in RequestsAt(s', d) ensures r.txn in s'.txns {
      if d != rid || r.txn != t { assert r in RequestsAt(s, d); }
    }
  }

  /** Who waits after a lock section. */
  lemma LockWaiters(keep: bool, s: State, a: Action)
    requires Shaped(keep, s) && Enabled(s, a) && (a.Lock? || a.Wake?)
    ensures var s' := Next(keep, s, a);
            forall u {:trigger WaiterOk(keep, s', u)} :: u in s'.txns ==> WaiterOk(keep, s', u)
  {
    hide Holders, XHolders, Tickets, NodeOf, FlagOk, Next, WaiterOk, NoExclusive, OnlyMine, Upgrading;
    var t, kind, rid, reply := LockStep(keep, s, a);
    var s' := Next(keep, s, a);
    forall u | u in s'.txns ensures WaiterOk(keep, s', u) {
      assert WaiterOk(keep, s, u);
      if u != t {
        WaiterKept(keep, s, s', u);
      } else {
        WaiterAfter(keep, s, s', t, kind, rid, reply, a.Wake?);
      }
    }
  }

  /** The flags after a lock section. */
  lemma LockFlags(keep: bool, s: State, a: Action)
    requires Shaped(keep, s) && Enabled(s, a) && (a.Lock? || a.Wake?)
    ensures var s' := Next(keep, s, a); forall d {:trigger FlagOk(s', d)} :: FlagOk(s', d)
  {
    hide Holders, XHolders, Tickets, NodeOf, FlagOk, Next, WaiterOk, NoExclusive, OnlyMine, Upgrading;
    var t, kind, rid, reply := LockStep(keep, s, a);
    var s' := Next(keep, s, a);
    forall d ensures FlagOk(s', d) {
      assert FlagOk(s, d);
      FlagAfter(s, s', t, kind, rid, reply, a.Wake?, keep, d);
    }
  }

  /** Everybody's place and state after a lock section. */
  lemma LockPhases(keep: bool, s: State, a: Action)
    requires Shaped(keep, s) && Enabled(s, a) && (a.Lock? || a.Wake?)
    ensures PhasesOk(Next(keep, s, a))
  {
    hide Holders, XHolders, Tickets, NodeOf, FlagOk, Next, WaiterOk, NoExclusive, OnlyMine, Upgrading, OthersSame, Took,
      Queued;
    var t, kind, rid, reply := LockStep(keep, s, a);
  }

  lemma ShapedLock(keep: bool, s: State, a: Action)
    requires Shaped(keep, s) && Enabled(s, a) && (a.Lock? || a.Wake?)
    ensures Shaped(keep, Next(keep, s, a))
  {
    hide Tickets, FlagOk, Next, WaiterOk, PhasesOk;
    LockPhases(keep, s, a);
    LockQueues(keep, s, a);
    LockWaiters(keep, s, a);
    LockFlags(keep, s, a);
  }

  lemma QueuedNode(keep: bool, q: Queue, q': Queue, t: TxnId, kind: Kind, ticket: nat, next: nat, p: Phase)
    requires Queued(keep, q, q', t, kind, ticket, next) && p.Waiting? && p.kind == kind && p.ticket == ticket
    ensures exists r :: r in q'.requests && NodeOf(keep, p, t, r)
  {
    var p0 := Waiting(kind, RID(0, 0), ticket, false);
    var r :| r in q'.requests && NodeOf(keep, p0, t, r);
    assert NodeOf(keep, p, t, r);
  }

  /** The caller's own node, if it waits now. */
  lemma WaiterAfter(keep: bool, s: State, s': State, t: TxnId, kind: Kind, rid: RID, reply: Reply, woke: bool)
    requires StepFrame(s, s', t, rid) && s'.phases.Keys == s'.txns.Keys && PhaseAfter(s'.phases[t], kind, rid, reply)
    requires SectionOk(keep, QueueAt(s.table, rid), QueueAt(s'.table, rid), t, kind, s.txns[t], s'.txns[t], rid, reply,
             s.next, s'.next, woke)
    requires WaiterOk(keep, s, t) && t in s.phases
    requires woke ==> s.phases[t].Waiting? && s.phases[t].kind == kind && s.phases[t].rid == rid
    requires woke && reply.Waits? ==> reply.ticket == s.phases[t].ticket
    ensures WaiterOk(keep, s', t)
  {
    if reply.Waits? {
      if woke {
        var r :| r in RequestsAt(s, rid) && NodeOf(keep, s.phases[t], t, r);
        assert r in RequestsAt(s', rid) && NodeOf(keep, s'.phases[t], t, r);
      } else {
        QueuedNode(keep, QueueAt(s.table, rid), QueueAt(s'.table, rid), t, kind, reply.ticket, s'.next, s'.phases[t]);
      }
    }
  }

  lemma {:induction false} FlagAfter(s: State, s': State, t: TxnId, kind: Kind, rid: RID, reply: Reply, woke: bool,
      keep: bool, d: RID)
    requires StepFrame(s, s', t, rid) && s.phases.Keys == s.txns.Keys && s'.phases == s.phases[t := s'.phases[t]]
             && t in s.phases
    requires PhaseAfter(s'.phases[t], kind, rid, reply) && FlagOk(s, d)
    requires SectionOk(keep, QueueAt(s.table, rid), QueueAt(s'.table, rid), t, kind, s.txns[t], s'.txns[t], rid, reply,
             s.next, s'.next, woke)
    requires if woke then s.phases[t].Waiting? && s.phases[t].kind == kind && s.phases[t].rid == rid
             else s.phases[t].Idle?
    ensures FlagOk(s', d)
  {
    hide Holders, XHolders, Tickets, NoExclusive, OnlyMine, NodeOf;
    if d == rid && kind == ForUpgrade && (reply.Waits? || reply.Granted?) {
      if woke { assert Upgrading(s, t, d) && QueueAt(s.table, d).upgrading; }
      forall u | u != t ensures !Upgrading(s', u, d) {
        assert Upgrading(s', u, d) <==> Upgrading(s, u, d);
      }
      assert QueueAt(s'.table, d).upgrading == reply.Waits?;
      assert Upgrading(s', t, d) == reply.Waits?;
      OnlyUpgrader(s', t, d);
    } else {
      FlagKept(s, s', d);
    }
  }

  lemma OnlyUpgrader(s: State, t: TxnId, rid: RID)
    requires forall u :: u != t ==> !Upgrading(s, u, rid)
    requires QueueAt(s.table, rid).upgrading <==> Upgrading(s, t, rid)
    ensures FlagOk(s, rid)
  {
  }

  /** Everything an unlock does; only its caller's first node leaves the queue. */
  lemma UnlockStep(s: State, t: TxnId, rid: RID)
    requires t in s.txns && s.phases.Keys == s.txns.Keys
    ensures var s' := AfterUnlock(s, t, rid);
            && StepFrame(s, s', t, rid) && s'.next == s.next && s'.clock == s.clock && s'.stamps == s.stamps
            && s'.phases == Notify(s.phases, rid)
            && s'.txns[t] == Txn(if s.txns[t].state == GROWING then SHRINKING else s.txns[t].state,
                                 s.txns[t].shared - {rid}, s.txns[t].exclusive - {rid})
            && QueueAt(s'.table, rid).upgrading == QueueAt(s.table, rid).upgrading
            && OthersSame(RequestsAt(s, rid), RequestsAt(s', rid), t)
            && (forall r :: r in RequestsAt(s', rid) ==> r in RequestsAt(s, rid))
            && (forall next :: Tickets(RequestsAt(s, rid), next) ==> Tickets(RequestsAt(s', rid), next))
  {
    EraseMembers(RequestsAt(s, rid), t);
  }

  lemma UnlockFlags(keep: bool, s: State, t: TxnId, rid: RID)
    requires Shaped(keep, s) && t in s.txns
    ensures var s' := AfterUnlock(s, t, rid); forall d {:trigger FlagOk(s', d)} :: FlagOk(s', d)
  {
    hide Tickets, NodeOf, FlagOk, WaiterOk, AfterUnlock, Upgrading, OthersSame;
    UnlockStep(s, t, rid);
    var s' := AfterUnlock(s, t, rid);
    forall d ensures FlagOk(s', d) {
      assert FlagOk(s, d);
      SameUpgrades(s, s', rid, d);
      FlagKept(s, s', d);
    }
  }

  lemma UnlockPhases(keep: bool, s: State, t: TxnId, rid: RID)
    requires PhasesOk(s) && t in s.txns
    ensures PhasesOk(AfterUnlock(s, t, rid))
  {
    hide AfterUnlock, Tickets, OthersSame;
    UnlockStep(s, t, rid);
  }

  lemma UnlockWaiters(keep: bool, s: State, t: TxnId, rid: RID)
    requires Shaped(keep, s) && t in s.txns && !s.phases[t].Waiting?
    ensures var s' := AfterUnlock(s, t, rid);
            forall u {:trigger WaiterOk(keep, s', u)} :: u in s'.txns ==> WaiterOk(keep, s', u)
  {
    hide Tickets, NodeOf, FlagOk, WaiterOk, AfterUnlock, Upgrading;
    UnlockStep(s, t, rid);
    var s' := AfterUnlock(s, t, rid);
    forall u | u in s'.txns ensures WaiterOk(keep, s', u) {
      assert WaiterOk(keep, s, u);
      if u == t { NotWaiting(keep, s', u); } else { WaiterKept(keep, s, s', u); }
    }
  }

  lemma ShapedUnlock(keep: bool, s: State, t: TxnId, rid: RID)
    requires Shaped(keep, s) && t in s.txns && !s.phases[t].Waiting?
    ensures Shaped(keep, AfterUnlock(s, t, rid))
  {
    UnlockPhases(keep, s, t, rid);
    hide Tickets, NodeOf, FlagOk, WaiterOk, AfterUnlock, Upgrading;
    UnlockStep(s, t, rid);
    UnlockFlags(keep, s, t, rid);
    UnlockWaiters(keep, s, t, rid);
    var s' := AfterUnlock(s, t, rid);
    forall d ensures Tickets(RequestsAt(s', d), s'.next) {
      assert Tickets(RequestsAt(s, d), s.next);
    }
    forall d, r | r in RequestsAt(s', d) ensures r.txn in s'.txns {
      assert r in RequestsAt(s, d);
    }
  }

  lemma SameUpgrades(s: State, s': State, rid: RID, d: RID)
    requires s'.phases == Notify(s.phases, rid)
    ensures forall t :: Upgrading(s', t, d) <==> Upgrading(s, t, d)
  {
  }

  lemma NotWaiting(keep: bool, s: State, t: TxnId)
    requires t in s.phases && !s.phases[t].Waiting?
    ensures WaiterOk(keep, s, t)
  {
  }

  /** Steps that leave the table alone, and everybody who waits. */
  ghost predicate ElseFrame(s: State, s': State) {
    && s'.table == s.table && s'.next == s.next && s.txns.Keys <= s'.txns.Keys && s'.phases.Keys == s'.txns.Keys
    && forall u :: u in s'.phases && ((u in s.phases && s.phases[u].Waiting?) || s'.phases[u].Waiting?) ==>
         u in s.txns && u in s.phases && s'.phases[u] == s.phases[u] && s'.txns[u].state == s.txns[u].state
  }

  predicate TableAlone(a: Action) {
    a.Begin? || a.End? || a.Finish? || a.Read? || a.Write?
  }

  lemma ElseStep(keep: bool, s: State, a: Action)
    requires PhasesOk(s) && Enabled(s, a) && TableAlone(a)
    ensures ElseFrame(s, Next(keep, s, a))
  {
    hide Section, Settle, AfterUnlock, ValueAt;
  }

  lemma ElsePhases(keep: bool, s: State, a: Action)
    requires PhasesOk(s) && Enabled(s, a) && TableAlone(a)
    ensures PhasesOk(Next(keep, s, a))
  {
    hide Section, Settle, AfterUnlock, ValueAt;
  }

  /** Such a step gives nobody a lock. */
  lemma ElseLocks(keep: bool, s: State, a: Action)
    requires PhasesOk(s) && Enabled(s, a) && TableAlone(a)
    ensures var s' := Next(keep, s, a);
            && s'.table == s.table && s.txns.Keys <= s'.txns.Keys
            && (forall u :: u in s'.txns && u !in s.txns ==> s'.txns[u].shared == {} && s'.txns[u].exclusive == {})
            && (forall u :: u in s.txns ==>
                            s'.txns[u].shared <= s.txns[u].shared && s'.txns[u].exclusive <= s.txns[u].exclusive)
            && (forall u, d :: Upgrading(s', u, d) <==> Upgrading(s, u, d))
  {
    hide Section, Settle, AfterUnlock, ValueAt;
  }

  lemma ElseWaiters(keep: bool, s: State, s': State)
    requires PhasesOk(s) && ElseFrame(s, s') && forall u :: u in s.txns ==> WaiterOk(keep, s, u)
    ensures forall u {:trigger WaiterOk(keep, s', u)} :: u in s'.txns ==> WaiterOk(keep, s', u)
  {
    hide NodeOf, WaiterOk;
    forall u | u in s'.txns ensures WaiterOk(keep, s', u) {
      if s'.phases[u].Waiting? {
        assert WaiterOk(keep, s, u);
        WaiterKept(keep, s, s', u);
      } else {
        NotWaiting(keep, s', u);
      }
    }
  }

  lemma ElseFlags(s: State, s': State)
    requires PhasesOk(s) && ElseFrame(s, s') && forall d :: FlagOk(s, d)
    ensures forall d {:trigger FlagOk(s', d)} :: FlagOk(s', d)
  {
    hide FlagOk;
    forall d ensures FlagOk(s', d) {
      assert FlagOk(s, d);
      FlagKept(s, s', d);
    }
  }

  lemma ShapedElse(keep: bool, s: State, a: Action)
    requires Shaped(keep, s) && Enabled(s, a) && TableAlone(a)
    ensures Shaped(keep, Next(keep, s, a))
  {
    hide Tickets, NodeOf, FlagOk, WaiterOk, Upgrading, PhasesOk, Next;
    var s' := Next(keep, s, a);
    ElseStep(keep, s, a);
    ElsePhases(keep, s, a);
    ElseWaiters(keep, s, s');
    ElseFlags(s, s');
    forall d ensures RequestsAt(s', d) == RequestsAt(s, d) && Tickets(RequestsAt(s', d), s'.next) {
      assert Tickets(RequestsAt(s, d), s.next);
    }
  }

  lemma ShapedRelease(keep: bool, s: State, t: TxnId, p: Phase)
    requires Shaped(keep, s) && t in s.txns && s.phases[t].Ending? && p.Ending?
    ensures Shaped(keep, s.(phases := s.phases[t := p]))
  {
    hide Tickets, NodeOf, FlagOk, WaiterOk;
    var s' := s.(phases := s.phases[t := p]);
    forall d ensures Tickets(RequestsAt(s', d), s'.next) && RequestsAt(s', d) == RequestsAt(s, d) {
      assert Tickets(RequestsAt(s, d), s.next);
    }
    forall u | u in s'.txns ensures WaiterOk(keep, s', u) {
      assert WaiterOk(keep, s, u);
      if u == t { NotWaiting(keep, s', u); } else { WaiterKept(keep, s, s', u); }
    }
    forall d ensures FlagOk(s', d) {
      assert FlagOk(s, d);
      FlagKept(s, s', d);
    }
  }

  lemma ShapedNext(keep: bool, s: State, a: Action)
    requires Shaped(keep, s)
    ensures Shaped(keep, Next(keep, s, a))
  {
    hide Shaped, AfterUnlock;
    if Enabled(s, a) {
      EnabledPhases(keep, s, a);
      match a
      case Lock(_, _, _) => ShapedLock(keep, s, a);
      case Wake(_) => ShapedLock(keep, s, a);
      case Unlock(t, rid) => ShapedUnlock(keep, s, t, rid);
      case Release(t, rid) =>
        ShapedUnlock(keep, s, t, rid);
        var s1 := AfterUnlock(s, t, rid);
        var p := s.phases[t];
        UnlockStep(s, t, rid);
        ShapedRelease(keep, s1, t, if rid in p.shared then p.(shared := p.shared - {rid})
          else p.(exclusive := p.exclusive - {rid}));
      case _ => ShapedElse(keep, s, a);
    }
  }

  lemma EnabledPhases(keep: bool, s: State, a: Action)
    requires Shaped(keep, s)
    ensures s.phases.Keys == s.txns.Keys
  {
  }

  /** In every run: queues, tickets, waiting nodes and upgrade flags fit together. */
  lemma {:induction false} ShapedAlways(keep: bool, actions: seq<Action>)
    ensures Shaped(keep, Run(keep, actions))
    decreases |actions|
  {
    if actions != [] {
      ShapedAlways(keep, actions[..|actions| - 1]);
      ShapedNext(keep, Run(keep, actions[..|actions| - 1]), actions[|actions| - 1]);
    }
  }
}
