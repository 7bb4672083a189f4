/** Mutual exclusion: what granted requests and lock sets guarantee in every run. */
module LockExclusion {
  import opened Common
  import opened LockTable
  import opened LockRuns
  import opened LockSafety

  // ---------- granted requests ----------

  /** A granted exclusive request is alone, unless it is kept while its owner waits for the upgrade. */
  ghost predicate CompatibleAt(keep: bool, s: State, rid: RID) {
    forall t :: t in XHolders(RequestsAt(s, rid)) && !(keep && Upgrading(s, t, rid)) ==>
                Holders(RequestsAt(s, rid)) <= {t}
  }

  ghost predicate Compatible(keep: bool, s: State) {
    forall rid {:trigger CompatibleAt(keep, s, rid)} :: CompatibleAt(keep, s, rid)
  }

  lemma SameAt(keep: bool, s: State, s': State, rid: RID)
    requires CompatibleAt(keep, s, rid) && RequestsAt(s', rid) == RequestsAt(s, rid)
    requires forall t :: Upgrading(s', t, rid) <==> Upgrading(s, t, rid)
    ensures CompatibleAt(keep, s', rid)
  {
  }

  lemma CompatibleLock(keep: bool, s: State, a: Action)
    requires Shaped(keep, s) && Compatible(keep, s) && Enabled(s, a) && (a.Lock? || a.Wake?)
    ensures Compatible(keep, Next(keep, s, a))
  {
    hide Holders, XHolders, Tickets, NodeOf, WaiterOk, Next, OthersSame, NoExclusive, OnlyMine;
    var t, kind, rid, reply := LockStep(keep, s, a);
    var s' := Next(keep, s, a);
    forall d ensures CompatibleAt(keep, s', d) {
      assert CompatibleAt(keep, s, d) && FlagOk(s, d);
      if d != rid {
        SameAt(keep, s, s', d);
      } else {
        CompatibleAfter(keep, s, s', t, kind, rid, reply, a.Wake?);
      }
    }
  }

  lemma XWithin(rs: seq<Request>)
    ensures XHolders(rs) <= Holders(rs)
  {
  }

  lemma CompatibleAfter(keep: bool, s: State, s': State, t: TxnId, kind: Kind, rid: RID, reply: Reply, woke: bool)
    requires StepFrame(s, s', t, rid) && t in s.phases && s'.phases == s.phases[t := s'.phases[t]]
    requires PhaseAfter(s'.phases[t], kind, rid, reply) && FlagOk(s, rid) && CompatibleAt(keep, s, rid)
    requires SectionOk(keep, QueueAt(s.table, rid), QueueAt(s'.table, rid), t, kind, s.txns[t], s'.txns[t], rid, reply,
             s.next, s'.next, woke)
    requires if woke then s.phases[t].Waiting? && s.phases[t].kind == kind && s.phases[t].rid == rid
                          && (reply.Waits? || reply.Granted?)
             else s.phases[t].Idle?
    ensures CompatibleAt(keep, s', rid)
  {
    hide Holders, XHolders, Tickets, NoExclusive, OnlyMine, NodeOf, OthersSame;
    XWithin(RequestsAt(s, rid));
    assert forall u :: u != t ==> (Upgrading(s', u, rid) <==> Upgrading(s, u, rid));
    forall u | u in XHolders(RequestsAt(s', rid))
      && !(keep && Upgrading(s', u, rid)) ensures Holders(RequestsAt(s', rid)) <= {u} {
      if reply.Waits? && !woke && kind == ForUpgrade {
        assert u in XHolders(RequestsAt(s, rid));
        assert !Upgrading(s, u, rid);
        assert Holders(RequestsAt(s, rid)) <= {u};
      }
    }
  }

  /** Steps that touch neither a queue nor who is upgrading. */
  lemma CompatibleElse(keep: bool, s: State, a: Action)
    requires Shaped(keep, s) && Compatible(keep, s) && Enabled(s, a) && !a.Lock? && !a.Wake?
    ensures Compatible(keep, Next(keep, s, a))
  {
    hide Tickets, NodeOf, WaiterOk, FlagOk, AfterUnlock, Holders, XHolders;
    var s' := Next(keep, s, a);
    if a.Unlock? || a.Release? { UnlockStep(s, a.t, a.rid); }
    forall d ensures CompatibleAt(keep, s', d) {
      assert CompatibleAt(keep, s, d);
      if (a.Unlock? || a.Release?) && d == a.rid {
        FewerHolders(RequestsAt(s, d), RequestsAt(s', d));
      }
    }
  }

  lemma FewerHolders(rs: seq<Request>, rs': seq<Request>)
    requires forall r :: r in rs' ==> r in rs
    ensures Holders(rs') <= Holders(rs) && XHolders(rs') <= XHolders(rs)
  {
  }

  lemma {:induction false} CompatibleAlways(keep: bool, actions: seq<Action>)
    ensures Compatible(keep, Run(keep, actions))
    decreases |actions|
  {
    if actions != [] {
      var before, a := Run(keep, actions[..|actions| - 1]), actions[|actions| - 1];
      CompatibleAlways(keep, actions[..|actions| - 1]);
      ShapedAlways(keep, actions[..|actions| - 1]);
      if Enabled(before, a) {
        if a.Lock? || a.Wake? { CompatibleLock(keep, before, a); } else { CompatibleElse(keep, before, a); }
      }
    }
  }

  /** As written, in every reachable state: two granted requests on a record are both shared or
      belong to the same transaction. */
  lemma GrantedCompatible(actions: seq<Action>, rid: RID, r1: Request, r2: Request)
    requires var rs := RequestsAt(Run(false, actions), rid); r1 in rs && r2 in rs && r1.granted && r2.granted
    ensures r1.txn == r2.txn || (r1.mode == SHARED && r2.mode == SHARED)
  {
    CompatibleAlways(false, actions);
    var s := Run(false, actions);
    assert CompatibleAt(false, s, rid);
    assert r1.txn in Holders(RequestsAt(s, rid)) && r2.txn in Holders(RequestsAt(s, rid));
    if r1.mode == EXCLUSIVE { assert r1.txn in XHolders(RequestsAt(s, rid)); }
    if r2.mode == EXCLUSIVE { assert r2.txn in XHolders(RequestsAt(s, rid)); }
  }

  // ---------- lock sets ----------

  /** The locks a transaction believes it holds are protected by granted requests. As written a
      pending upgrade is the exception: its transaction still relies on a shared lock. */
  ghost predicate ProtectedAt(keep: bool, s: State, t: TxnId, rid: RID) {
    t in s.txns ==>
      && (rid in s.txns[t].exclusive ==>
            && t in XHolders(RequestsAt(s, rid)) && Holders(RequestsAt(s, rid)) <= {t}
            && forall u :: u != t ==> !Upgrading(s, u, rid))
      && (rid in s.txns[t].shared ==> t in Holders(RequestsAt(s, rid)) || (!keep && Upgrading(s, t, rid)))
  }

  ghost predicate Protected(keep: bool, s: State) {
    forall t, rid {:trigger ProtectedAt(keep, s, t, rid)} :: ProtectedAt(keep, s, t, rid)
  }

  /** The defect of the code as written: a request for an exclusive lock meets a queue where somebody
      waits for an upgrade and nobody else has a granted request. */
  ghost predicate OverPending(s: State, a: Action) {
    && Enabled(s, a) && (a.Lock? || a.Wake?) && KindOf(s, a) == ForExclusive
    && s.txns[a.t].state == GROWING && (a.Lock? ==> a.rid !in s.txns[a.t].exclusive)
    && QueueAt(s.table, RidOf(s, a)).upgrading && OnlyMine(RequestsAt(s, RidOf(s, a)), a.t)
  }

  /** When an exclusive lock is granted. */
  lemma GrantGuard(keep: bool, s: State, a: Action)
    requires Shaped(keep, s) && Enabled(s, a) && (a.Lock? || a.Wake?) && KindOf(s, a) == ForExclusive
    ensures Section(keep, s, a.t, a).1.Granted? <==>
              s.txns[a.t].state == GROWING && (a.Lock? ==> a.rid !in s.txns[a.t].exclusive)
                && OnlyMine(RequestsAt(s, RidOf(s, a)), a.t)
  {
    hide Tickets, FlagOk, Grant, EraseNode;
    if a.Wake? {
      WaiterNode(keep, s, a.t);
    } else {
      AppendMine(RequestsAt(s, a.rid), Request(s.next, a.t, EXCLUSIVE, false), a.t);
    }
  }

  lemma AppendMine(rs: seq<Request>, r: Request, t: TxnId)
    requires !r.granted
    ensures OnlyMine(rs + [r], t) <==> OnlyMine(rs, t)
  {
    assert forall x :: x in rs + [r] <==> x in rs || x == r;
  }

  /** The flag speaks of somebody else. */
  lemma OthersUpgrade(s: State, a: Action)
    requires Enabled(s, a) && (a.Lock? || a.Wake?) && KindOf(s, a) == ForExclusive && FlagOk(s, RidOf(s, a))
    ensures QueueAt(s.table, RidOf(s, a)).upgrading <==> exists u :: u != a.t && Upgrading(s, u, RidOf(s, a))
  {
    assert !Upgrading(s, a.t, RidOf(s, a));
  }

  /** With the grant kept, the owner of a pending upgrade holds the lock it relies on. */
  lemma UpgraderHolds(s: State, t: TxnId, rid: RID)
    requires Shaped(true, s) && Upgrading(s, t, rid)
    ensures t in Holders(RequestsAt(s, rid))
  {
    assert WaiterOk(true, s, t);
  }

  lemma ProtectedLock(keep: bool, s: State, a: Action)
    requires Shaped(keep, s) && Protected(keep, s) && Enabled(s, a) && (a.Lock? || a.Wake?)
    requires keep || !OverPending(s, a)
    ensures Protected(keep, Next(keep, s, a))
  {
    hide Holders, XHolders, Tickets, NodeOf, WaiterOk, Next, OthersSame, NoExclusive, OnlyMine, FlagOk;
    var t, kind, rid, reply := LockStep(keep, s, a);
    var s' := Next(keep, s, a);
    assert FlagOk(s, rid);
    GrantedReply(keep, s, a, reply);
    if kind == ForExclusive {
      GrantGuard(keep, s, a);
      OthersUpgrade(s, a);
    }
    forall u | keep && Upgrading(s, u, rid) ensures u in Holders(RequestsAt(s, rid)) {
      UpgraderHolds(s, u, rid);
    }
    assert StepFacts(keep, s, s', t, kind, rid, reply, a.Wake?);
    ProtectedAfter(keep, s, s', t, kind, rid, reply, a.Wake?);
  }

  ghost predicate StepFacts(keep: bool, s: State, s': State, t: TxnId, kind: Kind, rid: RID, reply: Reply, woke: bool) {
    && StepFrame(s, s', t, rid) && t in s.phases && s'.phases == s.phases[t := s'.phases[t]]
    && PhaseAfter(s'.phases[t], kind, rid, reply) && FlagOk(s, rid)
    && SectionOk(keep, QueueAt(s.table, rid), QueueAt(s'.table, rid), t, kind, s.txns[t], s'.txns[t], rid, reply,
       s.next, s'.next, woke)
    && (if woke then s.phases[t].Waiting? && s.phases[t].kind == kind && s.phases[t].rid == rid
                     && (reply.Waits? || reply.Granted?)
        else s.phases[t].Idle?)
    && (forall u :: keep && Upgrading(s, u, rid) ==> u in Holders(RequestsAt(s, rid)))
    && (kind == ForExclusive && reply.Granted? && !keep ==> forall u :: u != t ==> !Upgrading(s, u, rid))
  }

  lemma ProtectedAfter(keep: bool, s: State, s': State, t: TxnId, kind: Kind, rid: RID, reply: Reply, woke: bool)
    requires StepFacts(keep, s, s', t, kind, rid, reply, woke) && Protected(keep, s)
    ensures Protected(keep, s')
  {
    hide StepFacts;
    forall u, d ensures ProtectedAt(keep, s', u, d) {
      assert ProtectedAt(keep, s, u, d);
      if d != rid {
        ProtectedElsewhere(keep, s, s', t, kind, rid, reply, woke, u, d);
      } else if u == t {
        ProtectedMine(keep, s, s', t, kind, rid, reply, woke);
      } else {
        ProtectedOther(keep, s, s', t, kind, rid, reply, woke, u);
      }
    }
  }

  lemma ProtectedElsewhere(keep: bool, s: State, s': State, t: TxnId, kind: Kind, rid: RID, reply: Reply, woke: bool,
      u: TxnId, d: RID)
    requires StepFacts(keep, s, s', t, kind, rid, reply, woke) && ProtectedAt(keep, s, u, d) && d != rid
    ensures ProtectedAt(keep, s', u, d)
  {
    hide Holders, XHolders, Tickets, NodeOf, OthersSame, NoExclusive, OnlyMine, FlagOk;
    assert forall w :: Upgrading(s', w, d) <==> Upgrading(s, w, d);
  }

  lemma ProtectedMine(keep: bool, s: State, s': State, t: TxnId, kind: Kind, rid: RID, reply: Reply, woke: bool)
    requires StepFacts(keep, s, s', t, kind, rid, reply, woke) && ProtectedAt(keep, s, t, rid)
    ensures ProtectedAt(keep, s', t, rid)
  {
    hide Holders, XHolders, Tickets, NodeOf, OthersSame, NoExclusive, OnlyMine;
    XWithin(RequestsAt(s, rid));
    PredicatesByHolders(RequestsAt(s', rid), t);
    assert forall u :: u != t ==> (Upgrading(s', u, rid) <==> Upgrading(s, u, rid));
    if woke && kind == ForUpgrade { assert Upgrading(s, t, rid); }
  }

  lemma ProtectedOther(keep: bool, s: State, s': State, t: TxnId, kind: Kind, rid: RID, reply: Reply, woke: bool,
      u: TxnId)
    requires StepFacts(keep, s, s', t, kind, rid, reply, woke) && ProtectedAt(keep, s, u, rid) && u != t
    ensures ProtectedAt(keep, s', u, rid)
  {
    hide Holders, XHolders, Tickets, NodeOf, OthersSame, NoExclusive, OnlyMine;
    XWithin(RequestsAt(s, rid));
    assert forall w :: w != t ==> (Upgrading(s', w, rid) <==> Upgrading(s, w, rid));
    if woke && kind == ForUpgrade { assert Upgrading(s, t, rid); }
  }

  /** Giving up locks and ending transactions endangers nobody. */
  lemma ProtectedFrame(keep: bool, s: State, s': State)
    requires Protected(keep, s) && s'.table == s.table
    requires forall u :: u in s'.txns && u !in s.txns ==> s'.txns[u].shared == {} && s'.txns[u].exclusive == {}
    requires forall u :: u in s'.txns && u in s.txns ==>
               s'.txns[u].shared <= s.txns[u].shared && s'.txns[u].exclusive <= s.txns[u].exclusive
    requires forall u, d :: Upgrading(s', u, d) <==> Upgrading(s, u, d)
    ensures Protected(keep, s')
  {
    hide Holders, XHolders;
    forall u, d ensures ProtectedAt(keep, s', u, d) {
      assert ProtectedAt(keep, s, u, d);
    }
  }

  lemma ProtectedUnlock(keep: bool, s: State, t: TxnId, rid: RID)
    requires Shaped(keep, s) && Protected(keep, s) && t in s.txns
    ensures Protected(keep, AfterUnlock(s, t, rid))
  {
    hide Tickets, NodeOf, WaiterOk, FlagOk, AfterUnlock, Holders, XHolders;
    var s' := AfterUnlock(s, t, rid);
    UnlockStep(s, t, rid);
    FewerHolders(RequestsAt(s, rid), RequestsAt(s', rid));
    HoldersSplit(RequestsAt(s, rid), RequestsAt(s', rid), t);
    assert forall w, d :: Upgrading(s', w, d) <==> Upgrading(s, w, d);
    forall u, d ensures ProtectedAt(keep, s', u, d) {
      assert ProtectedAt(keep, s, u, d);
      if d == rid && u != t {
        assert u in XHolders(RequestsAt(s, rid)) ==> u in XHolders(RequestsAt(s', rid)) - {t};
        assert u in Holders(RequestsAt(s, rid)) ==> u in Holders(RequestsAt(s', rid)) - {t};
      } else if d != rid {
        assert RequestsAt(s', d) == RequestsAt(s, d);
      }
    }
  }

  lemma ProtectedRelease(keep: bool, s: State, a: Action)
    requires Shaped(keep, s) && Protected(keep, s) && Enabled(s, a) && a.Release?
    ensures Protected(keep, Next(keep, s, a))
  {
    hide Tickets, NodeOf, WaiterOk, FlagOk, AfterUnlock, Protected;
    ProtectedUnlock(keep, s, a.t, a.rid);
    UnlockStep(s, a.t, a.rid);
    ProtectedFrame(keep, AfterUnlock(s, a.t, a.rid), Next(keep, s, a));
  }

  lemma ProtectedElse(keep: bool, s: State, a: Action)
    requires Shaped(keep, s) && Protected(keep, s) && Enabled(s, a) && !a.Lock? && !a.Wake?
    ensures Protected(keep, Next(keep, s, a))
  {
    if a.Unlock? {
      assert Next(keep, s, a) == AfterUnlock(s, a.t, a.rid);
      hide Next, AfterUnlock;
      ProtectedUnlock(keep, s, a.t, a.rid);
    } else if a.Release? {
      hide Next;
      ProtectedRelease(keep, s, a);
    } else {
      hide Next, Protected;
      ElseLocks(keep, s, a);
      ProtectedFrame(keep, s, Next(keep, s, a));
    }
  }

  /** No exclusive lock is ever granted over a pending upgrade in this run. */
  ghost predicate NeverOverPending(keep: bool, actions: seq<Action>)
    decreases |actions|
  {
    actions != [] ==>
      && NeverOverPending(keep, actions[..|actions| - 1])
      && !OverPending(Run(keep, actions[..|actions| - 1]), actions[|actions| - 1])
  }

  lemma {:induction false} ProtectedAlways(keep: bool, actions: seq<Action>)
    requires keep || NeverOverPending(keep, actions)
    ensures Protected(keep, Run(keep, actions))
    decreases |actions|
  {
    if actions != [] {
      var before, a := Run(keep, actions[..|actions| - 1]), actions[|actions| - 1];
      ProtectedAlways(keep, actions[..|actions| - 1]);
      ShapedAlways(keep, actions[..|actions| - 1]);
      if Enabled(before, a) {
        if a.Lock? || a.Wake? { ProtectedLock(keep, before, a); } else { ProtectedElse(keep, before, a); }
      }
    }
  }

  /** One transaction's exclusive lock excludes every lock of the others. */
  ghost predicate Exclusive(s: State) {
    forall t, u, rid :: t in s.txns && u in s.txns && t != u && rid in s.txns[t].exclusive ==>
      rid !in s.txns[u].exclusive && rid !in s.txns[u].shared
  }

  lemma ExclusiveFromProtected(keep: bool, s: State)
    requires Protected(keep, s)
    ensures Exclusive(s)
  {
    hide Holders, XHolders;
    forall t, u, rid | t in s.txns && u in s.txns && t != u && rid in s.txns[t].exclusive
      ensures rid !in s.txns[u].exclusive && rid !in s.txns[u].shared
    {
      assert ProtectedAt(keep, s, t, rid) && ProtectedAt(keep, s, u, rid);
      XWithin(RequestsAt(s, rid));
    }
  }

  /** Mutual exclusion in every run: always with the repair, and as written for all runs in which no
      exclusive lock is granted over a pending upgrade. */
  lemma MutualExclusion(keep: bool, actions: seq<Action>)
    requires keep || NeverOverPending(keep, actions)
    ensures Exclusive(Run(keep, actions))
  {
    ProtectedAlways(keep, actions);
    ExclusiveFromProtected(keep, Run(keep, actions));
  }

  // ---------- as written, exactly this step breaks it ----------

  /** A growing transaction with a granted request, or waiting to upgrade it, relies on the lock. */
  ghost predicate BelievedAt(s: State, t: TxnId, rid: RID) {
    t in s.txns && s.txns[t].state == GROWING && (t in Holders(RequestsAt(s, rid)) || Upgrading(s, t, rid)) ==>
      rid in s.txns[t].shared || rid in s.txns[t].exclusive
  }

  ghost predicate Believed(s: State) {
    forall t, rid {:trigger BelievedAt(s, t, rid)} :: BelievedAt(s, t, rid)
  }

  lemma BelievedLock(keep: bool, s: State, a: Action)
    requires Shaped(keep, s) && Believed(s) && Enabled(s, a) && (a.Lock? || a.Wake?)
    ensures Believed(Next(keep, s, a))
  {
    hide Holders, XHolders, Tickets, NodeOf, WaiterOk, Next, OthersSame, NoExclusive, OnlyMine, FlagOk;
    var t, kind, rid, reply := LockStep(keep, s, a);
    var s' := Next(keep, s, a);
    forall u, d ensures BelievedAt(s', u, d) {
      assert BelievedAt(s, u, d);
      if d != rid {
        assert RequestsAt(s', d) == RequestsAt(s, d);
      }
    }
  }

  lemma BelievedElse(keep: bool, s: State, a: Action)
    requires Shaped(keep, s) && Believed(s) && Enabled(s, a) && !a.Lock? && !a.Wake?
    ensures Believed(Next(keep, s, a))
  {
    hide Tickets, NodeOf, WaiterOk, FlagOk, AfterUnlock, Holders, XHolders;
    var s' := Next(keep, s, a);
    if a.Unlock? || a.Release? { UnlockStep(s, a.t, a.rid); }
    forall u, d ensures BelievedAt(s', u, d) {
      assert BelievedAt(s, u, d);
      if (a.Unlock? || a.Release?) && d == a.rid {
        HoldersSplit(RequestsAt(s, d), RequestsAt(s', d), a.t);
        assert u != a.t && u in Holders(RequestsAt(s', d)) ==> u in Holders(RequestsAt(s, d)) - {a.t};
      } else {
        assert RequestsAt(s', d) == RequestsAt(s, d);
        KnownHolders(keep, s, d);
      }
    }
  }

  lemma KnownHolders(keep: bool, s: State, rid: RID)
    requires Shaped(keep, s)
    ensures Holders(RequestsAt(s, rid)) <= s.txns.Keys
  {
  }

  lemma {:induction false} BelievedAlways(keep: bool, actions: seq<Action>)
    ensures Believed(Run(keep, actions))
    decreases |actions|
  {
    if actions != [] {
      var before, a := Run(keep, actions[..|actions| - 1]), actions[|actions| - 1];
      BelievedAlways(keep, actions[..|actions| - 1]);
      ShapedAlways(keep, actions[..|actions| - 1]);
      if Enabled(before, a) {
        if a.Lock? || a.Wake? { BelievedLock(keep, before, a); } else { BelievedElse(keep, before, a); }
      }
    }
  }

  /** After any run without the defect so far, the next step keeps mutual exclusion if and only if it
      does not grant an exclusive lock over a pending upgrade. */
  lemma ExclusionExact(actions: seq<Action>, a: Action)
    requires NeverOverPending(false, actions)
    ensures Exclusive(Next(false, Run(false, actions), a)) <==> !OverPending(Run(false, actions), a)
  {
    var s := Run(false, actions);
    ProtectedAlways(false, actions);
    ShapedAlways(false, actions);
    BelievedAlways(false, actions);
    if OverPending(s, a) {
      BreaksExclusion(s, a);
    } else if Enabled(s, a) {
      if a.Lock? || a.Wake? { ProtectedLock(false, s, a); } else { ProtectedElse(false, s, a); }
      ExclusiveFromProtected(false, Next(false, s, a));
    } else {
      ExclusiveFromProtected(false, s);
    }
  }

  lemma BreaksExclusion(s: State, a: Action)
    requires Shaped(false, s) && Believed(s) && OverPending(s, a)
    ensures !Exclusive(Next(false, s, a))
  {
    hide Holders, XHolders, Tickets, OthersSame, NoExclusive, OnlyMine, FlagOk, Next,
         LockShared, LockExclusive, LockUpgrade, ResumeShared, ResumeExclusive, ResumeUpgrade;
    var t, kind, rid, reply := LockStep(false, s, a);
    assert FlagOk(s, rid);
    GrantGuard(false, s, a);
    OthersUpgrade(s, a);
    var u :| u != a.t && Upgrading(s, u, RidOf(s, a));
    assert BelievedAt(s, u, rid);
    assert WaiterOk(false, s, u);
    GrantedReply(false, s, a, reply);
    var s' := Next(false, s, a);
    assert rid in s'.txns[t].exclusive && s'.txns[u] == s.txns[u];
  }

  lemma GrantedReply(keep: bool, s: State, a: Action, reply: Reply)
    requires Enabled(s, a) && (a.Lock? || a.Wake?)
    requires Next(keep, s, a).clock == if reply.Granted? then s.clock + 1 else s.clock
    ensures reply.Granted? <==> Section(keep, s, a.t, a).1.Granted?
  {
    hide LockShared, LockExclusive, LockUpgrade, ResumeShared, ResumeExclusive, ResumeUpgrade;
  }

  // ---------- a rule for clients ----------

  /** Without upgrades nobody ever waits for one. */
  lemma {:induction false} NoUpgradesWait(keep: bool, actions: seq<Action>)
    requires forall a :: a in actions && a.Lock? ==> a.kind != ForUpgrade
    ensures forall t :: t in Run(keep, actions).phases && Run(keep, actions).phases[t].Waiting? ==>
                        Run(keep, actions).phases[t].kind != ForUpgrade
    decreases |actions|
  {
    hide LockShared, LockExclusive, LockUpgrade, ResumeShared, ResumeExclusive, ResumeUpgrade, LockTable.Unlock;
    if actions != [] {
      var before, a := actions[..|actions| - 1], actions[|actions| - 1];
      assert a in actions && forall x :: x in before ==> x in actions;
      NoUpgradesWait(keep, before);
    }
  }

  /** As written, clients that never upgrade are safe. */
  lemma {:induction false} SafeWithoutUpgrades(actions: seq<Action>)
    requires forall a :: a in actions && a.Lock? ==> a.kind != ForUpgrade
    ensures NeverOverPending(false, actions)
    decreases |actions|
  {
    if actions != [] {
      var before, a := actions[..|actions| - 1], actions[|actions| - 1];
      assert forall x :: x in before ==> x in actions;
      SafeWithoutUpgrades(before);
      NoUpgradesWait(false, before);
      ShapedAlways(false, before);
      var s := Run(false, before);
      if OverPending(s, a) {
        assert FlagOk(s, RidOf(s, a));
        OthersUpgrade(s, a);
      }
    }
  }
}
