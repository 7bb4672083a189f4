/** Notifications: whether a blocked call whose wait predicate has become true will be told. */
module WakeUps {
  import opened Common
  import opened LockTable
  import opened LockRuns
  import opened LockSafety
  import opened LockExclusion
  import opened LockSets

  /** The wait predicate of a blocked call holds. */
  ghost predicate CanGo(s: State, t: TxnId) {
    && t in s.phases && s.phases[t].Waiting?
    && var rs := RequestsAt(s, s.phases[t].rid);
       if s.phases[t].kind == ForShared then NoExclusive(rs) else OnlyMine(rs, t)
  }

  /** Whenever the wait predicate of a blocked call is true, its queue was notified after the
      predicate was last found false. */
  ghost predicate NoLostWakeUp(s: State) {
    forall t {:trigger CanGo(s, t)} :: CanGo(s, t) ==> s.phases[t].signalled
  }

  /** The one way the code as written loses a wake-up: `LockUpgrade` takes its own grant away and
      waits, without a notification, while somebody who holds the record too waits for an exclusive
      lock on it and was blocked by that grant alone. */
  ghost predicate LosesWakeUp(keep: bool, s: State, a: Action) {
    && !keep && Enabled(s, a) && a.Lock? && a.kind == ForUpgrade && s.txns[a.t].state == GROWING
    && !QueueAt(s.table, a.rid).upgrading
    && var rs := RequestsAt(s, a.rid);
       var i := FirstGranted(rs, a.t);
       && i < |rs|
       && exists u :: BlockedByGrant(s, u, a.t, a.rid, i)
  }

  ghost predicate BlockedByGrant(s: State, u: TxnId, t: TxnId, rid: RID, i: nat) {
    && u != t && u in s.phases && s.phases[u].Waiting? && s.phases[u].kind != ForShared
    && s.phases[u].rid == rid && !s.phases[u].signalled
    && var rs := RequestsAt(s, rid);
       && (exists j :: 0 <= j < |rs| && rs[j].granted && rs[j].txn == u)
       && (forall j :: 0 <= j < |rs| && j != i && rs[j].granted ==> rs[j].txn == u)
  }

  /** Calls that end with a grant, or that only add a request, do not free anybody. */
  lemma QuietLock(keep: bool, s: State, a: Action)
    requires Shaped(keep, s) && Compatible(keep, s) && NoLostWakeUp(s) && Enabled(s, a) && (a.Lock? || a.Wake?)
    requires a.Lock? && a.kind == ForUpgrade && !keep ==> !Section(keep, s, a.t, a).1.Waits?
    ensures NoLostWakeUp(Next(keep, s, a))
  {
    hide Tickets, NodeOf, WaiterOk, Next, OthersSame, FlagOk, Shaped, Holders, XHolders, NoExclusive, OnlyMine;
    var t, kind, rid, reply := LockStep(keep, s, a);
    var s' := Next(keep, s, a);
    ReplyWaits(keep, s, a, reply);
    forall u | CanGo(s', u) ensures s'.phases[u].signalled {
      if u != t {
        var d := s.phases[u].rid;
        PredicatesByHolders(RequestsAt(s, d), u);
        PredicatesByHolders(RequestsAt(s', d), u);
        PredicatesByHolders(RequestsAt(s', d), t);
        XWithin(RequestsAt(s, d));
        assert CompatibleAt(keep, s, d);
        assert CanGo(s, u);
      }
    }
  }

  lemma ReplyWaits(keep: bool, s: State, a: Action, reply: Reply)
    requires Enabled(s, a) && (a.Lock? || a.Wake?) && a.t in Next(keep, s, a).phases
    requires PhaseAfter(Next(keep, s, a).phases[a.t], KindOf(s, a), RidOf(s, a), reply)
    ensures reply.Waits? <==> Section(keep, s, a.t, a).1.Waits?
  {
    hide LockShared, LockExclusive, LockUpgrade, ResumeShared, ResumeExclusive, ResumeUpgrade;
  }

  /** Holders after the upgrader's own grant is gone. */
  lemma MarkedHolders(rs: seq<Request>, i: nat, u: TxnId)
    requires i < |rs| && rs[i].granted && rs[i].txn != u
    ensures var rs' := rs[i := rs[i].(mode := EXCLUSIVE, granted := false)];
            OnlyMine(rs', u) <==> forall j :: 0 <= j < |rs| && j != i && rs[j].granted ==> rs[j].txn == u
  {
    var r := rs[i].(mode := EXCLUSIVE, granted := false);
    var rs' := rs[i := r];
    if OnlyMine(rs', u) {
      forall j | 0 <= j < |rs| && j != i && rs[j].granted ensures rs[j].txn == u {
        assert rs'[j] in rs';
      }
    }
    if forall j :: 0 <= j < |rs| && j != i && rs[j].granted ==> rs[j].txn == u {
      forall x | x in rs' && x.granted ensures x.txn == u {
        var j :| 0 <= j < |rs'| && rs'[j] == x;
      }
    }
  }

  /** What a waiting upgrade does as written. */
  lemma UpgradeWaits(s: State, a: Action) returns (i: nat)
    requires Shaped(false, s) && Enabled(s, a) && a.Lock? && a.kind == ForUpgrade && Section(false, s, a.t, a).1.Waits?
    ensures s.txns[a.t].state == GROWING && !QueueAt(s.table, a.rid).upgrading
    ensures var rs := RequestsAt(s, a.rid); var s' := Next(false, s, a);
            && i == FirstGranted(rs, a.t) && i < |rs|
            && RequestsAt(s', a.rid) == rs[i := rs[i].(mode := EXCLUSIVE, granted := false)]
            && !OnlyMine(RequestsAt(s', a.rid), a.t)
            && (forall d :: d != a.rid ==> RequestsAt(s', d) == RequestsAt(s, d))
            && s'.phases == s.phases[a.t := s'.phases[a.t]] && s'.phases[a.t].Waiting?
            && s'.phases[a.t].kind == ForUpgrade && s'.phases[a.t].rid == a.rid && !s'.phases[a.t].signalled
  {
    i := FirstGranted(RequestsAt(s, a.rid), a.t);
  }

  lemma UpgradeLoses(s: State, a: Action)
    requires Shaped(false, s) && Enabled(s, a) && a.Lock? && a.kind == ForUpgrade && Section(false, s, a.t, a).1.Waits?
    requires LosesWakeUp(false, s, a)
    ensures !NoLostWakeUp(Next(false, s, a))
  {
    hide Next, Section, Enabled, Shaped;
    var i := UpgradeWaits(s, a);
    var s' := Next(false, s, a);
    var u :| BlockedByGrant(s, u, a.t, a.rid, i);
    MarkedHolders(RequestsAt(s, a.rid), i, u);
    assert CanGo(s', u) && !s'.phases[u].signalled;
  }

  lemma UpgradeKeeps(s: State, a: Action)
    requires Shaped(false, s) && Compatible(false, s) && NoLostWakeUp(s)
    requires Enabled(s, a) && a.Lock? && a.kind == ForUpgrade && Section(false, s, a.t, a).1.Waits?
    requires !LosesWakeUp(false, s, a)
    ensures NoLostWakeUp(Next(false, s, a))
  {
    hide Next, Section, Shaped, OnlyMine, NoExclusive, Holders, XHolders;
    var i := UpgradeWaits(s, a);
    var s' := Next(false, s, a);
    var rs, rs' := RequestsAt(s, a.rid), RequestsAt(s', a.rid);
    forall u | CanGo(s', u) ensures s'.phases[u].signalled {
      if u != a.t {
        if s.phases[u].rid == a.rid {
          StillBlocked(s, a.rid, a.t, u, i);
          assert CanGo(s, u) || s.phases[u].signalled;
        } else {
          assert CanGo(s, u);
        }
      }
    }
  }

  /** Whoever the lost grant frees was free before, was notified, or is the case in point. */
  lemma StillBlocked(s: State, rid: RID, t: TxnId, u: TxnId, i: nat)
    requires CompatibleAt(false, s, rid) && u != t && u in s.phases && s.phases[u].Waiting? && s.phases[u].rid == rid
    requires var rs := RequestsAt(s, rid); i < |rs| && rs[i].granted && rs[i].txn == t
    requires !BlockedByGrant(s, u, t, rid, i)
    requires var rs' := RequestsAt(s, rid)[i := RequestsAt(s, rid)[i].(mode := EXCLUSIVE, granted := false)];
             !OnlyMine(rs', t) && if s.phases[u].kind == ForShared then NoExclusive(rs') else OnlyMine(rs', u)
    ensures CanGo(s, u) || s.phases[u].signalled
  {
    var rs := RequestsAt(s, rid);
    var rs' := rs[i := rs[i].(mode := EXCLUSIVE, granted := false)];
    if s.phases[u].kind == ForShared {
      FreedShared(s, rid, t, i);
    } else {
      MarkedHolders(rs, i, u);
      var x :| x in rs' && x.granted && x.txn != t;
      var j :| 0 <= j < |rs'| && rs'[j] == x;
      assert rs[j].granted && rs[j].txn == u;
    }
  }

  lemma FreedShared(s: State, rid: RID, t: TxnId, i: nat)
    requires CompatibleAt(false, s, rid)
    requires var rs := RequestsAt(s, rid); i < |rs| && rs[i].granted && rs[i].txn == t
    requires var rs' := RequestsAt(s, rid)[i := RequestsAt(s, rid)[i].(mode := EXCLUSIVE, granted := false)];
             !OnlyMine(rs', t) && NoExclusive(rs')
    ensures NoExclusive(RequestsAt(s, rid))
  {
    var rs := RequestsAt(s, rid);
    var rs' := rs[i := rs[i].(mode := EXCLUSIVE, granted := false)];
    var x :| x in rs' && x.granted && x.txn != t;
    var k :| 0 <= k < |rs'| && rs'[k] == x;
    assert rs[k] in rs && x.txn in Holders(rs);
    forall r | r in rs && r.granted ensures r.mode != EXCLUSIVE {
      var j :| 0 <= j < |rs| && rs[j] == r;
      if j != i { assert rs'[j] in rs'; }
      assert r.mode == EXCLUSIVE ==> r.txn in XHolders(rs);
    }
  }

  lemma WakeElse(keep: bool, s: State, a: Action)
    requires Shaped(keep, s) && NoLostWakeUp(s) && Enabled(s, a) && !a.Lock? && !a.Wake?
    ensures NoLostWakeUp(Next(keep, s, a))
  {
    hide Tickets, NodeOf, WaiterOk, FlagOk, AfterUnlock, NoExclusive, OnlyMine;
    var s' := Next(keep, s, a);
    if a.Unlock? || a.Release? { UnlockStep(s, a.t, a.rid); }
    forall u | CanGo(s', u) ensures s'.phases[u].signalled {
      if !((a.Unlock? || a.Release?) && s.phases[u].rid == a.rid) {
        assert CanGo(s, u);
      }
    }
  }

  /** A step keeps the promise if and only if it is not the faulty upgrade. */
  lemma WakeUpExact(keep: bool, s: State, a: Action)
    requires Shaped(keep, s) && Compatible(keep, s) && NoLostWakeUp(s)
    ensures NoLostWakeUp(Next(keep, s, a)) <==> !LosesWakeUp(keep, s, a)
  {
    hide Shaped, Compatible, NoLostWakeUp;
    if Enabled(s, a) {
      if a.Lock? && a.kind == ForUpgrade && !keep && Section(false, s, a.t, a).1.Waits? {
        if LosesWakeUp(keep, s, a) { UpgradeLoses(s, a); } else { UpgradeKeeps(s, a); }
      } else if a.Lock? || a.Wake? {
        QuietLock(keep, s, a);
        if LosesWakeUp(keep, s, a) { LosingUpgradeWaits(s, a); }
      } else {
        WakeElse(keep, s, a);
      }
    }
  }

  lemma LosingUpgradeWaits(s: State, a: Action)
    requires LosesWakeUp(false, s, a)
    ensures Section(false, s, a.t, a).1.Waits?
  {
    var rs := RequestsAt(s, a.rid);
    var i := FirstGranted(rs, a.t);
    var u :| BlockedByGrant(s, u, a.t, a.rid, i);
    var j :| 0 <= j < |rs| && rs[j].granted && rs[j].txn == u;
    var r := rs[i].(mode := EXCLUSIVE, granted := false);
    assert rs[i := r][j] == rs[j] && rs[j] in rs[i := r];
  }

  ghost predicate NeverLosing(keep: bool, actions: seq<Action>)
    decreases |actions|
  {
    actions != [] ==>
      && NeverLosing(keep, actions[..|actions| - 1])
      && !LosesWakeUp(keep, Run(keep, actions[..|actions| - 1]), actions[|actions| - 1])
  }

  /** No wake-up is lost in any run, with the repair; as written, in any run without the faulty upgrade. */
  lemma {:induction false} NoLostWakeUps(keep: bool, actions: seq<Action>)
    requires keep || NeverLosing(keep, actions)
    ensures NoLostWakeUp(Run(keep, actions))
    decreases |actions|
  {
    if actions != [] {
      var before, a := actions[..|actions| - 1], actions[|actions| - 1];
      NoLostWakeUps(keep, before);
      ShapedAlways(keep, before);
      CompatibleAlways(keep, before);
      WakeUpExact(keep, Run(keep, before), a);
    }
  }

  // ---------- a rule for clients ----------

  /** Whoever waits for an exclusive lock under the rule holds nothing on that record. */
  lemma ProperNeverLoses(s: State, a: Action)
    requires Shaped(false, s) && Matched(s)
    ensures !LosesWakeUp(false, s, a)
  {
    if LosesWakeUp(false, s, a) {
      var rid := a.rid;
      var rs := RequestsAt(s, rid);
      var u :| BlockedByGrant(s, u, a.t, rid, FirstGranted(rs, a.t));
      WaiterHoldsNothing(s, u, rid);
    }
  }

  lemma WaiterHoldsNothing(s: State, u: TxnId, rid: RID)
    requires Shaped(false, s) && Matched(s) && u in s.phases && s.phases[u].Waiting? && s.phases[u].rid == rid
    ensures forall r :: r in RequestsAt(s, rid) && r.txn == u ==> !r.granted
  {
    assert MatchAt(s, rid);
    WaiterNode(false, s, u);
    var p := s.phases[u];
    var n :| n in RequestsAt(s, rid) && NodeOf(false, Waiting(p.kind, RID(0, 0), p.ticket, false), u, n);
    forall r | r in RequestsAt(s, rid) && r.txn == u ensures r == n {
      OneEachUnique(RequestsAt(s, rid), r, n);
    }
  }

  /** As written, clients that never ask for an exclusive lock on a record they hold shared are told. */
  lemma {:induction false} ProperRunsAreTold(actions: seq<Action>)
    requires AlwaysAsksProperly(false, actions)
    ensures NeverLosing(false, actions) && NoLostWakeUp(Run(false, actions))
    decreases |actions|
  {
    if actions != [] {
      var before := actions[..|actions| - 1];
      ProperRunsAreTold(before);
      ShapedAlways(false, before);
      LockSetsMatch(false, before);
      ProperNeverLoses(Run(false, before), actions[|actions| - 1]);
    }
    NoLostWakeUps(false, actions);
  }
}
