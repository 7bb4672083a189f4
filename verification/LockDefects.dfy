/** Runs of the code as written that go wrong. */
module LockDefects {
  import opened Common
  import opened LockTable
  import opened LockRuns
  import opened LockSafety
  import opened LockExclusion
  import opened Serializability
  import opened WakeUps
  import opened LockSets

  const R: RID := RID(0, 0)

  // ---------- an update that gets lost ----------

  /** Transaction 0 reads and waits to upgrade; transaction 2 slips in and writes. */
  function LostUpdateRun(): seq<Action> {
    [Begin, Begin, Begin, Lock(0, ForShared, R), Read(0, R), Lock(1, ForShared, R), Lock(0, ForUpgrade, R),
      Unlock(1, R),
     Lock(2, ForExclusive, R), Write(2, R, 5), Unlock(2, R), Wake(0), Write(0, R, 7)]
  }

  function Phases(p: Phase): map<TxnId, Phase> {
    map[0 := p, 1 := Idle, 2 := Idle]
  }

  const Free: Txn := Txn(GROWING, {}, {})
  const Shares: Txn := Txn(GROWING, {R}, {})
  const Owns: Txn := Txn(GROWING, {}, {R})
  const Gone: Txn := Txn(SHRINKING, {}, {})

  const AtStart: State := State(map[], 0, map[0 := Free, 1 := Free, 2 := Free], 3, Phases(Idle), map[], [], 0, map[])

  const OneReads: State :=
    State(map[R := Queue([Request(0, 0, SHARED, true)], false)], 1, map[0 := Shares, 1 := Free, 2 := Free], 3,
      Phases(Idle),
          map[], [Op(0, R, false, 0)], 1, map[0 := 0])

  const TwoRead: State :=
    State(map[R := Queue([Request(0, 0, SHARED, true), Request(1, 1, SHARED, true)], false)], 2,
          map[0 := Shares, 1 := Shares, 2 := Free], 3, Phases(Idle), map[], [Op(0, R, false, 0)], 2,
            map[0 := 0, 1 := 1])

  const OneUpgrades: State :=
    State(map[R := Queue([Request(0, 0, EXCLUSIVE, false), Request(1, 1, SHARED, true)], true)], 2,
          map[0 := Shares, 1 := Shares, 2 := Free], 3, Phases(Waiting(ForUpgrade, R, 0, false)),
          map[], [Op(0, R, false, 0)], 2, map[0 := 0, 1 := 1])

  const NobodyHolds: State :=
    State(map[R := Queue([Request(0, 0, EXCLUSIVE, false)], true)], 2,
          map[0 := Shares, 1 := Gone, 2 := Free], 3, Phases(Waiting(ForUpgrade, R, 0, true)),
          map[], [Op(0, R, false, 0)], 2, map[0 := 0, 1 := 1])

  const SlippedIn: State :=
    State(map[R := Queue([Request(0, 0, EXCLUSIVE, false), Request(2, 2, EXCLUSIVE, true)], true)], 3,
          map[0 := Shares, 1 := Gone, 2 := Owns], 3, Phases(Waiting(ForUpgrade, R, 0, true)),
          map[], [Op(0, R, false, 0)], 3, map[0 := 0, 1 := 1, 2 := 2])

  const Written: State :=
    State(map[R := Queue([Request(0, 0, EXCLUSIVE, false)], true)], 3,
          map[0 := Shares, 1 := Gone, 2 := Gone], 3, Phases(Waiting(ForUpgrade, R, 0, true)),
          map[R := 5], [Op(0, R, false, 0), Op(2, R, true, 5)], 3, map[0 := 0, 1 := 1, 2 := 2])

  const Overwritten: State :=
    State(map[R := Queue([Request(0, 0, EXCLUSIVE, true)], false)], 3,
          map[0 := Owns, 1 := Gone, 2 := Gone], 3, Phases(Idle),
          map[R := 7], [Op(0, R, false, 0), Op(2, R, true, 5), Op(0, R, true, 7)], 4, map[0 := 3, 1 := 1, 2 := 2])

  lemma SameState(a: State, b: State)
    requires a.table == b.table && a.next == b.next && a.txns == b.txns && a.nextTxn == b.nextTxn
             && a.phases == b.phases
    requires a.data == b.data && a.log == b.log && a.clock == b.clock && a.stamps == b.stamps
    ensures a == b
  {
  }

  lemma Sets()
    ensures Free.shared + {R} == {R} && {R} - {R} == {} && Free.shared - {R} == {}
  {
  }

  lemma StepsBegin()
    ensures Next(false, Next(false, Next(false, Start, Begin), Begin), Begin) == AtStart
  {
    SameState(Next(false, Next(false, Next(false, Start, Begin), Begin), Begin), AtStart);
  }

  lemma StepsOneReads()
    ensures Next(false, Next(false, AtStart, Lock(0, ForShared, R)), Read(0, R)) == OneReads
  {
    hide LockTable.LockExclusive, LockTable.LockUpgrade, LockTable.ResumeExclusive, LockTable.ResumeUpgrade,
      AfterUnlock;
    Sets();
    assert QueueAt(AtStart.table, R).requests + [Request(0, 0, SHARED, false)] == [Request(0, 0, SHARED, false)];
    assert Grant([Request(0, 0, SHARED, false)], 0) == [Request(0, 0, SHARED, true)];
    SameState(Next(false, Next(false, AtStart, Lock(0, ForShared, R)), Read(0, R)), OneReads);
  }

  lemma StepTwoRead()
    ensures Next(false, OneReads, Lock(1, ForShared, R)) == TwoRead
  {
    hide LockTable.LockExclusive, LockTable.LockUpgrade, LockTable.ResumeExclusive, LockTable.ResumeUpgrade,
      AfterUnlock;
    Sets();
    var rs := [Request(0, 0, SHARED, true), Request(1, 1, SHARED, false)];
    assert Grant(rs, 1) == [Request(0, 0, SHARED, true), Request(1, 1, SHARED, true)];
    hide Grant;
    assert [rs[0]] + [rs[1]] == rs && NoExclusive(rs);
    SameState(Next(false, OneReads, Lock(1, ForShared, R)), TwoRead);
  }

  lemma StepOneUpgrades()
    ensures Next(false, TwoRead, Lock(0, ForUpgrade, R)) == OneUpgrades
  {
    hide LockTable.LockExclusive, LockTable.LockShared, LockTable.ResumeExclusive, LockTable.ResumeShared, AfterUnlock;
    assert TwoRead.table[R].requests[0 := Request(0, 0, EXCLUSIVE, false)] == OneUpgrades.table[R].requests;
    var rs := [Request(0, 0, EXCLUSIVE, false), Request(1, 1, SHARED, true)];
    assert rs[1] in rs;
    SameState(Next(false, TwoRead, Lock(0, ForUpgrade, R)), OneUpgrades);
  }

  lemma StepNobodyHolds()
    ensures Next(false, OneUpgrades, Unlock(1, R)) == NobodyHolds
  {
    hide Section;
    Sets();
    var rs := [Request(0, 0, EXCLUSIVE, false), Request(1, 1, SHARED, true)];
    assert rs[1..] == [rs[1]] && rs[1..][1..] == [];
    assert EraseFirst(rs, 1) == [rs[0]] + EraseFirst(rs[1..], 1);
    assert [rs[0]] + [] == NobodyHolds.table[R].requests;
    SameState(Next(false, OneUpgrades, Unlock(1, R)), NobodyHolds);
  }

  lemma StepSlippedIn()
    ensures Next(false, NobodyHolds, Lock(2, ForExclusive, R)) == SlippedIn
    ensures OverPending(NobodyHolds, Lock(2, ForExclusive, R))
  {
    hide LockTable.LockShared, LockTable.LockUpgrade, LockTable.ResumeShared, LockTable.ResumeUpgrade, AfterUnlock;
    Sets();
    var rs := [Request(0, 0, EXCLUSIVE, false), Request(2, 2, EXCLUSIVE, false)];
    assert Grant(rs, 2) == [Request(0, 0, EXCLUSIVE, false), Request(2, 2, EXCLUSIVE, true)];
    assert forall r :: r in NobodyHolds.table[R].requests ==> !r.granted;
    SameState(Next(false, NobodyHolds, Lock(2, ForExclusive, R)), SlippedIn);
  }

  const Rewritten: State := SlippedIn.(data := map[R := 5], log := [Op(0, R, false, 0), Op(2, R, true, 5)])

  lemma StepRewritten()
    ensures Next(false, SlippedIn, Write(2, R, 5)) == Rewritten
  {
    hide Section, AfterUnlock;
    SameState(Next(false, SlippedIn, Write(2, R, 5)), Rewritten);
  }

  lemma StepsWritten()
    ensures Next(false, Next(false, SlippedIn, Write(2, R, 5)), Unlock(2, R)) == Written
  {
    StepRewritten();
    hide Section;
    Sets();
    var rs := [Request(0, 0, EXCLUSIVE, false), Request(2, 2, EXCLUSIVE, true)];
    assert rs[1..] == [rs[1]] && rs[1..][1..] == [];
    assert EraseFirst(rs, 2) == [rs[0]] + EraseFirst(rs[1..], 2);
    assert [rs[0]] + [] == Written.table[R].requests;
    SameState(Next(false, Rewritten, Unlock(2, R)), Written);
  }

  const Regranted: State :=
    State(map[R := Queue([Request(0, 0, EXCLUSIVE, true)], false)], 3,
          map[0 := Owns, 1 := Gone, 2 := Gone], 3, Phases(Idle),
          map[R := 5], [Op(0, R, false, 0), Op(2, R, true, 5)], 4, map[0 := 3, 1 := 1, 2 := 2])

  lemma StepRegranted()
    ensures Next(false, Written, Wake(0)) == Regranted
  {
    hide LockTable.LockShared, LockTable.LockExclusive, LockTable.LockUpgrade, LockTable.ResumeShared,
      LockTable.ResumeExclusive, AfterUnlock;
    Sets();
    assert Grant([Request(0, 0, EXCLUSIVE, false)], 0) == [Request(0, 0, EXCLUSIVE, true)];
    hide Grant;
    assert OnlyMine(Written.table[R].requests, 0);
    hide OnlyMine;
    SameState(Next(false, Written, Wake(0)), Regranted);
  }

  lemma StepsOverwritten()
    ensures Next(false, Next(false, Written, Wake(0)), Write(0, R, 7)) == Overwritten
  {
    StepRegranted();
    hide LockTable.ResumeUpgrade;
    SameState(Next(false, Regranted, Write(0, R, 7)), Overwritten);
  }

  /** As written: an exclusive lock granted over the pending upgrade loses an update. The final
      history is not equivalent to any serial order of its transactions. */
  lemma LostUpdate(stamps: map<TxnId, nat>)
    requires 0 in stamps && 2 in stamps && stamps[0] != stamps[2]
    ensures var s := Run(false, LostUpdateRun());
            !(Legal(Serial(s.log, stamps)) && Final(Serial(s.log, stamps)) == s.data)
  {
    LostUpdateHappens();
    LostInEveryOrder(stamps);
  }

  lemma LostUpdateHappens()
    ensures Run(false, LostUpdateRun()) == Overwritten
  {
    hide *;
    var b := [Begin, Begin, Begin];
    FirstThree();
    RunTwo(false, b, Lock(0, ForShared, R), Read(0, R));
    StepsOneReads();
    var c := b + [Lock(0, ForShared, R)] + [Read(0, R)];
    RunTwo(false, c, Lock(1, ForShared, R), Lock(0, ForUpgrade, R));
    StepTwoRead();
    StepOneUpgrades();
    var d := c + [Lock(1, ForShared, R)] + [Lock(0, ForUpgrade, R)];
    RunTwo(false, d, Unlock(1, R), Lock(2, ForExclusive, R));
    StepNobodyHolds();
    StepSlippedIn();
    var e := d + [Unlock(1, R)] + [Lock(2, ForExclusive, R)];
    RunTwo(false, e, Write(2, R, 5), Unlock(2, R));
    StepsWritten();
    var f := e + [Write(2, R, 5)] + [Unlock(2, R)];
    RunTwo(false, f, Wake(0), Write(0, R, 7));
    StepsOverwritten();
    RunIs(f + [Wake(0)] + [Write(0, R, 7)]);
  }

  lemma RunIs(actions: seq<Action>)
    requires actions == [Begin, Begin, Begin] + [Lock(0, ForShared, R)] + [Read(0, R)] + [Lock(1, ForShared, R)]
             + [Lock(0, ForUpgrade, R)]
                        + [Unlock(1, R)] + [Lock(2, ForExclusive, R)] + [Write(2, R, 5)] + [Unlock(2, R)] + [Wake(0)]
                          + [Write(0, R, 7)]
    ensures actions == LostUpdateRun()
  {
  }

  lemma FirstThree()
    ensures Run(false, [Begin, Begin, Begin]) == AtStart
  {
    assert Run(false, []) == Start;
    assert [] + [Begin] == [Begin] && [Begin] + [Begin] == [Begin, Begin]
      && [Begin, Begin] + [Begin] == [Begin, Begin, Begin];
    RunSnoc(false, [], Begin);
    RunSnoc(false, [Begin], Begin);
    RunSnoc(false, [Begin, Begin], Begin);
    StepsBegin();
  }

  lemma RunTwo(keep: bool, actions: seq<Action>, a: Action, b: Action)
    ensures Run(keep, actions + [a] + [b]) == Next(keep, Next(keep, Run(keep, actions), a), b)
  {
    RunSnoc(keep, actions, a);
    RunSnoc(keep, actions + [a], b);
  }

  lemma LostInEveryOrder(stamps: map<TxnId, nat>)
    requires 0 in stamps && 2 in stamps && stamps[0] != stamps[2]
    ensures var log := Overwritten.log;
            !(Legal(Serial(log, stamps)) && Final(Serial(log, stamps)) == Overwritten.data)
  {
    var r, w, w' := Op(0, R, false, 0), Op(2, R, true, 5), Op(0, R, true, 7);
    assert Overwritten.log == [r, w, w'] && [r, w, w'][..2] == [r, w] && [r, w][..1] == [r];
    assert Serial([r], stamps) == [r];
    if stamps[0] < stamps[2] {
      assert Serial([r, w], stamps) == [r, w];
      assert Place([r, w], w', stamps) == [r, w', w];
      assert [r, w', w][..2] == [r, w'];
      assert Final([r, w', w])[R] == 5;
    } else {
      assert Place([r], w, stamps) == [w, r];
      assert Place([w, r], w', stamps) == [w, r, w'];
      assert [w, r, w'][..2] == [w, r] && [w, r][..1] == [w];
    }
  }

  // ---------- a wake-up that gets lost ----------

  const OneAsksToo: State :=
    State(map[R := Queue([Request(0, 0, SHARED, true), Request(1, 1, SHARED, true), Request(2, 0, EXCLUSIVE, false)],
      false)], 3,
          map[0 := Shares, 1 := Shares, 2 := Free], 3, Phases(Waiting(ForExclusive, R, 2, false)), map[],
            [Op(0, R, false, 0)], 2, map[0 := 0, 1 := 1])

  const BothAsleep: State :=
    State(map[R := Queue([Request(0, 0, SHARED, true), Request(1, 1, EXCLUSIVE, false),
      Request(2, 0, EXCLUSIVE, false)], true)], 3,
          map[0 := Shares, 1 := Shares, 2 := Free], 3,
          map[0 := Waiting(ForExclusive, R, 2, false), 1 := Waiting(ForUpgrade, R, 1, false), 2 := Idle],
          map[], [Op(0, R, false, 0)], 2, map[0 := 0, 1 := 1])

  function SleepingRun(): seq<Action> {
    [Begin, Begin, Begin, Lock(0, ForShared, R), Read(0, R), Lock(1, ForShared, R), Lock(0, ForExclusive, R),
      Lock(1, ForUpgrade, R)]
  }

  lemma StepOneAsksToo()
    ensures Next(false, TwoRead, Lock(0, ForExclusive, R)) == OneAsksToo
  {
    var q := TwoRead.table[R].requests + [Request(2, 0, EXCLUSIVE, false)];
    assert q == OneAsksToo.table[R].requests;
    assert q[1] in q;
    SameState(Next(false, TwoRead, Lock(0, ForExclusive, R)), OneAsksToo);
  }

  lemma AsleepSection()
    ensures LockUpgrade(Local(OneAsksToo.table, 3, Shares), 1, R, false)
            == (Local(BothAsleep.table, 3, Shares), Waits(1))
  {
    hide FirstGranted;
    var rs := OneAsksToo.table[R].requests;
    assert rs[1].txn == 1 && rs[0].txn == 0;
    assert FirstGranted(rs, 1) == 1;
    var rs' := rs[1 := Request(1, 1, EXCLUSIVE, false)];
    assert rs' == BothAsleep.table[R].requests;
    assert rs'[0] in rs';
    assert OneAsksToo.table[R := Queue(rs', true)] == BothAsleep.table;
  }

  lemma StepBothAsleep()
    ensures Next(false, OneAsksToo, Lock(1, ForUpgrade, R)) == BothAsleep
  {
    hide LockUpgrade;
    AsleepSection();
    SameState(Next(false, OneAsksToo, Lock(1, ForUpgrade, R)), BothAsleep);
  }

  /** As written: two readers, one asks for an exclusive lock, the other upgrades. Then the first could
      go on and is never told. */
  lemma LostWakeUp()
    ensures CanGo(Run(false, SleepingRun()), 0) && !Run(false, SleepingRun()).phases[0].signalled
  {
    SleepingHappens();
    var rs := BothAsleep.table[R].requests;
    forall r | r in rs && r.granted ensures r.txn == 0 {
    }
  }

  lemma SleepingHappens()
    ensures Run(false, SleepingRun()) == BothAsleep
  {
    hide *;
    var b := [Begin, Begin, Begin];
    FirstThree();
    RunTwo(false, b, Lock(0, ForShared, R), Read(0, R));
    StepsOneReads();
    var c := b + [Lock(0, ForShared, R)] + [Read(0, R)];
    RunSnoc(false, c, Lock(1, ForShared, R));
    StepTwoRead();
    RunTwo(false, c + [Lock(1, ForShared, R)], Lock(0, ForExclusive, R), Lock(1, ForUpgrade, R));
    StepOneAsksToo();
    StepBothAsleep();
    SleepingIs(c + [Lock(1, ForShared, R)] + [Lock(0, ForExclusive, R)] + [Lock(1, ForUpgrade, R)]);
  }

  lemma SleepingIs(actions: seq<Action>)
    requires actions == [Begin, Begin, Begin] + [Lock(0, ForShared, R)] + [Read(0, R)] + [Lock(1, ForShared, R)]
                        + [Lock(0, ForExclusive, R)] + [Lock(1, ForUpgrade, R)]
    ensures actions == SleepingRun()
  {
  }

  // ---------- a lock that is never given back ----------

  /** Whoever takes an exclusive lock on a record it holds shared has two requests there; `Unlock`
      drops the first, and the second stays granted after the transaction has forgotten it. */
  function LeakRun(): seq<Action> {
    [Begin, Begin, Begin, Lock(0, ForShared, R), Read(0, R), Lock(0, ForExclusive, R), Unlock(0, R), End(0, true),
      Finish(0)]
  }

  const BothLocks: State :=
    State(map[R := Queue([Request(0, 0, SHARED, true), Request(1, 0, EXCLUSIVE, true)], false)], 2,
          map[0 := Txn(GROWING, {R}, {R}), 1 := Free, 2 := Free], 3, Phases(Idle), map[], [Op(0, R, false, 0)], 2,
            map[0 := 1])

  const OneLeft: State :=
    State(map[R := Queue([Request(1, 0, EXCLUSIVE, true)], false)], 2, map[0 := Gone, 1 := Free, 2 := Free], 3,
      Phases(Idle),
          map[], [Op(0, R, false, 0)], 2, map[0 := 1])

  const Committed: State :=
    State(map[R := Queue([Request(1, 0, EXCLUSIVE, true)], false)], 2,
      map[0 := Txn(COMMITTED, {}, {}), 1 := Free, 2 := Free], 3, Phases(Over),
          map[], [Op(0, R, false, 0)], 2, map[0 := 1])

  lemma StepBothLocks()
    ensures Next(false, OneReads, Lock(0, ForExclusive, R)) == BothLocks
  {
    Sets();
    var rs := [Request(0, 0, SHARED, true), Request(1, 0, EXCLUSIVE, false)];
    assert OneReads.table[R].requests + [Request(1, 0, EXCLUSIVE, false)] == rs;
    assert Grant(rs, 1) == [rs[0], Request(1, 0, EXCLUSIVE, true)];
    SameState(Next(false, OneReads, Lock(0, ForExclusive, R)), BothLocks);
  }

  lemma StepOneLeft()
    ensures Next(false, BothLocks, Unlock(0, R)) == OneLeft
  {
    Sets();
    var rs := BothLocks.table[R].requests;
    assert EraseFirst(rs, 0) == rs[1..];
    assert rs[1..] == OneLeft.table[R].requests;
    SameState(Next(false, BothLocks, Unlock(0, R)), OneLeft);
  }

  lemma StepsCommitted()
    ensures Next(false, Next(false, OneLeft, End(0, true)), Finish(0)) == Committed
  {
    SameState(Next(false, Next(false, OneLeft, End(0, true)), Finish(0)), Committed);
  }

  lemma LeakHappens()
    ensures Run(false, LeakRun()) == Committed
  {
    hide *;
    var b := [Begin, Begin, Begin];
    FirstThree();
    RunTwo(false, b, Lock(0, ForShared, R), Read(0, R));
    StepsOneReads();
    var c := b + [Lock(0, ForShared, R)] + [Read(0, R)];
    RunTwo(false, c, Lock(0, ForExclusive, R), Unlock(0, R));
    StepBothLocks();
    StepOneLeft();
    var d := c + [Lock(0, ForExclusive, R)] + [Unlock(0, R)];
    RunTwo(false, d, End(0, true), Finish(0));
    StepsCommitted();
    LeakIs(d + [End(0, true)] + [Finish(0)]);
  }

  lemma LeakIs(actions: seq<Action>)
    requires actions == [Begin, Begin, Begin] + [Lock(0, ForShared, R)] + [Read(0, R)] + [Lock(0, ForExclusive, R)]
             + [Unlock(0, R)]
                        + [End(0, true)] + [Finish(0)]
    ensures actions == LeakRun()
  {
  }

  /** A granted exclusive request of a transaction that is over; nobody else has the record. */
  ghost predicate Leaked(s: State, rid: RID, n: Request) {
    && n in RequestsAt(s, rid) && n.granted && n.mode == EXCLUSIVE && n.txn in s.phases && n.txn in s.txns
       && s.phases[n.txn].Over?
    && forall t :: t in s.txns && t != n.txn ==> rid !in s.txns[t].shared && rid !in s.txns[t].exclusive
  }

  /** Nobody can remove such a request, and nobody gets past it. */
  lemma LeakStays(keep: bool, s: State, a: Action, rid: RID, n: Request)
    requires Shaped(keep, s) && Leaked(s, rid, n)
    ensures Leaked(Next(keep, s, a), rid, n)
  {
    if Enabled(s, a) {
      assert n.txn in Holders(RequestsAt(s, rid)) && n.txn in XHolders(RequestsAt(s, rid));
      if a.Lock? || a.Wake? {
        LeakBlocks(keep, s, a, rid, n);
      } else if a.Unlock? || a.Release? {
        LeakUnlock(keep, s, a, rid, n);
      } else {
        LeakElse(keep, s, a, rid, n);
      }
    }
    hide Leaked, Shaped, Section, AfterUnlock;
  }

  lemma LeakUnlock(keep: bool, s: State, a: Action, rid: RID, n: Request)
    requires PhasesOk(s) && Leaked(s, rid, n) && Enabled(s, a) && (a.Unlock? || a.Release?)
    ensures Leaked(Next(keep, s, a), rid, n)
  {
    hide Tickets, AfterUnlock, Section, Settle;
    UnlockStep(s, a.t, a.rid);
  }

  lemma LeakElse(keep: bool, s: State, a: Action, rid: RID, n: Request)
    requires PhasesOk(s) && Leaked(s, rid, n) && Enabled(s, a) && TableAlone(a)
    ensures Leaked(Next(keep, s, a), rid, n)
  {
    hide AfterUnlock, Section, Settle;
  }

  lemma LeakBlocks(keep: bool, s: State, a: Action, rid: RID, n: Request)
    requires Shaped(keep, s) && Leaked(s, rid, n) && Enabled(s, a) && (a.Lock? || a.Wake?)
    requires n.txn in Holders(RequestsAt(s, rid)) && n.txn in XHolders(RequestsAt(s, rid))
    ensures Leaked(Next(keep, s, a), rid, n)
  {
    hide Holders, XHolders, Tickets, NodeOf, WaiterOk, Next, NoExclusive, OnlyMine, FlagOk, Shaped;
    var t, kind, r, reply := LockStep(keep, s, a);
  }

  /** The leaked lock is never given back: whatever happens later, the request stays, and no other
      transaction ever gets a lock on that record. */
  lemma {:induction false} LeakedLock(more: seq<Action>)
    ensures Leaked(Run(false, LeakRun() + more), R, Request(1, 0, EXCLUSIVE, true))
    decreases |more|
  {
    var n := Request(1, 0, EXCLUSIVE, true);
    if more == [] {
      LeakHappens();
      assert LeakRun() + more == LeakRun();
      assert Committed.table[R].requests[0] == n;
    } else {
      var before := more[..|more| - 1];
      LeakedLock(before);
      ShapedAlways(false, LeakRun() + before);
      assert LeakRun() + more == LeakRun() + before + [more[|more| - 1]];
      RunSnoc(false, LeakRun() + before, more[|more| - 1]);
      LeakStays(false, Run(false, LeakRun() + before), more[|more| - 1], R, n);
    }
  }
}
