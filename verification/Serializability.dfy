/** Every run is serializable in the order of the transactions' last grants. */
module Serializability {
  import opened Common
  import opened LockTable
  import opened LockRuns
  import opened LockSafety
  import opened LockExclusion

  // ---------- what the operations mean ----------

  function Apply(data: map<RID, int>, op: Op): map<RID, int> {
    if op.isWrite then data[op.rid := op.value] else data
  }

  function Final(ops: seq<Op>): map<RID, int>
    decreases |ops|
  {
    if ops == [] then map[] else Apply(Final(ops[..|ops| - 1]), ops[|ops| - 1])
  }

  /** Every read returns what the operations before it have left. */
  ghost predicate Legal(ops: seq<Op>)
    decreases |ops|
  {
    ops != [] ==>
      && Legal(ops[..|ops| - 1])
      && var op := ops[|ops| - 1]; (!op.isWrite ==> op.value == ValueAt(Final(ops[..|ops| - 1]), op.rid))
  }

  function Only(ops: seq<Op>, t: TxnId): seq<Op>
    decreases |ops|
  {
    if ops == [] then []
    else Only(ops[..|ops| - 1], t) + if ops[|ops| - 1].txn == t then [ops[|ops| - 1]] else []
  }

  ghost predicate Conflict(a: Op, b: Op) {
    a.txn != b.txn && a.rid == b.rid && (a.isWrite || b.isWrite)
  }

  // ---------- the serial order ----------

  function StampOf(stamps: map<TxnId, nat>, t: TxnId): nat {
    if t in stamps then stamps[t] else 0
  }

  /** `op` goes behind everything that is not stamped later. */
  function Place(ops: seq<Op>, op: Op, stamps: map<TxnId, nat>): seq<Op>
    decreases |ops|
  {
    if ops == [] || StampOf(stamps, ops[|ops| - 1].txn) <= StampOf(stamps, op.txn) then ops + [op]
    else Place(ops[..|ops| - 1], op, stamps) + [ops[|ops| - 1]]
  }

  function Serial(ops: seq<Op>, stamps: map<TxnId, nat>): seq<Op>
    decreases |ops|
  {
    if ops == [] then [] else Place(Serial(ops[..|ops| - 1], stamps), ops[|ops| - 1], stamps)
  }

  ghost predicate ByStamp(ops: seq<Op>, stamps: map<TxnId, nat>) {
    forall i, j :: 0 <= i < j < |ops| ==> StampOf(stamps, ops[i].txn) <= StampOf(stamps, ops[j].txn)
  }

  /** Conflicting operations happen in the order of their transactions' stamps. */
  ghost predicate ConflictsOrdered(ops: seq<Op>, stamps: map<TxnId, nat>) {
    forall i, j :: 0 <= i < j < |ops| && Conflict(ops[i], ops[j]) ==>
                   StampOf(stamps, ops[i].txn) < StampOf(stamps, ops[j].txn)
  }

  lemma Snoc(ops: seq<Op>, op: Op)
    ensures (ops + [op])[..|ops|] == ops && (ops + [op])[|ops|] == op
    ensures Final(ops + [op]) == Apply(Final(ops), op)
    ensures Legal(ops + [op]) <==> Legal(ops) && (!op.isWrite ==> op.value == ValueAt(Final(ops), op.rid))
    ensures forall t :: Only(ops + [op], t) == Only(ops, t) + if op.txn == t then [op] else []
  {
    var r := ops + [op];
    assert r[..|r| - 1] == ops;
  }

  /** Two neighbours that do not conflict and belong to different transactions may change places. */
  lemma Swap(ops: seq<Op>, x: Op, y: Op)
    requires Legal(ops + [x] + [y]) && x.txn != y.txn && !Conflict(x, y)
    ensures Legal(ops + [y] + [x]) && Final(ops + [y] + [x]) == Final(ops + [x] + [y])
  {
    Snoc(ops, x);
    Snoc(ops + [x], y);
    Snoc(ops, y);
    Snoc(ops + [y], x);
  }

  lemma {:induction false} PlaceKeeps(ops: seq<Op>, op: Op, stamps: map<TxnId, nat>)
    requires Legal(ops + [op])
    requires forall x :: x in ops && StampOf(stamps, x.txn) > StampOf(stamps, op.txn) ==> !Conflict(x, op)
    ensures Legal(Place(ops, op, stamps)) && Final(Place(ops, op, stamps)) == Final(ops + [op])
    decreases |ops|
  {
    if ops != [] && StampOf(stamps, ops[|ops| - 1].txn) > StampOf(stamps, op.txn) {
      var front, x := ops[..|ops| - 1], ops[|ops| - 1];
      assert ops == front + [x];
      Swap(front, x, op);
      Snoc(front + [op], x);
      PlaceKeeps(front, op, stamps);
      Snoc(Place(front, op, stamps), x);
    }
  }

  lemma {:induction false} PlaceMembers(ops: seq<Op>, op: Op, stamps: map<TxnId, nat>)
    ensures forall x :: x in Place(ops, op, stamps) <==> x in ops || x == op
    ensures forall t :: Only(Place(ops, op, stamps), t) == Only(ops, t) + if op.txn == t then [op] else []
    decreases |ops|
  {
    if ops == [] || StampOf(stamps, ops[|ops| - 1].txn) <= StampOf(stamps, op.txn) {
      Snoc(ops, op);
    } else {
      var front, x := ops[..|ops| - 1], ops[|ops| - 1];
      assert ops == front + [x];
      PlaceMembers(front, op, stamps);
      Snoc(Place(front, op, stamps), x);
      Snoc(front, x);
    }
  }

  lemma {:induction false} PlaceSorts(ops: seq<Op>, op: Op, stamps: map<TxnId, nat>)
    requires ByStamp(ops, stamps)
    ensures ByStamp(Place(ops, op, stamps), stamps)
    decreases |ops|
  {
    if ops != [] && StampOf(stamps, ops[|ops| - 1].txn) > StampOf(stamps, op.txn) {
      var front, x := ops[..|ops| - 1], ops[|ops| - 1];
      var r := Place(front, op, stamps);
      PlaceSorts(front, op, stamps);
      PlaceMembers(front, op, stamps);
      forall i | 0 <= i < |r| ensures StampOf(stamps, r[i].txn) <= StampOf(stamps, x.txn) {
        assert r[i] in r;
        if r[i] in front {
          var j :| 0 <= j < |front| && front[j] == r[i];
          assert ops[j] == front[j];
        }
      }
    }
  }

  /** A legal history whose conflicts respect the stamps is equivalent to the serial one. */
  lemma {:induction false} SerialEquivalent(ops: seq<Op>, stamps: map<TxnId, nat>)
    requires Legal(ops) && ConflictsOrdered(ops, stamps)
    ensures var r := Serial(ops, stamps);
            && ByStamp(r, stamps) && Legal(r) && Final(r) == Final(ops)
            && (forall x :: x in r <==> x in ops) && (forall t :: Only(r, t) == Only(ops, t))
    decreases |ops|
  {
    hide Legal, Final, Only, ByStamp, ConflictsOrdered, Place;
    if ops == [] {
      SerialOfNone(ops, stamps);
    } else {
      var front, op := ops[..|ops| - 1], ops[|ops| - 1];
      assert ops == front + [op];
      Snoc(front, op);
      LaterFits(ops, stamps);
      SerialEquivalent(front, stamps);
      var r := Serial(front, stamps);
      Snoc(r, op);
      PlaceKeeps(r, op, stamps);
      PlaceSorts(r, op, stamps);
      PlaceMembers(r, op, stamps);
      assert forall x :: x in ops <==> x in front || x == op;
    }
  }

  lemma SerialOfNone(ops: seq<Op>, stamps: map<TxnId, nat>)
    requires ops == []
    ensures Serial(ops, stamps) == [] && ByStamp([], stamps) && Legal([])
  {
  }

  /** What is stamped later than the last operation does not conflict with it. */
  lemma LaterFits(ops: seq<Op>, stamps: map<TxnId, nat>)
    requires ops != [] && ConflictsOrdered(ops, stamps)
    ensures var front, op := ops[..|ops| - 1], ops[|ops| - 1];
            && ConflictsOrdered(front, stamps)
            && forall x :: x in front && StampOf(stamps, x.txn) > StampOf(stamps, op.txn) ==> !Conflict(x, op)
  {
    var front, op := ops[..|ops| - 1], ops[|ops| - 1];
    forall x | x in front && StampOf(stamps, x.txn) > StampOf(stamps, op.txn) ensures !Conflict(x, op) {
      var i :| 0 <= i < |front| && front[i] == x;
      assert ops[i] == x;
    }
  }

  // ---------- what the locks guarantee ----------

  ghost predicate MayRead(x: Txn, rid: RID) {
    rid in x.shared || rid in x.exclusive
  }

  /** The access that does not go together with what `op` did. */
  ghost predicate Clashes(x: Txn, op: Op) {
    if op.isWrite then MayRead(x, op.rid) else op.rid in x.exclusive
  }

  /** Whoever did something has a stamp, and while growing still holds the lock for it. */
  ghost predicate LogHeld(s: State) {
    forall op :: op in s.log ==>
      && op.txn in s.txns && op.txn in s.stamps
      && (s.txns[op.txn].state == GROWING ==>
            if op.isWrite then op.rid in s.txns[op.txn].exclusive else MayRead(s.txns[op.txn], op.rid))
  }

  /** `a` is done with acquiring locks and is stamped before `b`. */
  ghost predicate Before(s: State, a: TxnId, b: TxnId) {
    && a in s.txns && a in s.stamps && b in s.stamps
    && s.txns[a].state != GROWING && s.stamps[a] < s.stamps[b]
  }

  /** Whoever holds a lock that clashes with an earlier operation comes later. */
  ghost predicate LogClashes(s: State) {
    forall op, u {:trigger Clashes(s.txns[u], op), op in s.log} ::
      op in s.log && u in s.txns && u != op.txn && Clashes(s.txns[u], op) ==> Before(s, op.txn, u)
  }

  ghost predicate LogOrdered(s: State) {
    forall i, j :: 0 <= i < j < |s.log| && Conflict(s.log[i], s.log[j]) ==> Before(s, s.log[i].txn, s.log[j].txn)
  }

  ghost predicate LogOk(s: State) {
    LogHeld(s) && LogClashes(s) && LogOrdered(s)
  }

  ghost predicate StampsOk(s: State) {
    && (forall t :: t in s.stamps ==> t in s.txns && s.stamps[t] < s.clock)
    && (forall t, u :: t in s.stamps && u in s.stamps && t != u ==> s.stamps[t] != s.stamps[u])
    && (forall t :: t in s.txns && (s.txns[t].shared != {} || s.txns[t].exclusive != {}) ==> t in s.stamps)
  }

  /** `t` got no new lock; if it is still growing, nothing about it changed. */
  ghost predicate Quiet(s: State, s': State, t: TxnId) {
    && s'.log == s.log && s'.stamps == s.stamps && s'.clock == s.clock && s'.txns.Keys == s.txns.Keys && t in s.txns
    && (forall u :: u in s.txns && u != t ==> s'.txns[u] == s.txns[u])
    && s'.txns[t].shared <= s.txns[t].shared && s'.txns[t].exclusive <= s.txns[t].exclusive
    && (s'.txns[t].state == GROWING ==> s'.txns[t] == s.txns[t])
  }

  /** `t` got a lock. */
  ghost predicate Granting(s: State, s': State, t: TxnId) {
    && s'.log == s.log && s'.stamps == s.stamps[t := s.clock] && s'.clock == s.clock + 1 && s'.txns.Keys == s.txns.Keys
       && t in s.txns
    && (forall u :: u in s.txns && u != t ==> s'.txns[u] == s.txns[u])
    && s.txns[t].state == GROWING && s.txns[t].exclusive <= s'.txns[t].exclusive
    && (forall rid :: MayRead(s.txns[t], rid) ==> MayRead(s'.txns[t], rid))
  }

  lemma QuietClashes(s: State, s': State, t: TxnId)
    requires LogClashes(s) && Quiet(s, s', t)
    ensures LogClashes(s')
  {
    hide Exclusive;
    forall op, u | op in s'.log && u in s'.txns && u != op.txn
      && Clashes(s'.txns[u], op) ensures Before(s', op.txn, u) {
      assert Clashes(s.txns[u], op);
      assert Before(s, op.txn, u);
    }
  }

  lemma QuietStep(s: State, s': State, t: TxnId)
    requires LogOk(s) && StampsOk(s) && Quiet(s, s', t)
    ensures LogOk(s') && StampsOk(s')
  {
    assert LogHeld(s') by { hide LogClashes, LogOrdered; }
    assert LogClashes(s') by { QuietClashes(s, s', t); }
    assert LogOrdered(s') by { hide LogHeld, LogClashes; }
  }

  lemma GrantingStep(s: State, s': State, t: TxnId)
    requires LogOk(s) && StampsOk(s) && Granting(s, s', t) && Exclusive(s')
    ensures LogOk(s') && StampsOk(s')
  {
    assert LogHeld(s') by { hide LogClashes, LogOrdered, Exclusive; }
    assert LogClashes(s') by { GrantingClashes(s, s', t); }
    assert LogOrdered(s') by { hide LogHeld, LogClashes, Exclusive; }
  }

  lemma GrantingClashes(s: State, s': State, t: TxnId)
    requires LogHeld(s) && LogClashes(s) && StampsOk(s) && Granting(s, s', t) && Exclusive(s')
    ensures LogClashes(s')
  {
    forall op, u | op in s'.log && u in s'.txns && u != op.txn
      && Clashes(s'.txns[u], op) ensures Before(s', op.txn, u) {
      hide LogHeld, LogClashes, StampsOk, Exclusive;
      if u == t {
        GrantedLater(s, s', t, op);
      } else {
        ClashBefore(s, op, u);
      }
    }
  }

  lemma ClashBefore(s: State, op: Op, u: TxnId)
    requires LogClashes(s) && op in s.log && u in s.txns && u != op.txn && Clashes(s.txns[u], op)
    ensures Before(s, op.txn, u)
  {
  }

  /** Who did something that clashes with the new lock is done with acquiring locks. */
  lemma GrantedLater(s: State, s': State, t: TxnId, op: Op)
    requires LogHeld(s) && StampsOk(s) && Granting(s, s', t) && Exclusive(s') && op in s.log && op.txn != t
             && Clashes(s'.txns[t], op)
    ensures Before(s', op.txn, t)
  {
    assert s'.txns[op.txn] == s.txns[op.txn];
  }

  /** A read or a write under a lock. */
  lemma AccessStep(s: State, s': State, op: Op)
    requires LogOk(s) && StampsOk(s) && Exclusive(s) && op.txn in s.txns
             && s' == s.(log := s.log + [op], data := s'.data)
    requires if op.isWrite then op.rid in s.txns[op.txn].exclusive else MayRead(s.txns[op.txn], op.rid)
    ensures LogOk(s') && StampsOk(s')
  {
    assert forall x :: x in s'.log <==> x in s.log || x == op;
    assert LogHeld(s') by { hide LogClashes, LogOrdered, Exclusive; }
    assert LogClashes(s') by {
      hide LogHeld, LogOrdered;
      forall x, u | x in s'.log && u in s'.txns && u != x.txn && Clashes(s'.txns[u], x) ensures Before(s', x.txn, u) {
        assert x in s.log;
        assert Before(s, x.txn, u);
      }
    }
    assert LogOrdered(s') by { AccessOrdered(s, s', op); }
  }

  lemma AccessOrdered(s: State, s': State, op: Op)
    requires LogClashes(s) && LogOrdered(s) && op.txn in s.txns && s' == s.(log := s.log + [op], data := s'.data)
    requires if op.isWrite then op.rid in s.txns[op.txn].exclusive else MayRead(s.txns[op.txn], op.rid)
    ensures LogOrdered(s')
  {
    forall i, j | 0 <= i < j < |s'.log|
      && Conflict(s'.log[i], s'.log[j]) ensures Before(s', s'.log[i].txn, s'.log[j].txn) {
      if j == |s.log| {
        assert s'.log[i] in s.log && Clashes(s.txns[op.txn], s.log[i]);
        assert Before(s, s.log[i].txn, op.txn);
      } else {
        assert Before(s, s.log[i].txn, s.log[j].txn);
      }
    }
  }

  lemma LogOkNext(keep: bool, s: State, a: Action)
    requires Shaped(keep, s) && LogOk(s) && StampsOk(s) && Exclusive(s) && Exclusive(Next(keep, s, a))
    ensures LogOk(Next(keep, s, a)) && StampsOk(Next(keep, s, a))
  {
    hide LogOk, StampsOk, Exclusive, AfterUnlock;
    if Enabled(s, a) {
      if a.Lock? || a.Wake? {
        LockIsQuietOrGranting(keep, s, a);
        if Quiet(s, Next(keep, s, a), a.t) { QuietStep(s, Next(keep, s, a), a.t); }
          else { GrantingStep(s, Next(keep, s, a), a.t); }
      } else if a.Read? {
        AccessStep(s, Next(keep, s, a), Op(a.t, a.rid, false, ValueAt(s.data, a.rid)));
      } else if a.Write? {
        AccessStep(s, Next(keep, s, a), Op(a.t, a.rid, true, a.value));
      } else if a.Begin? {
        BeginStep(keep, s);
      } else {
        if a.Unlock? || a.Release? { UnlockStep(s, a.t, a.rid); }
        QuietStep(s, Next(keep, s, a), a.t);
      }
    }
  }

  lemma BeginStep(keep: bool, s: State)
    requires Shaped(keep, s) && LogOk(s) && StampsOk(s)
    ensures LogOk(Next(keep, s, Begin)) && StampsOk(Next(keep, s, Begin))
  {
    var s' := Next(keep, s, Begin);
    assert s'.log == s.log && s'.stamps == s.stamps && s'.clock == s.clock && s.nextTxn !in s.txns;
    assert s'.txns == s.txns[s.nextTxn := Txn(GROWING, {}, {})];
    hide Next, Shaped;
    NewcomerStep(s, s', s.nextTxn);
  }

  /** A transaction without locks joins. */
  lemma NewcomerStep(s: State, s': State, t: TxnId)
    requires LogOk(s) && StampsOk(s) && t !in s.txns && s'.txns == s.txns[t := Txn(GROWING, {}, {})]
    requires s'.log == s.log && s'.stamps == s.stamps && s'.clock == s.clock
    ensures LogOk(s') && StampsOk(s')
  {
    assert LogClashes(s') by {
      hide LogHeld, LogOrdered;
      forall op, u | op in s'.log && u in s'.txns && u != op.txn
        && Clashes(s'.txns[u], op) ensures Before(s', op.txn, u) {
        ClashBefore(s, op, u);
      }
    }
    assert LogHeld(s') by { hide LogClashes, LogOrdered; }
    assert LogOrdered(s') by { hide LogHeld, LogClashes; }
  }

  lemma LockIsQuietOrGranting(keep: bool, s: State, a: Action)
    requires Shaped(keep, s) && Enabled(s, a) && (a.Lock? || a.Wake?)
    ensures Quiet(s, Next(keep, s, a), a.t) || Granting(s, Next(keep, s, a), a.t)
  {
    hide Holders, XHolders, Tickets, NodeOf, WaiterOk, Next, OthersSame, NoExclusive, OnlyMine, FlagOk, Took, Queued;
    var t, kind, rid, reply := LockStep(keep, s, a);
  }

  /** Everything of a run that serializability rests on. */
  ghost predicate RunOk(s: State) {
    LogOk(s) && StampsOk(s) && Legal(s.log) && Final(s.log) == s.data
  }

  lemma {:induction false} RunOkAlways(keep: bool, actions: seq<Action>)
    requires keep || NeverOverPending(keep, actions)
    ensures RunOk(Run(keep, actions))
    decreases |actions|
  {
    hide LogOk, StampsOk, Enabled;
    if actions == [] {
      assert LogOk(Start) && StampsOk(Start) by { StartOk(); }
    } else {
      var before, a := Run(keep, actions[..|actions| - 1]), actions[|actions| - 1];
      RunOkAlways(keep, actions[..|actions| - 1]);
      ShapedAlways(keep, actions[..|actions| - 1]);
      MutualExclusion(keep, actions[..|actions| - 1]);
      MutualExclusion(keep, actions);
      LogOkNext(keep, before, a);
      LegalNext(keep, before, a);
    }
  }

  lemma StartOk()
    ensures LogOk(Start) && StampsOk(Start)
  {
  }

  lemma LegalNext(keep: bool, s: State, a: Action)
    requires Shaped(keep, s) && Legal(s.log) && Final(s.log) == s.data
    ensures Legal(Next(keep, s, a).log) && Final(Next(keep, s, a).log) == Next(keep, s, a).data
  {
    hide LockShared, LockExclusive, LockUpgrade, ResumeShared, ResumeExclusive, ResumeUpgrade, Legal, Final;
    if Enabled(s, a) {
      if a.Read? {
        Snoc(s.log, Op(a.t, a.rid, false, ValueAt(s.data, a.rid)));
      } else if a.Write? {
        Snoc(s.log, Op(a.t, a.rid, true, a.value));
      }
    }
  }

  /** Every run, with all its reads, writes and waits, is equivalent to the serial execution of its
      transactions in the order of their last grants: each transaction does the same operations, every
      read returns the same value, and the data ends up the same. It holds for all runs once the
      upgrader keeps its grant, and as written for all runs without an exclusive grant over a pending
      upgrade. */
  lemma Serializable(keep: bool, actions: seq<Action>)
    requires keep || NeverOverPending(keep, actions)
    ensures var s := Run(keep, actions);
            var serial := Serial(s.log, s.stamps);
            && Legal(serial) && Final(serial) == s.data
            && (forall t :: Only(serial, t) == Only(s.log, t))
            && ByStamp(serial, s.stamps)
            && (forall op :: op in s.log ==> op.txn in s.stamps)
            && (forall t, u :: t in s.stamps && u in s.stamps && t != u ==> s.stamps[t] != s.stamps[u])
  {
    RunOkAlways(keep, actions);
    var s := Run(keep, actions);
    forall i, j | 0 <= i < j < |s.log| && Conflict(s.log[i], s.log[j])
      ensures StampOf(s.stamps, s.log[i].txn) < StampOf(s.stamps, s.log[j].txn)
    {
      assert s.log[i] in s.log && s.log[j] in s.log;
    }
    SerialEquivalent(s.log, s.stamps);
  }
}
