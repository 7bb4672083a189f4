/** All interleavings of the critical sections: transactions begin, call, wait, wake up, read,
    write, commit and abort in any order. The invariants here hold after every step of every run. */
module LockRuns {
  import opened Common
  import opened LockTable

  datatype Kind = ForShared | ForExclusive | ForUpgrade

  /** Where a transaction's thread is: between calls, blocked in one, or releasing its locks. */
  datatype Phase =
    | Idle
    | Waiting(kind: Kind, rid: RID, ticket: nat, signalled: bool)
    | Ending(shared: set<RID>, exclusive: set<RID>)
    | Over

  datatype Op = Op(txn: TxnId, rid: RID, isWrite: bool, value: int)

  /** The lock manager and the transactions; then the data, what was done to it so far,
      and when each transaction was last granted a lock. */
  datatype State = State(
    table: Table, next: nat, txns: map<TxnId, Txn>, nextTxn: nat, phases: map<TxnId, Phase>,
    data: map<RID, int>, log: seq<Op>, clock: nat, stamps: map<TxnId, nat>)

  datatype Action =
    | Begin
    | Lock(t: TxnId, kind: Kind, rid: RID)
    | Wake(t: TxnId)
    | Unlock(t: TxnId, rid: RID)
    | End(t: TxnId, commit: bool)
    | Release(t: TxnId, rid: RID)
    | Finish(t: TxnId)
    | Read(t: TxnId, rid: RID)
    | Write(t: TxnId, rid: RID, value: int)

  function ValueAt(data: map<RID, int>, rid: RID): int {
    if rid in data then data[rid] else 0
  }

  const Start: State := State(map[], 0, map[], 0, map[], map[], [], 0, map[])

  predicate Ready(s: State, t: TxnId) {
    t in s.txns && t in s.phases && s.phases[t] == Idle
  }

  /** One outstanding call per transaction, no call after the end, data only under a lock. */
  predicate Enabled(s: State, a: Action) {
    match a
    case Begin => true
    case Lock(t, _, _) => Ready(s, t)
    case Wake(t) => t in s.txns && t in s.phases && s.phases[t].Waiting?
    case Unlock(t, _) => Ready(s, t)
    case End(t, _) => Ready(s, t)
    case Release(t, rid) =>
      t in s.txns && t in s.phases && s.phases[t].Ending? &&
      (rid in s.phases[t].shared || (s.phases[t].shared == {} && rid in s.phases[t].exclusive))
    case Finish(t) => t in s.txns && t in s.phases && s.phases[t] == Ending({}, {})
    case Read(t, rid) => Ready(s, t) && (rid in s.txns[t].shared || rid in s.txns[t].exclusive)
    case Write(t, rid, _) => Ready(s, t) && rid in s.txns[t].exclusive
  }

  function LocalOf(s: State, t: TxnId): Local
    requires t in s.txns
  {
    Local(s.table, s.next, s.txns[t])
  }

  /** The section an action runs, with what its caller waits for if it does not return. */
  function Section(keep: bool, s: State, t: TxnId, a: Action): (Local, Reply)
    requires t in s.txns && Enabled(s, a) && (a.Lock? || a.Wake?) && a.t == t
  {
    var l := LocalOf(s, t);
    if a.Lock? then
      match a.kind
      case ForShared => LockShared(l, t, a.rid)
      case ForExclusive => LockExclusive(l, t, a.rid)
      case ForUpgrade => LockUpgrade(l, t, a.rid, keep)
    else
      var p := s.phases[t];
      match p.kind
      case ForShared => ResumeShared(l, t, p.rid, p.ticket)
      case ForExclusive => ResumeExclusive(l, t, p.rid, p.ticket)
      case ForUpgrade => ResumeUpgrade(l, t, p.rid, p.ticket)
  }

  function KindOf(s: State, a: Action): Kind
    requires Enabled(s, a) && (a.Lock? || a.Wake?)
  {
    if a.Lock? then a.kind else s.phases[a.t].kind
  }

  function RidOf(s: State, a: Action): RID
    requires Enabled(s, a) && (a.Lock? || a.Wake?)
  {
    if a.Lock? then a.rid else s.phases[a.t].rid
  }

  function Settle(s: State, t: TxnId, kind: Kind, rid: RID, l: Local, reply: Reply): State {
    s.(table := l.table, next := l.next, txns := s.txns[t := l.txn],
       phases := s.phases[t := if reply.Waits? then Waiting(kind, rid, reply.ticket, false) else Idle],
       clock := if reply.Granted? then s.clock + 1 else s.clock,
       stamps := if reply.Granted? then s.stamps[t := s.clock] else s.stamps)
  }

  /** `notify_all` on the queue of `rid`. */
  function Notify(phases: map<TxnId, Phase>, rid: RID): (r: map<TxnId, Phase>)
    ensures r.Keys == phases.Keys
  {
    map t | t in phases ::
      if phases[t].Waiting? && phases[t].rid == rid then phases[t].(signalled := true) else phases[t]
  }

  function AfterUnlock(s: State, t: TxnId, rid: RID): State
    requires t in s.txns
  {
    var l := LockTable.Unlock(LocalOf(s, t), t, rid);
    s.(table := l.table, txns := s.txns[t := l.txn], phases := Notify(s.phases, rid))
  }

  function Next(keep: bool, s: State, a: Action): State {
    if !Enabled(s, a) then s
    else
      match a
      case Begin =>
        s.(txns := s.txns[s.nextTxn := Txn(GROWING, {}, {})], phases := s.phases[s.nextTxn := Idle],
          nextTxn := s.nextTxn + 1)
      case Lock(t, kind, rid) =>
        var (l, reply) := Section(keep, s, t, a);
        Settle(s, t, kind, rid, l, reply)
      case Wake(t) =>
        var (l, reply) := Section(keep, s, t, a);
        Settle(s, t, s.phases[t].kind, s.phases[t].rid, l, reply)
      case Unlock(t, rid) => AfterUnlock(s, t, rid)
      case End(t, commit) =>
        var x := s.txns[t];
        s.(txns := s.txns[t := x.(state := if commit then COMMITTED else ABORTED)],
           phases := s.phases[t := Ending(x.shared, x.exclusive)])
      case Release(t, rid) =>
        var p := s.phases[t];
        var s1 := AfterUnlock(s, t, rid);
        s1.(phases := s1.phases[t := if rid in p.shared then p.(shared := p.shared - {rid})
          else p.(exclusive := p.exclusive - {rid})])
      case Finish(t) =>
        s.(txns := s.txns[t := s.txns[t].(shared := {}, exclusive := {})], phases := s.phases[t := Over])
      case Read(t, rid) => s.(log := s.log + [Op(t, rid, false, ValueAt(s.data, rid))])
      case Write(t, rid, v) => s.(log := s.log + [Op(t, rid, true, v)], data := s.data[rid := v])
  }

  function Run(keep: bool, actions: seq<Action>): State
    decreases |actions|
  {
    if actions == [] then Start else Next(keep, Run(keep, actions[..|actions| - 1]), actions[|actions| - 1])
  }

  lemma RunSnoc(keep: bool, actions: seq<Action>, a: Action)
    ensures Run(keep, actions + [a]) == Next(keep, Run(keep, actions), a)
  {
    var all := actions + [a];
    assert all[..|all| - 1] == actions;
  }

  // ---------- who holds what ----------

  ghost function Holders(rs: seq<Request>): set<TxnId> {
    set r | r in rs && r.granted :: r.txn
  }

  ghost function XHolders(rs: seq<Request>): set<TxnId> {
    set r | r in rs && r.granted && r.mode == EXCLUSIVE :: r.txn
  }

  ghost predicate Upgrading(s: State, t: TxnId, rid: RID) {
    t in s.phases && s.phases[t].Waiting? && s.phases[t].kind == ForUpgrade && s.phases[t].rid == rid
  }

  function RequestsAt(s: State, rid: RID): seq<Request> {
    QueueAt(s.table, rid).requests
  }

  // ---------- what the queues look like ----------

  /** The node a blocked call waits at. */
  ghost predicate NodeOf(keep: bool, p: Phase, t: TxnId, r: Request) {
    && p.Waiting? && r.ticket == p.ticket && r.txn == t
    && match p.kind
       case ForShared => r.mode == SHARED && !r.granted
       case ForExclusive => r.mode == EXCLUSIVE && !r.granted
       case ForUpgrade => r.mode == EXCLUSIVE && r.granted == keep
  }

  /** A waiting transaction is growing, its iterator is not dangling, and its node looks as it left it. */
  ghost predicate WaiterOk(keep: bool, s: State, t: TxnId) {
    t in s.txns && t in s.phases && s.phases[t].Waiting? ==>
      && s.txns[t].state == GROWING
      && exists r {:trigger NodeOf(keep, s.phases[t], t, r)} ::
         r in RequestsAt(s, s.phases[t].rid) && NodeOf(keep, s.phases[t], t, r)
  }

  ghost predicate Tickets(rs: seq<Request>, next: nat) {
    && (forall i :: 0 <= i < |rs| ==> rs[i].ticket < next)
    && (forall i, j :: 0 <= i < j < |rs| ==> rs[i].ticket != rs[j].ticket)
  }

  /** `upgrading_` is set exactly while somebody waits for an upgrade, and then it is one transaction. */
  ghost predicate FlagOk(s: State, rid: RID) {
    && (QueueAt(s.table, rid).upgrading <==> exists t :: Upgrading(s, t, rid))
    && (forall t, u :: Upgrading(s, t, rid) && Upgrading(s, u, rid) ==> t == u)
  }

  /** Who is where, and in which state. */
  ghost predicate PhasesOk(s: State) {
    && s.phases.Keys == s.txns.Keys
    && (forall t :: t in s.txns ==> t < s.nextTxn)
    && (forall t :: t in s.txns && (s.phases[t].Ending? || s.phases[t].Over?) ==> s.txns[t].state != GROWING)
    && (forall t :: t in s.txns && s.phases[t].Idle? ==> s.txns[t].state != COMMITTED)
  }

  ghost predicate Shaped(keep: bool, s: State) {
    && PhasesOk(s)
    && (forall t {:trigger WaiterOk(keep, s, t)} :: t in s.txns ==> WaiterOk(keep, s, t))
    && (forall rid {:trigger RequestsAt(s, rid)} :: Tickets(RequestsAt(s, rid), s.next))
    && (forall rid, r {:trigger r in RequestsAt(s, rid)} :: r in RequestsAt(s, rid) ==> r.txn in s.txns)
    && (forall rid {:trigger FlagOk(s, rid)} :: FlagOk(s, rid))
  }

  // ---------- list facts ----------

  lemma EraseMembers(rs: seq<Request>, id: TxnId)
    ensures forall r: Request :: r.txn != id ==> (r in EraseFirst(rs, id) <==> r in rs)
    ensures forall r :: r in EraseFirst(rs, id) ==> r in rs
    ensures forall next :: Tickets(rs, next) ==> Tickets(EraseFirst(rs, id), next)
  {
    var i := EraseFacts(rs, id);
    hide EraseFirst;
    if i < |rs| {
      CutOne(rs, i);
      CutTickets(rs, i);
    }
  }

  lemma CutOne(rs: seq<Request>, i: nat)
    requires i < |rs|
    ensures forall r :: r in rs <==> r in rs[..i] + rs[i + 1..] || r == rs[i]
  {
    assert rs == rs[..i] + [rs[i]] + rs[i + 1..];
  }

  lemma CutTickets(rs: seq<Request>, i: nat)
    requires i < |rs|
    ensures forall next :: Tickets(rs, next) ==> Tickets(rs[..i] + rs[i + 1..], next)
  {
    var rs' := rs[..i] + rs[i + 1..];
    assert forall j :: 0 <= j < |rs'| ==> rs'[j] == rs[if j < i then j else j + 1];
  }

  lemma GrantMembers(rs: seq<Request>, k: nat)
    ensures forall r: Request :: r.ticket != k ==> (r in Grant(rs, k) <==> r in rs)
    ensures forall r :: r in rs && r.ticket == k ==> r.(granted := true) in Grant(rs, k)
    ensures forall r :: r in Grant(rs, k) && r.ticket == k ==> r.granted && (r in rs || r.(granted := false) in rs)
    ensures forall next :: Tickets(rs, next) ==> Tickets(Grant(rs, k), next)
  {
    hide Grant;
    GrantTickets(rs, k);
    hide Tickets;
    var g := Grant(rs, k);
    forall r | r in rs ensures (if r.ticket == k then r.(granted := true) else r) in g {
      var j :| 0 <= j < |rs| && rs[j] == r;
      assert g[j] == if r.ticket == k then r.(granted := true) else r;
    }
    forall r | r in g ensures if r.ticket == k then r.granted && (r in rs || r.(granted := false) in rs) else r in rs {
      var j :| 0 <= j < |rs| && g[j] == r;
      assert rs[j] in rs;
    }
  }

  lemma GrantTickets(rs: seq<Request>, k: nat)
    ensures forall next :: Tickets(rs, next) ==> Tickets(Grant(rs, k), next)
  {
    hide Grant;
    assert forall j :: 0 <= j < |rs| ==> Grant(rs, k)[j].ticket == rs[j].ticket;
  }

  lemma SameTicket(rs: seq<Request>, next: nat, a: Request, b: Request)
    requires Tickets(rs, next) && a in rs && b in rs && a.ticket == b.ticket
    ensures a == b
  {
    var i :| 0 <= i < |rs| && rs[i] == a;
    var j :| 0 <= j < |rs| && rs[j] == b;
  }
}
