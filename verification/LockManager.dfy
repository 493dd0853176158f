/** The PostgreSQL lock manager as admission transactions meet it: every lock is exclusive
    among them, a try never queues, a patient request joins a FIFO queue, and locks are held
    to the end of the transaction. Runs are sequences of actions, in any interleaving. */
module LockManager {
  type TxId = nat

  /** An advisory lock is identified by its hashed key; a row lock by its table's rank and the
      position of its primary key in the database's key order. */
  datatype Resource = NodeKey(hash: int) | Row(table: nat, pk: int)

  datatype Mode = Try | Patient

  /** `Refused` is an `AdmissionLockBusy` that has been raised and not yet rolled back. */
  datatype Status = Running | Waiting | Refused | Committed | RolledBack

  /** `locks` is the sequence the transaction asks for; the first `taken` were granted. */
  datatype Tx = Tx(mode: Mode, locks: seq<Resource>, taken: nat, status: Status, held: set<Resource>) {
    predicate Unfinished() { status.Running? || status.Waiting? || status.Refused? }
    predicate Wants() { taken < |locks| }
    function Wanted(): Resource requires Wants() { locks[taken] }
    function Granted(): Tx requires Wants() {
      Tx(mode, locks, taken + 1, Running, held + {locks[taken]})
    }
    function Ended(end: Status): Tx { this.(status := end, held := {}) }
  }

  datatype State = State(txs: map<TxId, Tx>, queues: map<Resource, seq<TxId>>) {
    function Queue(r: Resource): seq<TxId> { if r in queues then queues[r] else [] }
    predicate FreeFor(t: TxId, r: Resource) {
      forall u :: u in txs && u != t ==> r !in txs[u].held
    }
    predicate IsWaiting(t: TxId) { t in txs && txs[t].status.Waiting? && txs[t].Wants() }
    function Set(t: TxId, tx: Tx): State { State(txs[t := tx], queues) }
    function SetQueue(r: Resource, q: seq<TxId>): State { State(txs, queues[r := q]) }
  }

  /** `Take` executes the next lock statement; `Grant` wakes the head of a free lock's queue;
      `Expire` is the patient lock timeout; `Unwind` is a savepoint's end, which frees the locks the
      refused statement took. */
  datatype Action =
    | Take(t: TxId) | Grant(t: TxId) | Expire(t: TxId) | Unwind(t: TxId, n: nat) | Commit(t: TxId) | Rollback(t: TxId)

  predicate Enabled(s: State, a: Action) {
    a.t in s.txs &&
    var tx := s.txs[a.t];
    match a
    case Take(_) => tx.status.Running? && tx.Wants()
    case Grant(t) =>
      s.IsWaiting(t) && s.FreeFor(t, tx.Wanted()) && s.Queue(tx.Wanted()) != [] && s.Queue(tx.Wanted())[0] == t
    case Expire(t) => s.IsWaiting(t)
    case Unwind(_, n) => tx.status.Refused? && n < tx.taken <= |tx.locks|
    case Commit(_) => tx.status.Running? && !tx.Wants()
    case Rollback(_) => tx.status.Running? || tx.status.Refused?
  }

  function Without(q: seq<TxId>, t: TxId): seq<TxId> {
    if q == [] then [] else (if q[0] == t then [] else [q[0]]) + Without(q[1..], t)
  }

  function Apply(s: State, a: Action): State
    requires Enabled(s, a)
  {
    var tx := s.txs[a.t];
    match a
    case Take(t) =>
      var r := tx.Wanted();
      if r in tx.held || (s.FreeFor(t, r) && s.Queue(r) == []) then s.Set(t, tx.Granted())
      else if tx.mode.Try? then s.Set(t, tx.(status := Refused))
      else s.Set(t, tx.(status := Waiting)).SetQueue(r, s.Queue(r) + [t])
    case Grant(t) => s.Set(t, tx.Granted()).SetQueue(tx.Wanted(), s.Queue(tx.Wanted())[1..])
    case Expire(t) =>
      s.Set(t, tx.(status := Refused)).SetQueue(tx.Wanted(), Without(s.Queue(tx.Wanted()), t))
    case Unwind(t, n) => s.Set(t, tx.(taken := n, held := set r | r in tx.locks[..n]))
    case Commit(t) => s.Set(t, tx.Ended(Committed))
    case Rollback(t) => s.Set(t, tx.Ended(RolledBack))
  }

  predicate Allowed(s: State, acts: seq<Action>)
    decreases |acts|
  {
    acts == [] || (Enabled(s, acts[0]) && Allowed(Apply(s, acts[0]), acts[1..]))
  }

  function Run(s: State, acts: seq<Action>): State
    requires Allowed(s, acts)
    decreases |acts|
  {
    if acts == [] then s else Run(Apply(s, acts[0]), acts[1..])
  }

  function Begin(mode: Mode, locks: seq<Resource>): Tx { Tx(mode, locks, 0, Running, {}) }

  /** Any finite set of transactions, each with any mode and any lock sequence. */
  predicate Init(s: State) {
    s.queues == map[] && forall t :: t in s.txs ==> s.txs[t] == Begin(s.txs[t].mode, s.txs[t].locks)
  }

  // ---- What every step keeps ----

  predicate TxOk(tx: Tx) {
    && tx.taken <= |tx.locks|
    && tx.held == (if tx.Unfinished() then set r | r in tx.locks[..tx.taken] else {})
    && (tx.status.Waiting? ==> tx.mode.Patient? && tx.Wants() && tx.Wanted() !in tx.held)
    && (tx.status.Committed? ==> tx.taken == |tx.locks|)
  }

  predicate Distinct(q: seq<TxId>) { forall i, j :: 0 <= i < j < |q| ==> q[i] != q[j] }

  ghost predicate QueueOk(s: State, r: Resource) {
    Distinct(s.Queue(r)) &&
    forall u :: u in s.Queue(r) <==> s.IsWaiting(u) && s.txs[u].Wanted() == r
  }

  ghost predicate Exclusive(s: State) {
    forall t, u :: t in s.txs && u in s.txs && t != u ==> s.txs[t].held !! s.txs[u].held
  }

  /** Exclusion; held locks are exactly the granted prefix until the end; the queue of a lock
      is exactly the transactions waiting for it, once each. */
  ghost predicate Inv(s: State) {
    && (forall t :: t in s.txs ==> TxOk(s.txs[t]))
    && (forall r :: QueueOk(s, r))
    && Exclusive(s)
  }

  lemma {:induction false} WithoutKeeps(q: seq<TxId>, t: TxId)
    requires Distinct(q)
    ensures Distinct(Without(q, t))
    ensures forall u :: u in Without(q, t) <==> u in q && u != t
  {
    if q != [] {
      WithoutKeeps(q[1..], t);
      assert q == [q[0]] + q[1..];
      var rest := Without(q[1..], t);
      forall k | 0 <= k < |rest| ensures rest[k] != q[0] { assert rest[k] in q[1..]; }
    }
  }

  lemma GrantedOk(tx: Tx)
    requires TxOk(tx) && tx.Wants() && tx.Unfinished()
    ensures TxOk(tx.Granted())
  {
    assert tx.locks[..tx.taken + 1] == tx.locks[..tx.taken] + [tx.Wanted()];
  }

  lemma GrantStep(s: State, t: TxId)
    requires Inv(s) && Enabled(s, Grant(t))
    ensures Inv(Apply(s, Grant(t)))
  {
    var s' := Apply(s, Grant(t));
    GrantedOk(s.txs[t]);
    var r := s.txs[t].Wanted();
    assert QueueOk(s, r);
    forall q ensures QueueOk(s', q) {
      assert QueueOk(s, q);
      if q == r {
        var was := s.Queue(r);
        assert was == [t] + was[1..];
        assert forall u :: u in was <==> u == t || u in was[1..];
      }
    }
  }

  /** A transaction that begins to wait joins one queue and no other. */
  lemma JoinQueues(s: State, t: TxId, tx: Tx)
    requires t in s.txs && !s.txs[t].status.Waiting? && tx.status.Waiting? && tx.Wants()
    requires forall r :: QueueOk(s, r)
    ensures forall r :: QueueOk(s.Set(t, tx).SetQueue(tx.Wanted(), s.Queue(tx.Wanted()) + [t]), r)
  {
    var was := s.Queue(tx.Wanted());
    var s' := s.Set(t, tx).SetQueue(tx.Wanted(), was + [t]);
    assert QueueOk(s, tx.Wanted()) && t !in was;
    forall q ensures QueueOk(s', q) {
      assert QueueOk(s, q) && s'.Queue(q) == if q == tx.Wanted() then was + [t] else s.Queue(q);
    }
  }

  lemma JoinStep(s: State, t: TxId)
    requires Inv(s) && Enabled(s, Take(t)) && Apply(s, Take(t)).txs[t].status.Waiting?
    ensures Inv(Apply(s, Take(t)))
  {
    var tx := s.txs[t];
    JoinQueues(s, t, tx.(status := Waiting));
    var s' := Apply(s, Take(t));
    assert s' == s.Set(t, tx.(status := Waiting)).SetQueue(tx.Wanted(), s.Queue(tx.Wanted()) + [t]);
    assert TxOk(s'.txs[t]) && Exclusive(s');
  }

  lemma ExpireStep(s: State, t: TxId)
    requires Inv(s) && Enabled(s, Expire(t))
    ensures Inv(Apply(s, Expire(t)))
  {
    var s', r := Apply(s, Expire(t)), s.txs[t].Wanted();
    assert QueueOk(s, r);
    WithoutKeeps(s.Queue(r), t);
    forall q ensures QueueOk(s', q) { assert QueueOk(s, q); }
  }

  /** A change of one transaction that neither was nor becomes a waiter leaves the queues right. */
  lemma QueuesUntouched(s: State, t: TxId, tx: Tx)
    requires t in s.txs && !s.txs[t].status.Waiting? && !tx.status.Waiting?
    requires forall r :: QueueOk(s, r)
    ensures forall r :: QueueOk(s.Set(t, tx), r)
  {
    forall q ensures QueueOk(s.Set(t, tx), q) {
      assert QueueOk(s, q) && s.Set(t, tx).Queue(q) == s.Queue(q);
    }
  }

  /** A step that touches one transaction and no queue. */
  lemma LocalStep(s: State, a: Action)
    requires Inv(s) && Enabled(s, a) && !a.Grant? && !a.Expire?
    requires !Apply(s, a).txs[a.t].status.Waiting?
    ensures Inv(Apply(s, a))
  {
    var tx := Apply(s, a).txs[a.t];
    assert Apply(s, a) == s.Set(a.t, tx);
    assert TxOk(tx) by { if a.Take? { GrantedOk(s.txs[a.t]); } }
    assert a.Unwind? ==> tx.held <= s.txs[a.t].held;
    QueuesUntouched(s, a.t, tx);
    assert Exclusive(s.Set(a.t, tx));
  }

  lemma StepKeeps(s: State, a: Action)
    requires Inv(s) && Enabled(s, a)
    ensures Inv(Apply(s, a))
  {
    if a.Grant? {
      GrantStep(s, a.t);
    } else if a.Expire? {
      ExpireStep(s, a.t);
    } else if Apply(s, a).txs[a.t].status.Waiting? {
      JoinStep(s, a.t);
    } else {
      LocalStep(s, a);
    }
  }

  /** The same transactions, with the programs they began with. */
  predicate SamePrograms(s: State, e: State) {
    s.txs.Keys == e.txs.Keys &&
    forall t :: t in s.txs ==> e.txs[t].locks == s.txs[t].locks && e.txs[t].mode == s.txs[t].mode
  }

  lemma StepSame(s: State, a: Action)
    requires Enabled(s, a)
    ensures SamePrograms(s, Apply(s, a))
  {
  }

  lemma {:induction false} RunKeeps(s: State, acts: seq<Action>)
    requires Inv(s) && Allowed(s, acts)
    ensures Inv(Run(s, acts)) && SamePrograms(s, Run(s, acts))
    decreases |acts|
  {
    if acts != [] {
      var next := Apply(s, acts[0]);
      assert Inv(next) by { StepKeeps(s, acts[0]); }
      assert SamePrograms(s, next) by { StepSame(s, acts[0]); }
      RunKeeps(next, acts[1..]);
    }
  }

  lemma InitInv(s: State)
    requires Init(s)
    ensures Inv(s)
  {
    forall r ensures QueueOk(s, r) { }
  }

  /** Exclusion with all-or-nothing return, in every run: no two open transactions hold one
      lock; what a transaction holds is exactly a prefix of its requests, also after a refusal,
      until commit or rollback frees it; and a commit saw every request granted. */
  lemma ExclusionAndPrefix(s: State, acts: seq<Action>)
    requires Init(s) && Allowed(s, acts)
    ensures var e := Run(s, acts);
      && (forall t, u :: t in e.txs && u in e.txs && t != u ==> e.txs[t].held !! e.txs[u].held)
      && SamePrograms(s, e)
      && (forall t :: t in e.txs && e.txs[t].Unfinished() ==>
            e.txs[t].taken <= |e.txs[t].locks| && e.txs[t].held == set r | r in e.txs[t].locks[..e.txs[t].taken])
      && (forall t :: t in e.txs && !e.txs[t].Unfinished() ==> e.txs[t].held == {})
      && (forall t :: t in e.txs && e.txs[t].status.Committed? ==> e.txs[t].taken == |e.txs[t].locks|)
  {
    InitInv(s);
    RunKeeps(s, acts);
  }

  // ---- What each step does ----

  /** Another transaction holds the lock or waits for it. */
  ghost predicate Contended(s: State, t: TxId, r: Resource) {
    exists u :: u in s.txs && u != t && (r in s.txs[u].held || (s.IsWaiting(u) && s.txs[u].Wanted() == r))
  }

  /** A take is granted exactly when the transaction has the lock already, or nobody else holds it or
      waits for it; otherwise a try is refused and a patient transaction waits. */
  lemma TakeIs(s: State, t: TxId)
    requires Inv(s) && Enabled(s, Take(t))
    ensures var tx, now := s.txs[t], Apply(s, Take(t)).txs[t];
      if tx.Wanted() in tx.held || !Contended(s, t, tx.Wanted())
      then now.status.Running? && now.taken == tx.taken + 1 && now.held == tx.held + {tx.Wanted()}
      else now == tx.(status := if tx.mode.Try? then Refused else Waiting)
  {
    var r := s.txs[t].Wanted();
    assert QueueOk(s, r);
    if s.Queue(r) != [] { assert s.Queue(r)[0] in s.Queue(r); }
  }

  /** What a step makes of the transaction that takes it. */
  ghost predicate Becomes(a: Action, tx: Tx, now: Tx) {
    match a
    case Take(_) => true
    case Grant(_) =>
      now.status.Running? && tx.Wants() && now.taken == tx.taken + 1 && now.held == tx.held + {tx.Wanted()}
    case Expire(_) => now == tx.(status := Refused)
    case Unwind(_, n) => now.status.Refused? && now.taken == n <= |tx.locks| && now.held == set r | r in tx.locks[..n]
    case Commit(_) => now.status.Committed? && now.held == {}
    case Rollback(_) => now.status.RolledBack? && now.held == {}
  }

  /** Every step changes its own transaction alone; a grant, which only the head of a free lock's
      queue gets, adds the lock, a timeout refuses, a savepoint's end keeps the first locks, and the
      end of a transaction frees all. */
  lemma StepIs(s: State, a: Action)
    requires Inv(s) && Enabled(s, a)
    ensures Becomes(a, s.txs[a.t], Apply(s, a).txs[a.t])
    ensures forall u :: u in s.txs && u != a.t ==> Apply(s, a).txs[u] == s.txs[u]
    ensures a.Grant? ==> forall u :: u in s.txs && u != a.t ==> s.txs[a.t].Wanted() !in s.txs[u].held
  {
    assert TxOk(s.txs[a.t]);
  }

  /** A run of the transaction's own steps after which it has rolled back and holds nothing. */
  ghost predicate GivesUp(s: State, acts: seq<Action>, t: TxId) {
    Allowed(s, acts) && (forall i :: 0 <= i < |acts| ==> acts[i].t == t) &&
    var e := Run(s, acts);
    t in e.txs && e.txs[t].status.RolledBack? && e.txs[t].held == {}
  }

  /** Any transaction can give up by itself: after a timeout if it waits, it rolls back and holds
      nothing. */
  lemma CanGiveUp(s: State, t: TxId)
    requires Inv(s) && t in s.txs && s.txs[t].Unfinished()
    ensures exists acts :: GivesUp(s, acts, t)
  {
    assert TxOk(s.txs[t]);
    if s.txs[t].status.Waiting? {
      var next := Apply(s, Expire(t));
      RunOne(next, Rollback(t));
      assert [Expire(t), Rollback(t)][1..] == [Rollback(t)];
      assert GivesUp(s, [Expire(t), Rollback(t)], t);
    } else {
      RunOne(s, Rollback(t));
      assert GivesUp(s, [Rollback(t)], t);
    }
  }

  lemma RunOne(s: State, a: Action)
    requires Enabled(s, a)
    ensures Allowed(s, [a]) && Run(s, [a]) == Apply(s, a)
  {
    assert [a][1..] == [];
    assert Run(Apply(s, a), []) == Apply(s, a);
  }

  /** The `k`-th action of the run refuses the transaction: its take meets a lock that another
      transaction holds or waits for. */
  ghost predicate RefusedAt(s: State, acts: seq<Action>, t: TxId, k: nat) {
    k < |acts| && acts[k] == Take(t) && Allowed(s, acts[..k]) &&
    var e := Run(s, acts[..k]);
    t in e.txs && e.txs[t].Wants() && e.txs[t].Wanted() !in e.txs[t].held && Contended(e, t, e.txs[t].Wanted())
  }

  lemma RefusedLater(s: State, acts: seq<Action>, t: TxId, k: nat)
    requires acts != [] && Enabled(s, acts[0]) && RefusedAt(Apply(s, acts[0]), acts[1..], t, k)
    ensures RefusedAt(s, acts, t, k + 1)
  {
    assert acts[..k + 1][0] == acts[0] && acts[..k + 1][1..] == acts[1..][..k];
  }

  /** A running try goes on running, ends, or is refused on a contended lock. */
  lemma TryStep(s: State, a: Action, t: TxId)
    requires Inv(s) && Enabled(s, a) && t in s.txs && s.txs[t].mode.Try? && s.txs[t].status.Running?
    ensures var tx, now := s.txs[t], Apply(s, a).txs[t];
      || now.status.Running? || now.status.Committed? || now.status.RolledBack?
      || (a == Take(t) && tx.Wants() && tx.Wanted() !in tx.held && Contended(s, t, tx.Wanted()))
  {
    if a.t == t && a.Take? { TakeIs(s, t); }
  }

  /** In every run, a try is refused only by a take that met another transaction on its lock. */
  lemma {:induction false} RefusedTryWasContended(s: State, acts: seq<Action>, t: TxId)
    requires Inv(s) && Allowed(s, acts) && t in s.txs && s.txs[t].mode.Try? && s.txs[t].status.Running?
    requires t in Run(s, acts).txs && Run(s, acts).txs[t].status.Refused?
    ensures exists k: nat :: RefusedAt(s, acts, t, k)
    decreases |acts|
  {
    var next := Apply(s, acts[0]);
    assert Inv(next) by { StepKeeps(s, acts[0]); }
    assert SamePrograms(s, next) by { StepSame(s, acts[0]); }
    TryStep(s, acts[0], t);
    if next.txs[t].status.Running? {
      RefusedTryWasContended(next, acts[1..], t);
      var k: nat :| RefusedAt(next, acts[1..], t, k);
      RefusedLater(s, acts, t, k);
    } else if next.txs[t].status.Committed? || next.txs[t].status.RolledBack? {
      EndedStays(next, acts[1..], t);
    } else {
      assert acts[..0] == [] && RefusedAt(s, acts, t, 0);
    }
  }

  lemma {:induction false} EndedStays(s: State, acts: seq<Action>, t: TxId)
    requires Allowed(s, acts) && t in s.txs && (s.txs[t].status.Committed? || s.txs[t].status.RolledBack?)
    ensures t in Run(s, acts).txs && Run(s, acts).txs[t] == s.txs[t]
    decreases |acts|
  {
    if acts != [] { EndedStays(Apply(s, acts[0]), acts[1..], t); }
  }
}
