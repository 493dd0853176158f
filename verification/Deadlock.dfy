/** Waits among admission transactions: when no cycle can form, when one can, that somebody
    can always move, and how far a queued transaction can be overtaken. */
module Deadlock {
  import opened LockManager

  // ---- Lock order ----

  ghost predicate StrictOrder(less: (Resource, Resource) -> bool) {
    && (forall a :: !less(a, a))
    && (forall a, b, c :: less(a, b) && less(b, c) ==> less(a, c))
  }

  /** Every lock newly taken comes after all locks taken before it; a repeated request for a
      lock already held is harmless. */
  ghost predicate Ordered(less: (Resource, Resource) -> bool, locks: seq<Resource>) {
    forall i, j :: 0 <= i < j < |locks| && locks[j] !in locks[..j] ==> less(locks[i], locks[j])
  }

  /** A transaction that only tries needs no order: it never waits. */
  ghost predicate Disciplined(less: (Resource, Resource) -> bool, s: State) {
    forall t :: t in s.txs && s.txs[t].mode.Patient? ==> Ordered(less, s.txs[t].locks)
  }

  // ---- Waits ----

  predicate Ahead(q: seq<TxId>, u: TxId, t: TxId) {
    exists i, j :: 0 <= i < j < |q| && q[i] == u && q[j] == t
  }

  /** `t` waits for the holder of its lock and for everybody ahead of it in the queue. */
  predicate WaitsFor(s: State, t: TxId, u: TxId) {
    s.IsWaiting(t) && u in s.txs && u != t &&
    (s.txs[t].Wanted() in s.txs[u].held || Ahead(s.Queue(s.txs[t].Wanted()), u, t))
  }

  predicate WaitPath(s: State, p: seq<TxId>) {
    forall i :: 0 <= i < |p| - 1 ==> WaitsFor(s, p[i], p[i + 1])
  }

  ghost predicate HasCycle(s: State) {
    exists p :: |p| >= 2 && WaitPath(s, p) && p[0] == p[|p| - 1]
  }

  /** The measure along a wait: the wanted lock grows, or stays with a smaller queue place. */
  predicate Climbs(s: State, less: (Resource, Resource) -> bool, t: TxId, u: TxId) {
    s.IsWaiting(t) && s.IsWaiting(u) &&
    var r, q := s.txs[t].Wanted(), s.txs[u].Wanted();
    less(r, q) || (r == q && Ahead(s.Queue(r), u, t))
  }

  /** What a patient transaction holds lies below what it waits for. */
  lemma HeldBelowWanted(s: State, less: (Resource, Resource) -> bool, u: TxId, h: Resource)
    requires Inv(s) && Disciplined(less, s)
    requires s.IsWaiting(u) && h in s.txs[u].held
    ensures less(h, s.txs[u].Wanted())
  {
    var tx := s.txs[u];
    assert TxOk(tx) && h in tx.locks[..tx.taken];
    var i :| 0 <= i < tx.taken && tx.locks[i] == h;
  }

  lemma WaitClimbs(s: State, less: (Resource, Resource) -> bool, t: TxId, u: TxId)
    requires Inv(s) && Disciplined(less, s)
    requires WaitsFor(s, t, u) && s.IsWaiting(u)
    ensures Climbs(s, less, t, u)
  {
    var r := s.txs[t].Wanted();
    if r in s.txs[u].held {
      HeldBelowWanted(s, less, u, r);
    } else {
      assert QueueOk(s, r);
      assert u in s.Queue(r);
    }
  }

  lemma ClimbsTransitive(s: State, less: (Resource, Resource) -> bool, t: TxId, u: TxId, v: TxId)
    requires Inv(s) && StrictOrder(less)
    requires Climbs(s, less, t, u) && Climbs(s, less, u, v)
    ensures Climbs(s, less, t, v)
  {
    var r, q := s.txs[t].Wanted(), s.txs[u].Wanted();
    if r == q && q == s.txs[v].Wanted() && !less(r, r) {
      var w := s.Queue(r);
      assert QueueOk(s, r);
      var a, b :| 0 <= a < b < |w| && w[a] == u && w[b] == t;
      var c, d :| 0 <= c < d < |w| && w[c] == v && w[d] == u;
      assert a == d;
      assert w[c] == v && w[b] == t;
    }
  }

  lemma {:induction false} PathClimbs(s: State, less: (Resource, Resource) -> bool, p: seq<TxId>)
    requires Inv(s) && StrictOrder(less) && Disciplined(less, s)
    requires |p| >= 2 && WaitPath(s, p) && s.IsWaiting(p[|p| - 1])
    ensures Climbs(s, less, p[0], p[|p| - 1])
    decreases |p|
  {
    assert WaitsFor(s, p[0], p[1]);
    if |p| > 2 {
      assert WaitsFor(s, p[1], p[2]);
      assert forall i :: 0 <= i < |p| - 2 ==> WaitsFor(s, p[1..][i], p[1..][i + 1]) by {
        forall i | 0 <= i < |p| - 2 ensures WaitsFor(s, p[1..][i], p[1..][i + 1]) {
          assert WaitsFor(s, p[i + 1], p[i + 1 + 1]);
        }
      }
      PathClimbs(s, less, p[1..]);
      WaitClimbs(s, less, p[0], p[1]);
      ClimbsTransitive(s, less, p[0], p[1], p[|p| - 1]);
    } else {
      WaitClimbs(s, less, p[0], p[1]);
    }
  }

  lemma NobodyClimbsToSelf(s: State, less: (Resource, Resource) -> bool, t: TxId)
    requires Inv(s) && StrictOrder(less)
    ensures !Climbs(s, less, t, t)
  {
    if s.IsWaiting(t) { assert QueueOk(s, s.txs[t].Wanted()); }
  }

  lemma NoCycleInState(s: State, less: (Resource, Resource) -> bool)
    requires Inv(s) && StrictOrder(less) && Disciplined(less, s)
    ensures !HasCycle(s)
  {
    forall p | |p| >= 2 && WaitPath(s, p) && p[0] == p[|p| - 1] ensures false {
      assert WaitsFor(s, p[0], p[1]);
      NobodyClimbsToSelf(s, less, p[0]);
      PathClimbs(s, less, p);
    }
  }

  // ---- Runs ----

  lemma RunCons(s: State, a: Action, acts: seq<Action>)
    requires Enabled(s, a) && Allowed(Apply(s, a), acts)
    ensures Allowed(s, [a] + acts) && Run(s, [a] + acts) == Run(Apply(s, a), acts)
  {
    assert ([a] + acts)[0] == a && ([a] + acts)[1..] == acts;
  }

  // ---- Progress ----

  /** Neither the expiry of a wait nor a savepoint's end, and a rollback only after a refusal. */
  predicate OnItsWay(s: State, a: Action) {
    !a.Expire? && !a.Unwind? && (a.Rollback? ==> a.t in s.txs && s.txs[a.t].status.Refused?)
  }

  /** Some transaction can take a step on its way to its end. */
  ghost predicate CanMove(s: State) {
    exists a :: Enabled(s, a) && OnItsWay(s, a)
  }

  ghost function WaitersAbove(s: State, less: (Resource, Resource) -> bool, r: Resource): set<TxId> {
    set v | v in s.txs && s.IsWaiting(v) && less(r, s.txs[v].Wanted())
  }

  lemma {:induction false} SomebodyMoves(s: State, less: (Resource, Resource) -> bool, t: TxId)
    requires Inv(s) && StrictOrder(less) && Disciplined(less, s)
    requires t in s.txs && s.txs[t].Unfinished()
    ensures CanMove(s)
    decreases s.IsWaiting(t), if s.IsWaiting(t) then |WaitersAbove(s, less, s.txs[t].Wanted())| else 0
  {
    var tx := s.txs[t];
    if tx.status.Running? {
      assert Enabled(s, if tx.Wants() then Take(t) else Commit(t));
    } else if tx.status.Refused? {
      assert Enabled(s, Rollback(t));
    } else {
      assert TxOk(tx);
      var r := tx.Wanted();
      assert QueueOk(s, r);
      var head := s.Queue(r)[0];
      assert head in s.Queue(r);
      if s.FreeFor(head, r) {
        assert Enabled(s, Grant(head));
      } else {
        var u :| u in s.txs && u != head && r in s.txs[u].held;
        assert TxOk(s.txs[u]);
        if s.IsWaiting(u) {
          HeldBelowWanted(s, less, u, r);
          var above, here := WaitersAbove(s, less, s.txs[u].Wanted()), WaitersAbove(s, less, r);
          assert u in here && u !in above && above <= here;
          assert above < here;
          SmallerSubset(above, here);
        }
        SomebodyMoves(s, less, u);
      }
    }
  }

  lemma {:induction false} SmallerSubset(a: set<TxId>, b: set<TxId>)
    requires a < b
    ensures |a| < |b|
  {
    assert |b| == |a| + |b - a| by { assert b == a + (b - a); }
    assert b - a != {};
  }

  // ---- Every run ends ----

  /** More steps than the transaction can still take. */
  function Left(tx: Tx): nat {
    var rest := if tx.Wants() then |tx.locks| - tx.taken else 0;
    match tx.status
    case Running => |tx.locks| + 2 * rest + 3
    case Waiting => |tx.locks| + 2 * rest + 2
    case Refused => tx.taken + 1
    case _ => 0
  }

  ghost function Work(txs: map<TxId, Tx>): nat {
    if txs == map[] then 0 else
    var t :| t in txs;
    Left(txs[t]) + Work(txs - {t})
  }

  lemma {:induction false} WorkOf(txs: map<TxId, Tx>, t: TxId)
    requires t in txs
    ensures Work(txs) == Left(txs[t]) + Work(txs - {t})
    decreases |txs|
  {
    var u :| u in txs && Work(txs) == Left(txs[u]) + Work(txs - {u});
    if u != t {
      WorkOf(txs - {u}, t);
      WorkOf(txs - {t}, u);
      assert txs - {u} - {t} == txs - {t} - {u};
    }
  }

  lemma LeftLowers(s: State, a: Action)
    requires Inv(s) && Enabled(s, a)
    ensures a.t in Apply(s, a).txs && Left(Apply(s, a).txs[a.t]) < Left(s.txs[a.t])
  {
    assert TxOk(s.txs[a.t]);
  }

  lemma OthersStay(s: State, a: Action)
    requires Enabled(s, a)
    ensures Apply(s, a).txs - {a.t} == s.txs - {a.t}
  {
    assert Apply(s, a).txs == s.txs[a.t := Apply(s, a).txs[a.t]];
  }

  /** Every step of every transaction lowers the work that is left. */
  lemma StepLowers(s: State, a: Action)
    requires Inv(s) && Enabled(s, a)
    ensures Work(Apply(s, a).txs) < Work(s.txs)
  {
    LeftLowers(s, a);
    OthersStay(s, a);
    WorkOf(s.txs, a.t);
    WorkOf(Apply(s, a).txs, a.t);
  }

  lemma {:induction false} RunsEnd(s: State, acts: seq<Action>)
    requires Inv(s) && Allowed(s, acts)
    ensures |acts| + Work(Run(s, acts).txs) <= Work(s.txs)
    decreases |acts|
  {
    if acts != [] {
      StepLowers(s, acts[0]);
      StepKeeps(s, acts[0]);
      RunsEnd(Apply(s, acts[0]), acts[1..]);
    }
  }

  ghost predicate AllEnded(s: State) { forall t :: t in s.txs ==> !s.txs[t].Unfinished() }

  /** Every step of the run is on its way. */
  predicate Straight(s: State, acts: seq<Action>)
    requires Allowed(s, acts)
    decreases |acts|
  {
    acts == [] || (OnItsWay(s, acts[0]) && Straight(Apply(s, acts[0]), acts[1..]))
  }

  /** A patient transaction that has not been refused, or one that has committed. */
  predicate Proceeds(tx: Tx) {
    tx.status.Committed? || (tx.mode.Patient? && (tx.status.Running? || tx.status.Waiting?))
  }

  /** Everybody has ended, and all that proceeded in `s` have committed. */
  ghost predicate EndsWell(s: State, e: State) {
    s.txs.Keys == e.txs.Keys && AllEnded(e) &&
    forall t :: t in s.txs && Proceeds(s.txs[t]) ==> e.txs[t].status.Committed?
  }

  /** From here everybody can reach their end, and no wait has to expire for it: every patient
      transaction that has not been refused commits. */
  ghost predicate CanEnd(s: State) {
    exists acts :: Allowed(s, acts) && Straight(s, acts) && EndsWell(s, Run(s, acts))
  }

  /** A step on its way keeps every transaction that proceeds going. */
  lemma StepProceeds(s: State, a: Action, t: TxId)
    requires Inv(s) && Enabled(s, a) && OnItsWay(s, a) && t in s.txs && Proceeds(s.txs[t])
    ensures t in Apply(s, a).txs && Proceeds(Apply(s, a).txs[t])
  {
    assert TxOk(s.txs[t]);
  }

  lemma {:induction false} EverybodyEnds(s: State, less: (Resource, Resource) -> bool)
    requires Inv(s) && StrictOrder(less) && Disciplined(less, s)
    ensures CanEnd(s)
    decreases Work(s.txs)
  {
    if t :| t in s.txs && s.txs[t].Unfinished() {
      SomebodyMoves(s, less, t);
      var a :| Enabled(s, a) && OnItsWay(s, a);
      StepLowers(s, a);
      StepKeeps(s, a);
      StepSame(s, a);
      EverybodyEnds(Apply(s, a), less);
      FirstThenEnd(s, a);
    } else {
      EndedAlready(s);
    }
  }

  lemma EndedAlready(s: State)
    requires AllEnded(s)
    ensures CanEnd(s)
  {
    assert Allowed(s, []) && Run(s, []) == s && Straight(s, []);
    assert EndsWell(s, s);
  }

  lemma FirstThenEnd(s: State, a: Action)
    requires Inv(s) && Enabled(s, a) && OnItsWay(s, a) && CanEnd(Apply(s, a))
    ensures CanEnd(s)
  {
    var next := Apply(s, a);
    var acts :| Allowed(next, acts) && Straight(next, acts) && EndsWell(next, Run(next, acts));
    RunCons(s, a, acts);
    EndsWellBefore(s, a, Run(next, acts));
    StraightCons(s, a, acts);
  }

  lemma StraightCons(s: State, a: Action, acts: seq<Action>)
    requires Enabled(s, a) && OnItsWay(s, a) && Allowed(Apply(s, a), acts) && Straight(Apply(s, a), acts)
    ensures Allowed(s, [a] + acts) && Straight(s, [a] + acts)
  {
    assert ([a] + acts)[0] == a && ([a] + acts)[1..] == acts;
    RunCons(s, a, acts);
  }

  lemma EndsWellBefore(s: State, a: Action, e: State)
    requires Inv(s) && Enabled(s, a) && OnItsWay(s, a) && EndsWell(Apply(s, a), e)
    ensures EndsWell(s, e)
  {
    StepSame(s, a);
    forall t | t in s.txs && Proceeds(s.txs[t])
      ensures e.txs[t].status.Committed?
    {
      StepProceeds(s, a, t);
    }
  }

  /** Deadlock freedom. Let the patient transactions follow one lock order. Then in every run, of
      any number of transactions, no cycle of waits ever forms; while any transaction is unfinished
      one of them can take a step other than giving up; every run ends; and from every state
      everybody can reach their end without a timeout, every patient transaction that has not been
      refused by a commit. */
  lemma DeadlockFree(s: State, less: (Resource, Resource) -> bool, acts: seq<Action>)
    requires Init(s) && Allowed(s, acts)
    requires StrictOrder(less) && Disciplined(less, s)
    ensures !HasCycle(Run(s, acts))
    ensures SamePrograms(s, Run(s, acts))
    ensures AllEnded(Run(s, acts)) || CanMove(Run(s, acts))
    ensures |acts| <= Work(s.txs) && CanEnd(Run(s, acts))
  {
    InitInv(s);
    RunKeeps(s, acts);
    RunsEnd(s, acts);
    var e := Run(s, acts);
    assert Disciplined(less, e);
    NoCycleInState(e, less);
    EverybodyEnds(e, less);
    if t :| t in e.txs && e.txs[t].Unfinished() { SomebodyMoves(e, less, t); }
  }

  // ---- The order is needed ----

  function Pair(p: Tx, q: Tx): State { State(map[0 := p, 1 := q], map[]) }

  lemma PairSet(p: Tx, q: Tx, x: Tx)
    ensures Pair(p, q).Set(0, x) == Pair(x, q) && Pair(p, q).Set(1, x) == Pair(p, x)
  {
    assert Pair(p, q).Set(0, x).txs == map[0 := x, 1 := q];
    assert Pair(p, q).Set(1, x).txs == map[0 := p, 1 := x];
  }

  function Advanced(p: Tx, n: nat): Tx
    requires n <= |p.locks|
  {
    Tx(p.mode, p.locks, n, Running, set r | r in p.locks[..n])
  }

  lemma TakeAlone(p: Tx, q: Tx, from: nat)
    requires from < |p.locks| && p.locks[from] !in q.held
    ensures Enabled(Pair(Advanced(p, from), q), Take(0))
    ensures Apply(Pair(Advanced(p, from), q), Take(0)) == Pair(Advanced(p, from + 1), q)
  {
    var s, r := Pair(Advanced(p, from), q), p.locks[from];
    assert s.FreeFor(0, r) && s.Queue(r) == [];
    assert p.locks[..from + 1] == p.locks[..from] + [r];
    assert s.txs[0].Granted() == Advanced(p, from + 1);
    PairSet(Advanced(p, from), q, Advanced(p, from + 1));
  }

  ghost predicate CycleReachable(s: State) {
    exists acts :: Allowed(s, acts) && HasCycle(Run(s, acts))
  }

  lemma CycleHere(s: State)
    requires HasCycle(s)
    ensures CycleReachable(s)
  {
    assert Allowed(s, []) && Run(s, []) == s;
  }

  lemma CycleLater(s: State, a: Action)
    requires Enabled(s, a) && CycleReachable(Apply(s, a))
    ensures CycleReachable(s)
  {
    var acts :| Allowed(Apply(s, a), acts) && HasCycle(Run(Apply(s, a), acts));
    RunCons(s, a, acts);
  }

  /** While the other holds none of them, transaction 0 is granted its next locks one by one. */
  lemma {:induction false} TakesAlone(p: Tx, q: Tx, from: nat, upTo: nat)
    requires from <= upTo <= |p.locks| && forall i :: from <= i < upTo ==> p.locks[i] !in q.held
    requires CycleReachable(Pair(Advanced(p, upTo), q))
    ensures CycleReachable(Pair(Advanced(p, from), q))
    decreases upTo - from
  {
    if from < upTo {
      TakesAlone(p, q, from + 1, upTo);
      TakeAlone(p, q, from);
      CycleLater(Pair(Advanced(p, from), q), Take(0));
    }
  }

  /** A patient transaction that asks for a lock the other one holds. */
  lemma AskInVain(s: State, t: TxId, u: TxId)
    requires t in s.txs && u in s.txs && t != u && s.txs[t].mode.Patient? && s.txs[t].status.Running?
    requires s.txs[t].Wants()
    requires s.txs[t].Wanted() in s.txs[u].held && s.txs[t].Wanted() !in s.txs[t].held
    ensures Enabled(s, Take(t)) && Apply(s, Take(t)).txs == s.txs[t := s.txs[t].(status := Waiting)]
  {
    assert !s.FreeFor(t, s.txs[t].Wanted());
  }

  /** The last two moves: each patient transaction asks for a lock the other holds. */
  lemma CrossWait(p: Tx, q: Tx)
    requires p.mode.Patient? && q.mode.Patient? && p.status.Running? && q.status.Running?
    requires p.Wants() && q.Wants()
    requires p.Wanted() in q.held && p.Wanted() !in p.held
    requires q.Wanted() in p.held && q.Wanted() !in q.held
    ensures CycleReachable(Pair(p, q))
  {
    var s := Pair(p, q);
    AskInVain(s, 0, 1);
    var s1 := Apply(s, Take(0));
    AskInVain(s1, 1, 0);
    var s2 := Apply(s1, Take(1));
    assert WaitsFor(s2, 0, 1) && WaitsFor(s2, 1, 0);
    var c := [0, 1, 0];
    assert WaitPath(s2, c) && c[0] == c[|c| - 1];
    CycleHere(s2);
    CycleLater(s1, Take(1));
    CycleLater(s, Take(0));
  }

  lemma PeerTakesFirst(p: Tx, q: Tx, q1: Tx)
    requires p.held == {} && q.Wants() && q.status.Running? && q1 == q.Granted()
    ensures Enabled(Pair(p, q), Take(1)) && Apply(Pair(p, q), Take(1)) == Pair(p, q1)
  {
    assert Pair(p, q).FreeFor(1, q.Wanted()) && Pair(p, q).Queue(q.Wanted()) == [];
    PairSet(p, q, q1);
  }

  /** A patient transaction that takes lock `i` before a different new lock `j` deadlocks with
      a patient peer that takes the same two the other way round. */
  lemma CrossedPairDeadlocks(locks: seq<Resource>, i: nat, j: nat)
    requires i < j < |locks| && locks[j] !in locks[..j]
    ensures CycleReachable(Pair(Begin(Patient, locks), Begin(Patient, [locks[j], locks[i]])))
  {
    var p, q := Begin(Patient, locks), Begin(Patient, [locks[j], locks[i]]);
    var q1 := Tx(Patient, q.locks, 1, Running, {locks[j]});
    assert locks[i] in locks[..j];
    CrossWait(Advanced(p, j), q1);
    forall k | 0 <= k < j ensures p.locks[k] !in q1.held { assert locks[k] in locks[..j]; }
    TakesAlone(p, q1, 0, j);
    assert Advanced(p, 0) == p;
    PeerTakesFirst(p, q, q1);
    CycleLater(Pair(p, q), Take(1));
  }

  ghost predicate TotalStrictOrder(less: (Resource, Resource) -> bool) {
    StrictOrder(less) && forall a, b :: a == b || less(a, b) || less(b, a)
  }

  /** Exactly when a transaction is safe beside every peer that keeps the lock order: it only
      tries, or it keeps the order itself. */
  lemma SafeIffOrdered(less: (Resource, Resource) -> bool, mode: Mode, locks: seq<Resource>)
    requires TotalStrictOrder(less)
    ensures (mode.Try? || Ordered(less, locks)) <==>
            forall m, peer :: Ordered(less, peer) ==> !CycleReachable(Pair(Begin(mode, locks), Begin(m, peer)))
  {
    if mode.Try? || Ordered(less, locks) {
      forall m, peer | Ordered(less, peer)
        ensures !CycleReachable(Pair(Begin(mode, locks), Begin(m, peer)))
      {
        var s := Pair(Begin(mode, locks), Begin(m, peer));
        forall acts | Allowed(s, acts) ensures !HasCycle(Run(s, acts)) {
          DeadlockFree(s, less, acts);
        }
      }
    } else {
      var i, j :| 0 <= i < j < |locks| && locks[j] !in locks[..j] && !less(locks[i], locks[j]);
      assert locks[i] in locks[..j];
      CrossedPairDeadlocks(locks, i, j);
      assert Ordered(less, [locks[j], locks[i]]);
    }
  }

  // ---- Overtaking ----

  /** Those queued ahead of `t`. */
  function AheadOf(q: seq<TxId>, t: TxId): seq<TxId> {
    if q == [] || q[0] == t then [] else [q[0]] + AheadOf(q[1..], t)
  }

  lemma {:induction false} AheadOfAppend(q: seq<TxId>, t: TxId, u: TxId)
    ensures t in q ==> AheadOf(q + [u], t) == AheadOf(q, t)
    ensures t !in q ==> AheadOf(q + [t], t) == q
  {
    if q != [] && q[0] != t {
      AheadOfAppend(q[1..], t, u);
      assert (q + [u])[1..] == q[1..] + [u] && (q + [t])[1..] == q[1..] + [t];
    }
  }

  /** A departure lets nobody pass: those ahead of `t` are as before, less the departed. */
  lemma {:induction false} AheadOfWithout(q: seq<TxId>, t: TxId, u: TxId)
    requires u != t
    ensures AheadOf(Without(q, u), t) == Without(AheadOf(q, t), u)
  {
    if q != [] {
      AheadOfWithout(q[1..], t, u);
      var w := Without(q[1..], u);
      if q[0] != u {
        assert Without(q, u) == [q[0]] + w && ([q[0]] + w)[1..] == w;
        var a := AheadOf(q[1..], t);
        if q[0] != t { assert ([q[0]] + a)[1..] == a; }
      } else {
        assert Without(q, u) == w;
        var a := AheadOf(q[1..], t);
        assert ([q[0]] + a)[1..] == a;
      }
    }
  }

  lemma {:induction false} WithoutShrinks(q: seq<TxId>, u: TxId)
    ensures |Without(q, u)| <= |q|
    ensures forall v :: v in Without(q, u) ==> v in q
  {
    if q != [] { WithoutShrinks(q[1..], u); }
  }

  /** The transactions that newly acquire `r` in a run, in order. */
  function Acquirers(s: State, acts: seq<Action>, r: Resource): seq<TxId>
    requires Allowed(s, acts)
    decreases |acts|
  {
    if acts == [] then [] else
    var s' := Apply(s, acts[0]);
    var t := acts[0].t;
    (if r !in s.txs[t].held && r in s'.txs[t].held then [t] else []) + Acquirers(s', acts[1..], r)
  }

  /** `t` goes on waiting all through the run: neither granted nor timed out. */
  predicate WaitsThroughout(s: State, acts: seq<Action>, t: TxId)
    requires Allowed(s, acts)
    decreases |acts|
  {
    s.IsWaiting(t) && (acts != [] ==> WaitsThroughout(Apply(s, acts[0]), acts[1..], t))
  }

  /** One more step adds its transaction exactly when that one did not hold `r` and now does. */
  lemma {:induction false} AcquirersNext(s: State, acts: seq<Action>, a: Action, r: Resource)
    requires Allowed(s, acts) && Enabled(Run(s, acts), a)
    ensures Allowed(s, acts + [a]) && Run(s, acts + [a]) == Apply(Run(s, acts), a)
    ensures var e, now := Run(s, acts), Run(s, acts + [a]);
      Acquirers(s, acts + [a], r) ==
      Acquirers(s, acts, r) + if r !in e.txs[a.t].held && r in now.txs[a.t].held then [a.t] else []
    decreases |acts|
  {
    if acts == [] {
      RunOne(s, a);
      assert acts + [a] == [a] && [a][1..] == [];
    } else {
      AcquirersNext(Apply(s, acts[0]), acts[1..], a, r);
      assert (acts + [a])[1..] == acts[1..] + [a] && (acts + [a])[0] == acts[0];
    }
  }

  /** To wait throughout is to wait after every part of the run. */
  lemma {:induction false} WaitsThroughoutIs(s: State, acts: seq<Action>, t: TxId)
    requires Allowed(s, acts)
    ensures WaitsThroughout(s, acts, t) <==>
      forall k :: 0 <= k <= |acts| ==> Allowed(s, acts[..k]) && Run(s, acts[..k]).IsWaiting(t)
    decreases |acts|
  {
    assert acts[..0] == [] && Run(s, []) == s;
    if acts != [] {
      var next := Apply(s, acts[0]);
      WaitsThroughoutIs(next, acts[1..], t);
      forall k | 0 < k <= |acts|
        ensures Allowed(s, acts[..k]) <==> Allowed(next, acts[1..][..k - 1])
        ensures Allowed(s, acts[..k]) ==> Run(s, acts[..k]) == Run(next, acts[1..][..k - 1])
      {
        assert acts[..k][1..] == acts[1..][..k - 1] && acts[..k][0] == acts[0];
      }
      if forall k :: 0 <= k <= |acts| ==> Allowed(s, acts[..k]) && Run(s, acts[..k]).IsWaiting(t) {
        forall k | 0 <= k <= |acts[1..]|
          ensures Allowed(next, acts[1..][..k]) && Run(next, acts[1..][..k]).IsWaiting(t)
        {
          assert Allowed(s, acts[..k + 1]);
        }
      }
    }
  }

  /** One step while `t` waits for `r`: only the head of the queue can acquire `r`, and the list
      of those ahead of `t` only loses members. */
  lemma StepOvertakes(s: State, a: Action, t: TxId, r: Resource)
    requires Inv(s) && Enabled(s, a) && s.IsWaiting(t) && s.txs[t].Wanted() == r
    requires Apply(s, a).IsWaiting(t)
    ensures var s' := Apply(s, a);
      var before, after := AheadOf(s.Queue(r), t), AheadOf(s'.Queue(r), t);
      && s'.txs[t].Wanted() == r
      && (forall v :: v in after ==> v in before) && |after| <= |before|
      && (r !in s.txs[a.t].held && r in s'.txs[a.t].held ==> a.t in before && |after| < |before|)
  {
    assert QueueOk(s, r);
    StepQueue(s, a, r);
    assert TxOk(s.txs[a.t]);
    var q := s.Queue(r);
    if a.t != t {
      AheadOfAppend(q, t, a.t);
      AheadOfWithout(q, t, a.t);
      WithoutShrinks(AheadOf(q, t), a.t);
    }
  }

  /** How one step changes the queue of `r`, and when it acquires `r`. */
  lemma StepQueue(s: State, a: Action, r: Resource)
    requires Enabled(s, a)
    ensures var q, q' := s.Queue(r), Apply(s, a).Queue(r);
      || q' == q || (a.Take? && s.txs[a.t].Wanted() == r && !s.IsWaiting(a.t) && q' == q + [a.t])
      || (a.Grant? && q != [] && q[0] == a.t && q' == q[1..]) || (a.Expire? && q' == Without(q, a.t))
    ensures r !in s.txs[a.t].held && r in Apply(s, a).txs[a.t].held && s.Queue(r) != [] && !a.Unwind? ==>
      a.Grant? && s.Queue(r)[0] == a.t && Apply(s, a).Queue(r) == s.Queue(r)[1..]
  {
  }

  lemma {:induction false} RunOvertakes(s: State, acts: seq<Action>, t: TxId, r: Resource)
    requires Inv(s) && Allowed(s, acts) && WaitsThroughout(s, acts, t) && s.txs[t].Wanted() == r
    ensures |Acquirers(s, acts, r)| <= |AheadOf(s.Queue(r), t)|
    ensures forall v :: v in Acquirers(s, acts, r) ==> v in AheadOf(s.Queue(r), t)
    decreases |acts|
  {
    if acts != [] {
      var s' := Apply(s, acts[0]);
      assert WaitsThroughout(s', acts[1..], t);
      StepOvertakes(s, acts[0], t, r);
      StepKeeps(s, acts[0]);
      RunOvertakes(s', acts[1..], t, r);
    }
  }

  /** Bounded overtaking. From the moment a patient transaction joins the queue of `r` until it
      is granted or times out, only transactions already queued then can acquire `r` (so no try
      succeeds), and at most as many grants happen as the queue was long. */
  lemma BoundedOvertaking(s: State, before: seq<Action>, t: TxId, after: seq<Action>)
    requires Init(s) && Allowed(s, before) && Enabled(Run(s, before), Take(t))
    requires var join := Apply(Run(s, before), Take(t));
      Allowed(join, after) && WaitsThroughout(join, after, t)
    ensures var met := Run(s, before);
      var r := met.txs[t].Wanted();
      var grants := Acquirers(Apply(met, Take(t)), after, r);
      && |grants| <= |met.Queue(r)|
      && (forall v :: v in grants ==> v in met.Queue(r) && v in s.txs && s.txs[v].mode.Patient?)
  {
    InitInv(s);
    RunKeeps(s, before);
    var met := Run(s, before);
    var r := met.txs[t].Wanted();
    var join := Apply(met, Take(t));
    StepKeeps(met, Take(t));
    assert QueueOk(met, r);
    AheadOfAppend(met.Queue(r), t, t);
    RunOvertakes(join, after, t, r);
    forall v | v in met.Queue(r) ensures v in s.txs && s.txs[v].mode.Patient? {
      assert met.IsWaiting(v) && TxOk(met.txs[v]);
    }
  }
}
