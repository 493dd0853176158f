/** Shared name lookups: callers, resolver threads and thread-start failures interleave over one
    dictionary of pending futures. Each action below is one critical section or one completion. */
module SingleFlight {
  type Key = string

  datatype Answer = Result(addresses: seq<string>) | Exception(error: string)

  /** Where the owner of a future stands. A worker completes the future and then removes its
      entry; a caller whose thread did not start removes the entry and then completes it, if the
      error is one it catches. Otherwise the owner is lost. */
  datatype Phase = Starting | Working | Settled | Refused(error: string) | Removed(error: string) | Over | Lost

  datatype Owner = Owner(key: Key, phase: Phase)

  /** Futures are numbered in the order of creation; each has one owner and the completions set
      on it. */
  datatype State = State(pending: map<Key, nat>, owners: seq<Owner>, answers: seq<seq<Answer>>)

  datatype Action =
    | Call(key: Key)
    | Start(owner: nat)
    | RefuseStart(owner: nat, error: string)
    | LoseStart(owner: nat)
    | Settle(owner: nat, answer: Answer)
    | Remove(owner: nat)
    | Fail(owner: nat)

  function Init(): State { State(map[], [], []) }

  predicate Enabled(s: State, a: Action) {
    |s.owners| == |s.answers| &&
    match a
    case Call(_) => true
    case Start(i) => i < |s.owners| && s.owners[i].phase == Starting
    case RefuseStart(i, _) => i < |s.owners| && s.owners[i].phase == Starting
    case LoseStart(i) => i < |s.owners| && s.owners[i].phase == Starting
    case Settle(i, _) => i < |s.owners| && s.owners[i].phase == Working
    case Remove(i) => i < |s.owners| && (s.owners[i].phase == Settled || s.owners[i].phase.Refused?)
    case Fail(i) => i < |s.owners| && s.owners[i].phase.Removed?
  }

  function At(s: State, i: nat, p: Phase): State
    requires i < |s.owners|
  {
    s.(owners := s.owners[i := s.owners[i].(phase := p)])
  }

  function Answered(s: State, i: nat, answer: Answer): State
    requires i < |s.answers|
  {
    s.(answers := s.answers[i := s.answers[i] + [answer]])
  }

  function Apply(s: State, a: Action): State
    requires Enabled(s, a)
  {
    match a
    case Call(k) =>
      if k in s.pending then s else State(s.pending[k := |s.owners|], s.owners + [Owner(k, Starting)], s.answers + [[]])
    case Start(i) => At(s, i, Working)
    case RefuseStart(i, e) => At(s, i, Refused(e))
    case LoseStart(i) => At(s, i, Lost)
    case Settle(i, answer) => At(Answered(s, i, answer), i, Settled)
    case Remove(i) =>
      var p := s.owners[i].phase;
      At(s.(pending := s.pending - {s.owners[i].key}), i, if p.Refused? then Removed(p.error) else Over)
    case Fail(i) => At(Answered(s, i, Exception(s.owners[i].phase.error)), i, Over)
  }

  /** The future a call hands out. */
  function Handed(s: State, k: Key): nat { if k in s.pending then s.pending[k] else |s.owners| }

  predicate Allowed(s: State, acts: seq<Action>)
    decreases |acts|, 0
  {
    acts == [] || (Allowed(s, acts[..|acts| - 1]) && Enabled(Run(s, acts[..|acts| - 1]), acts[|acts| - 1]))
  }

  function Run(s: State, acts: seq<Action>): State
    requires Allowed(s, acts)
    decreases |acts|, 1
  {
    if acts == [] then s else Apply(Run(s, acts[..|acts| - 1]), acts[|acts| - 1])
  }

  // ---- The invariant ----

  /** The owner has not removed its entry. */
  predicate Holds(p: Phase) { p.Starting? || p.Working? || p.Settled? || p.Refused? || p.Lost? }

  predicate Completed(p: Phase) { p.Settled? || p.Over? }

  /** The owner's entry is there, and its own. */
  predicate Owns(s: State, i: nat) {
    i < |s.owners| && s.owners[i].key in s.pending && s.pending[s.owners[i].key] == i
  }

  /** A pending entry is that of an owner that has not removed it, and the other way round. */
  ghost predicate Matched(s: State) {
    && (forall k :: k in s.pending ==> s.pending[k] < |s.owners| && s.owners[s.pending[k]].key == k)
    && (forall k :: k in s.pending ==> Holds(s.owners[s.pending[k]].phase))
    && (forall i: nat :: i < |s.owners| && Holds(s.owners[i].phase) ==> Owns(s, i))
  }

  ghost predicate OnceAnswered(s: State) {
    && |s.answers| == |s.owners|
    && forall i :: 0 <= i < |s.owners| ==> |s.answers[i]| == if Completed(s.owners[i].phase) then 1 else 0
  }

  lemma CallMatched(s: State, k: Key)
    requires Matched(s) && Enabled(s, Call(k)) && k !in s.pending
    ensures Matched(Apply(s, Call(k)))
  {
    var t := Apply(s, Call(k));
    forall i: nat | i < |t.owners| && Holds(t.owners[i].phase)
      ensures Owns(t, i)
    {
      assert i < |s.owners| ==> t.owners[i] == s.owners[i] && Owns(s, i);
    }
  }

  lemma RemoveMatched(s: State, i: nat)
    requires Matched(s) && Enabled(s, Remove(i))
    ensures Matched(Apply(s, Remove(i)))
  {
    var t := Apply(s, Remove(i));
    assert Owns(s, i);
    forall j: nat | j < |t.owners| && Holds(t.owners[j].phase)
      ensures Owns(t, j)
    {
      assert Owns(s, j);
    }
  }

  /** A step that leaves the entries alone. */
  lemma MoveMatched(s: State, a: Action)
    requires Matched(s) && Enabled(s, a) && !a.Call? && !a.Remove?
    ensures Matched(Apply(s, a))
  {
    var t := Apply(s, a);
    forall j: nat | j < |t.owners| && Holds(t.owners[j].phase)
      ensures Owns(t, j)
    {
      assert Owns(s, j);
    }
  }

  lemma StepMatched(s: State, a: Action)
    requires Matched(s) && Enabled(s, a)
    ensures Matched(Apply(s, a))
  {
    if a.Call? {
      if a.key !in s.pending { CallMatched(s, a.key); }
    } else if a.Remove? {
      RemoveMatched(s, a.owner);
    } else {
      MoveMatched(s, a);
    }
  }

  lemma StepOnce(s: State, a: Action)
    requires OnceAnswered(s) && Enabled(s, a)
    ensures OnceAnswered(Apply(s, a))
  {
  }

  ghost predicate Inv(s: State) { Matched(s) && OnceAnswered(s) }

  lemma {:induction false} RunKeeps(s: State, acts: seq<Action>)
    requires Inv(s) && Allowed(s, acts)
    ensures Inv(Run(s, acts))
  {
    if acts != [] {
      var n := |acts| - 1;
      RunKeeps(s, acts[..n]);
      StepMatched(Run(s, acts[..n]), acts[n]);
      StepOnce(Run(s, acts[..n]), acts[n]);
    }
  }

  // ---- Results over whole runs ----

  /** In every run: a pending entry belongs to exactly one unfinished owner; removing an entry
      finds it there and removes the remover's own; at most one lookup per name is in flight. */
  lemma OneOwner(acts: seq<Action>, i: nat)
    requires Allowed(Init(), acts) && i < |Run(Init(), acts).owners|
    ensures var s := Run(Init(), acts);
      && (Owns(s, i) <==> Holds(s.owners[i].phase))
      && (Enabled(s, Remove(i)) ==> Owns(s, i))
      && (forall k :: k in s.pending ==> s.pending[k] < |s.owners| && s.owners[s.pending[k]].key == k)
      && (forall j: nat :: Owns(s, i) && Owns(s, j) && s.owners[i].key == s.owners[j].key ==> i == j)
  {
    RunKeeps(Init(), acts);
    var s := Run(Init(), acts);
    if Owns(s, i) { assert s.owners[i].key in s.pending; }
  }

  /** A call hands out the future of an owner that has not removed its entry. The future is already
      complete exactly when the call comes between the worker's completion and its removal of the
      entry. */
  lemma CallShares(acts: seq<Action>, k: Key)
    requires Allowed(Init(), acts)
    ensures var s := Run(Init(), acts);
      var t, i := Apply(s, Call(k)), Handed(s, k);
      && Owns(t, i) && t.owners[i].key == k && Holds(t.owners[i].phase) && (k in s.pending ==> t == s)
      && i < |t.answers| && (t.answers[i] != [] <==> k in s.pending && s.owners[s.pending[k]].phase.Settled?)
  {
    RunKeeps(Init(), acts);
    assert Enabled(Run(Init(), acts), Call(k));
  }

  /** Every future is completed at most once, and exactly once when its owner is over; until then
      the owner can step, unless it was lost. */
  lemma CompletedOnce(acts: seq<Action>, i: nat)
    requires Allowed(Init(), acts) && i < |Run(Init(), acts).owners|
    ensures var s := Run(Init(), acts);
      && |s.answers| == |s.owners| && |s.answers[i]| <= 1 && (s.owners[i].phase.Over? ==> |s.answers[i]| == 1)
      && (s.answers[i] == [] && !s.owners[i].phase.Lost? ==> exists a :: Enabled(s, a) && Moves(a, i))
  {
    RunKeeps(Init(), acts);
    var s := Run(Init(), acts);
    match s.owners[i].phase
    case Starting => assert Enabled(s, Start(i)) && Moves(Start(i), i);
    case Working => assert Enabled(s, Settle(i, Exception(""))) && Moves(Settle(i, Exception("")), i);
    case Refused(_) => assert Enabled(s, Remove(i)) && Moves(Remove(i), i);
    case Removed(_) => assert Enabled(s, Fail(i)) && Moves(Fail(i), i);
    case _ =>
  }

  // ---- Which futures can be completed ----

  ghost predicate Completable(s: State, i: nat) {
    exists acts :: Allowed(s, acts) && i < |Run(s, acts).answers| && Run(s, acts).answers[i] != []
  }

  lemma {:induction false} RunCons(s: State, a: Action, acts: seq<Action>)
    requires Enabled(s, a) && Allowed(Apply(s, a), acts)
    ensures Allowed(s, [a] + acts) && Run(s, [a] + acts) == Run(Apply(s, a), acts)
  {
    var all := [a] + acts;
    if acts == [] {
      assert Allowed(s, []) && Run(s, []) == s && Run(Apply(s, a), []) == Apply(s, a);
      assert all == [a] && all[..0] == [] && all[0] == a;
    } else {
      var n := |acts| - 1;
      RunCons(s, a, acts[..n]);
      assert all[..|all| - 1] == [a] + acts[..n] && all[|all| - 1] == acts[n];
    }
  }

  /** A run of one, two or three actions. */
  lemma RunThree(s: State, a: Action, b: Action, c: Action)
    requires Enabled(s, a) && Enabled(Apply(s, a), b) && Enabled(Apply(Apply(s, a), b), c)
    ensures Allowed(s, [a, b]) && Run(s, [a, b]) == Apply(Apply(s, a), b)
    ensures Allowed(s, [a, b, c]) && Run(s, [a, b, c]) == Apply(Apply(Apply(s, a), b), c)
  {
    var s1 := Apply(s, a);
    var s2 := Apply(s1, b);
    assert Allowed(s2, []) && Run(s2, []) == s2 && [b] + [] == [b] && [c] + [] == [c];
    RunCons(s1, b, []);
    RunCons(s, a, [b]);
    RunCons(s2, c, []);
    RunCons(s1, b, [c]);
    RunCons(s, a, [b] + [c]);
    assert [a] + [b] == [a, b] && [a] + ([b] + [c]) == [a, b, c];
  }

  /** A run in which a call is handed a finished answer. */
  lemma SettledIsShared(k: Key, a: Answer)
    ensures var acts := [Call(k), Start(0), Settle(0, a)];
      Allowed(Init(), acts) && var s := Run(Init(), acts); Handed(s, k) == 0 && Apply(s, Call(k)).answers == [[a]]
  {
    RunThree(Init(), Call(k), Start(0), Settle(0, a));
    var s := Apply(Apply(Apply(Init(), Call(k)), Start(0)), Settle(0, a));
    assert [] + [a] == [a] && s.pending == map[k := 0];
    assert s.answers == [[a]];
  }

  lemma CompletableLater(s: State, a: Action, i: nat)
    requires Enabled(s, a) && Completable(Apply(s, a), i)
    ensures Completable(s, i)
  {
    var next := Apply(s, a);
    var acts :| Allowed(next, acts) && i < |Run(next, acts).answers| && Run(next, acts).answers[i] != [];
    RunCons(s, a, acts);
  }

  lemma CompletableNow(s: State, i: nat)
    requires i < |s.answers| && s.answers[i] != []
    ensures Completable(s, i)
  {
    assert Allowed(s, []) && Run(s, []) == s;
  }

  /** The owner's own steps complete its future. */
  lemma OwnerCompletes(s: State, i: nat)
    requires OnceAnswered(s) && i < |s.owners| && !s.owners[i].phase.Lost?
    ensures Completable(s, i)
    decreases Left(s.owners[i].phase)
  {
    var p := s.owners[i].phase;
    if Completed(p) {
      CompletableNow(s, i);
    } else {
      var a := match p
        case Starting => Start(i)
        case Working => Settle(i, Exception(""))
        case Refused(_) => Remove(i)
        case _ => Fail(i);
      StepOnce(s, a);
      OwnerCompletes(Apply(s, a), i);
      CompletableLater(s, a, i);
    }
  }

  lemma LostStays(s: State, acts: seq<Action>, i: nat)
    requires Inv(s) && Allowed(s, acts) && i < |s.owners| && s.owners[i].phase.Lost?
    ensures var e := Run(s, acts); i < |e.owners| && e.owners[i] == s.owners[i]
    ensures var e := Run(s, acts); Owns(e, i) && i < |e.answers| && e.answers[i] == []
  {
    RunKeeps(s, acts);
    LostKept(s, acts, i);
  }

  lemma StepLost(s: State, a: Action, i: nat)
    requires Enabled(s, a) && i < |s.owners| && s.owners[i].phase.Lost?
    ensures i < |Apply(s, a).owners| && Apply(s, a).owners[i] == s.owners[i]
  {
  }

  lemma {:induction false} LostKept(s: State, acts: seq<Action>, i: nat)
    requires Allowed(s, acts) && i < |s.owners| && s.owners[i].phase.Lost?
    ensures i < |Run(s, acts).owners| && Run(s, acts).owners[i] == s.owners[i]
  {
    if acts != [] {
      var n := |acts| - 1;
      LostKept(s, acts[..n], i);
      StepLost(Run(s, acts[..n]), acts[n], i);
    }
  }

  /** In every run, a future can still be completed exactly when its owner was not lost at the start
      of its thread. A lost owner's entry stays for good, and every later call for its name is
      handed the future nobody completes. */
  lemma CompletableIff(acts: seq<Action>, i: nat)
    requires Allowed(Init(), acts) && i < |Run(Init(), acts).owners|
    ensures var s := Run(Init(), acts); Completable(s, i) <==> !s.owners[i].phase.Lost?
    ensures var s := Run(Init(), acts); s.owners[i].phase.Lost? ==>
      forall more :: Allowed(s, more) ==> Handed(Run(s, more), s.owners[i].key) == i
  {
    RunKeeps(Init(), acts);
    var s := Run(Init(), acts);
    if s.owners[i].phase.Lost? {
      forall more | Allowed(s, more)
        ensures var e := Run(s, more); Handed(e, s.owners[i].key) == i && i < |e.answers| && e.answers[i] == []
      {
        LostStays(s, more, i);
      }
    } else {
      OwnerCompletes(s, i);
    }
  }

  /** A run in which an owner is lost. */
  lemma StartCanBeLost(k: Key)
    ensures var acts := [Call(k), LoseStart(0)];
      Allowed(Init(), acts) && var s := Run(Init(), acts); Handed(s, k) == 0 && !Completable(s, 0)
  {
    RunThree(Init(), Call(k), LoseStart(0), Call(k));
    CompletableIff([Call(k), LoseStart(0)], 0);
  }

  // ---- What a waiter is told ----

  /** Some action of the run gave this answer: the worker's, or the error its thread's start met. */
  ghost predicate Given(acts: seq<Action>, i: nat, a: Answer) {
    Settle(i, a) in acts || (a.Exception? && RefuseStart(i, a.error) in acts)
  }

  /** What the run says of owner `i`: its completions and the error it is to be completed with. */
  ghost predicate Told(acts: seq<Action>, s: State, i: nat)
    requires i < |s.owners| == |s.answers|
  {
    && (forall a :: a in s.answers[i] ==> Given(acts, i, a))
    && (s.owners[i].phase.Refused? ==> RefuseStart(i, s.owners[i].phase.error) in acts)
    && (s.owners[i].phase.Removed? ==> RefuseStart(i, s.owners[i].phase.error) in acts)
  }

  lemma ToldNext(acts: seq<Action>, s: State, a: Action, i: nat)
    requires Enabled(s, a) && (i < |s.owners| ==> Told(acts, s, i)) && i < |Apply(s, a).owners|
    ensures |Apply(s, a).owners| == |Apply(s, a).answers| && Told(acts + [a], Apply(s, a), i)
  {
    assert forall b :: b in acts ==> b in acts + [a];
    assert a in acts + [a];
  }

  /** In every run a future is completed with what its worker found, or with the error that kept its
      thread from starting. */
  lemma {:induction false} AnswersAreGiven(acts: seq<Action>, i: nat)
    requires Allowed(Init(), acts) && i < |Run(Init(), acts).owners|
    ensures var s := Run(Init(), acts); |s.owners| == |s.answers| && Told(acts, s, i)
    decreases |acts|
  {
    if acts != [] {
      var n := |acts| - 1;
      var s := Run(Init(), acts[..n]);
      if i < |s.owners| { AnswersAreGiven(acts[..n], i); }
      ToldNext(acts[..n], s, acts[n], i);
      assert acts == acts[..n] + [acts[n]];
    }
  }

  // ---- How long a waiter waits ----

  /** An action of the owner of future `i`. */
  predicate Moves(a: Action, i: nat) { !a.Call? && a.owner == i }

  function Left(p: Phase): nat {
    match p
    case Starting => 3
    case Working => 2
    case Refused(_) => 2
    case Lost => 2
    case Settled => 1
    case Removed(_) => 1
    case Over => 0
  }

  function MovesOf(acts: seq<Action>, i: nat): nat {
    if acts == [] then 0 else MovesOf(acts[..|acts| - 1], i) + if Moves(acts[|acts| - 1], i) then 1 else 0
  }

  lemma StepLowers(s: State, a: Action, i: nat)
    requires Enabled(s, a) && i < |s.owners|
    ensures |Apply(s, a).owners| >= |s.owners|
    ensures Left(Apply(s, a).owners[i].phase) + (if Moves(a, i) then 1 else 0) == Left(s.owners[i].phase)
  {
  }

  /** A waiter waits for three steps of the owner at most, unless it is lost: each step brings its
      future closer to completion and nobody else's step sets it back. */
  lemma {:induction false} ThreeSteps(s: State, acts: seq<Action>, i: nat)
    requires Allowed(s, acts) && i < |s.owners|
    ensures i < |Run(s, acts).owners|
    ensures Left(Run(s, acts).owners[i].phase) + MovesOf(acts, i) == Left(s.owners[i].phase)
  {
    if acts != [] {
      var n := |acts| - 1;
      ThreeSteps(s, acts[..n], i);
      StepLowers(Run(s, acts[..n]), acts[n], i);
    }
  }
}
