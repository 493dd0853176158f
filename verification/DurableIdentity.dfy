/** The durable request identity of one scope: a UUID-named entry in a directory, chosen under a
    lock and returned only after the directory is synced. Processes die, the machine crashes and
    keys are forgotten at any moment. Directory operations persist in the order they were made. */
module DurableIdentity {
  type Key = nat
  type Pid = nat

  /** A call of `_durable_key` in progress. `since` is the length of the log when the key had been
      found in, or created in, the directory. */
  datatype Phase = Idle | Locked | Vacant | Chosen(key: Key, since: nat) | Synced(key: Key, since: nat)

  /** What happens to the directory, and what calls return. A crash leaves an earlier image. */
  datatype Event = Created(key: Key) | Forgot(key: Key) | Crashed(image: set<Key>) | Returned(key: Key, since: nat)

  /** `images` are the UUID entries of the directory after each operation since the last sync:
      a crash brings back any of them. The last one is what processes see now. */
  datatype State = State(images: seq<set<Key>>, lock: (bool, Pid), phases: map<Pid, Phase>, log: seq<Event>) {
    function Dir(): set<Key> requires images != [] { images[|images| - 1] }
    function Phase(p: Pid): Phase { if p in phases then phases[p] else Idle }
    predicate Holds(p: Pid) { lock == (true, p) }
  }

  datatype Action =
    | Lock(p: Pid) | Find(p: Pid, k: Key) | FindNone(p: Pid) | Create(p: Pid, k: Key) | Sync(p: Pid) | Return(p: Pid)
    | Forget(k: Key) | Die(p: Pid) | Crash(i: nat)

  predicate Enabled(s: State, a: Action) {
    s.images != [] &&
    match a
    case Lock(p) => s.Phase(p).Idle? && !s.lock.0 // otherwise the call raises
    case Find(p, k) => s.Phase(p).Locked? && k in s.Dir()
    case FindNone(p) => s.Phase(p).Locked? && s.Dir() == {}
    case Create(p, k) => s.Phase(p).Vacant? && k !in s.Dir()
    case Sync(p) => s.Phase(p).Chosen?
    case Return(p) => s.Phase(p).Synced?
    case Forget(_) => true
    case Die(p) => !s.Phase(p).Idle?
    case Crash(i) => i < |s.images|
  }

  function Apply(s: State, a: Action): State
    requires Enabled(s, a)
  {
    match a
    case Lock(p) => s.(lock := (true, p), phases := s.phases[p := Locked])
    case Find(p, k) => s.(phases := s.phases[p := Chosen(k, |s.log|)])
    case FindNone(p) => s.(phases := s.phases[p := Vacant])
    case Create(p, k) =>
      State(s.images + [s.Dir() + {k}], s.lock, s.phases[p := Chosen(k, |s.log| + 1)], s.log + [Created(k)])
    case Sync(p) =>
      var c := s.Phase(p);
      s.(images := [s.Dir()], phases := s.phases[p := Synced(c.key, c.since)])
    case Return(p) =>
      var c := s.Phase(p);
      s.(lock := (false, p), phases := s.phases[p := Idle], log := s.log + [Returned(c.key, c.since)])
    case Forget(k) =>
      if k in s.Dir() then s.(images := s.images + [s.Dir() - {k}], log := s.log + [Forgot(k)]) else s
    case Die(p) => s.(lock := if s.Holds(p) then (false, p) else s.lock, phases := s.phases[p := Idle])
    case Crash(i) => State([s.images[i]], (false, 0), map[], s.log + [Crashed(s.images[i])])
  }

  predicate Allowed(s: State, acts: seq<Action>)
    decreases |acts|
  {
    acts == [] || (Enabled(s, acts[0]) && Allowed(Apply(s, acts[0]), acts[1..]))
  }

  function Run(s: State, acts: seq<Action>): State
    requires Allowed(s, acts)
    decreases |acts|
  {
    if acts == [] then s else Run(Apply(s, acts[0]), acts[1..])
  }

  const START := State([{}], (false, 0), map[], [])

  // ---- What the log tells ----

  /** Whether the entry `k`, there at log position `i`, is there at position `j`: the last event
      about it is not its removal, nor a crash to an image without it. */
  predicate Present(log: seq<Event>, k: Key, i: nat, j: nat)
    requires j <= |log|
    decreases j
  {
    j <= i ||
    match log[j - 1]
    case Created(l) => l == k || Present(log, k, i, j - 1)
    case Forgot(l) => l != k && Present(log, k, i, j - 1)
    case Crashed(image) => k in image
    case Returned(_, _) => Present(log, k, i, j - 1)
  }

  /** No entry for `k` was removed between log positions `i` and `j`. */
  predicate Unforgotten(log: seq<Event>, k: Key, i: nat, j: nat) {
    forall n :: i <= n < j && n < |log| ==> log[n] != Forgot(k)
  }

  lemma {:induction false} PresentPrefix(log: seq<Event>, e: Event, k: Key, i: nat, j: nat)
    requires j <= |log|
    ensures Present(log + [e], k, i, j) == Present(log, k, i, j)
    ensures Unforgotten(log + [e], k, i, j) == Unforgotten(log, k, i, j)
    decreases j
  {
    assert forall n :: 0 <= n < |log| ==> (log + [e])[n] == log[n];
    if j > i { PresentPrefix(log, e, k, i, j - 1); }
  }

  // ---- Invariant ----

  predicate AtMostOne(d: set<Key>) { forall k, l :: k in d && l in d ==> k == l }

  /** A key chosen at log position `since`: the log tells whether its entry is there, and only a
      removal, never a crash, has taken it away. */
  ghost predicate Traced(s: State, k: Key, since: nat)
    requires s.images != []
  {
    && since <= |s.log|
    && (k in s.Dir() <==> Present(s.log, k, since, |s.log|))
    && (Unforgotten(s.log, k, since, |s.log|) ==> k in s.Dir())
    && forall n :: since <= n <= |s.log| && Unforgotten(s.log, k, since, n) ==> Present(s.log, k, since, n)
  }

  /** Nor will one: the entry is in every image unless it was removed. */
  ghost predicate Durable(s: State, k: Key, since: nat) {
    Unforgotten(s.log, k, since, |s.log|) ==> forall j :: 0 <= j < |s.images| ==> k in s.images[j]
  }

  /** The key chosen at `since` is the one returned at log position `i` exactly when the log says
      that entry was still there. */
  ghost predicate Matches(log: seq<Event>, i: nat, k: Key, since: nat)
    requires i < |log| && log[i].Returned?
  {
    i < since <= |log| && (log[i].key == k <==> Present(log, log[i].key, log[i].since, since))
  }

  ghost predicate MatchesAll(log: seq<Event>, below: nat, k: Key, since: nat) {
    forall i :: 0 <= i < below && i < |log| && log[i].Returned? ==> Matches(log, i, k, since)
  }

  ghost predicate ReturnOk(s: State, i: nat)
    requires s.images != [] && i < |s.log|
  {
    s.log[i].Returned? ==>
      && s.log[i].since <= i && Traced(s, s.log[i].key, s.log[i].since) && Durable(s, s.log[i].key, s.log[i].since)
      && MatchesAll(s.log, i, s.log[i].key, s.log[i].since)
  }

  /** A call in progress holds the lock and agrees with every return. */
  ghost predicate CallOk(s: State, p: Pid)
    requires s.images != []
  {
    var c := s.Phase(p);
    && (!c.Idle? ==> s.Holds(p))
    && (c.Vacant? ==> s.Dir() == {})
    && (c.Chosen? || c.Synced? ==> Traced(s, c.key, c.since) && MatchesAll(s.log, |s.log|, c.key, c.since))
    && (c.Synced? ==> Durable(s, c.key, c.since))
  }

  ghost predicate Inv(s: State) {
    && s.images != [] && (forall j :: 0 <= j < |s.images| ==> AtMostOne(s.images[j]))
    && (forall i :: 0 <= i < |s.log| ==> ReturnOk(s, i))
    && forall p :: CallOk(s, p)
  }

  /** Steps of one call that change neither directory nor log. */
  lemma CallStep(s: State, a: Action)
    requires Inv(s) && Enabled(s, a) && (a.Lock? || a.Find? || a.FindNone? || a.Die? || a.Sync?)
    ensures Inv(Apply(s, a))
  {
    var s' := Apply(s, a);
    assert s'.log == s.log && s'.Dir() == s.Dir();
    forall i | 0 <= i < |s.log| ensures ReturnOk(s', i) { assert ReturnOk(s, i); }
    forall p ensures CallOk(s', p) {
      assert CallOk(s, p) && CallOk(s, a.p);
      if a.Find? && p == a.p { FindMatches(s, a.k); }
    }
  }

  /** The entry a call finds is that of every earlier return whose entry is still there. */
  lemma FindMatches(s: State, k: Key)
    requires Inv(s) && k in s.Dir()
    ensures Traced(s, k, |s.log|) && MatchesAll(s.log, |s.log|, k, |s.log|)
  {
    assert AtMostOne(s.images[|s.images| - 1]);
    forall i | 0 <= i < |s.log| && s.log[i].Returned? ensures Matches(s.log, i, k, |s.log|) { assert ReturnOk(s, i); }
  }

  /** A logged step: what was traced stays traced if the new event tells what happened. */
  lemma TracedNext(s: State, s': State, e: Event, k: Key, since: nat)
    requires s.images != [] && s'.images != [] && s'.log == s.log + [e] && Traced(s, k, since)
    requires k in s'.Dir() <==> Present(s'.log, k, since, |s'.log|)
    requires Unforgotten(s'.log, k, since, |s'.log|) ==> k in s'.Dir()
    ensures Traced(s', k, since)
  {
    forall n | since <= n <= |s.log| && Unforgotten(s'.log, k, since, n) ensures Present(s'.log, k, since, n) {
      PresentPrefix(s.log, e, k, since, n);
    }
  }

  lemma MatchesNext(log: seq<Event>, e: Event, below: nat, k: Key, since: nat)
    requires below <= |log| && MatchesAll(log, below, k, since)
    ensures MatchesAll(log + [e], below, k, since)
  {
    var l := log + [e];
    forall i | 0 <= i < below && i < |l| && l[i].Returned? ensures Matches(l, i, k, since) {
      assert l[i] == log[i] && Matches(log, i, k, since);
      PresentPrefix(log, e, l[i].key, l[i].since, since);
    }
  }

  /** What a logged step has to keep for each earlier return. */
  lemma ReturnNext(s: State, s': State, e: Event, i: nat)
    requires s.images != [] && s'.images != [] && s'.log == s.log + [e] && i < |s.log| && ReturnOk(s, i)
    requires s.log[i].Returned? ==>
      Traced(s', s.log[i].key, s.log[i].since) && Durable(s', s.log[i].key, s.log[i].since)
    ensures ReturnOk(s', i)
  {
    if s.log[i].Returned? { MatchesNext(s.log, e, i, s.log[i].key, s.log[i].since); }
  }

  lemma StillUnforgotten(log: seq<Event>, e: Event, k: Key, since: nat)
    requires since <= |log|
    ensures Unforgotten(log + [e], k, since, |log| + 1) ==> Unforgotten(log, k, since, |log|) && e != Forgot(k)
  {
    PresentPrefix(log, e, k, since, |log|);
    if Unforgotten(log + [e], k, since, |log| + 1) {
      assert (log + [e])[|log|] != Forgot(k);
      assert Unforgotten(log + [e], k, since, |log|);
    }
  }

  lemma PresentNext(log: seq<Event>, e: Event, k: Key, since: nat)
    requires since <= |log|
    ensures Present(log + [e], k, since, |log| + 1) ==
      match e
      case Created(l) => l == k || Present(log, k, since, |log|)
      case Forgot(l) => l != k && Present(log, k, since, |log|)
      case Crashed(image) => k in image
      case Returned(_, _) => Present(log, k, since, |log|)
  {
    PresentPrefix(log, e, k, since, |log|);
  }

  /** A logged step of the directory, for one traced key. */
  lemma TracedStep(s: State, a: Action, k: Key, since: nat)
    requires Inv(s) && Enabled(s, a) && Traced(s, k, since)
    requires a.Create? ==> s.Dir() == {}
    requires a.Crash? ==> Durable(s, k, since)
    requires a.Create? || a.Crash? || a.Return? || (a.Forget? && a.k in s.Dir())
    ensures Traced(Apply(s, a), k, since)
  {
    var s' := Apply(s, a);
    var e := s'.log[|s.log|];
    assert s'.log == s.log + [e];
    PresentNext(s.log, e, k, since);
    StillUnforgotten(s.log, e, k, since);
    TracedNext(s, s', e, k, since);
  }

  lemma DurableStep(s: State, a: Action, k: Key, since: nat)
    requires Inv(s) && Enabled(s, a) && Traced(s, k, since) && Durable(s, k, since)
    requires a.Create? ==> s.Dir() == {}
    requires a.Create? || a.Crash? || a.Return? || (a.Forget? && a.k in s.Dir())
    ensures Durable(Apply(s, a), k, since)
  {
    var s' := Apply(s, a);
    var e := s'.log[|s.log|];
    assert s'.log == s.log + [e];
    StillUnforgotten(s.log, e, k, since);
  }

  lemma ReturnsKept(s: State, a: Action)
    requires Inv(s) && Enabled(s, a) && (a.Create? ==> s.Dir() == {})
    requires a.Create? || a.Crash? || a.Return? || (a.Forget? && a.k in s.Dir())
    ensures forall i :: 0 <= i < |s.log| ==> ReturnOk(Apply(s, a), i)
  {
    var s' := Apply(s, a);
    var e := s'.log[|s.log|];
    assert s'.log == s.log + [e];
    forall i | 0 <= i < |s.log| ensures ReturnOk(s', i) {
      assert ReturnOk(s, i);
      if s.log[i].Returned? {
        TracedStep(s, a, s.log[i].key, s.log[i].since);
        DurableStep(s, a, s.log[i].key, s.log[i].since);
      }
      ReturnNext(s, s', e, i);
    }
  }

  lemma CreateStep(s: State, p: Pid, k: Key)
    requires Inv(s) && Enabled(s, Create(p, k))
    ensures Inv(Apply(s, Create(p, k)))
  {
    var s' := Apply(s, Create(p, k));
    assert CallOk(s, p) && s.Dir() == {} && s'.Dir() == {k};
    ReturnsKept(s, Create(p, k));
    forall i | 0 <= i < |s.log| && s.log[i].Returned? ensures Matches(s'.log, i, k, |s'.log|) {
      assert ReturnOk(s, i) && ReturnOk(s', i);
    }
    forall q ensures CallOk(s', q) { assert CallOk(s, q); }
    assert ReturnOk(s', |s.log|);
  }

  lemma ReturnStep(s: State, p: Pid)
    requires Inv(s) && Enabled(s, Return(p))
    ensures Inv(Apply(s, Return(p)))
  {
    var s', c := Apply(s, Return(p)), s.Phase(p);
    assert CallOk(s, p);
    ReturnsKept(s, Return(p));
    TracedStep(s, Return(p), c.key, c.since);
    DurableStep(s, Return(p), c.key, c.since);
    MatchesNext(s.log, Returned(c.key, c.since), |s.log|, c.key, c.since);
    assert ReturnOk(s', |s.log|);
    forall q ensures CallOk(s', q) { assert CallOk(s, q); }
  }

  lemma ForgetStep(s: State, k: Key)
    requires Inv(s) && k in s.Dir()
    ensures Inv(Apply(s, Forget(k)))
  {
    var s' := Apply(s, Forget(k));
    assert AtMostOne(s.images[|s.images| - 1]);
    ReturnsKept(s, Forget(k));
    assert ReturnOk(s', |s.log|);
    forall q ensures CallOk(s', q) {
      var c := s.Phase(q);
      assert CallOk(s, q);
      if c.Chosen? || c.Synced? {
        TracedStep(s, Forget(k), c.key, c.since);
        MatchesNext(s.log, Forgot(k), |s.log|, c.key, c.since);
        if c.Synced? { DurableStep(s, Forget(k), c.key, c.since); }
      }
    }
  }

  lemma CrashStep(s: State, i: nat)
    requires Inv(s) && i < |s.images|
    ensures Inv(Apply(s, Crash(i)))
  {
    var s' := Apply(s, Crash(i));
    ReturnsKept(s, Crash(i));
    assert ReturnOk(s', |s.log|);
    forall q ensures CallOk(s', q) { }
  }

  lemma StepKeeps(s: State, a: Action)
    requires Inv(s) && Enabled(s, a)
    ensures Inv(Apply(s, a))
  {
    match a
    case Create(p, k) => CreateStep(s, p, k);
    case Return(p) => ReturnStep(s, p);
    case Forget(k) => if k in s.Dir() { ForgetStep(s, k); }
    case Crash(i) => CrashStep(s, i);
    case _ => CallStep(s, a);
  }

  lemma {:induction false} RunKeeps(s: State, acts: seq<Action>)
    requires Inv(s) && Allowed(s, acts)
    ensures Inv(Run(s, acts))
    decreases |acts|
  {
    if acts != [] {
      StepKeeps(s, acts[0]);
      RunKeeps(Apply(s, acts[0]), acts[1..]);
    }
  }

  // ---- Results over every run ----

  /** Over every interleaving of calls, removals, process deaths and crashes, neither the directory
      nor any image a crash could bring back holds two UUID entries. */
  lemma OneKey(acts: seq<Action>)
    requires Allowed(START, acts)
    ensures var e := Run(START, acts); forall j :: 0 <= j < |e.images| ==> AtMostOne(e.images[j])
  {
    assert Inv(START);
    RunKeeps(START, acts);
  }

  /** Two returns of one run. They are the same key exactly when the log says that the earlier
      one's entry was there when the later call chose; and it was there if it was not removed
      between the two choices, because no crash takes away a returned key. */
  lemma DurableKey(acts: seq<Action>, i: nat, j: nat)
    requires Allowed(START, acts)
    requires var log := Run(START, acts).log; i < j < |log| && log[i].Returned? && log[j].Returned?
    ensures var log := Run(START, acts).log;
      && log[i].since <= i < log[j].since <= j
      && (log[i].key == log[j].key <==> Present(log, log[i].key, log[i].since, log[j].since))
      && (Unforgotten(log, log[i].key, log[i].since, log[j].since) ==> log[i].key == log[j].key)
  {
    assert Inv(START);
    RunKeeps(START, acts);
    var e := Run(START, acts);
    assert ReturnOk(e, i) && ReturnOk(e, j) && Matches(e.log, i, e.log[j].key, e.log[j].since);
  }

  /** No crash, and no second creation of the entry, between two log positions. */
  predicate Quiet(log: seq<Event>, k: Key, i: nat, j: nat) {
    forall n :: i <= n < j && n < |log| ==> !log[n].Crashed? && log[n] != Created(k)
  }

  lemma {:induction false} QuietPresent(log: seq<Event>, k: Key, i: nat, j: nat)
    requires i <= j <= |log| && Quiet(log, k, i, j)
    ensures Present(log, k, i, j) <==> Unforgotten(log, k, i, j)
    decreases j
  {
    if j > i {
      QuietPresent(log, k, i, j - 1);
      assert Unforgotten(log, k, i, j) <==> Unforgotten(log, k, i, j - 1) && log[j - 1] != Forgot(k);
    }
  }

  /** Without a crash between the two choices, and with fresh names for new entries, the returns
      are the same key exactly when the entry was not removed between them. */
  lemma DurableKeyWithoutCrash(acts: seq<Action>, i: nat, j: nat)
    requires Allowed(START, acts)
    requires var log := Run(START, acts).log; i < j < |log| && log[i].Returned? && log[j].Returned?
    requires var log := Run(START, acts).log; Quiet(log, log[i].key, log[i].since, log[j].since)
    ensures var log := Run(START, acts).log;
      log[i].key == log[j].key <==> Unforgotten(log, log[i].key, log[i].since, log[j].since)
  {
    DurableKey(acts, i, j);
    var log := Run(START, acts).log;
    QuietPresent(log, log[i].key, log[i].since, log[j].since);
  }

  // ---- Why the choices and not the returns are what counts ----

  ghost predicate Reaches(s: State, e: State) { exists acts :: Allowed(s, acts) && Run(s, acts) == e }

  lemma First(s: State, a: Action, e: State)
    requires Enabled(s, a) && Reaches(Apply(s, a), e)
    ensures Reaches(s, e)
  {
    var acts :| Allowed(Apply(s, a), acts) && Run(Apply(s, a), acts) == e;
    assert ([a] + acts)[1..] == acts;
    assert Allowed(s, [a] + acts) && Run(s, [a] + acts) == e;
  }

  lemma Here(s: State)
    ensures Reaches(s, s)
  {
    assert Allowed(s, []) && Run(s, []) == s;
  }

  function Ended(s: State, p: Pid, dir: set<Key>, log: seq<Event>): State {
    State([dir], (false, p), s.phases[p := Idle], s.log + log)
  }

  /** The end of a call: sync and return. */
  lemma SyncAndReturn(s: State, p: Pid, e: State)
    requires s.images != [] && s.Phase(p).Chosen?
    requires Reaches(Ended(s, p, s.Dir(), [Returned(s.Phase(p).key, s.Phase(p).since)]), e)
    ensures Reaches(s, e)
  {
    var s1 := Apply(s, Sync(p));
    assert Apply(s1, Return(p)).phases == s.phases[p := Idle];
    First(s1, Return(p), e);
    First(s, Sync(p), e);
  }

  /** A whole call that finds the directory empty and creates its key. */
  lemma CreatingCall(s: State, p: Pid, k: Key, e: State)
    requires s.images == [{}] && !s.lock.0 && s.Phase(p).Idle?
    requires Reaches(Ended(s, p, {k}, [Created(k), Returned(k, |s.log| + 1)]), e)
    ensures Reaches(s, e)
  {
    var s1 := Apply(s, Lock(p));
    var s2 := Apply(s1, FindNone(p));
    var s3 := Apply(s2, Create(p, k));
    assert s3.Dir() == {k} && s3.phases[p := Idle] == s.phases[p := Idle];
    var log := [Returned(k, |s.log| + 1)];
    assert s3.log + log == s.log + ([Created(k)] + log) && [Created(k)] + log == [Created(k), Returned(k, |s.log| + 1)];
    SyncAndReturn(s3, p, e);
    First(s2, Create(p, k), e);
    First(s1, FindNone(p), e);
    First(s, Lock(p), e);
  }

  /** A whole call that finds `k`; when `raced`, the entry is removed before it syncs. */
  lemma FindingCall(s: State, p: Pid, k: Key, raced: bool, e: State)
    requires s.images == [{k}] && !s.lock.0 && s.Phase(p).Idle?
    requires var removal := if raced then [Forgot(k)] else [];
      Reaches(Ended(s, p, if raced then {} else {k}, removal + [Returned(k, |s.log|)]), e)
    ensures Reaches(s, e)
  {
    var s1 := Apply(s, Lock(p));
    var s2 := Apply(s1, Find(p, k));
    var s3 := if raced then Apply(s2, Forget(k)) else s2;
    var removal := if raced then [Forgot(k)] else [];
    assert s3.phases[p := Idle] == s.phases[p := Idle] && s3.Dir() == if raced then {} else {k};
    assert s3.log + [Returned(k, |s.log|)] == s.log + (removal + [Returned(k, |s.log|)]);
    SyncAndReturn(s3, p, e);
    if raced { First(s2, Forget(k), e); }
    First(s1, Find(p, k), e);
    First(s, Lock(p), e);
  }

  ghost predicate Possible(log: seq<Event>) { exists e :: Reaches(START, e) && e.log == log }

  const FIRST: map<Pid, Phase> := map[0 := Idle]

  /** The first call of a run, which creates `k`. */
  lemma StartsWith(k: Key, e: State)
    requires Reaches(State([{k}], (false, 0), FIRST, [Created(k), Returned(k, 1)]), e)
    ensures Reaches(START, e)
  {
    assert START.phases[0 := Idle] == FIRST;
    assert [] + [Created(k), Returned(k, 1)] == [Created(k), Returned(k, 1)];
    CreatingCall(START, 0, k, e);
  }

  /** A removal that lands inside a call separates it from later calls even though no removal
      happens between the two returns: key `k` is returned, then another key. */
  lemma ForgetDuringCallSeparates(k: Key, l: Key)
    ensures Possible([Created(k), Returned(k, 1), Forgot(k), Returned(k, 2), Created(l), Returned(l, 5)])
  {
    assert FIRST[0 := Idle] == FIRST;
    var s1 := State([{k}], (false, 0), FIRST, [Created(k), Returned(k, 1)]);
    var s2 := State([{}], (false, 0), FIRST, s1.log + [Forgot(k), Returned(k, 2)]);
    var e := State([{l}], (false, 0), FIRST, s2.log + [Created(l), Returned(l, 5)]);
    Here(e);
    CreatingCall(s2, 0, l, e);
    assert [Forgot(k)] + [Returned(k, 2)] == [Forgot(k), Returned(k, 2)];
    FindingCall(s1, 0, k, true, e);
    StartsWith(k, e);
    assert e.log == [Created(k), Returned(k, 1), Forgot(k), Returned(k, 2), Created(l), Returned(l, 5)];
  }

  /** A removal between two choices need not separate the returns: a crash can bring the entry
      back. */
  lemma CrashRestoresForgotten(k: Key)
    ensures Possible([Created(k), Returned(k, 1), Forgot(k), Crashed({k}), Returned(k, 4)])
  {
    var s1 := State([{k}], (false, 0), FIRST, [Created(k), Returned(k, 1)]);
    var s2 := Apply(s1, Forget(k));
    var s3 := Apply(s2, Crash(0));
    assert s3 == State([{k}], (false, 0), map[], s1.log + [Forgot(k)] + [Crashed({k})]);
    var e := State([{k}], (false, 0), FIRST, s3.log + [Returned(k, 4)]);
    Here(e);
    assert map[][0 := Idle] == FIRST && [] + [Returned(k, 4)] == [Returned(k, 4)];
    FindingCall(s3, 0, k, false, e);
    First(s2, Crash(0), e);
    First(s1, Forget(k), e);
    StartsWith(k, e);
    assert e.log == [Created(k), Returned(k, 1), Forgot(k), Crashed({k}), Returned(k, 4)];
  }

  // ---- Calls can be made ----

  /** A run of `p` alone after which it has returned `k`, the directory holds exactly `k`, and the lock
      is free. */
  ghost predicate Completes(s: State, acts: seq<Action>, p: Pid, k: Key) {
    && Allowed(s, acts) && (forall i :: 0 <= i < |acts| ==> Own(acts[i], p))
    && var e := Run(s, acts);
      && e.images == [{k}] && !e.lock.0 && e.Phase(p).Idle?
      && |e.log| > |s.log| && e.log[|e.log| - 1].Returned? && e.log[|e.log| - 1].key == k
  }

  predicate Own(a: Action, p: Pid) {
    match a
    case Lock(q) => q == p
    case Find(q, _) => q == p
    case FindNone(q) => q == p
    case Create(q, _) => q == p
    case Sync(q) => q == p
    case Return(q) => q == p
    case _ => false
  }

  lemma CompletesFirst(s: State, a: Action, acts: seq<Action>, p: Pid, k: Key)
    requires Enabled(s, a) && Own(a, p) && |Apply(s, a).log| >= |s.log| && Completes(Apply(s, a), acts, p, k)
    ensures Completes(s, [a] + acts, p, k)
  {
    assert ([a] + acts)[1..] == acts;
  }

  lemma ReturnCompletes(s: State, p: Pid, k: Key)
    requires Enabled(s, Return(p)) && s.images == [{k}] && s.Phase(p).key == k
    ensures Completes(s, [Return(p)], p, k)
  {
    assert [Return(p)][1..] == [];
    assert Run(Apply(s, Return(p)), []) == Apply(s, Return(p));
  }

  lemma SyncCompletes(s: State, p: Pid, k: Key)
    requires Enabled(s, Sync(p)) && s.Dir() == {k} && s.Phase(p).key == k
    ensures Completes(s, [Sync(p)] + [Return(p)], p, k)
  {
    ReturnCompletes(Apply(s, Sync(p)), p, k);
    CompletesFirst(s, Sync(p), [Return(p)], p, k);
  }

  /** An idle process can make a call whenever the lock is free: it returns the key that is there, or
      any key that it makes up when there is none. */
  lemma CallCompletes(s: State, p: Pid, k: Key)
    requires Inv(s) && s.Phase(p).Idle? && !s.lock.0 && (s.Dir() == {} || k in s.Dir())
    ensures exists acts :: Completes(s, acts, p, k)
  {
    var locked := Apply(s, Lock(p));
    if s.Dir() == {} {
      var vacant := Apply(locked, FindNone(p));
      var chosen := Apply(vacant, Create(p, k));
      SyncCompletes(chosen, p, k);
      CompletesFirst(vacant, Create(p, k), [Sync(p)] + [Return(p)], p, k);
      CompletesFirst(locked, FindNone(p), [Create(p, k)] + ([Sync(p)] + [Return(p)]), p, k);
      CompletesFirst(s, Lock(p), [FindNone(p)] + ([Create(p, k)] + ([Sync(p)] + [Return(p)])), p, k);
    } else {
      assert AtMostOne(s.images[|s.images| - 1]) && s.Dir() == {k};
      SyncCompletes(Apply(locked, Find(p, k)), p, k);
      CompletesFirst(locked, Find(p, k), [Sync(p)] + [Return(p)], p, k);
      CompletesFirst(s, Lock(p), [Find(p, k)] + ([Sync(p)] + [Return(p)]), p, k);
    }
  }

  /** A process that dies in a call, or a crash, lets go of the lock and leaves the directory to the
      images there are. */
  lemma DeathFreesLock(s: State, p: Pid)
    requires Inv(s) && !s.Phase(p).Idle?
    ensures Enabled(s, Die(p)) && !Apply(s, Die(p)).lock.0 && Apply(s, Die(p)).images == s.images
    ensures forall i: nat :: i < |s.images| ==>
      Enabled(s, Crash(i)) && !Apply(s, Crash(i)).lock.0 && Apply(s, Crash(i)).images == [s.images[i]]
  {
    assert CallOk(s, p);
  }
}
