/** Unknown-outcome recovery: send, observe, replay the identical request, within three sends,
    six observations and one deadline, against an owner to whom the request is idempotent. */
module Recovery {
  import opened Basics

  const RECOVERY_ATTEMPTS: nat := 3

  /** A caught failure; `Other` is a transport error, a timeout or an OS error. */
  datatype Failure =
    | Http(status: nat, retryAfter: Option<nat>)
    | Malformed(httpStatus: Option<nat>, retryAfter: Option<nat>)
    | Other(retryAfter: Option<nat>)

  /** Anything but an authorization refusal may hide a completed request. */
  predicate MayHaveCompleted(f: Failure) {
    match f
    case Http(status, _) => status != 401 && status != 403
    case Malformed(status, _) => status != Some(401) && status != Some(403)
    case Other(_) => true
  }

  /** One request as its client sees it: what the owner makes of it, whether the client accepts the
      owner's answer, and whether an observation of the owner shows the request done. */
  datatype Service<!O> = Service(deliver: O -> O, acked: O -> bool, shown: O -> bool)

  /** Delivering the request again changes nothing. */
  ghost predicate Idempotent<O(!new)>(s: Service<O>) { forall o :: s.deliver(s.deliver(o)) == s.deliver(o) }

  /** What shows the request done is left alone by it. */
  ghost predicate Settling<O(!new)>(s: Service<O>) { forall o :: s.shown(o) ==> s.deliver(o) == o }

  /** What becomes of one send: answered, or broken with the request applied or not. */
  datatype SendFate = Answered | Broken(reached: bool, failure: Failure)

  /** What becomes of one observation; the owner answers truthfully. */
  datatype ObserveFate = Shown | Unseen(failure: Failure)

  /** The environment, by call number: fates, durations, and requests that were sent earlier
      and only now reach the owner. */
  datatype World = World(
    send: nat -> SendFate,
    observe: nat -> ObserveFate,
    took: (nat, real) -> real,
    straggler: nat -> bool)

  /** Calls and sleeps keep their budgets. */
  ghost predicate Punctual(w: World) {
    forall n, budget :: budget > 0.0 ==> 0.0 <= w.took(n, budget) <= budget
  }

  datatype Event =
    | Sent(at: real, budget: real, failure: Option<Failure>)
    | Observed(at: real, budget: real, seen: bool, failure: Option<Failure>)
    | Slept(at: real, budget: real)

  datatype Result = InvalidTimeout | Returned | Raised(failure: Failure) | Unknown

  /** One use of recovery: the world, the request, the owner it finds, and the time it has. */
  datatype Case<!O> = Case(world: World, service: Service<O>, before: O, start: real, timeout: real) {
    function Deadline(): real { start + 3.0 * timeout }
  }

  // ---- What a log of events says ----

  function Sends(events: seq<Event>): nat {
    if events == [] then 0 else Sends(events[..|events| - 1]) + if events[|events| - 1].Sent? then 1 else 0
  }

  function Observations(events: seq<Event>): nat {
    if events == [] then 0 else Observations(events[..|events| - 1]) + if events[|events| - 1].Observed? then 1 else 0
  }

  predicate NotFound(f: Failure) { f.Http? && f.status == 404 }

  /** The request is known to be done. */
  predicate Confirms(e: Event) { (e.Sent? && e.failure.None?) || (e.Observed? && e.failure.None? && e.seen) }

  /** The caller is not authorized. */
  predicate Forbids(e: Event) { (e.Sent? || e.Observed?) && e.failure.Some? && !MayHaveCompleted(e.failure.value) }

  /** A failure that leaves the outcome unknown. */
  predicate Fails(e: Event) {
    (e.Sent? && e.failure.Some?) || (e.Observed? && e.failure.Some? && !NotFound(e.failure.value))
  }

  function LastFailure(events: seq<Event>): Option<Failure> {
    if events == [] then None else
    var e := events[|events| - 1];
    if Fails(e) then e.failure else LastFailure(events[..|events| - 1])
  }

  predicate Decided(events: seq<Event>) {
    events != [] && (Confirms(events[|events| - 1]) || Forbids(events[|events| - 1]))
  }

  function Min(a: real, b: real): real { if a <= b then a else b }
  function Max(a: real, b: real): real { if a >= b then a else b }

  /** The pause after an attempt, stretched by the peer's retry hint, never past the deadline. */
  function Delay(attempt: nat, left: real, last: Failure): (d: real)
    ensures if left >= 0.0 then 0.0 <= d <= left else d == 0.0
  {
    var base := Min(if attempt == 0 then 0.1 else if attempt == 1 then 0.2 else 0.4, Max(0.0, left));
    if last.retryAfter.None? then base else
    var budget, asked := Max(0.0, left), last.retryAfter.value as real;
    Max(base, if asked >= budget then budget else asked)
  }

  // ---- The script ----

  datatype Move = DoSend | DoObserve | DoSleep(pause: real) | Stop

  /** What is due after a log: every send is observed, an observation that fails is made once more,
      and then comes a pause and the next send, up to three. */
  function Due(events: seq<Event>, left: real): Move {
    if events == [] then DoSend else
    var n := |events| - 1;
    if events[n].Sent? then DoObserve
    else if events[n].Slept? then DoSend
    else if Fails(events[n]) && n > 0 && events[n - 1].Sent? then DoObserve
    else if Sends(events) >= RECOVERY_ATTEMPTS then Stop
    else
      var hint := LastFailure(events);
      var d := Delay(if Sends(events) == 0 then 0 else Sends(events) - 1, left,
                     if hint.Some? then hint.value else Other(None));
      if d > 0.0 then DoSleep(d) else DoSend
  }

  /** A request sent earlier may only now reach the owner. */
  function Met<O>(c: Case<O>, o: O, n: nat): O {
    if n > 0 && c.world.straggler(n) then c.service.deliver(o) else o
  }

  predicate Reaches(fate: SendFate) { fate.Answered? || fate.reached }

  function Posted<O>(c: Case<O>, o: O, n: nat): O {
    if Reaches(c.world.send(n)) then c.service.deliver(Met(c, o, n)) else Met(c, o, n)
  }

  /** The owner after a log. */
  function OwnerAfter<O>(c: Case<O>, events: seq<Event>): O
    decreases |events|
  {
    if events == [] then c.before else
    var n := |events| - 1;
    var o := OwnerAfter(c, events[..n]);
    if events[n].Sent? then Posted(c, o, n) else if events[n].Observed? then Met(c, o, n) else o
  }

  /** The time after a log. */
  function Clock<O>(c: Case<O>, events: seq<Event>): real
    decreases |events|
  {
    if events == [] then c.start else
    Clock(c, events[..|events| - 1]) + c.world.took(|events| - 1, events[|events| - 1].budget)
  }

  function Left<O>(c: Case<O>, events: seq<Event>): real { c.Deadline() - Clock(c, events) }

  function Sending<O>(c: Case<O>, events: seq<Event>): Event {
    var fate := c.world.send(|events|);
    var owner := Posted(c, OwnerAfter(c, events), |events|);
    var failure :=
      if fate.Broken? then Some(fate.failure) else if c.service.acked(owner) then None else Some(Malformed(None, None));
    Sent(Clock(c, events), Min(c.timeout, Left(c, events)), failure)
  }

  function Observing<O>(c: Case<O>, events: seq<Event>): Event {
    var n := |events|;
    var at, budget := Clock(c, events), Min(c.timeout, Left(c, events));
    match c.world.observe(n)
    case Shown => Observed(at, budget, c.service.shown(Met(c, OwnerAfter(c, events), n)), None)
    case Unseen(f) => Observed(at, budget, false, Some(f))
  }

  /** The next event of the run, if there is one: a call needs time. */
  function Turn<O>(c: Case<O>, events: seq<Event>): Option<Event> {
    if Decided(events) then None else
    match Due(events, Left(c, events))
    case DoSend => if Left(c, events) > 0.0 then Some(Sending(c, events)) else None
    case DoObserve => if Left(c, events) > 0.0 then Some(Observing(c, events)) else None
    case DoSleep(d) => Some(Slept(Clock(c, events), d))
    case Stop => None
  }

  /** The log is a run of the script. */
  predicate Played<O>(c: Case<O>, events: seq<Event>) {
    events == [] ||
    (Played(c, events[..|events| - 1]) && Turn(c, events[..|events| - 1]) == Some(events[|events| - 1]))
  }

  /** What a run that is over amounts to. */
  function Ending<O>(c: Case<O>, events: seq<Event>): Result {
    if Decided(events) then
      var e := events[|events| - 1];
      if Confirms(e) then Returned else Raised(e.failure.value)
    else
      var last := LastFailure(events);
      if Due(events, Left(c, events)).Stop? && last.Some? && last.value.Http? then Raised(last.value) else Unknown
  }

  // ---- The loop ----

  /** Where a run stands: the owner, what the client did, and the time. */
  datatype Trail<O> = Trail(owner: O, events: seq<Event>, now: real)

  ghost predicate Stands<O>(c: Case<O>, t: Trail<O>) {
    Played(c, t.events) && t.owner == OwnerAfter(c, t.events) && t.now == Clock(c, t.events) && c.timeout > 0.0
  }

  ghost predicate Ended<O>(c: Case<O>, t: Trail<O>, r: Result) {
    Stands(c, t) && Turn(c, t.events) == None && r == Ending(c, t.events)
  }

  ghost function Expects<O>(c: Case<O>, t: Trail<O>): Move { Due(t.events, c.Deadline() - t.now) }

  /** Time is up for the call that is due, and that is the last failure. */
  ghost predicate Late<O>(c: Case<O>, t: Trail<O>, last: Failure) {
    && Stands(c, t) && !Decided(t.events) && t.now >= c.Deadline()
    && (Expects(c, t).DoSend? || Expects(c, t).DoObserve?) && last == Other(None)
  }

  /** This move is due, and the last failure is the log's. */
  ghost predicate Poised<O>(c: Case<O>, t: Trail<O>, sends: nat, last: Failure) {
    && Stands(c, t) && !Decided(t.events) && Sends(t.events) == sends
    && (sends > 0 ==> LastFailure(t.events) == Some(last))
  }

  lemma Snoc<O>(c: Case<O>, t: Trail<O>, e: Event, t': Trail<O>)
    requires Stands(c, t) && Turn(c, t.events) == Some(e)
    requires t'.events == t.events + [e] && t'.now == t.now + c.world.took(|t.events|, e.budget)
    requires var n := |t.events|;
      t'.owner == if e.Sent? then Posted(c, t.owner, n) else if e.Observed? then Met(c, t.owner, n) else t.owner
    ensures Stands(c, t')
    ensures Sends(t'.events) == Sends(t.events) + if e.Sent? then 1 else 0
    ensures LastFailure(t'.events) == if Fails(e) then e.failure else LastFailure(t.events)
  {
    assert t'.events[..|t.events|] == t.events;
  }

  predicate LastSent(events: seq<Event>) { events != [] && events[|events| - 1].Sent? }

  predicate LastObserved(events: seq<Event>) { events != [] && events[|events| - 1].Observed? }

  /** A send decides the run, or leaves its outcome to an observation. */
  lemma SendNext<O>(c: Case<O>, t: Trail<O>, sends: nat, last: Failure, e: Event, t': Trail<O>)
    requires Poised(c, t, sends, last) && Expects(c, t).DoSend? && t.now < c.Deadline() && e == Sending(c, t.events)
    requires t' == Trail(Posted(c, t.owner, |t.events|), t.events + [e], t.now + c.world.took(|t.events|, e.budget))
    ensures e.failure.None? ==> Ended(c, t', Returned)
    ensures e.failure.Some? && !MayHaveCompleted(e.failure.value) ==> Ended(c, t', Raised(e.failure.value))
    ensures e.failure.Some? && MayHaveCompleted(e.failure.value) ==>
      Poised(c, t', sends + 1, e.failure.value) && LastSent(t'.events)
  {
    Snoc(c, t, e, t');
  }

  method Send<O>(c: Case<O>, t: Trail<O>, attempt: nat, last: Failure)
    returns (t': Trail<O>, decided: Option<Result>, last': Failure)
    requires Late(c, t, last) || (Poised(c, t, attempt, last) && Expects(c, t).DoSend?)
    ensures decided.Some? ==> Ended(c, t', decided.value)
    ensures decided.None? ==> Late(c, t', last') || (Poised(c, t', attempt + 1, last') && LastSent(t'.events))
  {
    var n, budget := |t.events|, Min(c.timeout, c.Deadline() - t.now);
    if budget <= 0.0 { return t, None, Other(None); } // the deadline error is caught like any other
    var owner, fate := Met(c, t.owner, n), c.world.send(n);
    if fate.Answered? || fate.reached { owner := c.service.deliver(owner); }
    var failure :=
      if fate.Broken? then Some(fate.failure) else if c.service.acked(owner) then None else Some(Malformed(None, None));
    var event := Sent(t.now, budget, failure);
    t' := Trail(owner, t.events + [event], t.now + c.world.took(n, budget));
    assert event == Sending(c, t.events);
    SendNext(c, t, attempt, last, event, t');
    if failure.None? { return t', Some(Returned), last; }
    if !MayHaveCompleted(failure.value) { return t', Some(Raised(failure.value)), last; }
    return t', None, failure.value;
  }

  /** An observation is due, or time is up. */
  ghost predicate Looking<O>(c: Case<O>, t: Trail<O>, sends: nat, last: Failure) {
    Late(c, t, last) || (Poised(c, t, sends, last) && Expects(c, t).DoObserve?)
  }

  /** The looking is over, or time is up. */
  ghost predicate Looked<O>(c: Case<O>, t: Trail<O>, sends: nat, last: Failure) {
    Late(c, t, last) ||
    (Poised(c, t, sends, last) && LastObserved(t.events) && !Expects(c, t).DoObserve?)
  }

  /** One observation more, and it failed. */
  ghost predicate LookFailed<O>(c: Case<O>, t: Trail<O>, t': Trail<O>, sends: nat, last: Failure) {
    Poised(c, t', sends, last) && LastObserved(t'.events) &&
    var n := |t'.events| - 1;
    t'.events[..n] == t.events && Fails(t'.events[n])
  }

  /** After a send it is due again, after an observation not. */
  lemma AfterLook<O>(c: Case<O>, t: Trail<O>, t': Trail<O>, sends: nat, last: Failure)
    requires LookFailed(c, t, t', sends, last)
    ensures LastSent(t.events) ==> Looking(c, t', sends, last)
    ensures LastObserved(t.events) ==> Looked(c, t', sends, last)
  {
    var n := |t'.events| - 1;
    assert n > 0 ==> t'.events[..n][n - 1] == t'.events[n - 1];
  }

  /** One observation: it confirms, ends the looking, or fails. */
  method LookOnce<O>(c: Case<O>, t: Trail<O>, sends: nat, last: Failure)
    returns (t': Trail<O>, decided: Option<Result>, failed: Option<Failure>)
    requires sends > 0 && Looking(c, t, sends, last)
    ensures decided.Some? ==> Ended(c, t', decided.value)
    ensures decided.None? && failed.None? ==> Looked(c, t', sends, last)
    ensures decided.None? && failed.Some? ==> Late(c, t', failed.value) || LookFailed(c, t, t', sends, failed.value)
  {
    var n, budget := |t.events|, Min(c.timeout, c.Deadline() - t.now);
    if budget <= 0.0 { return t, None, Some(Other(None)); }
    var owner, fate := Met(c, t.owner, n), c.world.observe(n);
    var seen := fate.Shown? && c.service.shown(owner);
    var event := Observed(t.now, budget, seen, if fate.Shown? then None else Some(fate.failure));
    t' := Trail(owner, t.events + [event], t.now + c.world.took(n, budget));
    Snoc(c, t, event, t');
    if seen { return t', Some(Returned), None; }
    if fate.Unseen? && !MayHaveCompleted(fate.failure) { return t', Some(Raised(fate.failure)), None; }
    if fate.Shown? || NotFound(fate.failure) { return t', None, None; }
    return t', None, Some(fate.failure);
  }

  /** Up to two observations after a send whose outcome is unknown. */
  method Look<O>(c: Case<O>, t: Trail<O>, sends: nat, last: Failure)
    returns (t': Trail<O>, decided: Option<Result>, last': Failure)
    requires sends > 0
    requires Late(c, t, last) || (Poised(c, t, sends, last) && LastSent(t.events))
    ensures decided.Some? ==> Ended(c, t', decided.value)
    ensures decided.None? ==> Looked(c, t', sends, last')
  {
    t', decided, last' := t, None, last;
    var looks := 0;
    while looks < 2
      invariant looks <= 2 && decided.None? && (looks == 0 ==> t' == t && last' == last)
      invariant looks == 1 ==> Looking(c, t', sends, last') && (Late(c, t', last') || LastObserved(t'.events))
      invariant looks == 2 ==> Looked(c, t', sends, last')
    {
      var failed;
      ghost var was := t';
      t', decided, failed := LookOnce(c, t', sends, last');
      if decided.Some? || failed.None? { return; }
      if !Late(c, t', failed.value) { AfterLook(c, was, t', sends, failed.value); }
      last', looks := failed.value, looks + 1;
    }
  }

  /** `_recover`: the loop is the script, to its end. So there are at most three sends and six
      observations, each within the budget; the first is a send at once; a confirmation or an
      authorization refusal is the last thing that happens and decides the result, and without one
      three sends are made or the time is used up; the owner is left as it was or has received this
      request; a return has the owner's accepted answer or an observation that shows the request
      done, and an answer the client accepts is a return; no request is replayed without an
      observation since it was last sent; and when calls and sleeps keep their budgets, it is over
      by `start + 3 * timeout`. */
  method Recover<O(!new)>(w: World, service: Service<O>, timeout: real, start: real, before: O)
    returns (result: Result, t: Trail<O>)
    requires Idempotent(service)
    ensures result.InvalidTimeout? <==> timeout <= 0.0
    ensures timeout <= 0.0 ==> t == Trail(before, [], start)
    ensures timeout > 0.0 ==> Ended(Case(w, service, before, start, timeout), t, result)
    ensures Sends(t.events) <= 3 && Observations(t.events) <= 6
    ensures timeout > 0.0 ==> t.events != [] && t.events[0].Sent? && t.events[0].at == start
    ensures t.owner == before || t.owner == service.deliver(before)
    ensures result.Returned? ==> service.acked(t.owner) || service.shown(t.owner)
    ensures result.Returned? && Settling(service) ==> t.owner == service.deliver(before)
    ensures timeout > 0.0 && service.acked(service.deliver(before)) && w.send(0).Answered? ==> result.Returned?
    ensures timeout > 0.0 ==> InBudget(t.events, start + 3.0 * timeout, timeout)
    ensures t.events != [] ==> Undecided(t.events[..|t.events| - 1])
    ensures result.Returned? <==> t.events != [] && Confirms(t.events[|t.events| - 1])
    ensures t.events != [] && Forbids(t.events[|t.events| - 1]) ==>
      result == Raised(t.events[|t.events| - 1].failure.value)
    ensures timeout > 0.0 && !Decided(t.events) ==> Sends(t.events) == 3 || t.now >= start + 3.0 * timeout
    ensures Reconciled(t.events)
    ensures Punctual(w) && timeout > 0.0 ==> t.now <= start + 3.0 * timeout
  {
    t := Trail(before, [], start);
    if timeout <= 0.0 { return InvalidTimeout, t; }
    var c := Case(w, service, before, start, timeout);
    result, t := Attempts(c, t);
    RunStarts(c, t.events);
    RunKeeps(c, t.events);
    RunOwner(c, t.events);
    ReturnsAt(c, t.events, 0);
    RunReturns(c, t.events);
    if !Decided(t.events) { RunExhausts(c, t.events); }
    if Punctual(w) { RunPunctual(c, t.events); }
  }

  /** The attempts, from the first send on. */
  method Attempts<O>(c: Case<O>, start: Trail<O>) returns (result: Result, t: Trail<O>)
    requires c.timeout > 0.0 && start == Trail(c.before, [], c.start)
    ensures Ended(c, t, result)
  {
    t := start;
    var last := Other(None);
    var attempt := 0;
    while attempt < RECOVERY_ATTEMPTS
      invariant attempt <= 3
      invariant Late(c, t, last) || Ready(c, t, attempt, last)
    {
      var decided;
      t, decided, last := Send(c, t, attempt, last);
      if decided.Some? { return decided.value, t; }
      t, decided, last := Look(c, t, attempt + 1, last);
      if decided.Some? { return decided.value, t; }
      t := Sleep(c, t, attempt, last);
      attempt := attempt + 1;
    }
    result := if last.Http? then Raised(last) else Unknown;
  }

  /** The next attempt is due, or none is left. */
  ghost predicate Ready<O>(c: Case<O>, t: Trail<O>, attempt: nat, last: Failure) {
    Poised(c, t, attempt, last) && Expects(c, t) == if attempt < 3 then DoSend else Stop
  }

  /** The pause between two attempts. */
  method Sleep<O>(c: Case<O>, t: Trail<O>, attempt: nat, last: Failure) returns (t': Trail<O>)
    requires attempt < 3 && Looked(c, t, attempt + 1, last)
    ensures Late(c, t', last) || Ready(c, t', attempt + 1, last)
  {
    var delay := Delay(attempt, c.Deadline() - t.now, last);
    t' := t;
    if attempt + 1 < RECOVERY_ATTEMPTS && delay > 0.0 {
      var event := Slept(t.now, delay);
      t' := Trail(t.owner, t.events + [event], t.now + c.world.took(|t.events|, delay));
      Snoc(c, t, event, t');
    }
  }

  // ---- What every run keeps ----

  /** Every call starts before the deadline and is given no more than is left of it. */
  ghost predicate InBudget(events: seq<Event>, deadline: real, timeout: real) {
    forall i :: 0 <= i < |events| ==>
      && 0.0 < events[i].budget && events[i].at + events[i].budget <= deadline
      && (events[i].Slept? || events[i].budget <= timeout)
  }

  /** Nothing decisive has happened yet. */
  ghost predicate Undecided(events: seq<Event>) {
    forall i :: 0 <= i < |events| ==> !Confirms(events[i]) && !Forbids(events[i])
  }

  /** A send whose outcome nobody has tried to observe since. */
  predicate Unreconciled(events: seq<Event>) {
    events != [] && var e := events[|events| - 1];
    e.Sent? || (e.Slept? && Unreconciled(events[..|events| - 1]))
  }

  /** Every send is the first, or follows an observation made since the one before it. */
  ghost predicate Reconciled(events: seq<Event>) {
    forall i :: 0 <= i < |events| && events[i].Sent? ==> !Unreconciled(events[..i])
  }

  /** How far a run is with its sends and observations. */
  predicate Counted(events: seq<Event>) {
    Sends(events) <= 3 && Observations(events) <= 2 * Sends(events) && (events == [] ||
    var n := |events| - 1;
    && events[0].Sent?
    && (events[n].Sent? ==> Observations(events) + 2 <= 2 * Sends(events))
    && (events[n].Observed? && n > 0 && events[n - 1].Sent? ==> Observations(events) + 1 <= 2 * Sends(events))
    && (events[n].Slept? ==> Sends(events) < 3 && !Unreconciled(events)))
  }

  lemma CountedNext<O>(c: Case<O>, events: seq<Event>, e: Event)
    requires Counted(events) && Turn(c, events) == Some(e) && c.timeout > 0.0
    ensures Counted(events + [e])
    ensures 0.0 < e.budget && e.at + e.budget <= c.Deadline() && (e.Slept? || e.budget <= c.timeout)
    ensures e.Sent? ==> !Unreconciled(events)
  {
    var now := events + [e];
    assert now[..|events|] == events;
  }

  lemma {:induction false} EventIs<O>(c: Case<O>, events: seq<Event>, i: nat)
    requires Played(c, events) && i < |events|
    ensures Played(c, events[..i]) && Turn(c, events[..i]) == Some(events[i])
    decreases |events|
  {
    var n := |events| - 1;
    if i < n {
      EventIs(c, events[..n], i);
      assert events[..n][..i] == events[..i];
    }
  }

  lemma {:induction false} RunCounts<O>(c: Case<O>, events: seq<Event>)
    requires Played(c, events) && c.timeout > 0.0
    ensures Counted(events)
  {
    if events != [] {
      var n := |events| - 1;
      RunCounts(c, events[..n]);
      CountedNext(c, events[..n], events[n]);
      assert events == events[..n] + [events[n]];
    }
  }

  lemma RunKeeps<O>(c: Case<O>, events: seq<Event>)
    requires Played(c, events) && c.timeout > 0.0
    ensures Counted(events) && InBudget(events, c.Deadline(), c.timeout) && Reconciled(events)
    ensures events != [] ==> Undecided(events[..|events| - 1])
  {
    RunCounts(c, events);
    forall i | 0 <= i < |events|
      ensures 0.0 < events[i].budget && events[i].at + events[i].budget <= c.Deadline()
      ensures events[i].Slept? || events[i].budget <= c.timeout
      ensures events[i].Sent? ==> !Unreconciled(events[..i])
      ensures i < |events| - 1 ==> !Confirms(events[i]) && !Forbids(events[i])
    {
      EventIs(c, events, i);
      RunCounts(c, events[..i]);
      CountedNext(c, events[..i], events[i]);
      if i < |events| - 1 { EventIs(c, events, i + 1); }
    }
  }

  /** A run begins with a send. */
  lemma RunStarts<O>(c: Case<O>, events: seq<Event>)
    requires Played(c, events) && Turn(c, events) == None && c.timeout > 0.0
    ensures events != [] && events[0] == Sending(c, []) && events[0].at == c.start && events[0].budget == c.timeout
  {
    if events != [] {
      EventIs(c, events, 0);
      assert events[..0] == [];
    }
  }

  /** In event `i` the request reaches the owner: this send, or one made before that comes late. */
  predicate Arrives<O>(c: Case<O>, events: seq<Event>, i: nat)
    requires i < |events|
  {
    || (events[i].Sent? && (c.world.send(i).Answered? || c.world.send(i).reached))
    || (i > 0 && !events[i].Slept? && c.world.straggler(i))
  }

  ghost predicate Received<O>(c: Case<O>, events: seq<Event>) {
    exists i :: 0 <= i < |events| && Arrives(c, events, i)
  }

  lemma ReceivedNext<O>(c: Case<O>, events: seq<Event>)
    requires events != []
    ensures var n := |events| - 1; Received(c, events) <==> Received(c, events[..n]) || Arrives(c, events, n)
  {
    var n := |events| - 1;
    if i :| 0 <= i < |events[..n]| && Arrives(c, events[..n], i) { assert Arrives(c, events, i); }
    if i :| 0 <= i < n && Arrives(c, events, i) { assert Arrives(c, events[..n], i); }
  }

  /** The owner has received the request exactly when it reached the owner in some event. */
  lemma {:induction false} RunOwner<O(!new)>(c: Case<O>, events: seq<Event>)
    requires Idempotent(c.service)
    ensures OwnerAfter(c, events) == if Received(c, events) then c.service.deliver(c.before) else c.before
  {
    if events != [] {
      var n := |events| - 1;
      RunOwner(c, events[..n]);
      ReceivedNext(c, events);
    }
  }

  /** An answer the client accepts, or an observation that shows the request done, ends the run with
      a return, and nothing else does. */
  lemma ReturnsAt<O(!new)>(c: Case<O>, events: seq<Event>, i: nat)
    requires Idempotent(c.service) && Played(c, events) && c.timeout > 0.0 && i < |events|
    ensures Confirms(events[i]) <==>
      || (events[i].Sent? && c.world.send(i).Answered? && c.service.acked(c.service.deliver(c.before)))
      || (events[i].Observed? && c.world.observe(i).Shown? && c.service.shown(OwnerAfter(c, events[..i + 1])))
    ensures Confirms(events[i]) ==> i == |events| - 1 && Ending(c, events) == Returned
  {
    EventIs(c, events, i);
    RunKeeps(c, events);
    var now := events[..i + 1];
    assert now[..i] == events[..i] && now[i] == events[i];
    RunOwner(c, now);
  }

  lemma RunReturns<O(!new)>(c: Case<O>, events: seq<Event>)
    requires Idempotent(c.service) && Played(c, events) && c.timeout > 0.0 && events != []
    ensures var owner := OwnerAfter(c, events);
      Ending(c, events).Returned? ==>
        && (c.service.acked(owner) || c.service.shown(owner))
        && (Settling(c.service) ==> owner == c.service.deliver(c.before))
  {
    var n := |events| - 1;
    ReturnsAt(c, events, n);
    RunOwner(c, events);
    assert events[..n + 1] == events;
  }

  /** Without a decision three sends are made, or the time is used up. */
  lemma RunExhausts<O>(c: Case<O>, events: seq<Event>)
    requires Played(c, events) && Turn(c, events) == None && c.timeout > 0.0 && !Decided(events)
    ensures Sends(events) == 3 || Clock(c, events) >= c.Deadline()
  {
    RunKeeps(c, events);
  }

  lemma {:induction false} RunPunctual<O>(c: Case<O>, events: seq<Event>)
    requires Played(c, events) && c.timeout > 0.0 && Punctual(c.world)
    ensures Clock(c, events) <= c.Deadline()
  {
    if events != [] {
      var n := |events| - 1;
      RunPunctual(c, events[..n]);
      RunKeeps(c, events);
      assert c.world.took(n, events[n].budget) <= events[n].budget;
    }
  }

  // ---- How a run goes on ----

  /** An observation that finds nothing: it shows the request undone, or is not found. */
  predicate FindsNothing(e: Event) {
    e.Observed? &&
    if e.failure.None? then !e.seen else e.failure.value.Http? && e.failure.value.status == 404
  }

  /** After a send that decides nothing an observation is made, if there is time; one that neither
      decides nor finds nothing is repeated once, if there is time; one that finds nothing is not. */
  lemma LooksAre<O>(c: Case<O>, events: seq<Event>, i: nat)
    requires Played(c, events) && Turn(c, events) == None && c.timeout > 0.0 && i < |events|
    requires !Decided(events[..i + 1])
    ensures events[i].Sent? && Clock(c, events[..i + 1]) < c.Deadline() ==> i + 1 < |events| && events[i + 1].Observed?
    ensures events[i].Observed? && i > 0 && events[i - 1].Sent? && !FindsNothing(events[i]) ==>
      Clock(c, events[..i + 1]) < c.Deadline() ==> i + 1 < |events| && events[i + 1].Observed?
    ensures events[i].Observed? && (FindsNothing(events[i]) || (i > 0 && events[i - 1].Observed?)) ==>
      i + 1 < |events| ==> !events[i + 1].Observed?
  {
    var now := events[..i + 1];
    if i + 1 < |events| { EventIs(c, events, i + 1); } else { assert now == events; }
  }

  /** Every call gets the whole timeout, or what is left until the deadline. */
  lemma BudgetIs<O>(c: Case<O>, events: seq<Event>, i: nat)
    requires Played(c, events) && i < |events| && !events[i].Slept?
    ensures events[i].budget == Min(c.timeout, c.start + 3.0 * c.timeout - events[i].at)
    ensures events[i].at == Clock(c, events[..i])
  {
    EventIs(c, events, i);
  }

  /** Each pause is the smallest of 0.1 seconds, doubled for each attempt before it, or what the peer
      asked for if that is longer, and the time left. */
  lemma PauseIs<O>(c: Case<O>, events: seq<Event>, i: nat, last: Failure)
    requires Played(c, events) && c.timeout > 0.0 && i < |events| && events[i].Slept?
    requires LastFailure(events[..i]) == Some(last)
    ensures var base, left := Backoff(Sends(events[..i])), Left(c, events[..i]);
      events[i].budget ==
      if last.retryAfter.None? then Min(base, left) else Min(Max(base, last.retryAfter.value as real), left)
  {
    EventIs(c, events, i);
    RunKeeps(c, events[..i]);
    assert Sends(events[..i]) == 1 || Sends(events[..i]) == 2;
    assert Backoff(1) == 0.1 && Backoff(2) == 2.0 * Backoff(1);
  }

  /** Every send but the first directly follows a pause. */
  lemma PausedBefore<O>(c: Case<O>, events: seq<Event>, i: nat)
    requires Played(c, events) && c.timeout > 0.0 && 0 < i < |events| && events[i].Sent?
    ensures events[i - 1].Slept?
  {
    EventIs(c, events, i);
    RunKeeps(c, events[..i]);
    assert events[..i][i - 1] == events[i - 1];
  }

  /** 0.1 seconds after the first send, doubled for each further one. */
  function Backoff(sends: nat): real { if sends <= 1 then 0.1 else 2.0 * Backoff(sends - 1) }

  /** The last failure is that of the last event with one, an observation that finds nothing aside. */
  lemma {:induction false} LastFailureIs(events: seq<Event>)
    ensures LastFailure(events).None? <==> forall e :: e in events ==> !Fails(e)
    ensures LastFailure(events).Some? ==>
      exists i :: 0 <= i < |events| && Fails(events[i]) && events[i].failure == LastFailure(events) &&
        forall j :: i < j < |events| ==> !Fails(events[j])
  {
    if events != [] {
      var n := |events| - 1;
      assert events == events[..n] + [events[n]];
      LastFailureIs(events[..n]);
      if !Fails(events[n]) && LastFailure(events).Some? {
        var i :| 0 <= i < n && Fails(events[..n][i]) && events[..n][i].failure == LastFailure(events) &&
          forall j :: i < j < n ==> !Fails(events[..n][j]);
        assert Fails(events[i]);
      }
    }
  }

  /** Three sends were made and the looking after the last is over. */
  predicate Finished(events: seq<Event>) {
    Sends(events) == 3 && LastObserved(events) &&
    var n := |events| - 1;
    !Fails(events[n]) || (n > 0 && events[n - 1].Observed?)
  }

  /** A run without a decision raises its last failure exactly when it finished in time and that
      failure is an HTTP error; otherwise the outcome is unknown. */
  lemma RunRaises<O>(c: Case<O>, events: seq<Event>, f: Failure)
    requires Played(c, events) && Turn(c, events) == None && c.timeout > 0.0 && !Decided(events)
    ensures Ending(c, events) == Raised(f) <==> Finished(events) && LastFailure(events) == Some(f) && f.Http?
    ensures Ending(c, events).Raised? || Ending(c, events).Unknown?
    ensures !Finished(events) ==> Clock(c, events) >= c.Deadline()
  {
    RunKeeps(c, events);
    RunStarts(c, events);
    var n := |events| - 1;
    if n > 0 && LastObserved(events) { ObservedBefore(c, events); }
  }

  /** Before an observation comes a send, or the observation it repeats. */
  lemma ObservedBefore<O>(c: Case<O>, events: seq<Event>)
    requires Played(c, events) && |events| > 1 && LastObserved(events)
    ensures !events[|events| - 2].Slept?
  {
    var n := |events| - 1;
    EventIs(c, events, n);
    assert events[..n][n - 1] == events[n - 1];
  }

  /** An authorization refusal is a status 401 or 403. */
  predicate Unauthorized(f: Failure) {
    (f.Http? && f.status in {401, 403}) || (f.Malformed? && f.httpStatus in {Some(401), Some(403)})
  }

  lemma RefusalsAre(e: Event)
    ensures Forbids(e) <==> !e.Slept? && e.failure.Some? && Unauthorized(e.failure.value)
  {
  }

  // ---- Requests with a key ----

  /** A request: its key, and what it asks for. */
  datatype Request = Request(key: string, intent: string)

  /** What an owner recorded under each key, and the keys it acted on, in order. A key it has a
      record for is not acted on again. */
  datatype Owner = Owner(records: map<string, string>, effects: seq<string>) {
    function Deliver(r: Request): Owner {
      if r.key in records then this else Owner(records[r.key := r.intent], effects + [r.key])
    }

    /** The record under the request's key is this request's. */
    predicate Holds(r: Request) { r.key in records && records[r.key] == r.intent }

    /** It acted once on every key it has a record for, and on no other. */
    ghost predicate Consistent() {
      forall k :: multiset(effects)[k] == if k in records then 1 else 0
    }
  }

  function Keyed(r: Request): Service<Owner> {
    Service((o: Owner) => o.Deliver(r), (o: Owner) => o.Holds(r), (o: Owner) => o.Holds(r))
  }

  lemma KeyedSettles(r: Request)
    ensures Idempotent(Keyed(r)) && Settling(Keyed(r))
  {
  }

  /** Any number of uses of recovery with the same request, one after the other. */
  function Uses(before: Owner, r: Request, delivered: seq<bool>): Owner {
    if delivered == [] then before else
    var o := Uses(before, r, delivered[..|delivered| - 1]);
    if delivered[|delivered| - 1] then o.Deliver(r) else o
  }

  lemma DeliverOnce(o: Owner, r: Request)
    requires o.Consistent()
    ensures o.Deliver(r).Consistent() && r.key in o.Deliver(r).records && o.Deliver(r).Deliver(r) == o.Deliver(r)
    ensures forall k :: k != r.key ==> multiset(o.Deliver(r).effects)[k] == multiset(o.effects)[k]
  {
    if r.key !in o.records { assert multiset(o.effects + [r.key]) == multiset(o.effects) + multiset{r.key}; }
  }

  /** However often a request is recovered, retried or replayed, the owner acts on it once, under
      its own intent unless the key was taken before, and on nothing else. */
  lemma {:induction false} ActsOnce(before: Owner, r: Request, delivered: seq<bool>)
    requires before.Consistent()
    ensures var o := Uses(before, r, delivered);
      && o.Consistent() && (o == before || o == before.Deliver(r))
      && multiset(o.effects)[r.key] <= 1 && (true in delivered ==> multiset(o.effects)[r.key] == 1)
      && (forall k :: k != r.key ==> multiset(o.effects)[k] == multiset(before.effects)[k])
      && (true in delivered && r.key !in before.records ==> o.Holds(r))
  {
    if delivered != [] {
      var n := |delivered| - 1;
      ActsOnce(before, r, delivered[..n]);
      DeliverOnce(Uses(before, r, delivered[..n]), r);
      DeliverOnce(before, r);
      assert delivered == delivered[..n] + [delivered[n]];
    }
  }
}
