/** Delivering the inputs of an artifact job: each declared input is uploaded under recovery unless
    the job already shows it, and the preparation is then finalized. */
module InputDelivery {
  import opened Basics
  import opened Recovery

  /** An input as the client declares it and as the owner lists it. */
  datatype Input = Input(slot: string, name: string, mediaType: string, size: nat, sha256: string)

  /** A job is prepared as a draft, then ready; afterwards it is with its operation, or has none. */
  datatype Stage = Draft | Ready | Left(operation: bool)

  /** The job at its owner: the inputs it was created with and the files attached so far, by name. */
  datatype Job = Job(declared: map<string, Input>, files: map<string, Input>, stage: Stage)

  predicate Holds(j: Job, d: Input) { d.name in j.files && j.files[d.name] == d }

  // ---- The owner ----

  /** An upload is for a declared input with these bytes. */
  predicate Admits(j: Job, d: Input) {
    d.name in j.declared && var e := j.declared[d.name];
    e.mediaType == d.mediaType && e.size == d.size && e.sha256 == d.sha256
  }

  /** `_attach_input`: a draft's file is attached, or repaired, as it was declared. */
  function Upload(j: Job, d: Input): Job {
    if j.stage.Draft? && Admits(j, d) then j.(files := j.files[d.name := j.declared[d.name]]) else j
  }

  /** What an upload changes: one file of a draft, declared with this media type, size and digest, and
      attached as it was declared. */
  lemma UploadIs(j: Job, d: Input)
    requires Upload(j, d) != j
    ensures j.stage.Draft? && d.name in j.declared
    ensures var e := j.declared[d.name];
      && e.mediaType == d.mediaType && e.size == d.size && e.sha256 == d.sha256
      && Upload(j, d) == Job(j.declared, j.files[d.name := e], Draft)
  {
  }

  /** `finalize`: a draft becomes ready if its files are the declared ones and their bytes are
      available, and its preparation ends if not. */
  function Finalize(j: Job, available: bool): Job {
    if !j.stage.Draft? then j else j.(stage := if j.files == j.declared && available then Ready else Left(false))
  }

  // ---- The client's requests ----

  function UploadOf(d: Input): Service<Job> {
    Service((j: Job) => Upload(j, d), (j: Job) => Holds(j, d), (j: Job) => Holds(j, d))
  }

  function FinalizeOf(available: bool): Service<Job> {
    Service((j: Job) => Finalize(j, available), (j: Job) => true, (j: Job) => j.stage == Ready || j.stage == Left(true))
  }

  /** An observation shows a job that is ready, or that a concurrent submit gave an operation. Such a
      job is past its preparation, and finalizing it again changes nothing; a draft is shown once it
      was finalized with complete and available inputs. */
  lemma FinalizationShown(j: Job, available: bool)
    ensures j.stage.Ready? || (j.stage.Left? && j.stage.operation) <==> FinalizeOf(available).shown(j)
    ensures FinalizeOf(available).shown(j) ==> Finalize(j, available) == j
    ensures j.stage.Draft? ==>
      (FinalizeOf(available).shown(Finalize(j, available)) <==> j.files == j.declared && available)
  {
  }

  lemma UploadAgain(d: Input)
    ensures Idempotent(UploadOf(d))
  {
    forall j ensures Upload(Upload(j, d), d) == Upload(j, d) {
      if d.name in j.declared {
        var e := j.declared[d.name];
        assert j.files[d.name := e][d.name := e] == j.files[d.name := e];
      }
    }
  }

  predicate NamesUnique(inputs: seq<Input>) {
    forall i, j :: 0 <= i < j < |inputs| ==> inputs[i].name != inputs[j].name
  }

  /** Everything in `a` is still in `b`, which is no earlier in its life. */
  ghost predicate Since(a: Job, b: Job) {
    && a.declared == b.declared
    && (forall n :: n in a.files ==> n in b.files && b.files[n] == a.files[n])
    && (!a.stage.Draft? ==> !b.stage.Draft?)
  }

  /** From `a` to `b` only files under names of these inputs changed, to declared ones, and perhaps
      the preparation of a draft ended. */
  ghost predicate Delivered(a: Job, b: Job, inputs: seq<Input>) {
    && a.declared == b.declared && (a.stage == b.stage || a.stage.Draft?)
    && (forall n :: n in a.files ==> n in b.files)
    && forall n :: n in b.files && !(n in a.files && a.files[n] == b.files[n]) ==>
      n in a.declared && b.files[n] == a.declared[n] && exists d :: d in inputs && d.name == n
  }

  /** The client has dealt with the first `k` declarations; `seen` is the job it last saw. */
  ghost predicate Midway(before: Job, seen: Job, owner: Job, inputs: seq<Input>, k: nat, uploaded: seq<Input>) {
    && k <= |inputs| && Since(seen, owner) && Delivered(before, owner, inputs) && owner.stage == before.stage
    && (forall i :: 0 <= i < k ==> Holds(owner, inputs[i]))
    && forall d :: d in uploaded ==> d in inputs[..k]
  }

  /** An upload that is the next declaration's keeps what was dealt with. */
  lemma UploadKeeps(before: Job, seen: Job, owner: Job, inputs: seq<Input>, k: nat, uploaded: seq<Input>, owner': Job)
    requires Midway(before, seen, owner, inputs, k, uploaded) && k < |inputs| && NamesUnique(inputs)
    requires owner' == owner || owner' == Upload(owner, inputs[k])
    ensures Midway(before, owner', owner', inputs, k, uploaded)
    ensures Holds(owner', inputs[k]) ==> Midway(before, owner', owner', inputs, k + 1, uploaded + [inputs[k]])
  {
    assert inputs[..k + 1] == inputs[..k] + [inputs[k]];
    assert inputs[k] in inputs;
  }

  /** Finalizing adds no file. */
  lemma FinalizeKeeps(before: Job, owner: Job, inputs: seq<Input>, available: bool)
    requires Delivered(before, owner, inputs)
    ensures Delivered(before, Finalize(owner, available), inputs)
  {
  }

  /** The job was created with inputs these declarations cover. */
  ghost predicate Covers(inputs: seq<Input>, j: Job) {
    && (forall n :: n in j.declared ==> j.declared[n].name == n && j.declared[n] in inputs)
    && forall n :: n in j.files ==> n in j.declared
  }

  lemma CoveredIsComplete(before: Job, owner: Job, inputs: seq<Input>)
    requires Covers(inputs, before) && Delivered(before, owner, inputs)
    requires forall d :: d in inputs ==> Holds(owner, d)
    ensures owner.files == owner.declared
  {
    forall n | n in owner.declared ensures n in owner.files && owner.files[n] == owner.declared[n] {
      assert Holds(owner, owner.declared[n]);
    }
  }

  predicate AllHeld(j: Job, inputs: seq<Input>) { forall i :: 0 <= i < |inputs| ==> Holds(j, inputs[i]) }

  /** Every use's first send is answered. */
  ghost predicate AllAnswered(worlds: nat -> World) { forall k :: worlds(k).send(0).Answered? }

  /** The inputs are as the job declares them. */
  predicate AsDeclared(j: Job, inputs: seq<Input>) {
    forall i :: 0 <= i < |inputs| ==> inputs[i].name in j.declared && j.declared[inputs[i].name] == inputs[i]
  }

  /** The uploads of the declared inputs the job does not show, up to the first that fails. */
  method UploadEach(worlds: nat -> World, clock: nat -> real, timeout: real, inputs: seq<Input>, view: Job, before: Job)
    returns (stopped: Option<Result>, seen: Job, owner: Job, uploaded: seq<Input>)
    requires NamesUnique(inputs) && Since(view, before)
    ensures stopped.Some? ==> !stopped.value.Returned?
    ensures timeout > 0.0 && AllAnswered(worlds) && before.stage.Draft? && AsDeclared(before, inputs) ==> stopped.None?
    ensures forall d :: d in uploaded ==> !Holds(view, d)
    ensures exists k :: Midway(before, seen, owner, inputs, k, uploaded) && (stopped.None? ==> k == |inputs|)
  {
    seen, owner, uploaded := view, before, [];
    var k := 0;
    while k < |inputs|
      invariant Midway(before, seen, owner, inputs, k, uploaded)
      invariant forall d :: d in uploaded ==> !Holds(view, d)
      invariant forall j :: k <= j < |inputs| && Holds(view, inputs[j]) ==> Holds(seen, inputs[j])
    {
      if !Holds(seen, inputs[k]) {
        UploadAgain(inputs[k]);
        var result, t := Recover(worlds(k), UploadOf(inputs[k]), timeout, clock(k), owner);
        UploadKeeps(before, seen, owner, inputs, k, uploaded, t.owner);
        seen, owner := t.owner, t.owner;
        if !result.Returned? { return Some(result), seen, owner, uploaded; }
        uploaded := uploaded + [inputs[k]];
      }
      k := k + 1;
    }
    return None, seen, owner, uploaded;
  }

  /** The owner has every declared input exactly as declared and the job is no longer a draft. What
      was a draft is ready if and only if its files are the declared ones and available; they are the
      declared ones when the declarations cover the job's. */
  ghost predicate Complete(before: Job, owner: Job, inputs: seq<Input>, available: bool) {
    && AllHeld(owner, inputs) && !owner.stage.Draft?
    && (before.stage.Draft? ==> (owner.stage.Ready? <==> owner.files == owner.declared && available))
    && (before.stage.Draft? && Covers(inputs, before) ==> (owner.stage.Ready? <==> available))
  }

  /** After the uploads the job is complete if it is seen not to be a draft, and once finalized. */
  lemma Completes(before: Job, seen: Job, owner: Job, inputs: seq<Input>, uploaded: seq<Input>, available: bool)
    requires Midway(before, seen, owner, inputs, |inputs|, uploaded)
    ensures !seen.stage.Draft? ==> Complete(before, owner, inputs, available)
    ensures Complete(before, Finalize(owner, available), inputs, available)
  {
    if Covers(inputs, before) { CoveredIsComplete(before, owner, inputs); }
  }

  /** `_deliver_inputs`. A return means that the delivery is complete, and a draft's own declarations
      are delivered whenever the owner answers. Whatever the outcome, every input reported as uploaded
      is at the owner and was not shown before, and nothing but declared files under the declared
      names, and a draft's stage, has changed there. */
  method DeliverInputs(worlds: nat -> World, clock: nat -> real, timeout: real, available: bool,
                       inputs: seq<Input>, view: Job, before: Job)
    returns (result: Result, owner: Job, uploaded: seq<Input>)
    requires NamesUnique(inputs) && Since(view, before)
    ensures result.Returned? ==> Complete(before, owner, inputs, available)
    ensures forall d :: d in uploaded ==> d in inputs && Holds(owner, d) && !Holds(view, d)
    ensures Delivered(before, owner, inputs)
    ensures timeout > 0.0 && AllAnswered(worlds) && before.stage.Draft? && AsDeclared(before, inputs) ==>
      result.Returned?
  {
    var stopped, seen;
    stopped, seen, owner, uploaded := UploadEach(worlds, clock, timeout, inputs, view, before);
    if stopped.Some? { return stopped.value, owner, uploaded; }
    Completes(before, seen, owner, inputs, uploaded, available);
    if seen.stage.Ready? || (inputs != [] && AllHeld(seen, inputs) && seen.stage.Left?) {
      return Returned, owner, uploaded;
    }
    var t;
    result, t := Recover(worlds(|inputs|), FinalizeOf(available), timeout, clock(|inputs|), owner);
    FinalizeKeeps(before, owner, inputs, available);
    owner := t.owner;
  }
}
