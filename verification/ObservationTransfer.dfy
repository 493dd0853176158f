/** The observation transfer reader: newline-delimited records in a bounded buffer, a phase
    machine over them, and a receipt that must match what arrived. */
module ObservationTransfer {
  import opened Basics
  import opened Transport

  const NEWLINE: Byte := 10
  const READ_CHUNK: nat := 65536

  /** A member of a JSON record; `Number` stands for any value equal to that integer. */
  datatype Field = Absent | Text(text: string) | Number(n: int) | OtherValue

  datatype Record = Record(kind: Field, transferId: Field, resource: Field, ordinal: Field, data: Field,
    chunks: Field, bytes: Field, sha256: Field, reason: Field, detail: Field)

  /** What decoding and contract validation of one line give. */
  datatype Parsed = Unreadable | NotObject | Object(record: Record)

  /** The caller's contract, with decoding, hashing and payload validation as functions. */
  datatype Contract<+R> = Contract(
    resource: string,
    recordMax: int,
    parse: seq<Byte> -> Parsed,
    unbase64: string -> Option<seq<Byte>>,
    sha: seq<Byte> -> string,
    decodes: seq<Byte> -> bool,
    validate: seq<Byte> -> Option<R>)

  datatype Error =
    | DeadlineInvalid | DeadlineElapsed | Allocation | RecordTooLong | ReadOverrun
    | DataAfterReceipt | LineUnreadable | LineNotObject | StartDiffers | IdentityChanged
    | NotContiguous | DataUnreadable | ReceiptDiffers | ErrorUnreadable | UnexpectedPhase
    | Incomplete | PayloadUnreadable | PayloadInvalid | StreamFailed
    | Unavailable(reason: string, detail: string)

  datatype Outcome<+R> = Received(receipt: R) | Refused(error: Error)

  // ---- Specification: a machine that eats one byte at a time ----

  datatype Machine = Machine(
    pending: seq<Byte>,
    transferId: Option<string>,
    ordinal: nat,
    spool: seq<Byte>,
    complete: bool)

  datatype Progress = Going(m: Machine) | Failed(error: Error)

  const START := Machine([], None, 0, [], false)

  /** The receipt counts and digests what has arrived, at least one chunk. */
  predicate Receipted<R>(c: Contract<R>, m: Machine, r: Record) {
    && r.chunks == Number(m.ordinal) && m.ordinal > 0
    && r.bytes == Number(|m.spool|) && r.sha256 == Text(c.sha(m.spool))
  }

  /** One complete line against the phase. */
  function ReadLine<R>(c: Contract<R>, m: Machine, line: seq<Byte>): Progress {
    if m.complete then Failed(DataAfterReceipt) else
    match c.parse(line)
    case Unreadable => Failed(LineUnreadable)
    case NotObject => Failed(LineNotObject)
    case Object(r) =>
      if m.transferId.None? then
        if r.kind != Text("start") || r.resource != Text(c.resource) || !r.transferId.Text? then Failed(StartDiffers)
        else Going(m.(transferId := Some(r.transferId.text)))
      else if r.transferId != Text(m.transferId.value) then Failed(IdentityChanged)
      else if r.kind == Text("chunk") then
        if r.ordinal != Number(m.ordinal) then Failed(NotContiguous)
        else if !r.data.Text? || c.unbase64(r.data.text).None? then Failed(DataUnreadable)
        else Going(m.(spool := m.spool + c.unbase64(r.data.text).value, ordinal := m.ordinal + 1))
      else if r.kind == Text("complete") then
        if Receipted(c, m, r) then Going(m.(complete := true)) else Failed(ReceiptDiffers)
      else if r.kind == Text("error") then
        if r.detail.Text? && r.reason.Text? then Failed(Unavailable(r.reason.text, r.detail.text))
        else Failed(ErrorUnreadable)
      else Failed(UnexpectedPhase)
  }

  function Eat<R>(c: Contract<R>, p: Progress, b: Byte): Progress {
    if p.Failed? then p
    else if |p.m.pending| >= c.recordMax then Failed(RecordTooLong)
    else if b == NEWLINE then ReadLine(c, p.m.(pending := []), p.m.pending)
    else Going(p.m.(pending := p.m.pending + [b]))
  }

  function Feed<R>(c: Contract<R>, p: Progress, bytes: seq<Byte>): Progress
    decreases |bytes|
  {
    if bytes == [] then p else Feed(c, Eat(c, p, bytes[0]), bytes[1..])
  }

  function Finish<R>(c: Contract<R>, p: Progress): Outcome<R> {
    if p.Failed? then Refused(p.error)
    else if |p.m.pending| >= c.recordMax then Refused(RecordTooLong)
    else if p.m.pending != [] || !p.m.complete then Refused(Incomplete)
    else Judge(c, p.m.spool)
  }

  /** What a whole payload amounts to. */
  function Judge<R>(c: Contract<R>, payload: seq<Byte>): Outcome<R> {
    if !c.decodes(payload) then Refused(PayloadUnreadable)
    else match c.validate(payload) case Some(v) => Received(v) case None => Refused(PayloadInvalid)
  }

  /** What a whole body amounts to, however it is fragmented. */
  function Verdict<R>(c: Contract<R>, body: seq<Byte>): Outcome<R> {
    if c.recordMax < 1 then Refused(Allocation) else Finish(c, Feed(c, Going(START), body))
  }

  lemma {:induction false} FeedSplit<R>(c: Contract<R>, p: Progress, a: seq<Byte>, b: seq<Byte>)
    ensures Feed(c, p, a + b) == Feed(c, Feed(c, p, a), b)
    decreases |a|
  {
    if a == [] {
      assert a + b == b;
    } else {
      assert (a + b)[1..] == a[1..] + b;
      FeedSplit(c, Eat(c, p, a[0]), a[1..], b);
    }
  }

  lemma {:induction false} FeedFailed<R>(c: Contract<R>, e: Error, bytes: seq<Byte>)
    ensures Feed(c, Failed(e), bytes) == Failed(e)
    decreases |bytes|
  {
    if bytes != [] { FeedFailed(c, e, bytes[1..]); }
  }

  /** Bytes without a newline that fit in the buffer only wait there. */
  lemma {:induction false} FeedPartial<R>(c: Contract<R>, m: Machine, bytes: seq<Byte>)
    requires NEWLINE !in bytes && |m.pending| + |bytes| <= c.recordMax
    ensures Feed(c, Going(m), bytes) == Going(m.(pending := m.pending + bytes))
    decreases |bytes|
  {
    if bytes == [] {
      assert m.pending + bytes == m.pending;
    } else {
      var m' := m.(pending := m.pending + [bytes[0]]);
      FeedPartial(c, m', bytes[1..]);
      assert m'.pending + bytes[1..] == m.pending + bytes;
    }
  }

  /** A line that fits, with its newline, is read as one record. */
  lemma FeedLine<R>(c: Contract<R>, m: Machine, line: seq<Byte>, rest: seq<Byte>)
    requires NEWLINE !in line && |line| < c.recordMax && m.pending == []
    ensures Feed(c, Going(m), line + [NEWLINE] + rest) == Feed(c, ReadLine(c, m, line), rest)
  {
    FeedPartial(c, m, line);
    assert [] + line == line;
    var waiting := m.(pending := line);
    assert Eat(c, Going(waiting), NEWLINE) == ReadLine(c, m, line) by { assert waiting.(pending := []) == m; }
    assert line + [NEWLINE] + rest == line + ([NEWLINE] + rest);
    FeedSplit(c, Going(m), line, [NEWLINE] + rest);
    assert ([NEWLINE] + rest)[1..] == rest;
  }

  /** The number of lines that end in some bytes. */
  function Newlines(bytes: seq<Byte>): nat {
    if bytes == [] then 0 else Newlines(bytes[..|bytes| - 1]) + if bytes[|bytes| - 1] == NEWLINE then 1 else 0
  }

  lemma {:induction false} NewlinesConcat(a: seq<Byte>, b: seq<Byte>)
    ensures Newlines(a + b) == Newlines(a) + Newlines(b)
    decreases |b|
  {
    if b == [] {
      assert a + b == a;
    } else {
      assert (a + b)[..|a + b| - 1] == a + b[..|b| - 1];
      NewlinesConcat(a, b[..|b| - 1]);
    }
  }

  lemma {:induction false} NewlinesNone(bytes: seq<Byte>)
    ensures NEWLINE !in bytes ==> Newlines(bytes) == 0
  {
    if bytes != [] { NewlinesNone(bytes[..|bytes| - 1]); }
  }

  lemma NewlinesLine(line: seq<Byte>, rest: seq<Byte>)
    requires NEWLINE !in line
    ensures Newlines(line + [NEWLINE] + rest) == 1 + Newlines(rest)
  {
    NewlinesNone(line);
    NewlinesConcat(line + [NEWLINE], rest);
    assert (line + [NEWLINE])[..|line|] == line;
  }

  // ---- The reader ----

  /** Checkpoint `k` of the attempt finds the deadline passed exactly when `expired(k)`. */
  class Deadline {
    const expired: nat -> bool
    var checks: nat

    /** The first `n` checkpoints have been made, and all in time. */
    ghost predicate Met(n: nat)
      reads this
    {
      checks == n && forall k :: 0 <= k < n ==> !expired(k)
    }

    constructor (expired: nat -> bool)
      ensures this.expired == expired && Met(0)
    {
      this.expired := expired;
      checks := 0;
    }

    method Check() returns (late: bool)
      modifies this
      ensures late == expired(old(checks)) && checks == old(checks) + 1
      ensures !late && old(Met(checks)) ==> Met(old(checks) + 1)
    {
      late := expired(checks);
      checks := checks + 1;
    }
  }

  /** The state of `receive_observation`; the byte count and the digest input are kept beside
      the spool, as the source keeps them. */
  class Reader<R> {
    const contract: Contract<R>
    var pending: seq<Byte>
    var transferId: Option<string>
    var ordinal: nat
    var byteCount: nat
    var digested: seq<Byte>
    var spool: seq<Byte>
    var complete: bool

    /** The buffer never exceeds the allocation. */
    ghost predicate Valid()
      reads this
    {
      |pending| <= contract.recordMax && byteCount == |spool| && digested == spool
    }

    /** Between fragments no complete line is left in the buffer. */
    ghost predicate Settled()
      reads this
    {
      Valid() && NEWLINE !in pending
    }

    function View(): Machine
      reads this
    {
      Machine(pending, transferId, ordinal, spool, complete)
    }

    constructor (contract: Contract<R>)
      requires contract.recordMax >= 1
      ensures Settled() && View() == START && this.contract == contract
    {
      this.contract := contract;
      pending, transferId, ordinal, byteCount, digested, spool, complete := [], None, 0, 0, [], [], false;
    }

    /** One record line. */
    method TakeLine(line: seq<Byte>, deadline: Deadline) returns (failed: Option<Error>)
      requires Valid()
      modifies this, deadline
      ensures Valid() && pending == old(pending)
      ensures failed.None? ==> ReadLine(contract, old(View()), line) == Going(View())
      ensures failed.Some? ==>
        failed.value == DeadlineElapsed || ReadLine(contract, old(View()), line) == Failed(failed.value)
      ensures failed != Some(StreamFailed) && (failed == Some(DeadlineElapsed) ==> exists k :: deadline.expired(k))
      ensures failed.None? && old(deadline.Met(deadline.checks)) ==> deadline.Met(old(deadline.checks) + 1)
    {
      if complete { return Some(DataAfterReceipt); }
      var parsed := contract.parse(line);
      if parsed.Unreadable? { return Some(LineUnreadable); }
      var late := deadline.Check();
      if late { return Some(DeadlineElapsed); }
      if parsed.NotObject? { return Some(LineNotObject); }
      var r := parsed.record;
      if transferId.None? {
        if r.kind != Text("start") || r.resource != Text(contract.resource) || !r.transferId.Text? {
          return Some(StartDiffers);
        }
        transferId := Some(r.transferId.text);
        return None;
      }
      if r.transferId != Text(transferId.value) { return Some(IdentityChanged); }
      if r.kind == Text("chunk") {
        if r.ordinal != Number(ordinal) { return Some(NotContiguous); }
        if !r.data.Text? { return Some(DataUnreadable); }
        var raw := contract.unbase64(r.data.text);
        if raw.None? { return Some(DataUnreadable); }
        spool := spool + raw.value;
        digested := digested + raw.value;
        byteCount := byteCount + |raw.value|;
        ordinal := ordinal + 1;
        return None;
      } else if r.kind == Text("complete") {
        if r.chunks != Number(ordinal) || ordinal == 0 { return Some(ReceiptDiffers); }
        if r.bytes != Number(byteCount) || r.sha256 != Text(contract.sha(digested)) { return Some(ReceiptDiffers); }
        complete := true;
        return None;
      } else if r.kind == Text("error") {
        if !r.detail.Text? || !r.reason.Text? { return Some(ErrorUnreadable); }
        return Some(Unavailable(r.reason.text, r.detail.text));
      }
      return Some(UnexpectedPhase);
    }

    /** One fragment: it is appended to the buffer and every complete line is read off. */
    method Accept(incoming: seq<Byte>, deadline: Deadline) returns (failed: Option<Error>)
      requires Settled()
      modifies this, deadline
      ensures Valid() && (failed.None? ==> Settled())
      ensures failed != Some(StreamFailed) && (failed == Some(DeadlineElapsed) ==> exists k :: deadline.expired(k))
      ensures failed.None? && old(deadline.Met(deadline.checks)) ==>
        deadline.Met(old(deadline.checks) + 2 * Newlines(incoming))
      ensures |old(pending)| + |incoming| > contract.recordMax ==> failed == Some(ReadOverrun)
      ensures |old(pending)| + |incoming| <= contract.recordMax && failed != Some(DeadlineElapsed) ==>
        Feed(contract, Going(old(View())), incoming) == if failed.None? then Going(View()) else Failed(failed.value)
    {
      if |incoming| > contract.recordMax - |pending| { return Some(ReadOverrun); }
      ghost var fed := Feed(contract, Going(View()), incoming);
      BufferFirst(contract, View(), incoming);
      NewlinesNone(pending);
      NewlinesConcat(pending, incoming);
      pending := pending + incoming;
      ghost var all, first := Newlines(incoming), deadline.checks;
      while NEWLINE in pending
        invariant Valid() && |pending| <= |old(pending) + incoming| && Newlines(pending) <= all
        invariant old(deadline.Met(deadline.checks)) ==> deadline.Met(first + 2 * (all - Newlines(pending)))
        invariant Feed(contract, Going(View().(pending := [])), pending) == fed
        decreases |pending|
      {
        var late := deadline.Check();
        if late { return Some(DeadlineElapsed); }
        var at := FirstNewline(pending);
        var line, rest := pending[..at], pending[at + 1..];
        NextLine(contract, View(), line, rest);
        NewlinesLine(line, rest);
        pending := rest;
        failed := TakeLine(line, deadline);
        if failed.Some? { return; }
      }
      FeedPartial(contract, View().(pending := []), pending);
      assert [] + pending == pending;
      NewlinesNone(pending);
      return None;
    }
  }

  /** How much the reader asks the stream for. */
  function Request<R>(c: Contract<R>, buffered: nat): int {
    if READ_CHUNK <= c.recordMax - buffered then READ_CHUNK else c.recordMax - buffered
  }

  /** The bytes a stream delivers before its first empty read. */
  function Delivered(answers: seq<seq<Byte>>): seq<Byte> {
    if answers == [] || answers[0] == [] then [] else answers[0] + Delivered(answers[1..])
  }

  /** The bytes after the last newline. */
  function Tail(bytes: seq<Byte>): seq<Byte> {
    if bytes == [] then [] else
    var n := |bytes| - 1;
    if bytes[n] == NEWLINE then [] else Tail(bytes[..n]) + [bytes[n]]
  }

  /** Every read up to the end stays within what the buffer has left, given the bytes `before`. */
  predicate WithinAllocation<R>(c: Contract<R>, before: seq<Byte>, answers: seq<seq<Byte>>)
    decreases |answers|
  {
    answers == [] || answers[0] == [] ||
    (|Tail(before)| + |answers[0]| <= c.recordMax && WithinAllocation(c, before + answers[0], answers[1..]))
  }

  /** Answer `i` is not the end and stays within what the buffer has left. */
  predicate Held<R>(c: Contract<R>, answers: seq<seq<Byte>>, i: nat)
    requires i < |answers|
  {
    answers[i] != [] && |Tail(Concat(answers[..i]))| + |answers[i]| <= c.recordMax
  }

  /** Answer `k` is the first that exceeds what the buffer has left. */
  ghost predicate Overruns<R>(c: Contract<R>, answers: seq<seq<Byte>>, k: nat) {
    k < |answers| && answers[k] != [] && !Held(c, answers, k) && forall i :: 0 <= i < k ==> Held(c, answers, i)
  }

  /** How the reader stops there: for what it had read before, or for the answer. */
  function Stopped<R>(c: Contract<R>, seen: seq<Byte>): Outcome<R> {
    match Feed(c, Going(START), seen)
    case Failed(e) => Refused(e)
    case Going(m) => if |m.pending| >= c.recordMax then Refused(RecordTooLong) else Refused(ReadOverrun)
  }

  lemma ConcatNext(answers: seq<seq<Byte>>, i: nat)
    requires i < |answers|
    ensures Concat(answers[..i + 1]) == Concat(answers[..i]) + answers[i]
  {
    assert answers[..i + 1] == answers[..i] + [answers[i]];
    ConcatSnoc(answers[..i], answers[i]);
  }

  /** A failure on the first answers is final. */
  lemma StoppedEarlier<R>(c: Contract<R>, answers: seq<seq<Byte>>, i: nat, k: nat, e: Error)
    requires i <= k <= |answers| && Feed(c, Going(START), Concat(answers[..i])) == Failed(e)
    ensures Stopped(c, Concat(answers[..k])) == Refused(e)
  {
    assert answers[..k] == answers[..i] + answers[i..k];
    ConcatSplit(answers[..i], answers[i..k]);
    FeedSplit(c, Going(START), Concat(answers[..i]), Concat(answers[i..k]));
    FeedFailed(c, e, Concat(answers[i..k]));
  }

  /** The first `i` answers have been read, and are `seen`. */
  ghost predicate Reading<R>(c: Contract<R>, answers: seq<seq<Byte>>, i: nat, seen: seq<Byte>, m: Machine) {
    && i <= |answers| && seen == Concat(answers[..i]) && (forall j :: 0 <= j < i ==> Held(c, answers, j))
    && Feed(c, Going(START), seen) == Going(m)
  }

  /** What reading stopped with is what an overrun asks for. */
  ghost predicate StoppedWell<R>(c: Contract<R>, answers: seq<seq<Byte>>, outcome: Outcome<R>) {
    forall k: nat :: Overruns(c, answers, k) ==> outcome == Stopped(c, Concat(answers[..k]))
  }

  lemma OverrunsBy<R>(c: Contract<R>, answers: seq<seq<Byte>>, i: nat, k: nat)
    requires Overruns(c, answers, k) && i < |answers| && !Held(c, answers, i)
    ensures k <= i
  {
  }

  /** The answers keep the allocation exactly when none overruns. */
  lemma {:induction false} WithinIs<R>(c: Contract<R>, answers: seq<seq<Byte>>, i: nat)
    requires i <= |answers| && forall j :: 0 <= j < i ==> Held(c, answers, j)
    ensures WithinAllocation(c, Concat(answers[..i]), answers[i..]) <==> forall k: nat :: !Overruns(c, answers, k)
    decreases |answers| - i
  {
    if i < |answers| && Held(c, answers, i) {
      WithinIs(c, answers, i + 1);
      ConcatNext(answers, i);
      assert answers[i..][1..] == answers[i + 1..];
    } else if i < |answers| && answers[i] != [] {
      assert Overruns(c, answers, i);
    } else {
      forall k: nat ensures !Overruns(c, answers, k) {
        if Overruns(c, answers, k) && i < |answers| { OverrunsBy(c, answers, i, k); }
      }
    }
  }

  lemma FullStops<R>(c: Contract<R>, answers: seq<seq<Byte>>, i: nat, seen: seq<Byte>, m: Machine)
    requires Reading(c, answers, i, seen, m) && |m.pending| >= c.recordMax
    ensures StoppedWell(c, answers, Refused(RecordTooLong))
  {
    FeedTail(c, seen, m);
    forall k: nat | Overruns(c, answers, k) ensures k == i { if i < |answers| { OverrunsBy(c, answers, i, k); } }
  }

  lemma EndStops<R>(c: Contract<R>, answers: seq<seq<Byte>>, i: nat, seen: seq<Byte>, m: Machine)
    requires Reading(c, answers, i, seen, m) && (i == |answers| || answers[i] == [])
    ensures forall k: nat :: !Overruns(c, answers, k)
  {
    forall k: nat ensures !Overruns(c, answers, k) {
      if Overruns(c, answers, k) && i < |answers| { OverrunsBy(c, answers, i, k); }
    }
  }

  /** The next answer overruns, fails, or is read. */
  lemma AnswerStops<R>(c: Contract<R>, answers: seq<seq<Byte>>, i: nat, seen: seq<Byte>, m: Machine)
    requires Reading(c, answers, i, seen, m) && |m.pending| < c.recordMax && i < |answers| && answers[i] != []
    ensures |m.pending| + |answers[i]| > c.recordMax ==> StoppedWell(c, answers, Refused(ReadOverrun))
    ensures |m.pending| + |answers[i]| <= c.recordMax ==>
      var p := Feed(c, Going(m), answers[i]);
      if p.Failed? then StoppedWell(c, answers, Refused(p.error))
      else Reading(c, answers, i + 1, seen + answers[i], p.m)
  {
    FeedTail(c, seen, m);
    ConcatNext(answers, i);
    FeedSplit(c, Going(START), seen, answers[i]);
    if |m.pending| + |answers[i]| > c.recordMax {
      forall k: nat | Overruns(c, answers, k) ensures k == i { OverrunsBy(c, answers, i, k); }
    } else {
      assert Held(c, answers, i);
      forall k: nat | Overruns(c, answers, k) && Feed(c, Going(m), answers[i]).Failed?
        ensures Stopped(c, Concat(answers[..k])) == Refused(Feed(c, Going(m), answers[i]).error)
      {
        StoppedEarlier(c, answers, i + 1, k, Feed(c, Going(m), answers[i]).error);
      }
    }
  }

  /** The end of the attempt: the payload is decoded and validated, with a checkpoint before,
      between and after. */
  method Conclude<R>(c: Contract<R>, reader: Reader<R>, deadline: Deadline) returns (outcome: Outcome<R>)
    requires |reader.pending| < c.recordMax
    modifies deadline
    ensures outcome != Refused(StreamFailed)
    ensures outcome == Refused(DeadlineElapsed) ==> exists k :: deadline.expired(k)
    ensures outcome != Refused(DeadlineElapsed) ==> outcome == Finish(c, Going(reader.View()))
    ensures outcome.Received? && old(deadline.Met(deadline.checks)) ==> deadline.Met(old(deadline.checks) + 3)
  {
    if reader.pending != [] || !reader.complete { return Refused(Incomplete); }
    var late := deadline.Check();
    if late { return Refused(DeadlineElapsed); }
    if !c.decodes(reader.spool) { return Refused(PayloadUnreadable); }
    late := deadline.Check();
    if late { return Refused(DeadlineElapsed); }
    var valid := c.validate(reader.spool);
    if valid.None? { return Refused(PayloadInvalid); }
    late := deadline.Check();
    if late { return Refused(DeadlineElapsed); }
    return Received(valid.value);
  }

  /** The attempt was neither late nor cut off by its stream. */
  predicate Undisturbed<R>(outcome: Outcome<R>) {
    !(outcome.Refused? && (outcome.error == DeadlineElapsed || outcome.error == StreamFailed))
  }

  /** How many answers come before the end. */
  function Reads(answers: seq<seq<Byte>>): nat {
    if answers == [] || answers[0] == [] then 0 else 1 + Reads(answers[1..])
  }

  /** The checkpoints of a whole attempt: one at the start, two around every read, two for every line,
      and three around decoding and validating. */
  ghost predicate AllMet(answers: seq<seq<Byte>>, expired: nat -> bool) {
    forall k :: 0 <= k < 4 + 2 * (Reads(answers) + 1) + 2 * Newlines(Delivered(answers)) ==> !expired(k)
  }

  /** One answer of the stream, and what the reader makes of it. */
  method TakeAnswer<R>(c: Contract<R>, reader: Reader<R>, answers: seq<seq<Byte>>, i: nat, deadline: Deadline,
                       ghost seen: seq<Byte>)
    returns (failed: Option<Error>)
    requires reader.Settled() && reader.contract == c && |reader.pending| < c.recordMax
    requires i < |answers| && answers[i] != [] && Midway(c, answers, i, seen, reader.View())
    modifies reader, deadline
    ensures failed != Some(StreamFailed) && (failed == Some(DeadlineElapsed) ==> exists k :: deadline.expired(k))
    ensures failed.Some? && failed.value != DeadlineElapsed ==> Right(c, answers, Refused(failed.value))
    ensures failed.None? ==> reader.Settled() && Midway(c, answers, i + 1, seen + answers[i], reader.View())
    ensures failed.None? ==> Newlines(seen + answers[i]) >= Newlines(seen)
    ensures failed.None? && old(deadline.Met(deadline.checks)) ==>
      deadline.Met(old(deadline.checks) + 2 * (Newlines(seen + answers[i]) - Newlines(seen)))
  {
    MidwayNext(c, answers, i, seen, reader.View());
    NewlinesConcat(seen, answers[i]);
    failed := reader.Accept(answers[i], deadline);
  }

  /** `receive_observation` over any stream: `answers` are the stream's successive answers, empty
      once it has ended, and read `k` raises when `broken(k)`. Unless the deadline passes or the
      stream breaks, the outcome depends only on the bytes and not on how they are cut; a stream
      that returns more than the buffer holds is refused for that, or for what it returned before. A
      payload is returned only if every checkpoint on the way was in time. */
  method Receive<R>(c: Contract<R>, answers: seq<seq<Byte>>, broken: nat -> bool, finite: bool, expired: nat -> bool)
    returns (outcome: Outcome<R>)
    ensures !finite ==> outcome == Refused(DeadlineInvalid)
    ensures outcome == Refused(DeadlineElapsed) ==> exists k :: expired(k)
    ensures outcome == Refused(StreamFailed) ==> exists k :: broken(k)
    ensures finite && expired(0) ==> outcome == Refused(DeadlineElapsed)
    ensures outcome.Received? ==> AllMet(answers, expired)
    ensures finite && Undisturbed(outcome) && c.recordMax >= 1 ==> Right(c, answers, outcome)
    ensures finite && Undisturbed(outcome) && c.recordMax < 1 ==> outcome == Refused(Allocation)
    ensures c.recordMax < 1 || !WithinAllocation(c, [], answers) ==> outcome.Refused?
  {
    if !finite { return Refused(DeadlineInvalid); }
    var deadline := new Deadline(expired);
    var late := deadline.Check();
    if late { return Refused(DeadlineElapsed); }
    if c.recordMax < 1 { return Refused(Allocation); }
    var reader := new Reader<R>(c);
    var i := 0;
    ghost var seen: seq<Byte> := [];
    while true
      invariant fresh(reader) && fresh(deadline) && reader.Settled()
      invariant reader.contract == c && deadline.expired == expired
      invariant Midway(c, answers, i, seen, reader.View())
      invariant deadline.Met(1 + 2 * i + 2 * Newlines(seen))
      decreases |answers| - i
    {
      late := deadline.Check();
      if late { return Refused(DeadlineElapsed); }
      if |reader.pending| >= c.recordMax {
        MidwayFull(c, answers, i, seen, reader.View());
        return Refused(RecordTooLong);
      }
      if broken(i) { return Refused(StreamFailed); }
      var incoming: seq<Byte> := if i < |answers| then answers[i] else [];
      late := deadline.Check();
      if late { return Refused(DeadlineElapsed); }
      if incoming == [] { break; }
      var failed := TakeAnswer(c, reader, answers, i, deadline, seen);
      if failed.Some? { return Refused(failed.value); }
      seen := seen + incoming;
      i := i + 1;
    }
    MidwayEnd(c, answers, i, seen, reader.View());
    ReadsAre(c, answers, i, seen);
    outcome := Conclude(c, reader, deadline);
  }

  /** The reader has eaten `seen` of a body and `rest` is still to come. */
  ghost predicate Eaten<R>(c: Contract<R>, body: seq<Byte>, seen: seq<Byte>, rest: seq<Byte>, m: Machine) {
    c.recordMax >= 1 && body == seen + rest && Feed(c, Going(START), seen) == Going(m)
  }

  lemma EatenAll<R>(c: Contract<R>, body: seq<Byte>, seen: seq<Byte>, rest: seq<Byte>, m: Machine)
    requires Eaten(c, body, seen, rest, m)
    ensures |m.pending| >= c.recordMax ==> Verdict(c, body) == Refused(RecordTooLong)
    ensures rest == [] ==> Verdict(c, body) == Finish(c, Going(m))
  {
    if |m.pending| >= c.recordMax { FullBufferRefuses(c, seen, m, rest); }
    if rest == [] { assert seen + rest == seen; }
  }

  lemma EatenNext<R>(c: Contract<R>, body: seq<Byte>, seen: seq<Byte>, next: seq<Byte>, rest: seq<Byte>, m: Machine)
    requires Eaten(c, body, seen, next + rest, m)
    ensures match Feed(c, Going(m), next)
      case Failed(e) => Verdict(c, body) == Refused(e)
      case Going(n) => Eaten(c, body, seen + next, rest, n)
  {
    assert body == seen + next + rest;
    FeedSplit(c, Going(START), seen, next);
    if Feed(c, Going(m), next).Failed? {
      FeedSplit(c, Going(START), seen + next, rest);
      FeedFailed(c, Feed(c, Going(m), next).error, rest);
    }
  }

  /** The reader after `i` answers, having eaten `seen`. */
  ghost predicate After<R>(c: Contract<R>, answers: seq<seq<Byte>>, i: nat, seen: seq<Byte>, m: Machine) {
    i <= |answers| && Eaten(c, Delivered(answers), seen, Delivered(answers[i..]), m) &&
    (WithinAllocation(c, [], answers) <==> WithinAllocation(c, seen, answers[i..]))
  }

  lemma AfterNext<R>(c: Contract<R>, answers: seq<seq<Byte>>, i: nat, seen: seq<Byte>, m: Machine)
    requires After(c, answers, i, seen, m) && i < |answers| && answers[i] != []
    ensures |m.pending| + |answers[i]| > c.recordMax ==> !WithinAllocation(c, [], answers)
    ensures |m.pending| + |answers[i]| <= c.recordMax ==>
      match Feed(c, Going(m), answers[i])
      case Failed(e) => Verdict(c, Delivered(answers)) == Refused(e)
      case Going(n) => After(c, answers, i + 1, seen + answers[i], n)
  {
    var rest := answers[i..];
    assert rest[0] == answers[i] && rest[1..] == answers[i + 1..];
    FeedTail(c, seen, m);
    EatenNext(c, Delivered(answers), seen, answers[i], Delivered(rest[1..]), m);
  }

  /** The reader after `i` answers, as regards the verdict and a later overrun. */
  ghost predicate Midway<R>(c: Contract<R>, answers: seq<seq<Byte>>, i: nat, seen: seq<Byte>, m: Machine) {
    After(c, answers, i, seen, m) && Reading(c, answers, i, seen, m)
  }

  /** An outcome that is the verdict if the answers keep the allocation, and else the overrun's. */
  ghost predicate Right<R>(c: Contract<R>, answers: seq<seq<Byte>>, outcome: Outcome<R>) {
    && (WithinAllocation(c, [], answers) ==> outcome == Verdict(c, Delivered(answers)))
    && StoppedWell(c, answers, outcome)
  }

  lemma MidwayFull<R>(c: Contract<R>, answers: seq<seq<Byte>>, i: nat, seen: seq<Byte>, m: Machine)
    requires Midway(c, answers, i, seen, m) && |m.pending| >= c.recordMax
    ensures Right(c, answers, Refused(RecordTooLong))
  {
    EatenAll(c, Delivered(answers), seen, Delivered(answers[i..]), m);
    FullStops(c, answers, i, seen, m);
  }

  lemma MidwayNext<R>(c: Contract<R>, answers: seq<seq<Byte>>, i: nat, seen: seq<Byte>, m: Machine)
    requires Midway(c, answers, i, seen, m) && |m.pending| < c.recordMax && i < |answers| && answers[i] != []
    ensures |m.pending| + |answers[i]| > c.recordMax ==> Right(c, answers, Refused(ReadOverrun))
    ensures |m.pending| + |answers[i]| <= c.recordMax ==>
      var p := Feed(c, Going(m), answers[i]);
      if p.Failed? then Right(c, answers, Refused(p.error)) else Midway(c, answers, i + 1, seen + answers[i], p.m)
  {
    AfterNext(c, answers, i, seen, m);
    AnswerStops(c, answers, i, seen, m);
  }

  /** All that is delivered has been read. */
  lemma ReadsAre<R>(c: Contract<R>, answers: seq<seq<Byte>>, i: nat, seen: seq<Byte>)
    requires i <= |answers| && seen == Concat(answers[..i]) && (forall j :: 0 <= j < i ==> Held(c, answers, j))
    requires i == |answers| || answers[i] == []
    ensures Reads(answers) == i && Delivered(answers) == seen
  {
    forall j | 0 <= j < i ensures answers[j] != [] { assert Held(c, answers, j); }
    ReadsFrom(answers, i);
  }

  lemma {:induction false} ReadsFrom(answers: seq<seq<Byte>>, i: nat)
    requires i <= |answers| && (forall j :: 0 <= j < i ==> answers[j] != []) && (i == |answers| || answers[i] == [])
    ensures Reads(answers) == i && Delivered(answers) == Concat(answers[..i])
    decreases |answers|
  {
    if i > 0 {
      ReadsFrom(answers[1..], i - 1);
      assert answers[..i][1..] == answers[1..][..i - 1];
    }
  }

  lemma MidwayEnd<R>(c: Contract<R>, answers: seq<seq<Byte>>, i: nat, seen: seq<Byte>, m: Machine)
    requires Midway(c, answers, i, seen, m) && (i == |answers| || answers[i] == [])
    ensures Right(c, answers, Finish(c, Going(m)))
  {
    EatenAll(c, Delivered(answers), seen, [], m);
    EndStops(c, answers, i, seen, m);
  }

  /** One read of the body, and what the reader makes of it. */
  method ReadOnce<R>(c: Contract<R>, reader: Reader<R>, body: HttpsBody, deadline: Deadline, ghost whole: seq<Byte>,
                     ghost seen: seq<Byte>)
    returns (more: bool, failed: Option<Error>, ghost eaten: seq<Byte>)
    requires reader.Settled() && reader.contract == c && |reader.pending| < c.recordMax && body.Valid() && !body.closed
    requires Eaten(c, whole, seen, body.Remaining(), reader.View())
    modifies reader, body, deadline
    ensures body.Valid() && !body.closed && failed != Some(StreamFailed)
    ensures failed == Some(DeadlineElapsed) ==> exists k :: deadline.expired(k)
    ensures failed.Some? && failed.value != DeadlineElapsed ==> Verdict(c, whole) == Refused(failed.value)
    ensures failed.None? ==> reader.Settled() && Eaten(c, whole, eaten, body.Remaining(), reader.View())
    ensures failed.None? ==> if more then |body.Remaining()| < |old(body.Remaining())| else body.Remaining() == []
    ensures failed.None? && !more ==> reader.pending == old(reader.pending)
    ensures failed.None? ==> Newlines(eaten) >= Newlines(seen)
    ensures failed.None? && old(deadline.Met(deadline.checks)) ==>
      deadline.Met(old(deadline.checks) + 1 + 2 * (Newlines(eaten) - Newlines(seen)))
  {
    var answer := body.Read(Request(c, |reader.pending|));
    var incoming := answer.value;
    eaten := seen;
    var late := deadline.Check();
    if late { return false, Some(DeadlineElapsed), eaten; }
    if incoming == [] { return false, None, eaten; }
    EatenNext(c, whole, seen, incoming, body.Remaining(), reader.View());
    failed := reader.Accept(incoming, deadline);
    NewlinesConcat(seen, incoming);
    return true, failed, seen + incoming;
  }

  /** `receive_observation` over the HTTPS body: the outcome is that of the whole body, whatever
      pieces the network delivered it in. */
  method ReceiveHttps<R>(c: Contract<R>, body: HttpsBody, broken: nat -> bool, expired: nat -> bool)
    returns (outcome: Outcome<R>)
    requires body.Valid() && !body.closed
    modifies body
    ensures outcome == Refused(DeadlineElapsed) ==> exists k :: expired(k)
    ensures outcome == Refused(StreamFailed) ==> exists k :: broken(k)
    ensures Undisturbed(outcome) ==> outcome == Verdict(c, old(body.Remaining()))
    ensures expired(0) ==> outcome == Refused(DeadlineElapsed)
    ensures outcome.Received? ==> forall k :: 0 <= k < 6 + 2 * Newlines(old(body.Remaining())) ==> !expired(k)
  {
    var deadline := new Deadline(expired);
    var late := deadline.Check();
    if late { return Refused(DeadlineElapsed); }
    if c.recordMax < 1 { return Refused(Allocation); }
    var reader := new Reader<R>(c);
    ghost var whole, seen: seq<Byte> := body.Remaining(), [];
    var i := 0;
    while true
      invariant fresh(reader) && fresh(deadline) && reader.Settled() && body.Valid() && !body.closed
      invariant reader.contract == c && deadline.expired == expired
      invariant Eaten(c, whole, seen, body.Remaining(), reader.View())
      invariant deadline.Met(1 + 2 * i + 2 * Newlines(seen))
      decreases |body.Remaining()|
    {
      late := deadline.Check();
      if late { return Refused(DeadlineElapsed); }
      if |reader.pending| >= c.recordMax {
        EatenAll(c, whole, seen, body.Remaining(), reader.View());
        return Refused(RecordTooLong);
      }
      if broken(i) { return Refused(StreamFailed); }
      var more, failed;
      more, failed, seen := ReadOnce(c, reader, body, deadline, whole, seen);
      if failed.Some? { return Refused(failed.value); }
      if !more { break; }
      i := i + 1;
    }
    EatenAll(c, whole, seen, [], reader.View());
    assert whole == seen;
    outcome := Conclude(c, reader, deadline);
  }

  method FirstNewline(bytes: seq<Byte>) returns (at: nat)
    requires NEWLINE in bytes
    ensures at < |bytes| && NEWLINE !in bytes[..at] && bytes == bytes[..at] + [NEWLINE] + bytes[at + 1..]
  {
    at := 0;
    while bytes[at] != NEWLINE
      invariant at < |bytes| && NEWLINE !in bytes[..at]
      decreases |bytes| - at
    {
      at := at + 1;
    }
  }

  /** What waits in the buffer may as well arrive with the fragment. */
  lemma BufferFirst<R>(c: Contract<R>, m: Machine, incoming: seq<Byte>)
    requires NEWLINE !in m.pending && |m.pending| <= c.recordMax
    ensures Feed(c, Going(m.(pending := [])), m.pending + incoming) == Feed(c, Going(m), incoming)
  {
    FeedPartial(c, m.(pending := []), m.pending);
    assert [] + m.pending == m.pending;
    FeedSplit(c, Going(m.(pending := [])), m.pending, incoming);
  }

  lemma ReadLineIgnoresBuffer<R>(c: Contract<R>, m: Machine, rest: seq<Byte>, line: seq<Byte>)
    ensures var p, q := ReadLine(c, m.(pending := []), line), ReadLine(c, m.(pending := rest), line);
      if p.Failed? then q == p else q == Going(p.m.(pending := rest)) && p.m.pending == []
  {
  }

  /** Reading the first line off the buffer, and the rest of the buffer after it. */
  lemma NextLine<R>(c: Contract<R>, m: Machine, line: seq<Byte>, rest: seq<Byte>)
    requires NEWLINE !in line && |line| < c.recordMax
    ensures var p := ReadLine(c, m.(pending := rest), line);
      Feed(c, Going(m.(pending := [])), line + [NEWLINE] + rest) ==
      if p.Failed? then p else Feed(c, Going(p.m.(pending := [])), p.m.pending)
  {
    FeedLine(c, m.(pending := []), line, rest);
    ReadLineIgnoresBuffer(c, m, rest, line);
    var p := ReadLine(c, m.(pending := []), line);
    if p.Failed? { FeedFailed(c, p.error, rest); }
  }

  /** A full buffer without a newline is refused whatever follows. */
  lemma FullBufferRefuses<R>(c: Contract<R>, seen: seq<Byte>, m: Machine, rest: seq<Byte>)
    requires c.recordMax >= 1 && Feed(c, Going(START), seen) == Going(m) && |m.pending| >= c.recordMax
    ensures Verdict(c, seen + rest) == Refused(RecordTooLong)
  {
    FeedSplit(c, Going(START), seen, rest);
    if rest != [] { FeedFailed(c, RecordTooLong, rest[1..]); }
  }

  /** The buffer holds exactly the bytes since the last newline. */
  lemma {:induction false} FeedTail<R>(c: Contract<R>, bytes: seq<Byte>, m: Machine)
    requires Feed(c, Going(START), bytes) == Going(m)
    ensures m.pending == Tail(bytes)
    decreases |bytes|
  {
    if bytes != [] {
      var n := |bytes| - 1;
      assert bytes == bytes[..n] + [bytes[n]];
      FeedSplit(c, Going(START), bytes[..n], [bytes[n]]);
      var p := Feed(c, Going(START), bytes[..n]);
      assert Feed(c, p, [bytes[n]]) == Eat(c, p, bytes[n]);
      FeedTail(c, bytes[..n], p.m);
    }
  }
}
