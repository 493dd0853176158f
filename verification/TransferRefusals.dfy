/** With which error the observation reader refuses a body: the first line that breaks the grammar
    decides it, by how it breaks it. */
module TransferRefusals {
  import opened Basics
  import opened ObservationTransfer
  import opened TransferGrammar

  ghost predicate Whole<R>(c: Contract<R>, lines: seq<seq<Byte>>) {
    exists id, payload :: Transfer(c, lines, id, payload)
  }

  /** The beginning of a transfer, or a whole one. */
  ghost predicate Begun<R>(c: Contract<R>, lines: seq<seq<Byte>>) {
    lines == [] || (exists id :: Opened(c, lines, id)) || Whole(c, lines)
  }

  /** A record of this transfer and kind. */
  predicate Says<R>(c: Contract<R>, line: seq<Byte>, id: string, kind: string) {
    var p := c.parse(line);
    p.Object? && p.record.transferId == Text(id) && p.record.kind == Text(kind)
  }

  /** How a line breaks a transfer that has been opened and not closed. */
  predicate BreaksOpened<R>(c: Contract<R>, lines: seq<seq<Byte>>, id: string, line: seq<Byte>, e: Error) {
    Opened(c, lines, id) && c.parse(line).Object? &&
    var r, n := c.parse(line).record, |lines| - 1;
    match e
    case IdentityChanged => r.transferId != Text(id)
    case NotContiguous => Says(c, line, id, "chunk") && r.ordinal != Number(n)
    case DataUnreadable => Says(c, line, id, "chunk") && r.ordinal == Number(n) && !IsChunk(c, line, id, n)
    case ReceiptDiffers => Says(c, line, id, "complete") && !(n >= 1 && IsReceipt(c, line, id, n, PayloadOf(c, lines)))
    case Unavailable(reason, detail) =>
      Says(c, line, id, "error") && r.reason == Text(reason) && r.detail == Text(detail)
    case ErrorUnreadable => Says(c, line, id, "error") && !(r.reason.Text? && r.detail.Text?)
    case UnexpectedPhase => r.transferId == Text(id) && r.kind !in {Text("chunk"), Text("complete"), Text("error")}
    case _ => false
  }

  /** How a line breaks the grammar after lines that keep it. */
  ghost predicate Breaks<R>(c: Contract<R>, lines: seq<seq<Byte>>, line: seq<Byte>, e: Error) {
    match e
    case DataAfterReceipt => Whole(c, lines)
    case LineUnreadable => !Whole(c, lines) && c.parse(line).Unreadable?
    case LineNotObject => !Whole(c, lines) && c.parse(line).NotObject?
    case StartDiffers => lines == [] && c.parse(line).Object? && forall id :: !IsStart(c, line, id)
    case _ => exists id :: BreaksOpened(c, lines, id, line, e)
  }

  // ---- One line ----

  lemma FoldBegun<R>(c: Contract<R>, lines: seq<seq<Byte>>)
    ensures Fold(c, lines).Going? <==> Begun(c, lines)
    ensures Fold(c, lines).Going? ==> (Fold(c, lines).m.complete <==> Whole(c, lines))
  {
    if Fold(c, lines).Going? {
      var m := Fold(c, lines).m;
      FoldComplete(c, lines, m.spool);
      if !m.complete { FoldGoing(c, lines); }
    }
    if id :| Opened(c, lines, id) { FoldOpened(c, lines, id); }
    if id, payload :| Transfer(c, lines, id, payload) { FoldComplete(c, lines, payload); }
  }

  lemma OneId<R>(c: Contract<R>, lines: seq<seq<Byte>>, a: string, b: string)
    requires Opened(c, lines, a) && Opened(c, lines, b)
    ensures a == b
  {
    assert IsStart(c, lines[0], a) && IsStart(c, lines[0], b);
  }

  lemma OpenedBreaks<R>(c: Contract<R>, lines: seq<seq<Byte>>, id: string, line: seq<Byte>, e: Error)
    requires Opened(c, lines, id) && Fold(c, lines).Going? && c.parse(line).Object?
    ensures ReadLine(c, Fold(c, lines).m, line) == Failed(e) <==> BreaksOpened(c, lines, id, line, e)
  {
    FoldOpened(c, lines, id);
  }

  lemma FirstBreaks<R>(c: Contract<R>, line: seq<Byte>, e: Error)
    requires c.parse(line).Object?
    ensures ReadLine(c, START, line) == Failed(e) <==> e == StartDiffers && forall id :: !IsStart(c, line, id)
  {
    var r := c.parse(line).record;
    if r.transferId.Text? {
      assert IsStart(c, line, r.transferId.text) <==> r.kind == Text("start") && r.resource == Text(c.resource);
    }
  }

  lemma WholeIsClosed<R>(c: Contract<R>, lines: seq<seq<Byte>>)
    requires Whole(c, lines)
    ensures lines != [] && forall id :: !Opened(c, lines, id)
  {
    forall id ensures !Opened(c, lines, id) {
      if Opened(c, lines, id) {
        FoldOpened(c, lines, id);
        FoldBegun(c, lines);
      }
    }
  }

  lemma ClosedBreaks<R>(c: Contract<R>, lines: seq<seq<Byte>>, line: seq<Byte>, e: Error)
    requires Whole(c, lines)
    ensures Breaks(c, lines, line, e) <==> e == DataAfterReceipt
  {
    WholeIsClosed(c, lines);
  }

  lemma UnreadBreaks<R>(c: Contract<R>, lines: seq<seq<Byte>>, line: seq<Byte>, e: Error)
    requires !Whole(c, lines) && !c.parse(line).Object?
    ensures Breaks(c, lines, line, e) <==> e == if c.parse(line).Unreadable? then LineUnreadable else LineNotObject
  {
  }

  lemma GoingBreaks<R>(c: Contract<R>, lines: seq<seq<Byte>>, id: string, line: seq<Byte>, e: Error)
    requires !Whole(c, lines) && c.parse(line).Object? && Opened(c, lines, id)
    ensures Breaks(c, lines, line, e) <==> BreaksOpened(c, lines, id, line, e)
  {
    forall other | BreaksOpened(c, lines, other, line, e) ensures other == id { OneId(c, lines, other, id); }
  }

  /** The phase machine refuses a line as the grammar breaks. */
  lemma BreaksIs<R>(c: Contract<R>, lines: seq<seq<Byte>>, line: seq<Byte>, e: Error)
    requires Fold(c, lines).Going?
    ensures ReadLine(c, Fold(c, lines).m, line) == Failed(e) <==> Breaks(c, lines, line, e)
  {
    FoldBegun(c, lines);
    if Fold(c, lines).m.complete {
      ClosedBreaks(c, lines, line, e);
    } else if !c.parse(line).Object? {
      UnreadBreaks(c, lines, line, e);
    } else if lines == [] {
      FirstBreaks(c, line, e);
    } else {
      var id :| Opened(c, lines, id);
      OpenedBreaks(c, lines, id, line, e);
      GoingBreaks(c, lines, id, line, e);
    }
  }

  // ---- The whole body ----

  /** Why a body is refused with this error. */
  ghost predicate Because<R>(c: Contract<R>, body: seq<Byte>, e: Error) {
    || (e == Allocation && c.recordMax < 1)
    || Broken(c, body, e)
    || (e == Incomplete && exists lines, rest :: CutShort(c, body, lines, rest))
    || (e == PayloadUnreadable && exists payload :: Carries(c, body, payload) && !c.decodes(payload))
    || (e == PayloadInvalid && exists payload :: Carries(c, body, payload) && Invalid(c, payload))
  }

  predicate Invalid<R>(c: Contract<R>, payload: seq<Byte>) { c.decodes(payload) && c.validate(payload).None? }

  /** The errors that some bytes cause whatever follows them. */
  ghost predicate Broken<R>(c: Contract<R>, body: seq<Byte>, e: Error) {
    if e == RecordTooLong then exists lines, rest :: Overlong(c, body, lines, rest)
    else exists lines, line, rest :: BrokenAt(c, body, lines, line, rest, e)
  }

  /** The lines keep the grammar and the allocation, and the body goes on with `rest`. */
  ghost predicate Upto<R>(c: Contract<R>, body: seq<Byte>, lines: seq<seq<Byte>>, rest: seq<Byte>) {
    c.recordMax >= 1 && body == Wire(lines) + rest && Fits(c, lines) && Begun(c, lines)
  }

  ghost predicate Overlong<R>(c: Contract<R>, body: seq<Byte>, lines: seq<seq<Byte>>, rest: seq<Byte>) {
    Upto(c, body, lines, rest) && c.recordMax <= |rest| && NEWLINE !in rest[..c.recordMax]
  }

  ghost predicate CutShort<R>(c: Contract<R>, body: seq<Byte>, lines: seq<seq<Byte>>, rest: seq<Byte>) {
    Upto(c, body, lines, rest) && |rest| < c.recordMax && NEWLINE !in rest && (rest != [] || !Whole(c, lines))
  }

  ghost predicate Carries<R>(c: Contract<R>, body: seq<Byte>, payload: seq<Byte>) {
    exists lines, id :: body == Wire(lines) && Fits(c, lines) && Transfer(c, lines, id, payload)
  }

  ghost predicate BrokenAt<R>(c: Contract<R>, body: seq<Byte>, lines: seq<seq<Byte>>, line: seq<Byte>, rest: seq<Byte>,
                              e: Error) {
    Upto(c, body, lines, line + [NEWLINE] + rest) && NEWLINE !in line && |line| + 1 <= c.recordMax &&
    Breaks(c, lines, line, e)
  }

  lemma FeedUpto<R>(c: Contract<R>, body: seq<Byte>, lines: seq<seq<Byte>>, rest: seq<Byte>)
    requires Upto(c, body, lines, rest)
    ensures Fold(c, lines).Going? && Fold(c, lines).m.pending == []
    ensures Feed(c, Going(START), body) == Feed(c, Fold(c, lines), rest)
  {
    FoldBegun(c, lines);
    FoldBuffersNothing(c, lines);
    FeedWire(c, lines);
    FeedSplit(c, Going(START), Wire(lines), rest);
  }

  lemma OverlongRefused<R>(c: Contract<R>, body: seq<Byte>, lines: seq<seq<Byte>>, rest: seq<Byte>)
    requires Overlong(c, body, lines, rest)
    ensures Verdict(c, body) == Refused(RecordTooLong)
  {
    FeedUpto(c, body, lines, rest);
    var m, n := Fold(c, lines).m, c.recordMax;
    FeedPartial(c, m, rest[..n]);
    assert rest == rest[..n] + rest[n..];
    FeedSplit(c, Going(m), rest[..n], rest[n..]);
    if rest[n..] != [] { FeedFailed(c, RecordTooLong, rest[n..][1..]); }
  }

  lemma CutShortRefused<R>(c: Contract<R>, body: seq<Byte>, lines: seq<seq<Byte>>, rest: seq<Byte>)
    requires CutShort(c, body, lines, rest)
    ensures Verdict(c, body) == Refused(Incomplete)
  {
    FeedUpto(c, body, lines, rest);
    FoldBegun(c, lines);
    FeedPartial(c, Fold(c, lines).m, rest);
    assert [] + rest == rest;
  }

  lemma CarriedIsJudged<R>(c: Contract<R>, body: seq<Byte>, payload: seq<Byte>)
    requires Carries(c, body, payload)
    ensures Verdict(c, body) == Judge(c, payload)
  {
    var lines, id :| body == Wire(lines) && Fits(c, lines) && Transfer(c, lines, id, payload);
    TransferAccepted(c, lines, id, payload);
  }

  lemma BrokenRefused<R>(c: Contract<R>, body: seq<Byte>, lines: seq<seq<Byte>>, line: seq<Byte>, rest: seq<Byte>,
                         e: Error)
    requires BrokenAt(c, body, lines, line, rest, e)
    ensures Verdict(c, body) == Refused(e)
  {
    FeedUpto(c, body, lines, line + [NEWLINE] + rest);
    BreaksIs(c, lines, line, e);
    FeedLine(c, Fold(c, lines).m, line, rest);
    FeedFailed(c, e, rest);
  }

  lemma UptoExtends<R>(c: Contract<R>, body: seq<Byte>, lines: seq<seq<Byte>>, rest: seq<Byte>, b: Byte)
    requires Upto(c, body, lines, rest)
    ensures Upto(c, body + [b], lines, rest + [b])
  {
    assert Wire(lines) + rest + [b] == Wire(lines) + (rest + [b]);
  }

  lemma BrokenExtends<R>(c: Contract<R>, body: seq<Byte>, e: Error, b: Byte)
    requires Broken(c, body, e)
    ensures Broken(c, body + [b], e)
  {
    if e == RecordTooLong {
      var lines, rest :| Overlong(c, body, lines, rest);
      UptoExtends(c, body, lines, rest, b);
      assert (rest + [b])[..c.recordMax] == rest[..c.recordMax];
      assert Overlong(c, body + [b], lines, rest + [b]);
    } else {
      var lines, line, rest :| BrokenAt(c, body, lines, line, rest, e);
      UptoExtends(c, body, lines, line + [NEWLINE] + rest, b);
      assert line + [NEWLINE] + rest + [b] == line + [NEWLINE] + (rest + [b]);
      assert BrokenAt(c, body + [b], lines, line, rest + [b], e);
    }
  }

  /** A byte that makes the machine fail completes such a cause. */
  lemma FailsAt<R>(c: Contract<R>, body: seq<Byte>, m: Machine, b: Byte, e: Error)
    requires c.recordMax >= 1 && Feed(c, Going(START), body) == Going(m) && Eat(c, Going(m), b) == Failed(e)
    ensures Broken(c, body + [b], e)
  {
    var lines := Decompose(c, body, m);
    FoldBegun(c, lines);
    assert Upto(c, body, lines, m.pending);
    UptoExtends(c, body, lines, m.pending, b);
    if |m.pending| >= c.recordMax {
      assert (m.pending + [b])[..c.recordMax] == m.pending[..c.recordMax];
      assert Overlong(c, body + [b], lines, m.pending + [b]);
    } else {
      var line := m.pending;
      assert m.(pending := []) == Fold(c, lines).m;
      BreaksIs(c, lines, line, e);
      assert line + [NEWLINE] + [] == line + [b];
      assert e != RecordTooLong;
      assert BrokenAt(c, body + [b], lines, line, [], e);
    }
  }

  lemma {:induction false} FailedIsBroken<R>(c: Contract<R>, body: seq<Byte>, e: Error)
    requires c.recordMax >= 1 && Feed(c, Going(START), body) == Failed(e)
    ensures Broken(c, body, e)
    decreases |body|
  {
    var n := |body| - 1;
    FeedLast(c, body);
    assert body == body[..n] + [body[n]];
    match Feed(c, Going(START), body[..n])
    case Failed(f) =>
      FailedIsBroken(c, body[..n], e);
      BrokenExtends(c, body[..n], e, body[n]);
    case Going(m) =>
      FailsAt(c, body[..n], m, body[n], e);
  }

  lemma CompleteCarries<R>(c: Contract<R>, body: seq<Byte>, lines: seq<seq<Byte>>, m: Machine)
    requires Fits(c, lines) && body == Wire(lines) && Fold(c, lines) == Going(m) && m.complete
    ensures Carries(c, body, m.spool)
  {
    FoldComplete(c, lines, m.spool);
  }

  lemma EndedBecause<R>(c: Contract<R>, body: seq<Byte>, m: Machine, e: Error)
    requires c.recordMax >= 1 && Feed(c, Going(START), body) == Going(m) && Verdict(c, body) == Refused(e)
    ensures Because(c, body, e)
  {
    var lines := Decompose(c, body, m);
    FoldBegun(c, lines);
    assert Upto(c, body, lines, m.pending);
    if |m.pending| >= c.recordMax {
      assert Overlong(c, body, lines, m.pending);
    } else if m.pending != [] || !m.complete {
      assert CutShort(c, body, lines, m.pending);
    } else {
      assert body == Wire(lines) && m.(pending := []) == m;
      CompleteCarries(c, body, lines, m);
    }
  }

  lemma CausedIsRefused<R>(c: Contract<R>, body: seq<Byte>, e: Error)
    requires Because(c, body, e)
    ensures Verdict(c, body) == Refused(e)
  {
    if Broken(c, body, e) {
      if e == RecordTooLong {
        var lines, rest :| Overlong(c, body, lines, rest);
        OverlongRefused(c, body, lines, rest);
      } else {
        var lines, line, rest :| BrokenAt(c, body, lines, line, rest, e);
        BrokenRefused(c, body, lines, line, rest, e);
      }
    } else if e == Incomplete {
      var lines, rest :| CutShort(c, body, lines, rest);
      CutShortRefused(c, body, lines, rest);
    } else if e == PayloadUnreadable {
      var payload :| Carries(c, body, payload) && !c.decodes(payload);
      CarriedIsJudged(c, body, payload);
    } else if e == PayloadInvalid {
      var payload :| Carries(c, body, payload) && Invalid(c, payload);
      CarriedIsJudged(c, body, payload);
    }
  }

  /** Every refusal has exactly one cause: with each error exactly the bodies are refused that break
      the grammar, the allocation or the payload in the way it names, at the first place they do. */
  lemma RefusesExactly<R>(c: Contract<R>, body: seq<Byte>, e: Error)
    ensures Verdict(c, body) == Refused(e) <==> Because(c, body, e)
  {
    if Because(c, body, e) { CausedIsRefused(c, body, e); }
    if Verdict(c, body) == Refused(e) && c.recordMax >= 1 {
      match Feed(c, Going(START), body)
      case Failed(_) =>
        FailedIsBroken(c, body, e);
      case Going(m) => EndedBecause(c, body, m, e);
    }
  }
}
