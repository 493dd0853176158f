/** Which bodies the observation reader accepts: one start record, chunks numbered from zero,
    one matching receipt, nothing else; and that every such encoding of a payload is read back. */
module TransferGrammar {
  import opened Basics
  import opened Transport
  import opened ObservationTransfer

  function Wire(lines: seq<seq<Byte>>): seq<Byte> {
    if lines == [] then [] else
    var n := |lines| - 1;
    Wire(lines[..n]) + (lines[n] + [NEWLINE])
  }

  /** Lines that a reader with this allocation can hold, each with its newline. */
  predicate Fits<R>(c: Contract<R>, lines: seq<seq<Byte>>) {
    forall i :: 0 <= i < |lines| ==> NEWLINE !in lines[i] && |lines[i]| + 1 <= c.recordMax
  }

  predicate IsStart<R>(c: Contract<R>, line: seq<Byte>, id: string) {
    var p := c.parse(line);
    p.Object? && p.record.kind == Text("start") &&
    p.record.resource == Text(c.resource) && p.record.transferId == Text(id)
  }

  predicate IsChunk<R>(c: Contract<R>, line: seq<Byte>, id: string, ordinal: nat) {
    var p := c.parse(line);
    p.Object? && p.record.kind == Text("chunk") && p.record.transferId == Text(id) &&
    p.record.ordinal == Number(ordinal) && p.record.data.Text? && c.unbase64(p.record.data.text).Some?
  }

  function ChunkData<R>(c: Contract<R>, line: seq<Byte>): seq<Byte> {
    var p := c.parse(line);
    if p.Object? && p.record.data.Text? && c.unbase64(p.record.data.text).Some?
    then c.unbase64(p.record.data.text).value else []
  }

  predicate IsReceipt<R>(c: Contract<R>, line: seq<Byte>, id: string, chunks: nat, payload: seq<Byte>) {
    var p := c.parse(line);
    p.Object? && p.record.kind == Text("complete") && p.record.transferId == Text(id) &&
    p.record.chunks == Number(chunks) && p.record.bytes == Number(|payload|) && p.record.sha256 == Text(c.sha(payload))
  }

  /** A start record followed by the chunks numbered 0, 1, 2, ... of the same transfer. */
  predicate Opened<R>(c: Contract<R>, lines: seq<seq<Byte>>, id: string) {
    |lines| >= 1 && IsStart(c, lines[0], id) &&
    forall i :: 1 <= i < |lines| ==> IsChunk(c, lines[i], id, i - 1)
  }

  /** The chunks' data after the start record, in order. */
  function PayloadOf<R>(c: Contract<R>, lines: seq<seq<Byte>>): seq<Byte> {
    if |lines| <= 1 then [] else PayloadOf(c, lines[..|lines| - 1]) + ChunkData(c, lines[|lines| - 1])
  }

  /** The whole transfer, at least one chunk, closed by its receipt. */
  predicate Transfer<R>(c: Contract<R>, lines: seq<seq<Byte>>, id: string, payload: seq<Byte>) {
    |lines| >= 3 &&
    var n := |lines| - 1;
    Opened(c, lines[..n], id) && payload == PayloadOf(c, lines[..n]) && IsReceipt(c, lines[n], id, n - 1, payload)
  }

  // ---- The machine reads line by line ----

  function Fold<R>(c: Contract<R>, lines: seq<seq<Byte>>): Progress {
    if lines == [] then Going(START) else
    var n := |lines| - 1;
    match Fold(c, lines[..n]) case Failed(e) => Failed(e) case Going(m) => ReadLine(c, m, lines[n])
  }

  lemma {:induction false} FoldBuffersNothing<R>(c: Contract<R>, lines: seq<seq<Byte>>)
    ensures Fold(c, lines).Going? ==> Fold(c, lines).m.pending == []
  {
    if lines != [] { FoldBuffersNothing(c, lines[..|lines| - 1]); }
  }

  lemma {:induction false} FeedWire<R>(c: Contract<R>, lines: seq<seq<Byte>>)
    requires Fits(c, lines)
    ensures Feed(c, Going(START), Wire(lines)) == Fold(c, lines)
  {
    if lines != [] {
      var n := |lines| - 1;
      FeedWire(c, lines[..n]);
      var p, last := Fold(c, lines[..n]), lines[n] + [NEWLINE];
      FeedSplit(c, Going(START), Wire(lines[..n]), last);
      if p.Failed? {
        FeedFailed(c, p.error, last);
      } else {
        FoldBuffersNothing(c, lines[..n]);
        FeedLine(c, p.m, lines[n], []);
        assert last + [] == last;
      }
    }
  }

  /** Before the receipt the machine is where the opened lines put it, and only there. */
  lemma {:induction false} FoldOpened<R>(c: Contract<R>, lines: seq<seq<Byte>>, id: string)
    ensures Opened(c, lines, id) ==>
      Fold(c, lines) == Going(Machine([], Some(id), |lines| - 1, PayloadOf(c, lines), false))
  {
    if |lines| == 1 {
      assert lines[..0] == [];
    } else if |lines| > 1 {
      var n := |lines| - 1;
      FoldOpened(c, lines[..n], id);
      if Opened(c, lines, id) {
        assert Opened(c, lines[..n], id);
        assert IsChunk(c, lines[n], id, n - 1);
      }
    }
  }

  lemma OpenedNext<R>(c: Contract<R>, lines: seq<seq<Byte>>, line: seq<Byte>, id: string)
    requires Opened(c, lines, id) && IsChunk(c, line, id, |lines| - 1)
    ensures Opened(c, lines + [line], id)
  {
  }

  lemma {:induction false} FoldGoing<R>(c: Contract<R>, lines: seq<seq<Byte>>)
    requires Fold(c, lines).Going? && !Fold(c, lines).m.complete
    ensures lines == [] || exists id :: Opened(c, lines, id)
  {
    if lines != [] {
      var n := |lines| - 1;
      var p := Fold(c, lines[..n]);
      FoldGoing(c, lines[..n]);
      if lines[..n] == [] {
        assert IsStart(c, lines[0], c.parse(lines[0]).record.transferId.text);
        assert Opened(c, lines, c.parse(lines[0]).record.transferId.text);
      } else {
        var id :| Opened(c, lines[..n], id);
        FoldOpened(c, lines[..n], id);
        OpenedNext(c, lines[..n], lines[n], id);
        assert lines == lines[..n] + [lines[n]];
      }
    }
  }

  /** The machine is complete with `payload` spooled exactly after a whole transfer of it. */
  lemma FoldComplete<R>(c: Contract<R>, lines: seq<seq<Byte>>, payload: seq<Byte>)
    ensures (exists id :: Transfer(c, lines, id, payload)) <==>
            (Fold(c, lines).Going? && Fold(c, lines).m.complete && Fold(c, lines).m.spool == payload)
  {
    var n := |lines| - 1;
    if id :| Transfer(c, lines, id, payload) {
      FoldOpened(c, lines[..n], id);
    }
    if Fold(c, lines).Going? && Fold(c, lines).m.complete && Fold(c, lines).m.spool == payload {
      var p := Fold(c, lines[..n]);
      FoldGoing(c, lines[..n]);
      assert lines[..n] != [] by { assert Fold(c, []) == Going(START); }
      var id :| Opened(c, lines[..n], id);
      FoldOpened(c, lines[..n], id);
      assert Transfer(c, lines, id, payload);
    }
  }

  /** Bytes the machine has eaten are whole lines that fit, and the buffered rest. */
  lemma {:induction false} Decompose<R>(c: Contract<R>, body: seq<Byte>, m: Machine) returns (lines: seq<seq<Byte>>)
    requires Feed(c, Going(START), body) == Going(m)
    ensures Fits(c, lines) && body == Wire(lines) + m.pending && NEWLINE !in m.pending
    ensures Fold(c, lines) == Going(m.(pending := []))
    decreases |body|
  {
    if body == [] { return []; }
    var n := |body| - 1;
    var p := Feed(c, Going(START), body[..n]);
    FeedLast(c, body);
    lines := Decompose(c, body[..n], p.m);
    assert body == body[..n] + [body[n]];
    if body[n] == NEWLINE {
      lines := AddLine(c, lines, p.m, m);
    }
  }

  lemma FeedLast<R>(c: Contract<R>, body: seq<Byte>)
    requires body != []
    ensures var n := |body| - 1; Feed(c, Going(START), body) == Eat(c, Feed(c, Going(START), body[..n]), body[n])
  {
    var n := |body| - 1;
    assert body == body[..n] + [body[n]];
    FeedSplit(c, Going(START), body[..n], [body[n]]);
    assert [body[n]][1..] == [];
  }

  /** A newline ends the line that waits in the buffer. */
  lemma AddLine<R>(c: Contract<R>, before: seq<seq<Byte>>, was: Machine, m: Machine) returns (lines: seq<seq<Byte>>)
    requires Fits(c, before) && NEWLINE !in was.pending && Fold(c, before) == Going(was.(pending := []))
    requires Eat(c, Going(was), NEWLINE) == Going(m)
    ensures Fits(c, lines) && Wire(lines) + m.pending == Wire(before) + was.pending + [NEWLINE] && NEWLINE !in m.pending
    ensures Fold(c, lines) == Going(m.(pending := []))
  {
    lines := before + [was.pending];
    assert lines[..|before|] == before;
    assert Wire(lines) == Wire(before) + (was.pending + [NEWLINE]);
  }

  /** The reader succeeds exactly on start, chunks 0..n-1 with n >= 1, one matching receipt and
      the end of the body, all with one transfer id and every line within the allocation; and
      what it returns is the validated concatenation of the chunks. */
  lemma AcceptsExactly<R>(c: Contract<R>, body: seq<Byte>, v: R)
    ensures Verdict(c, body) == Received(v) <==>
      exists lines, id, payload ::
        body == Wire(lines) && Fits(c, lines) && Transfer(c, lines, id, payload) && Judge(c, payload) == Received(v)
  {
    if Verdict(c, body) == Received(v) {
      var m := Feed(c, Going(START), body).m;
      var lines := Decompose(c, body, m);
      assert body == Wire(lines);
      FoldComplete(c, lines, m.spool);
      var id :| Transfer(c, lines, id, m.spool);
    }
    if lines, id, payload :|
      body == Wire(lines) && Fits(c, lines) && Transfer(c, lines, id, payload) && Judge(c, payload) == Received(v)
    {
      TransferAccepted(c, lines, id, payload);
    }
  }

  lemma TransferAccepted<R>(c: Contract<R>, lines: seq<seq<Byte>>, id: string, payload: seq<Byte>)
    requires Fits(c, lines) && Transfer(c, lines, id, payload)
    ensures Verdict(c, Wire(lines)) == Judge(c, payload)
  {
    FeedWire(c, lines);
    FoldComplete(c, lines, payload);
    FoldBuffersNothing(c, lines);
    assert |lines[0]| + 1 <= c.recordMax;
  }

  // ---- Round trip ----

  /** How a sender renders records and chunk data. */
  datatype Encoder = Encoder(render: Record -> seq<Byte>, base64: seq<Byte> -> string)

  function StartRecord(resource: string, id: string): Record {
    Record(Text("start"), Text(id), Text(resource), Absent, Absent, Absent, Absent, Absent, Absent, Absent)
  }

  function ChunkRecord(id: string, ordinal: nat, data: string): Record {
    Record(Text("chunk"), Text(id), Absent, Number(ordinal), Text(data), Absent, Absent, Absent, Absent, Absent)
  }

  function ReceiptRecord(id: string, chunks: nat, bytes: nat, sha: string): Record {
    Record(Text("complete"), Text(id), Absent, Absent, Absent, Number(chunks), Number(bytes), Text(sha), Absent, Absent)
  }

  function Records<R>(c: Contract<R>, e: Encoder, id: string, chunks: seq<seq<Byte>>): seq<Record> {
    [StartRecord(c.resource, id)] +
    seq(|chunks|, i requires 0 <= i < |chunks| => ChunkRecord(id, i, e.base64(chunks[i]))) +
    [ReceiptRecord(id, |chunks|, |Concat(chunks)|, c.sha(Concat(chunks)))]
  }

  function Rendered(e: Encoder, records: seq<Record>): seq<seq<Byte>> {
    seq(|records|, i requires 0 <= i < |records| => e.render(records[i]))
  }

  /** Decoding undoes this encoding, on the records and data of this transfer. */
  ghost predicate Faithful<R>(c: Contract<R>, e: Encoder, id: string, chunks: seq<seq<Byte>>) {
    && (forall r :: r in Records(c, e, id, chunks) ==> c.parse(e.render(r)) == Object(r))
    && (forall i :: 0 <= i < |chunks| ==> c.unbase64(e.base64(chunks[i])) == Some(chunks[i]))
  }

  lemma LineOf<R>(c: Contract<R>, e: Encoder, id: string, chunks: seq<seq<Byte>>, i: nat)
    requires Faithful(c, e, id, chunks) && i < |chunks| + 2
    ensures var lines := Rendered(e, Records(c, e, id, chunks));
      |lines| == |chunks| + 2 &&
      (i == 0 ==> IsStart(c, lines[i], id)) &&
      (1 <= i <= |chunks| ==> IsChunk(c, lines[i], id, i - 1) && ChunkData(c, lines[i]) == chunks[i - 1]) &&
      (i == |chunks| + 1 ==> IsReceipt(c, lines[i], id, |chunks|, Concat(chunks)))
  {
    var records := Records(c, e, id, chunks);
    assert records[i] in records;
  }

  lemma {:induction false} PayloadPrefix<R>(c: Contract<R>, e: Encoder, id: string, chunks: seq<seq<Byte>>, k: nat)
    requires Faithful(c, e, id, chunks) && k <= |chunks|
    ensures PayloadOf(c, Rendered(e, Records(c, e, id, chunks))[..k + 1]) == Concat(chunks[..k])
  {
    var lines := Rendered(e, Records(c, e, id, chunks));
    if k > 0 {
      PayloadPrefix(c, e, id, chunks, k - 1);
      LineOf(c, e, id, chunks, k);
      assert lines[..k + 1][..k] == lines[..k];
      assert chunks[..k] == chunks[..k - 1] + [chunks[k - 1]];
      ConcatSnoc(chunks[..k - 1], chunks[k - 1]);
    }
  }

  function Encoded<R>(c: Contract<R>, e: Encoder, id: string, chunks: seq<seq<Byte>>): seq<seq<Byte>> {
    Rendered(e, Records(c, e, id, chunks))
  }

  lemma EncodedOpens<R>(c: Contract<R>, e: Encoder, id: string, chunks: seq<seq<Byte>>)
    requires Faithful(c, e, id, chunks)
    ensures |Encoded(c, e, id, chunks)| == |chunks| + 2
    ensures Opened(c, Encoded(c, e, id, chunks)[..|chunks| + 1], id)
  {
    var lines := Encoded(c, e, id, chunks);
    LineOf(c, e, id, chunks, 0);
    forall i | 1 <= i < |chunks| + 1 ensures IsChunk(c, lines[i], id, i - 1) { LineOf(c, e, id, chunks, i); }
  }

  lemma EncodedPayload<R>(c: Contract<R>, e: Encoder, id: string, chunks: seq<seq<Byte>>)
    requires Faithful(c, e, id, chunks)
    ensures |Encoded(c, e, id, chunks)| == |chunks| + 2
    ensures PayloadOf(c, Encoded(c, e, id, chunks)[..|chunks| + 1]) == Concat(chunks)
  {
    PayloadPrefix(c, e, id, chunks, |chunks|);
    assert chunks[..|chunks|] == chunks;
  }

  lemma Closed<R>(c: Contract<R>, lines: seq<seq<Byte>>, id: string, payload: seq<Byte>, n: nat)
    requires |lines| == n + 1 >= 3 && Opened(c, lines[..n], id) && PayloadOf(c, lines[..n]) == payload
    requires IsReceipt(c, lines[n], id, n - 1, payload)
    ensures Transfer(c, lines, id, payload)
  {
  }

  lemma EncodedIsTransfer<R>(c: Contract<R>, e: Encoder, id: string, chunks: seq<seq<Byte>>)
    requires Faithful(c, e, id, chunks) && |chunks| >= 1
    ensures Transfer(c, Encoded(c, e, id, chunks), id, Concat(chunks))
  {
    EncodedOpens(c, e, id, chunks);
    LineOf(c, e, id, chunks, |chunks| + 1);
    EncodedPayload(c, e, id, chunks);
    Closed(c, Encoded(c, e, id, chunks), id, Concat(chunks), |chunks| + 1);
  }

  /** Any payload, in any non-empty chunking whose records fit, reads back as itself. */
  lemma RoundTrip<R>(c: Contract<R>, e: Encoder, id: string, chunks: seq<seq<Byte>>)
    requires Faithful(c, e, id, chunks) && |chunks| >= 1 && Fits(c, Encoded(c, e, id, chunks))
    ensures Verdict(c, Wire(Encoded(c, e, id, chunks))) == Judge(c, Concat(chunks))
  {
    EncodedIsTransfer(c, e, id, chunks);
    TransferAccepted(c, Encoded(c, e, id, chunks), id, Concat(chunks));
  }

  /** End to end: the encoded transfer, delivered in any network pieces, empty ones included,
      and read through the buffered body, yields exactly the payload's receipt. */
  method RoundTripOverHttps<R>(c: Contract<R>, e: Encoder, id: string, chunks: seq<seq<Byte>>, pieces: seq<seq<Byte>>,
                               broken: nat -> bool, expired: nat -> bool)
    returns (outcome: Outcome<R>)
    requires Faithful(c, e, id, chunks) && |chunks| >= 1 && Fits(c, Encoded(c, e, id, chunks))
    requires Concat(pieces) == Wire(Encoded(c, e, id, chunks))
    ensures Undisturbed(outcome) ==> outcome == Judge(c, Concat(chunks))
    ensures (forall k :: !expired(k) && !broken(k)) ==> outcome == Judge(c, Concat(chunks))
  {
    var body := new HttpsBody(pieces);
    outcome := ReceiveHttps(c, body, broken, expired);
    RoundTrip(c, e, id, chunks);
  }
}
