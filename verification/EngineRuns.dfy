/** Whole runs of the reassembly engine: it does not matter how the host splits the bytes into reads. */
module EngineRuns {
  import opened Bytes
  import opened Container
  import opened Engine

  datatype Read = Read(bytes: seq<byte>, expectData: bool)

  /** All bytes of a list of reads, in order. */
  function Fed(chunks: seq<Read>): seq<byte> {
    if chunks == [] then [] else chunks[0].bytes + Fed(chunks[1..])
  }

  function Run(s: EngineState, chunks: seq<Read>): (r: (EngineState, seq<TransferResult>))
    ensures |r.1| == |chunks|
    decreases chunks
  {
    if chunks == [] then (s, []) else
    var (s1, first) := Step(s, chunks[0].bytes, chunks[0].expectData);
    var (s2, rest) := Run(s1, chunks[1..]);
    (s2, [first] + rest)
  }

  function FirstNonEmpty(chunks: seq<Read>): Read
    requires Fed(chunks) != []
  {
    if chunks[0].bytes != [] then chunks[0] else FirstNonEmpty(chunks[1..])
  }

  /** Every call but the last asks for more, the last hands over exactly `payload`. */
  predicate Delivers(results: seq<TransferResult>, payload: seq<byte>) {
    && results != []
    && (forall i | 0 <= i < |results| - 1 :: results[i].action == 0)
    && results[|results| - 1] == DataReady(payload)
  }

  lemma StepKeepsValid(s: EngineState, raw: seq<byte>, expectData: bool)
    requires s.Valid()
    ensures Step(s, raw, expectData).0.Valid()
  {
  }

  lemma DeliversCons(first: TransferResult, rest: seq<TransferResult>, payload: seq<byte>)
    requires first.action == 0 && rest != []
    ensures Delivers([first] + rest, payload) <==> Delivers(rest, payload)
  {
    var all := [first] + rest;
    assert forall i | 0 <= i < |rest| :: all[i + 1] == rest[i];
    if Delivers(all, payload) {
      forall i | 0 <= i < |rest| - 1 ensures rest[i].action == 0 {
        assert all[i + 1].action == 0;
      }
    }
  }

  /** Any data handed over had its 12-byte header fed first, so it is shorter than what was fed. */
  lemma {:induction false} DataIsPaidFor(s: EngineState, chunks: seq<Read>, i: nat)
    requires s.Valid() && i < |chunks|
    requires Run(s, chunks).1[i].action == 1
    ensures |Run(s, chunks).1[i].data| + (if s.active then 0 else HDR_LEN) <= |s.acc| + |Fed(chunks)|
    decreases chunks
  {
    var (s1, first) := Step(s, chunks[0].bytes, chunks[0].expectData);
    StepKeepsValid(s, chunks[0].bytes, chunks[0].expectData);
    if i > 0 {
      assert Run(s, chunks).1[i] == Run(s1, chunks[1..]).1[i - 1];
      DataIsPaidFor(s1, chunks[1..], i - 1);
    }
  }

  /** The state behind a completed payload: a response behind it is kept. */
  function Completed(s: EngineState, tail: seq<byte>): EngineState {
    var done := s.(active := false, remaining := 0, acc := []);
    if |tail| >= HDR_LEN && Kind(tail) == TYPE_RESPONSE
    then done.(hasPending := true, pendingCode := RespCode(tail)) else done
  }

  lemma LastPiece(s: EngineState, raw: seq<byte>, expectData: bool, tail: seq<byte>)
    requires s.Valid() && s.active
    requires |raw| == s.remaining + |tail| && raw[s.remaining..] == tail
    ensures Step(s, raw, expectData) == (Completed(s, tail), DataReady(s.acc + raw[..s.remaining]))
  {
  }

  lemma MiddlePiece(s: EngineState, raw: seq<byte>, expectData: bool)
    requires s.Valid() && s.active && |raw| < s.remaining
    ensures Step(s, raw, expectData) == (s.(acc := s.acc + raw, remaining := s.remaining - |raw|), READ_AGAIN)
  {
    assert raw == [] ==> s.acc + raw == s.acc;
  }

  /** Inside a data phase the remaining bytes complete the payload, and what follows them in the
      completing read is looked at for a response. */
  lemma {:induction false} DataPhaseCompletes(s: EngineState, chunks: seq<Read>, tail: seq<byte>)
    requires s.Valid() && s.active && chunks != []
    requires |Fed(chunks)| == s.remaining + |tail| && Fed(chunks)[s.remaining..] == tail
    requires |chunks[|chunks| - 1].bytes| > |tail|
    ensures Delivers(Run(s, chunks).1, s.acc + Fed(chunks)[..s.remaining])
    ensures Run(s, chunks).0 == Completed(s, tail)
    decreases chunks
  {
    var raw, wanted, rest := chunks[0].bytes, chunks[0].expectData, chunks[1..];
    if rest == [] {
      assert Fed(chunks) == raw;
      LastPiece(s, raw, wanted, tail);
    } else {
      LastIsFed(rest);
      MiddlePiece(s, raw, wanted);
      var s1 := Step(s, raw, wanted).0;
      CutBehind(s.acc, raw, Fed(rest), s.remaining);
      DataPhaseCompletes(s1, rest, tail);
      DeliversCons(READ_AGAIN, Run(s1, rest).1, s.acc + Fed(chunks)[..s.remaining]);
    }
  }

  lemma CutBehind(acc: seq<byte>, raw: seq<byte>, more: seq<byte>, n: nat)
    requires |raw| <= n <= |raw| + |more|
    ensures acc + (raw + more)[..n] == (acc + raw) + more[..n - |raw|]
    ensures (raw + more)[n..] == more[n - |raw|..]
  {
  }

  lemma LastIsFed(chunks: seq<Read>)
    requires chunks != []
    ensures |Fed(chunks)| >= |chunks[|chunks| - 1].bytes|
  {
    if |chunks| > 1 {
      LastIsFed(chunks[1..]);
    }
  }

  /** A data container followed by `tail`, cut into reads in any way (empty ones included) whose first
      non-empty read holds the header and whose last read holds the end of the payload and all of
      `tail`. The payload is delivered, and the response behind it is kept if and only if the payload
      did not fit in the first non-empty read. */
  lemma {:induction false} MergedResponse(
      s: EngineState, code: u16, transId: u32, payload: seq<byte>, tail: seq<byte>, chunks: seq<Read>)
    requires s.Valid() && s.Idle()
    requires HDR_LEN + |payload| < TWO_32
    requires chunks != [] && Fed(chunks) == DataContainer(code, transId, payload) + tail
    requires |chunks[|chunks| - 1].bytes| > |tail|
    requires |FirstNonEmpty(chunks).bytes| >= HDR_LEN && FirstNonEmpty(chunks).expectData
    ensures Delivers(Run(s, chunks).1, payload)
    ensures Run(s, chunks).0 ==
            if |FirstNonEmpty(chunks).bytes| < HDR_LEN + |payload| && |tail| >= HDR_LEN && Kind(tail) == TYPE_RESPONSE
            then s.(hasPending := true, pendingCode := RespCode(tail)) else s
  {
    var raw, rest := chunks[0].bytes, chunks[1..];
    if raw == [] {
      assert Fed(chunks) == Fed(rest);
      assert rest[|rest| - 1] == chunks[|chunks| - 1];
      MergedResponse(s, code, transId, payload, tail, rest);
      DeliversCons(READ_AGAIN, Run(s, rest).1, payload);
    } else {
      FirstRead(code, transId, payload, tail, raw, Fed(rest));
      if rest == [] {
        assert raw[HDR_LEN..] + Fed(rest) == raw[HDR_LEN..];
        assert raw[HDR_LEN..HDR_LEN + |payload|] == (payload + tail)[..|payload|] == payload;
      } else {
        LastIsFed(rest);
        var s1 := Step(s, raw, true).0;
        var whole := s1.acc + Fed(rest);
        assert whole == payload + tail && s1.remaining == |payload| - |s1.acc|;
        assert Fed(rest)[s1.remaining..] == whole[|payload|..] == tail;
        assert s1.acc + Fed(rest)[..s1.remaining] == whole[..|payload|] == payload;
        DataPhaseCompletes(s1, rest, tail);
        DeliversCons(READ_AGAIN, Run(s1, rest).1, payload);
      }
    }
  }

  lemma FirstRead(code: u16, transId: u32, payload: seq<byte>, tail: seq<byte>, raw: seq<byte>, more: seq<byte>)
    requires HDR_LEN + |payload| < TWO_32 && |raw| >= HDR_LEN
    requires raw + more == DataContainer(code, transId, payload) + tail
    ensures Length(raw) == HDR_LEN + |payload| && Kind(raw) == TYPE_DATA
    ensures raw[HDR_LEN..] + more == payload + tail
  {
    var c := DataContainer(code, transId, payload);
    DataContainerFields(code, transId, payload);
    assert raw == (c + tail)[..|raw|] && c == (c + tail)[..|c|];
    FieldsOfPrefix(c, c + tail);
    FieldsOfPrefix(raw, c + tail);
    assert raw[HDR_LEN..] + more == (c + tail)[HDR_LEN..] == c[HDR_LEN..] + tail;
  }

  /** A data container cut into reads in any way: the calls deliver exactly the payload if and only if
      the first non-empty read holds the whole header and is fed with `expectData`. */
  lemma {:induction false} ChunkingIndependence(
      s: EngineState, code: u16, transId: u32, payload: seq<byte>, chunks: seq<Read>)
    requires s.Valid() && s.Idle()
    requires HDR_LEN + |payload| < TWO_32
    requires chunks != [] && Fed(chunks) == DataContainer(code, transId, payload)
    requires chunks[|chunks| - 1].bytes != []
    ensures Delivers(Run(s, chunks).1, payload)
       <==> |FirstNonEmpty(chunks).bytes| >= HDR_LEN && FirstNonEmpty(chunks).expectData
  {
    var c := DataContainer(code, transId, payload);
    if |FirstNonEmpty(chunks).bytes| >= HDR_LEN && FirstNonEmpty(chunks).expectData {
      assert c + [] == c;
      MergedResponse(s, code, transId, payload, [], chunks);
    } else {
      DroppedStart(s, code, transId, payload, chunks);
    }
  }

  /** A first read that is dropped leaves too few bytes for the payload ever to be delivered. */
  lemma {:induction false} DroppedStart(
      s: EngineState, code: u16, transId: u32, payload: seq<byte>, chunks: seq<Read>)
    requires s.Valid() && s.Idle()
    requires HDR_LEN + |payload| < TWO_32
    requires chunks != [] && Fed(chunks) == DataContainer(code, transId, payload)
    requires |FirstNonEmpty(chunks).bytes| < HDR_LEN || !FirstNonEmpty(chunks).expectData
    ensures !Delivers(Run(s, chunks).1, payload)
  {
    var raw, rest := chunks[0].bytes, chunks[1..];
    if raw != [] && |raw| >= HDR_LEN {
      assert DataContainer(code, transId, payload) + [] == raw + Fed(rest);
      FirstRead(code, transId, payload, [], raw, Fed(rest));
    }
    assert Step(s, raw, chunks[0].expectData) == (s, READ_AGAIN);
    if rest != [] {
      if raw == [] {
        DroppedStart(s, code, transId, payload, rest);
      } else if Run(s, rest).1[|rest| - 1] == DataReady(payload) {
        DataIsPaidFor(s, rest, |rest| - 1);
      }
      DeliversCons(READ_AGAIN, Run(s, rest).1, payload);
    }
  }

  /** Short of the remaining bytes a data phase never hands over anything. */
  lemma {:induction false} NothingBeforeTheEnd(s: EngineState, chunks: seq<Read>, i: nat)
    requires s.Valid() && s.active && |Fed(chunks)| < s.remaining && i < |chunks|
    ensures Run(s, chunks).1[i] == READ_AGAIN
    decreases chunks
  {
    var raw, wanted := chunks[0].bytes, chunks[0].expectData;
    MiddlePiece(s, raw, wanted);
    if i > 0 {
      NothingBeforeTheEnd(Step(s, raw, wanted).0, chunks[1..], i - 1);
    }
  }

  /** A length of 0xffffffff is a length like any other for the engine: after such a header it asks for more
      until 2^32 - 13 bytes of payload have come, short packets or not. */
  lemma UnknownLengthIsTakenLiterally(s: EngineState, first: Read, chunks: seq<Read>, i: nat)
    requires s.Valid() && s.Idle() && first.expectData && i < |chunks| + 1
    requires |first.bytes| >= HDR_LEN && Kind(first.bytes) == TYPE_DATA && Length(first.bytes) == 0xffff_ffff
    requires |first.bytes| + |Fed(chunks)| < 0xffff_ffff
    ensures Run(s, [first] + chunks).1[i] == READ_AGAIN
  {
    assert ([first] + chunks)[1..] == chunks;
    if i > 0 {
      NothingBeforeTheEnd(Step(s, first.bytes, true).0, chunks, i - 1);
    }
  }

  /** A pending response is delivered exactly once, by the next non-empty read, whatever that read
      holds; its bytes are dropped and the engine is idle again. */
  lemma {:induction false} PendingDeliveredOnce(s: EngineState, chunks: seq<Read>)
    requires s.Valid() && s.hasPending
    requires chunks != [] && Fed(chunks[..|chunks| - 1]) == [] && chunks[|chunks| - 1].bytes != []
    ensures forall i | 0 <= i < |chunks| - 1 :: Run(s, chunks).1[i] == READ_AGAIN
    ensures Run(s, chunks).1[|chunks| - 1] == ResponseReady(s.pendingCode)
    ensures Run(s, chunks).0 == s.(hasPending := false, lastRespCode := s.pendingCode)
    ensures Run(s, chunks).0.Idle()
  {
    var rest := chunks[1..];
    if rest != [] {
      assert chunks[..|chunks| - 1][0] == chunks[0];
      assert chunks[..|chunks| - 1][1..] == rest[..|rest| - 1];
      PendingDeliveredOnce(s, rest);
    }
  }

  // ---- Single reads outside a data phase ----

  /** A response is reported with its code, and with 0xFFFF when its length is not that of the read; it also
      becomes the last response code, whether data is expected or not. */
  lemma ResponseReported(s: EngineState, raw: seq<byte>, expectData: bool)
    requires s.Valid() && s.Idle() && 12 <= |raw| < TWO_32 && Kind(raw) == 3
    ensures var code := if IsResponse(raw) then Code(raw) else 0xFFFF;
      && Step(s, raw, expectData).1 == TransferResult(2, code, [])
      && Step(s, raw, expectData).0 == s.(lastRespCode := code)
  {
  }

  /** A container that claims no payload is complete at once: empty data is handed over, whatever else the read
      holds. */
  lemma EmptyPayload(s: EngineState, raw: seq<byte>)
    requires s.Valid() && s.Idle() && |raw| >= 12 && Kind(raw) == 2 && Length(raw) <= 12
    ensures Step(s, raw, true) == (s, TransferResult(1, 0, []))
  {
  }

  /** Exactly which reads an idle engine passes over: those too short for a header, and those that are neither a
      response nor data that is expected. */
  lemma PassedOverExactly(s: EngineState, raw: seq<byte>, expectData: bool)
    requires s.Valid() && s.Idle()
    ensures Step(s, raw, expectData) == (s, TransferResult(0, 0, []))
       <==> |raw| < 12 || (Kind(raw) != 3 && !(Kind(raw) == 2 && expectData))
  {
  }

  // ---- Isolation: histories of commands and reads ----

  datatype Event =
    | Command(code: u16, params: seq<u32>)
    | OpenSession(id: u32)
    | Incoming(read: Read)

  function Apply(s: EngineState, e: Event): EngineState {
    match e
    case Command(_, _) => AfterCommand(s)
    case OpenSession(_) => AfterCommand(s.(sessionId := 0, transactionId := 0))
    case Incoming(read) => Step(s, read.bytes, read.expectData).0
  }

  /** The state after a history, the latest event last. */
  function After(events: seq<Event>): EngineState {
    if events == [] then INITIAL else Apply(After(events[..|events| - 1]), events[|events| - 1])
  }

  /** The bytes fed since the latest command. */
  function FedSinceCommand(events: seq<Event>): seq<byte> {
    if events == [] then [] else
    match events[|events| - 1]
    case Incoming(read) => FedSinceCommand(events[..|events| - 1]) + read.bytes
    case _ => []
  }

  ghost predicate IsSlice(part: seq<byte>, whole: seq<byte>) {
    exists i: nat :: At(whole, i, part)
  }

  ghost predicate IsSuffix(part: seq<byte>, whole: seq<byte>) {
    |part| <= |whole| && whole[|whole| - |part|..] == part
  }

  /** In every history the engine is valid, and what it has accumulated is a suffix of what was fed
      since the latest command. */
  lemma {:induction false} RunInvariant(events: seq<Event>)
    ensures After(events).Valid()
    ensures IsSuffix(After(events).acc, FedSinceCommand(events))
  {
    if events != [] {
      var before := events[..|events| - 1];
      RunInvariant(before);
      StepKeepsSuffix(After(before), FedSinceCommand(before), events[|events| - 1]);
    }
  }

  lemma StepKeepsSuffix(s: EngineState, fed: seq<byte>, e: Event)
    requires s.Valid() && IsSuffix(s.acc, fed)
    ensures Apply(s, e).Valid()
    ensures IsSuffix(Apply(s, e).acc, if e.Incoming? then fed + e.read.bytes else [])
  {
    if e.Incoming? {
      var raw := e.read.bytes;
      var s1 := Step(s, raw, e.read.expectData).0;
      var all := fed + raw;
      StepKeepsValid(s, raw, e.read.expectData);
      if s1.active && s.active && raw != [] {
        assert s1.acc == s.acc + raw;
        assert all[|all| - |s1.acc|..] == fed[|fed| - |s.acc|..] + raw;
      } else if s1.active && !s.active {
        assert s1.acc == raw[HDR_LEN..];
        assert all[|all| - |s1.acc|..] == raw[HDR_LEN..];
      } else if !s1.active {
        assert s1.acc == [];
      } else {
        assert all == fed;
      }
    }
  }

  /** A command ends whatever went before: the engine is idle with nothing accumulated, and only OpenSession
      changes the session. */
  lemma CommandResets(events: seq<Event>, e: Event)
    requires !e.Incoming?
    ensures var before, after := After(events), After(events + [e]);
      && after.Idle() && after.acc == [] && after.remaining == 0 && after.lastRespCode == before.lastRespCode
      && after.sessionId == (if e.OpenSession? then 0 else before.sessionId)
      && after.transactionId == (if e.OpenSession? then 1 else (before.transactionId + 1) % TWO_32)
  {
    assert (events + [e])[..|events|] == events;
  }

  /** Isolation: after any history, the data a read hands over is a slice of the bytes fed since the
      latest command, that read included; a pending response never outlives a command. */
  lemma DataIsolation(events: seq<Event>, read: Read)
    ensures var result := Step(After(events), read.bytes, read.expectData).1;
            result.action == 1 ==> IsSlice(result.data, FedSinceCommand(events + [Incoming(read)]))
    ensures After(events).hasPending ==> !After(events).active && FedSinceCommand(events) != []
  {
    RunInvariant(events);
    assert (events + [Incoming(read)])[..|events|] == events;
    assert FedSinceCommand(events + [Incoming(read)]) == FedSinceCommand(events) + read.bytes;
    if Step(After(events), read.bytes, read.expectData).1.action == 1 {
      DataIsSlice(After(events), FedSinceCommand(events), read);
    }
    PendingWasFed(events);
  }

  lemma DataIsSlice(s: EngineState, fed: seq<byte>, read: Read)
    requires s.Valid() && IsSuffix(s.acc, fed)
    requires Step(s, read.bytes, read.expectData).1.action == 1
    ensures IsSlice(Step(s, read.bytes, read.expectData).1.data, fed + read.bytes)
  {
    var data := Step(s, read.bytes, read.expectData).1.data;
    var all := fed + read.bytes;
    if s.active {
      var from := |fed| - |s.acc|;
      assert all[from..from + |data|] == fed[from..] + read.bytes[..s.remaining];
      assert At(all, from, data);
    } else if data == [] {
      assert At(all, 0, data);
    } else {
      var from := |fed| + HDR_LEN;
      assert all[from..from + |data|] == read.bytes[HDR_LEN..HDR_LEN + |data|];
      assert At(all, from, data);
    }
  }

  lemma PendingWasFed(events: seq<Event>)
    ensures After(events).hasPending ==> FedSinceCommand(events) != []
  {
  }

  // ---- Transaction IDs ----

  /** Commands built so far, counted from the latest OpenSession, which is one of them. */
  function CommandCount(events: seq<Event>): nat {
    if events == [] then 0 else
    var before := events[..|events| - 1];
    match events[|events| - 1]
    case OpenSession(_) => 1
    case Command(_, _) => CommandCount(before) + 1
    case Incoming(_) => CommandCount(before)
  }

  lemma Successor(n: nat)
    ensures (n % TWO_32 + 1) % TWO_32 == (n + 1) % TWO_32
  {
  }

  /** After OpenSession the k-th later command carries transaction ID k modulo 2^32: reads in between,
      finished or not, do not shift the numbering. */
  lemma {:induction false} TransactionNumbering(events: seq<Event>, code: u16, ps: seq<u32>)
    ensures After(events).transactionId == CommandCount(events) % TWO_32
    ensures TransId(CommandBytes(code, After(events).transactionId, FirstFive(ps))) == CommandCount(events) % TWO_32
  {
    if events != [] {
      var before := events[..|events| - 1];
      TransactionNumbering(before, code, ps);
      Successor(CommandCount(before));
    }
    CommandFields(code, After(events).transactionId, FirstFive(ps));
  }
}
