/** The USB reassembly engine (ptp_engine.cpp): its state, one step of it, and the class that runs it. */
module Engine {
  import opened Bytes
  import opened Container

  datatype EngineState = EngineState(
    transactionId: u32,
    sessionId: u32,
    lastRespCode: u16,
    active: bool,
    remaining: nat,
    acc: seq<byte>,
    hasPending: bool,
    pendingCode: u16)
  {
    /** What every step keeps: a data phase is active exactly while bytes are missing, nothing is
        accumulated outside it, and it never coexists with a pending response. */
    ghost predicate Valid() {
      && (active <==> remaining > 0)
      && (!active ==> acc == [])
      && !(active && hasPending)
    }

    predicate Idle() {
      !active && !hasPending
    }
  }

  /** action 0: read again; 1: `data` is the payload; 2: `respCode` is the response code. */
  datatype TransferResult = TransferResult(action: int, respCode: u16, data: seq<byte>)

  const READ_AGAIN := TransferResult(0, 0, [])

  function DataReady(data: seq<byte>): TransferResult {
    TransferResult(1, 0, data)
  }

  function ResponseReady(code: u16): TransferResult {
    TransferResult(2, code, [])
  }

  const INITIAL := EngineState(0, 0, 0, false, 0, [], false, 0)

  /** The response code of the bytes of one read, 0xFFFF when they are not one whole response. */
  function RespCode(data: seq<byte>): u16 {
    if |data| < HDR_LEN then 0xFFFF
    else if |data| % TWO_32 != Length(data) then 0xFFFF
    else if Kind(data) != TYPE_RESPONSE then 0xFFFF
    else Code(data)
  }

  /** One call of processIncoming on the bytes of one USB read. */
  function Step(s: EngineState, raw: seq<byte>, expectData: bool): (EngineState, TransferResult) {
    if raw == [] then (s, READ_AGAIN)
    else if s.hasPending then
      (s.(hasPending := false, lastRespCode := s.pendingCode), ResponseReady(s.pendingCode))
    else if s.active then Continue(s, raw)
    else if |raw| < HDR_LEN then (s, READ_AGAIN)
    else if Kind(raw) == TYPE_RESPONSE then
      (s.(lastRespCode := RespCode(raw)), ResponseReady(RespCode(raw)))
    else if Kind(raw) == TYPE_DATA && expectData then Begin(s, raw)
    else (s, READ_AGAIN)
  }

  /** A read that starts a data phase. */
  function Begin(s: EngineState, raw: seq<byte>): (EngineState, TransferResult)
    requires |raw| >= HDR_LEN
  {
    var payloadLen := if Length(raw) > HDR_LEN then Length(raw) - HDR_LEN else 0;
    if payloadLen == 0 then (s, DataReady([]))
    else if |raw| - HDR_LEN >= payloadLen then (s, DataReady(raw[HDR_LEN..HDR_LEN + payloadLen]))
    else
      (s.(active := true, acc := raw[HDR_LEN..], remaining := payloadLen - (|raw| - HDR_LEN)), READ_AGAIN)
  }

  /** A read inside a data phase; the bytes behind the payload may hold the response. */
  function Continue(s: EngineState, raw: seq<byte>): (EngineState, TransferResult) {
    if |raw| < s.remaining then
      (s.(acc := s.acc + raw, remaining := s.remaining - |raw|), READ_AGAIN)
    else
      var done := s.(active := false, remaining := 0, acc := []);
      var tail := raw[s.remaining..];
      (if |tail| >= HDR_LEN && Kind(tail) == TYPE_RESPONSE
       then done.(hasPending := true, pendingCode := RespCode(tail)) else done,
       DataReady(s.acc + raw[..s.remaining]))
  }

  /** The state after a command was built: any unfinished transfer and pending response are dropped. */
  function AfterCommand(s: EngineState): EngineState {
    s.(active := false, remaining := 0, acc := [], hasPending := false,
       transactionId := (s.transactionId + 1) % TWO_32)
  }

  class PTPEngine {
    var transactionId: u32
    var sessionId: u32
    var lastRespCode: u16
    var dataPhaseActive: bool
    var dataRemaining: nat
    var dataAccumulator: seq<byte>
    var hasPendingResponse: bool
    var pendingResponseCode: u16

    ghost function State(): EngineState
      reads this
    {
      EngineState(transactionId, sessionId, lastRespCode, dataPhaseActive, dataRemaining,
                  dataAccumulator, hasPendingResponse, pendingResponseCode)
    }

    ghost predicate Valid()
      reads this
    {
      State().Valid()
    }

    constructor ()
      ensures State() == INITIAL && Valid()
    {
      transactionId, sessionId, lastRespCode := 0, 0, 0;
      dataPhaseActive, dataRemaining, dataAccumulator := false, 0, [];
      hasPendingResponse, pendingResponseCode := false, 0;
    }

    /** Builds the full 32-byte container with zeros for the missing parameters. */
    static method InitSendReq(code: u16, transId: u32, p1: u32, p2: u32, p3: u32, p4: u32, p5: u32, nparam: nat)
      returns (usbreq: seq<byte>)
      requires nparam <= 5
      ensures |usbreq| == 32 && Length(usbreq) == 12 + 4 * nparam
      ensures Kind(usbreq) == 1 && Code(usbreq) == code && TransId(usbreq) == transId
      ensures Words(usbreq, 5) == [p1, p2, p3, p4, p5]
      ensures usbreq == Header(REQ_LEN - 4 * (5 - nparam), TYPE_COMMAND, code, transId)
                        + PutWords([p1, p2, p3, p4, p5])
    {
      usbreq := Header(REQ_LEN - 4 * (5 - nparam), TYPE_COMMAND, code, transId);
      ghost var header, words := usbreq, [p1, p2, p3, p4, p5];
      usbreq := usbreq + PutWords([p1, p2, p3, p4, p5]);
      AtAppend(header, PutWords(words));
      HeaderFields(usbreq, REQ_LEN - 4 * (5 - nparam), TYPE_COMMAND, code, transId);
      WordsAt(usbreq, words);
    }

    /** The first five parameters, zeros for the missing ones. */
    static method PadParams(p: seq<u32>) returns (p1: u32, p2: u32, p3: u32, p4: u32, p5: u32, np: nat)
      ensures np == Min(|p|, 5) && [p1, p2, p3, p4, p5][..np] == FirstFive(p)
      ensures forall i | np <= i < 5 :: [p1, p2, p3, p4, p5][i] == 0
    {
      p1, p2, p3, p4, p5 := 0, 0, 0, 0, 0;
      np := Min(|p|, 5);
      if np > 0 { p1 := p[0]; }
      if np > 1 { p2 := p[1]; }
      if np > 2 { p3 := p[2]; }
      if np > 3 { p4 := p[3]; }
      if np > 4 { p5 := p[4]; }
      ghost var words := [p1, p2, p3, p4, p5];
      assert forall i | 0 <= i < np :: words[i] == p[i];
      FiveWords(words, p);
    }

    method BuildCommand(code: u16, p: seq<u32>) returns (buf: seq<byte>)
      modifies this
      ensures Valid() && State() == AfterCommand(old(State()))
      ensures buf == CommandBytes(code, old(transactionId), FirstFive(p))
    {
      dataPhaseActive := false;
      dataRemaining := 0;
      dataAccumulator := [];
      hasPendingResponse := false;

      buf := Request(code, transactionId, p);
      transactionId := (transactionId + 1) % TWO_32;
    }

    /** The request, cut to the parameters in use. */
    static method Request(code: u16, transId: u32, p: seq<u32>) returns (buf: seq<byte>)
      ensures buf == CommandBytes(code, transId, FirstFive(p))
    {
      var p1, p2, p3, p4, p5, np := PadParams(p);
      var usbreq := InitSendReq(code, transId, p1, p2, p3, p4, p5, np);
      var towrite := REQ_LEN - 4 * (5 - np);
      buf := usbreq[..towrite];
      ghost var words := [p1, p2, p3, p4, p5];
      WordsPrefix(words, np);
      CutRequest(usbreq, Header(towrite, TYPE_COMMAND, code, transId), PutWords(words), 4 * np);
    }

    /** The session is reset before its OpenSession command is built. */
    method BuildOpenSession(id: u32) returns (cmd: seq<byte>)
      modifies this
      ensures Valid()
      ensures State() == AfterCommand(old(State()).(sessionId := 0, transactionId := 0))
      ensures cmd == CommandBytes(OC_OPEN_SESSION, 0, [id])
    {
      sessionId := 0;
      transactionId := 0;
      cmd := BuildCommand(OC_OPEN_SESSION, [id]);
    }

    method ProcessIncoming(raw: seq<byte>, expectData: bool) returns (result: TransferResult)
      requires Valid()
      modifies this
      ensures Valid()
      ensures (State(), result) == Step(old(State()), raw, expectData)
    {
      if |raw| == 0 { return READ_AGAIN; }

      if hasPendingResponse {
        hasPendingResponse := false;
        lastRespCode := pendingResponseCode;
        return ResponseReady(pendingResponseCode);
      }

      if dataPhaseActive {
        var copyLen := Min(|raw|, dataRemaining);
        dataAccumulator := dataAccumulator + raw[..copyLen];
        dataRemaining := dataRemaining - copyLen;
        if dataRemaining == 0 {
          result := DataReady(dataAccumulator);
          dataPhaseActive := false;
          dataAccumulator := [];
          var tail := raw[copyLen..];
          if |tail| >= HDR_LEN && Kind(tail) == TYPE_RESPONSE {
            pendingResponseCode := RespCode(tail);
            hasPendingResponse := true;
          }
          return;
        }
        assert raw[..copyLen] == raw;
        return READ_AGAIN;
      }

      if |raw| < HDR_LEN { return READ_AGAIN; }
      if Kind(raw) == TYPE_RESPONSE {
        lastRespCode := RespCode(raw);
        return ResponseReady(lastRespCode);
      }
      if Kind(raw) == TYPE_DATA && expectData {
        var totalLen := Length(raw);
        var payloadLen := if totalLen > HDR_LEN then totalLen - HDR_LEN else 0;
        if payloadLen == 0 { return DataReady([]); }
        var firstChunkLen := Min(|raw| - HDR_LEN, payloadLen);
        if firstChunkLen >= payloadLen {
          return DataReady(raw[HDR_LEN..HDR_LEN + payloadLen]);
        }
        dataAccumulator := raw[HDR_LEN..HDR_LEN + firstChunkLen];
        dataRemaining := payloadLen - firstChunkLen;
        dataPhaseActive := true;
        assert dataAccumulator == raw[HDR_LEN..];
        return READ_AGAIN;
      }
      return READ_AGAIN;
    }
  }

  lemma CutRequest(usbreq: seq<byte>, header: seq<byte>, words: seq<byte>, n: nat)
    requires usbreq == header + words && |header| == HDR_LEN && n <= |words|
    ensures usbreq[..HDR_LEN + n] == header + words[..n]
  {
  }

  lemma FiveWords(words: seq<u32>, p: seq<u32>)
    requires |words| == 5 && forall i | 0 <= i < Min(|p|, 5) :: words[i] == p[i]
    ensures words[..Min(|p|, 5)] == FirstFive(p)
  {
  }

  /** Dropping the trailing parameters of a command drops the trailing bytes. */
  lemma {:induction false} WordsPrefix(ps: seq<u32>, n: nat)
    requires n <= |ps|
    ensures PutWords(ps)[..4 * n] == PutWords(ps[..n])
  {
    if n == |ps| {
      assert ps[..n] == ps;
    } else {
      var m := |ps| - 1;
      WordsPrefix(ps[..m], n);
      assert ps[..m][..n] == ps[..n];
    }
  }
}
