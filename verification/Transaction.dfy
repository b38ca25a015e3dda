/** ptp_transaction_new and ptp_transaction (ptp.c) as functions on the state of the connection: request,
    data phase, and the loop that looks for this call's response. */
module Transaction {
  import opened Bytes
  import opened Container
  import opened UsbPort
  import opened UsbReceive
  import opened UsbSend
  import P = UsbReceiveProofs

  // ---- The response loop ----

  datatype Verdict = Decided(ret: u16) | Retry(tries: nat)

  /** What one round makes of getresp's result, with `tries` rounds left before it. */
  function Judge(ret: u16, resp: PTPContainer, cmd: u16, id: u32, tries: nat): (v: Verdict)
    requires tries >= 1
    ensures v.Retry? ==> v.tries >= 1 && ret != ERROR_IO
  {
    if ret == ERROR_RESP_EXPECTED then Retry(tries)
    else if ret != RC_OK then Decided(ret)
    else if resp.transactionId < id then
      if cmd == OC_CLOSE_SESSION then Decided(resp.code) else Retry(tries)
    else if resp.transactionId != id then
      if cmd == OC_OPEN_SESSION && tries > 1 then Retry(tries - 1) else Decided(ERROR_BADPARAM)
    else Decided(resp.code)
  }

  /** The response loop with `tries` rounds left; `ptp.code` is the code getresp compares with. */
  function Respond(cfg: Config, line: Line, ptp: PTPContainer, cmd: u16, id: u32, sessionId: u32, tries: nat): RespOut
    requires tries >= 1
    decreases Weight(line)
  {
    var r := ReceiveResp(cfg, line, ptp, sessionId, id);
    match Judge(r.ret, r.resp, cmd, id, tries)
    case Decided(ret) => r.(ret := ret)
    case Retry(left) =>
      RespConsumes(cfg, line, ptp, sessionId, id);
      Respond(cfg, r.line, r.resp, cmd, id, sessionId, left)
  }

  lemma RespConsumes(cfg: Config, line: Line, ptp: PTPContainer, sessionId: u32, id: u32)
    requires ReceiveResp(cfg, line, ptp, sessionId, id).ret != ERROR_IO
    ensures Weight(ReceiveResp(cfg, line, ptp, sessionId, id).line) < Weight(line)
  {
    GetPacketConsumes(cfg, line);
  }

  /** The packets that successive calls of getpacket return, up to the first failure. */
  function Packets(cfg: Config, line: Line): seq<seq<byte>>
    decreases Weight(line)
  {
    var (p, after) := GetPacket(cfg, line);
    match p
    case NoPacket(_) => []
    case Packet(b) => GetPacketConsumes(cfg, line); [b] + Packets(cfg, after)
  }

  /** A whole container that is not a response, or a response whose code reads as "response expected". */
  predicate IsNoResponse(p: seq<byte>) {
    |p| >= HDR_LEN && Length(p) == |p| && (Kind(p) != TYPE_RESPONSE || Code(p) == ERROR_RESP_EXPECTED)
  }

  /** A response left over from an earlier command, or for OpenSession from an earlier session. */
  predicate IsStale(p: seq<byte>, cmd: u16, id: u32) {
    IsResponse(p) && (Code(p) == RC_OK || Code(p) == cmd)
    && ((TransId(p) < id && cmd != OC_CLOSE_SESSION) || (TransId(p) > id && cmd == OC_OPEN_SESSION))
  }

  predicate Skippable(p: seq<byte>, cmd: u16, id: u32) {
    IsNoResponse(p) || IsStale(p, cmd, id)
  }

  /** How many of `ps` carry a larger ID and are not passed over as no response at all. */
  function Larger(ps: seq<seq<byte>>, cmd: u16, id: u32): nat {
    if ps == [] then 0
    else (if IsLarger(ps[0], cmd, id) then 1 else 0) + Larger(ps[1..], cmd, id)
  }

  predicate IsLarger(p: seq<byte>, cmd: u16, id: u32) {
    !IsNoResponse(p) && IsStale(p, cmd, id) && TransId(p) > id
  }

  /** The reply the loop is looking for. CloseSession may also be answered with a smaller ID. */
  predicate IsOwnReply(p: seq<byte>, cmd: u16, id: u32) {
    IsResponse(p) && Code(p) == RC_OK && (TransId(p) == id || (cmd == OC_CLOSE_SESSION && TransId(p) < id))
  }

  /** Without the broken-header flag, OK is returned only for a response that carries this call's ID; all
      packets before it were skipped, for one of the reasons in `Skippable`, and at most `tries` - 1 of
      them for a larger ID. */
  lemma {:induction false} OkIsOwnReply(cfg: Config, line: Line, ptp: PTPContainer, cmd: u16, id: u32,
                                        sessionId: u32, tries: nat)
    returns (k: nat)
    requires tries >= 1 && !cfg.ignoreHeaderErrors
    requires ptp.code == cmd || ptp.code == RC_OK
    requires Respond(cfg, line, ptp, cmd, id, sessionId, tries).ret == RC_OK
    ensures k < |Packets(cfg, line)| && IsOwnReply(Packets(cfg, line)[k], cmd, id)
    ensures forall j | 0 <= j < k :: Skippable(Packets(cfg, line)[j], cmd, id)
    ensures Larger(Packets(cfg, line)[..k], cmd, id) < tries
    decreases Weight(line)
  {
    var r := ReceiveResp(cfg, line, ptp, sessionId, id);
    var p := GetPacket(cfg, line).0.bytes;
    var ps := Packets(cfg, line);
    if IsOwnReply(p, cmd, id) {
      k := 0;
      assert ps[0] == p && ps[..0] == [];
    } else {
      RespConsumes(cfg, line, ptp, sessionId, id);
      var left := if IsLarger(p, cmd, id) then tries - 1 else tries;
      SkipsOne(cfg, line, ptp, cmd, id, sessionId, tries);
      var n := OkIsOwnReply(cfg, r.line, r.resp, cmd, id, sessionId, left);
      k := n + 1;
      assert ps == [p] + Packets(cfg, r.line);
      LargerCons(p, Packets(cfg, r.line), n, cmd, id);
    }
  }

  lemma LargerCons(p: seq<byte>, rest: seq<seq<byte>>, n: nat, cmd: u16, id: u32)
    requires n <= |rest|
    ensures Larger(([p] + rest)[..n + 1], cmd, id)
         == (if IsLarger(p, cmd, id) then 1 else 0) + Larger(rest[..n], cmd, id)
  {
    var all := ([p] + rest)[..n + 1];
    assert all[0] == p && all[1..] == rest[..n];
  }

  /** One round that does not decide. */
  lemma SkipsOne(cfg: Config, line: Line, ptp: PTPContainer, cmd: u16, id: u32, sessionId: u32, tries: nat)
    requires tries >= 1 && !cfg.ignoreHeaderErrors
    requires ptp.code == cmd || ptp.code == RC_OK
    requires Respond(cfg, line, ptp, cmd, id, sessionId, tries).ret == RC_OK
    requires !IsOwnReply(GetPacket(cfg, line).0.bytes, cmd, id)
    ensures var p := GetPacket(cfg, line).0.bytes;
            var r := ReceiveResp(cfg, line, ptp, sessionId, id);
            var left := if IsLarger(p, cmd, id) then tries - 1 else tries;
      && Skippable(p, cmd, id) && left >= 1 && r.ret != ERROR_IO
      && (r.resp.code == cmd || r.resp.code == RC_OK)
      && Respond(cfg, r.line, r.resp, cmd, id, sessionId, left).ret == RC_OK
  {
  }

  /** Conversely: well-formed non-responses, left-over successes with a smaller ID, and for OpenSession
      fewer than `tries` of them with a larger one, do not hide the reply behind them. */
  lemma {:induction false} OwnReplyIsFound(cfg: Config, line: Line, ptp: PTPContainer, cmd: u16, id: u32,
                                           sessionId: u32, tries: nat, k: nat)
    requires tries >= 1 && !cfg.ignoreHeaderErrors && cmd != ERROR_RESP_EXPECTED
    requires ptp.code == cmd || ptp.code == RC_OK
    requires k < |Packets(cfg, line)| && IsOwnReply(Packets(cfg, line)[k], cmd, id)
    requires forall j | 0 <= j < k :: PlainSkip(Packets(cfg, line)[j], cmd, id)
    requires Larger(Packets(cfg, line)[..k], cmd, id) < tries
    ensures Respond(cfg, line, ptp, cmd, id, sessionId, tries).ret == RC_OK
    decreases k
  {
    var (packet, after) := GetPacket(cfg, line);
    var p, ps := packet.bytes, Packets(cfg, line);
    assert ps == [p] + Packets(cfg, after);
    if k > 0 {
      LargerCons(p, Packets(cfg, after), k - 1, cmd, id);
      assert forall j | 0 <= j < k - 1 :: Packets(cfg, after)[j] == ps[j + 1];
      var left := if IsLarger(p, cmd, id) then tries - 1 else tries;
      var r := ReceiveResp(cfg, line, ptp, sessionId, id);
      assert PlainSkip(ps[0], cmd, id);
      PlainSkipStep(cfg, line, ptp, cmd, id, sessionId, tries);
      OwnReplyIsFound(cfg, after, r.resp, cmd, id, sessionId, left, k - 1);
    }
  }

  /** The packets that are skipped whatever went before. */
  predicate PlainSkip(p: seq<byte>, cmd: u16, id: u32) {
    if HasResponseKind(p) then IsStale(p, cmd, id) && Code(p) == RC_OK else IsNoResponse(p)
  }

  predicate HasResponseKind(p: seq<byte>) {
    |p| >= HDR_LEN && Kind(p) == TYPE_RESPONSE
  }

  lemma PlainSkipStep(cfg: Config, line: Line, ptp: PTPContainer, cmd: u16, id: u32, sessionId: u32, tries: nat)
    requires tries >= 1 && !cfg.ignoreHeaderErrors
    requires GetPacket(cfg, line).0.Packet? && PlainSkip(GetPacket(cfg, line).0.bytes, cmd, id)
    requires ptp.code == cmd || ptp.code == RC_OK
    requires IsLarger(GetPacket(cfg, line).0.bytes, cmd, id) ==> tries > 1
    ensures var (p, after) := GetPacket(cfg, line);
            var r := ReceiveResp(cfg, line, ptp, sessionId, id);
      && r.line == after && (r.resp.code == cmd || r.resp.code == RC_OK)
      && Respond(cfg, line, ptp, cmd, id, sessionId, tries)
         == Respond(cfg, after, r.resp, cmd, id, sessionId,
                    if IsLarger(p.bytes, cmd, id) then tries - 1 else tries)
  {
  }

  /** An error response is returned at once, whatever its transaction ID: a stale one too. */
  lemma ErrorIgnoresId(cfg: Config, line: Line, ptp: PTPContainer, cmd: u16, id: u32, sessionId: u32, tries: nat)
    requires tries >= 1 && GetPacket(cfg, line).0.Packet? && IsResponse(GetPacket(cfg, line).0.bytes)
    requires var code := Code(GetPacket(cfg, line).0.bytes);
             code != ptp.code && code != RC_OK && code != ERROR_RESP_EXPECTED
    ensures Respond(cfg, line, ptp, cmd, id, sessionId, tries).ret == Code(GetPacket(cfg, line).0.bytes)
    ensures Respond(cfg, line, ptp, cmd, id, sessionId, tries).resp == ptp
  {
  }

  /** A response that getresp accepts when it was called for `code`, and one it takes for none at all. */
  predicate IdLookedAt(p: seq<byte>, code: u16)
    requires |p| >= HDR_LEN
  {
    Code(p) == RC_OK || Code(p) == code || Code(p) == ERROR_RESP_EXPECTED
  }

  /** Exactly which left-over responses are passed over: a response with a smaller ID lets the loop go on if
      and only if its code is OK, the one asked for, or reads as "response expected"; with any other code it
      ends the loop with that code, since the ID is looked at only later. */
  lemma StaleGoesOnExactly(cfg: Config, line: Line, ptp: PTPContainer, cmd: u16, id: u32, sessionId: u32, tries: nat)
    requires tries >= 1 && !cfg.ignoreHeaderErrors && cmd != 0x1003
    requires GetPacket(cfg, line).0.Packet? && IsResponse(GetPacket(cfg, line).0.bytes)
    requires TransId(GetPacket(cfg, line).0.bytes) < id
    ensures var (p, after) := GetPacket(cfg, line);
            var r := ReceiveResp(cfg, line, ptp, sessionId, id);
            var out := Respond(cfg, line, ptp, cmd, id, sessionId, tries);
      && (Judge(r.ret, r.resp, cmd, id, tries) == Retry(tries) <==> IdLookedAt(p.bytes, ptp.code))
      && (if IdLookedAt(p.bytes, ptp.code)
          then r.line == after && out == Respond(cfg, after, r.resp, cmd, id, sessionId, tries)
          else out == RespOut(Code(p.bytes), ptp, after))
  {
  }

  /** What that means for a call: with a left-over response in front of its own reply it succeeds if and only
      if the left-over one is of a kind whose ID is looked at. */
  lemma StaleBeforeReply(cfg: Config, line: Line, ptp: PTPContainer, cmd: u16, id: u32, sessionId: u32, tries: nat)
    requires tries >= 1 && !cfg.ignoreHeaderErrors && cmd != 0x1003
    requires |Packets(cfg, line)| >= 2 && IsOwnReply(Packets(cfg, line)[1], cmd, id)
    requires IsResponse(Packets(cfg, line)[0]) && TransId(Packets(cfg, line)[0]) < id
    ensures Respond(cfg, line, ptp, cmd, id, sessionId, tries).ret == RC_OK
       <==> IdLookedAt(Packets(cfg, line)[0], ptp.code)
  {
    var (p, after) := GetPacket(cfg, line);
    assert Packets(cfg, line) == [p.bytes] + Packets(cfg, after);
    StaleGoesOnExactly(cfg, line, ptp, cmd, id, sessionId, tries);
    if IdLookedAt(p.bytes, ptp.code) {
      var next := ReceiveResp(cfg, line, ptp, sessionId, id).resp;
      OwnReplyEnds(cfg, after, next, cmd, id, sessionId, tries);
    }
  }

  /** The own reply as the next packet ends the loop with OK, whatever code getresp compares with. */
  lemma OwnReplyEnds(cfg: Config, line: Line, ptp: PTPContainer, cmd: u16, id: u32, sessionId: u32, tries: nat)
    requires tries >= 1 && !cfg.ignoreHeaderErrors
    requires GetPacket(cfg, line).0.Packet? && IsOwnReply(GetPacket(cfg, line).0.bytes, cmd, id)
    ensures Respond(cfg, line, ptp, cmd, id, sessionId, tries).ret == RC_OK
  {
    assert ReceiveResp(cfg, line, ptp, sessionId, id).ret == RC_OK;
  }

  /** A response with the ID of the call ends it with its own code, whatever that is; one that getresp accepts
      is handed over with its parameters. */
  lemma ResponseEndsCall(cfg: Config, line: Line, ptp: PTPContainer, cmd: u16, id: u32, sessionId: u32, tries: nat,
                         code: u16, ps: seq<u32>)
    requires tries >= 1 && |ps| <= 5 && code != ERROR_RESP_EXPECTED
    requires GetPacket(cfg, line).0 == Packet(ResponseBytes(code, id, ps))
    ensures Respond(cfg, line, ptp, cmd, id, sessionId, tries)
         == RespOut(code, if code == 0x2001 || code == ptp.code then PTPContainer(code, sessionId, id, ps) else ptp,
                    GetPacket(cfg, line).1)
  {
    ResponseFields(code, id, ps);
    if code == RC_OK || code == ptp.code {
      ResponseRead(cfg, line, ptp, sessionId, id, code, id, ps);
    }
  }

  /** A response from the future, with an ID not given out yet, is a bad parameter; only OpenSession, which may
      meet responses of an earlier session, passes over it, and only while it has another try. */
  lemma LargerIdExactly(cfg: Config, line: Line, ptp: PTPContainer, cmd: u16, id: u32, sessionId: u32, tries: nat)
    requires tries >= 1 && !cfg.ignoreHeaderErrors
    requires GetPacket(cfg, line).0.Packet? && IsResponse(GetPacket(cfg, line).0.bytes)
    requires var p := GetPacket(cfg, line).0.bytes; TransId(p) > id && (Code(p) == RC_OK || Code(p) == ptp.code)
    ensures var r := ReceiveResp(cfg, line, ptp, sessionId, id);
            var out := Respond(cfg, line, ptp, cmd, id, sessionId, tries);
      && (cmd == 0x1002 && tries > 1 ==> out == Respond(cfg, r.line, r.resp, cmd, id, sessionId, tries - 1))
      && (!(cmd == 0x1002 && tries > 1) ==> out.ret == 0x02FC && out.line == r.line)
  {
  }

  // ---- Whole transactions ----

  /** The connection between two calls. */
  datatype Link = Link(line: Line, out: Outgoing, transactionId: u32, sessionId: u32)

  datatype Phase = NoData | SendPhase | GetPhase | OtherPhase

  /** `data` is what a receiving data phase put into its handler. */
  datatype CallOut = CallOut(ret: u16, resp: PTPContainer, data: seq<byte>, link: Link)

  /** The answer to a cancelled data phase. */
  function Cancelled(cfg: Config, ret: u16): u16 {
    if ret == ERROR_CANCEL && cfg.cancelAnswer != RC_OK then cfg.cancelAnswer else ret
  }

  /** The data phase of a call, after its request went out. */
  function RunPhase(cfg: Config, link: Link, cmd: u16, id: u32, phase: Phase, src: Source, size: nat): PhaseOut
    requires cfg.Valid() && src.Valid()
  {
    match phase
    case NoData => PhaseOut(RC_OK, [], link)
    case SendPhase =>
      var d := SendData(cfg, link.out, src, size, cmd, id, link.line.split);
      PhaseOut(Cancelled(cfg, d.ret), [], link.(out := d.o))
    case GetPhase =>
      var d := ReceiveData(cfg, link.line, cmd, []);
      PhaseOut(Cancelled(cfg, d.ret), d.data, link.(line := d.line))
    case OtherPhase => PhaseOut(ERROR_BADPARAM, [], link)
  }

  datatype PhaseOut = PhaseOut(ret: u16, data: seq<byte>, link: Link)

  /** Data phase and response of the call `ptp`. */
  function Proceed(cfg: Config, link: Link, ptp: PTPContainer, phase: Phase, src: Source, size: nat): CallOut
    requires cfg.Valid() && src.Valid()
  {
    var d := RunPhase(cfg, link, ptp.code, ptp.transactionId, phase, src, size);
    if d.ret != RC_OK then CallOut(d.ret, ptp, d.data, d.link)
    else AwaitResponse(cfg, d.link, ptp, d.data)
  }

  /** ptp_transaction_new: the call takes the next transaction ID, sends the request, runs its data phase and
      waits for its response. */
  function TransactionNew(cfg: Config, link: Link, cmd: u16, ps: seq<u32>, phase: Phase, src: Source,
                          size: nat): CallOut
    requires cfg.Valid() && src.Valid()
  {
    var id := link.transactionId;
    var ptp := PTPContainer(cmd, link.sessionId, id, ps);
    var (sent, out) := SendReq(cfg, link.out, CommandBytes(cmd, id, FirstFive(ps)), true);
    var begun := link.(out := out, transactionId := (id + 1) % TWO_32);
    if sent != RC_OK then CallOut(sent, ptp, [], begun) else Proceed(cfg, begun, ptp, phase, src, size)
  }

  /** Every call uses up one transaction ID, whatever becomes of it, and nothing else changes the numbering
      or the session. */
  lemma OneIdPerCall(cfg: Config, link: Link, cmd: u16, ps: seq<u32>, phase: Phase, src: Source, size: nat)
    requires cfg.Valid() && src.Valid()
    ensures var c := TransactionNew(cfg, link, cmd, ps, phase, src, size);
      && c.link.transactionId == (link.transactionId + 1) % TWO_32 && c.link.sessionId == link.sessionId
  {
  }

  function AwaitResponse(cfg: Config, link: Link, ptp: PTPContainer, data: seq<byte>): CallOut {
    var r := Respond(cfg, link.line, ptp, ptp.code, ptp.transactionId, link.sessionId, 3);
    CallOut(r.ret, r.resp, data, link.(line := r.line))
  }

  /** ptp_opensession: numbering starts over, and what is buffered or known of an earlier session is dropped. The
      session is set whatever becomes of the call. */
  function OpenSession(cfg: Config, link: Link, session: u32): (u16, Link)
    requires cfg.Valid()
  {
    var begun := Link(Line(link.line.script, [], false), link.out, 0, 0);
    var c := TransactionNew(cfg, begun, OC_OPEN_SESSION, [session], NoData, Source([], 0), 0);
    (c.ret, c.link.(sessionId := session))
  }

  /** Opening a session forgets the one before: its outcome depends on the port alone. The next call has ID 1. */
  lemma OpenSessionForgets(cfg: Config, a: Link, b: Link, session: u32)
    requires cfg.Valid() && a.line.script == b.line.script && a.out == b.out
    ensures OpenSession(cfg, a, session) == OpenSession(cfg, b, session)
    ensures OpenSession(cfg, a, session).1.sessionId == session && OpenSession(cfg, a, session).1.transactionId == 1
  {
  }

  /** It is answered only by a response with ID 0, behind nothing but packets that may be skipped, at most two of
      them responses of an earlier session; and only after its request, with that ID, went out whole and once. */
  lemma OpenSessionOk(cfg: Config, link: Link, session: u32) returns (k: nat)
    requires cfg.Valid() && cfg.StrictBelow(CONTAINER_SIZE) && !cfg.ignoreHeaderErrors
    requires OpenSession(cfg, link, session).0 == RC_OK
    ensures OpenSession(cfg, link, session).1.out.sent == link.out.sent + [CommandBytes(0x1002, 0, [session])]
    ensures var packets := Packets(cfg, Line(link.line.script, [], false));
      && k < |packets| && IsOwnReply(packets[k], 0x1002, 0)
      && (forall j | 0 <= j < k :: Skippable(packets[j], 0x1002, 0)) && Larger(packets[..k], 0x1002, 0) <= 2
  {
    var begun := Link(Line(link.line.script, [], false), link.out, 0, 0);
    k := CallOkIsOwnReply(cfg, begun, OC_OPEN_SESSION, [session], NoData, Source([], 0), 0);
    RequestSentOnce(cfg, link.out, CommandBytes(OC_OPEN_SESSION, 0, [session]), true);
  }

  /** ptp_transaction with GETDATA: the data is handed over only on success, and its length is cut to 32
      bits. */
  function GetTransaction(cfg: Config, link: Link, cmd: u16, ps: seq<u32>): (r: (CallOut, nat))
    requires cfg.Valid()
  {
    var c := TransactionNew(cfg, link, cmd, ps, GetPhase, Source([], 0), 0);
    if c.ret != RC_OK then (c.(data := []), 0) else (c, |c.data| % TWO_32)
  }

  /** What OK may hand over when `s` is incoming: the payload of the data container, byte for byte and with
      its length; for a container of unknown length, bytes of the stream behind its header, from the first one
      on; nothing when a response came instead. */
  predicate Handed(s: seq<byte>, data: seq<byte>, recvlen: nat) {
    && |s| >= HDR_LEN && (Kind(s) == TYPE_RESPONSE || Kind(s) == TYPE_DATA)
    && (P.StartsData(s) ==> |s| >= Length(s) && data == s[HDR_LEN..Length(s)] && recvlen == |data|)
    && (Kind(s) == TYPE_DATA && !P.StartsData(s) ==>
         Length(s) == UNTIL_SHORT && At(s, HDR_LEN, data) && recvlen == |data| % TWO_32)
    && (Kind(s) == TYPE_RESPONSE ==> data == [] && recvlen == 0)
  }

  /** Receiving end to end, for every way the port splits its reads: GETDATA returns OK only with the
      payload of the data container that the device sent, and hands over data with no other result. */
  lemma ReceiveEndToEnd(cfg: Config, link: Link, cmd: u16, ps: seq<u32>)
    requires cfg.Valid() && cfg.Strict() && link.line.Valid()
    ensures var (c, recvlen) := GetTransaction(cfg, link, cmd, ps);
      if c.ret == RC_OK then Handed(link.line.Incoming(), c.data, recvlen) else c.data == [] && recvlen == 0
  {
    if GetTransaction(cfg, link, cmd, ps).0.ret == RC_OK {
      OkRanDataPhase(cfg, link, cmd, ps);
      OkDataPhase(cfg, link.line, cmd);
    }
  }

  lemma OkRanDataPhase(cfg: Config, link: Link, cmd: u16, ps: seq<u32>)
    requires cfg.Valid() && GetTransaction(cfg, link, cmd, ps).0.ret == RC_OK
    ensures var (c, recvlen) := GetTransaction(cfg, link, cmd, ps);
            var d := ReceiveData(cfg, link.line, cmd, []);
      d.ret == RC_OK && c.data == d.data && recvlen == |d.data| % TWO_32
  {
  }

  lemma OkDataPhase(cfg: Config, line: Line, cmd: u16)
    requires cfg.Valid() && cfg.Strict() && line.Valid() && ReceiveData(cfg, line, cmd, []).ret == RC_OK
    ensures var data := ReceiveData(cfg, line, cmd, []).data;
      Handed(line.Incoming(), data, |data| % TWO_32)
  {
    P.OkMeansWholePayload(cfg, line, cmd, []);
    var s := line.Incoming();
    if P.StartsData(s) {
      var data := s[HDR_LEN..Length(s)];
      assert [] + data == data;
      FitsInWord(|data|, |data| % TWO_32);
    }
  }

  /** When request, data phase and response all succeed, so does the call, with the data of its data phase. */
  lemma PhasesCompose(cfg: Config, link: Link, cmd: u16, ps: seq<u32>)
    requires cfg.Valid()
    requires SendReq(cfg, link.out, CommandBytes(cmd, link.transactionId, FirstFive(ps)), true).0 == RC_OK
    requires ReceiveData(cfg, link.line, cmd, []).ret == RC_OK
    requires Respond(cfg, ReceiveData(cfg, link.line, cmd, []).line,
                     PTPContainer(cmd, link.sessionId, link.transactionId, ps),
                     cmd, link.transactionId, link.sessionId, 3).ret == RC_OK
    ensures var (c, recvlen) := GetTransaction(cfg, link, cmd, ps);
            var data := ReceiveData(cfg, link.line, cmd, []).data;
      c.ret == RC_OK && c.data == data && recvlen == |data| % TWO_32
  {
  }

  /** A call without data is answered by the response with its ID: with its code, whatever that is, and if it is a
      success with its parameters. */
  lemma AnsweredWithoutData(cfg: Config, link: Link, cmd: u16, ps: seq<u32>, src: Source, size: nat,
                            code: u16, answer: seq<u32>)
    requires cfg.Valid() && src.Valid() && |answer| <= 5 && code != ERROR_RESP_EXPECTED
    requires SendReq(cfg, link.out, CommandBytes(cmd, link.transactionId, FirstFive(ps)), true).0 == RC_OK
    requires GetPacket(cfg, link.line).0 == Packet(ResponseBytes(code, link.transactionId, answer))
    ensures var c := TransactionNew(cfg, link, cmd, ps, NoData, src, size);
      && c.ret == code && c.link.line == GetPacket(cfg, link.line).1
      && (code == 0x2001 ==> c.resp == PTPContainer(code, link.sessionId, link.transactionId, answer))
  {
    ResponseEndsCall(cfg, link.line, PTPContainer(cmd, link.sessionId, link.transactionId, ps), cmd,
                     link.transactionId, link.sessionId, 3, code, answer);
  }

  /** A request that cannot be sent ends the call with its code: nothing is received. */
  lemma RequestFails(cfg: Config, link: Link, cmd: u16, ps: seq<u32>, phase: Phase, src: Source, size: nat)
    requires cfg.Valid() && src.Valid()
    requires SendReq(cfg, link.out, CommandBytes(cmd, link.transactionId, FirstFive(ps)), true).0 != RC_OK
    ensures var c := TransactionNew(cfg, link, cmd, ps, phase, src, size);
      && c.ret == SendReq(cfg, link.out, CommandBytes(cmd, link.transactionId, FirstFive(ps)), true).0
      && c.link.line == link.line && c.data == []
  {
  }

  /** A data phase that fails ends the call without waiting for a response; after a cancellation the answer to the
      cancel request counts, if it is an error. */
  lemma FailedDataEndsCall(cfg: Config, link: Link, cmd: u16, ps: seq<u32>)
    requires cfg.Valid()
    requires SendReq(cfg, link.out, CommandBytes(cmd, link.transactionId, FirstFive(ps)), true).0 == RC_OK
    requires ReceiveData(cfg, link.line, cmd, []).ret != RC_OK
    ensures var c := TransactionNew(cfg, link, cmd, ps, GetPhase, Source([], 0), 0);
            var d := ReceiveData(cfg, link.line, cmd, []);
      && c.ret == (if d.ret == 0x02FB && cfg.cancelAnswer != 0x2001 then cfg.cancelAnswer else d.ret)
      && c.link.line == d.line && c.ret != RC_OK
  {
  }

  /** The same for sending, where nothing is received at all. */
  lemma FailedSendEndsCall(cfg: Config, link: Link, cmd: u16, ps: seq<u32>, src: Source, size: nat)
    requires cfg.Valid() && src.Valid()
    requires var (sent, out) := SendReq(cfg, link.out, CommandBytes(cmd, link.transactionId, FirstFive(ps)), true);
      && sent == RC_OK && SendData(cfg, out, src, size, cmd, link.transactionId, link.line.split).ret != RC_OK
    ensures var out := SendReq(cfg, link.out, CommandBytes(cmd, link.transactionId, FirstFive(ps)), true).1;
            var d := SendData(cfg, out, src, size, cmd, link.transactionId, link.line.split);
            var c := TransactionNew(cfg, link, cmd, ps, SendPhase, src, size);
      && c.ret == (if d.ret == 0x02FB && cfg.cancelAnswer != 0x2001 then cfg.cancelAnswer else d.ret)
      && c.link.line == link.line && c.link.out == d.o && c.ret != RC_OK
  {
  }

  /** A phase that is none of the three is a bad parameter, noticed only after the request went out. */
  lemma UnknownPhaseFails(cfg: Config, link: Link, cmd: u16, ps: seq<u32>, src: Source, size: nat)
    requires cfg.Valid() && src.Valid()
    requires SendReq(cfg, link.out, CommandBytes(cmd, link.transactionId, FirstFive(ps)), true).0 == RC_OK
    ensures var c := TransactionNew(cfg, link, cmd, ps, OtherPhase, src, size);
      && c.ret == 0x02FC && c.link.line == link.line
      && c.link.out == SendReq(cfg, link.out, CommandBytes(cmd, link.transactionId, FirstFive(ps)), true).1
  {
  }

  /** A device that answers with an error response instead of data yields that code, no data, length 0. */
  lemma ErrorInsteadOfData(cfg: Config, link: Link, cmd: u16, ps: seq<u32>)
    requires cfg.Valid() && link.line.Valid()
    requires SendReq(cfg, link.out, CommandBytes(cmd, link.transactionId, FirstFive(ps)), true).0 == RC_OK
    requires GetPacket(cfg, link.line).0.Packet? && IsResponse(GetPacket(cfg, link.line).0.bytes)
    requires var code := Code(GetPacket(cfg, link.line).0.bytes);
             code != cmd && code != RC_OK && code != ERROR_RESP_EXPECTED
    ensures var (c, recvlen) := GetTransaction(cfg, link, cmd, ps);
      c.ret == Code(GetPacket(cfg, link.line).0.bytes) && c.data == [] && recvlen == 0
  {
    GetPacketConserves(cfg, link.line);
    var d := ReceiveData(cfg, link.line, cmd, []);
    assert d.ret == RC_OK && d.line.slot == GetPacket(cfg, link.line).0.bytes;
    SlotFirst(cfg, d.line);
    ErrorIgnoresId(cfg, d.line, PTPContainer(cmd, link.sessionId, link.transactionId, ps), cmd,
                   link.transactionId, link.sessionId, 3);
  }

  /** The line on which a call waits for its response. */
  function ReplyLine(cfg: Config, line: Line, cmd: u16, phase: Phase): Line
    requires cfg.Valid()
  {
    if phase == GetPhase then ReceiveData(cfg, line, cmd, []).line else line
  }

  lemma OkAwaits(cfg: Config, link: Link, cmd: u16, ps: seq<u32>, phase: Phase, src: Source, size: nat)
    requires cfg.Valid() && src.Valid() && TransactionNew(cfg, link, cmd, ps, phase, src, size).ret == RC_OK
    ensures Respond(cfg, ReplyLine(cfg, link.line, cmd, phase),
                    PTPContainer(cmd, link.sessionId, link.transactionId, ps),
                    cmd, link.transactionId, link.sessionId, 3).ret == RC_OK
  {
  }

  /** The discipline of the IDs, of whole calls with or without data: without the broken-header flag a call
      returns OK only when the packets behind its data phase hold a response with the ID that this call took
      (or, for CloseSession, a smaller one), and before it nothing but packets that may be skipped, fewer than
      three of them with a larger ID. */
  lemma CallOkIsOwnReply(cfg: Config, link: Link, cmd: u16, ps: seq<u32>, phase: Phase, src: Source, size: nat)
    returns (k: nat)
    requires cfg.Valid() && src.Valid() && !cfg.ignoreHeaderErrors
    requires TransactionNew(cfg, link, cmd, ps, phase, src, size).ret == RC_OK
    ensures var packets, id := Packets(cfg, ReplyLine(cfg, link.line, cmd, phase)), link.transactionId;
      && k < |packets| && IsOwnReply(packets[k], cmd, id)
      && (forall j | 0 <= j < k :: Skippable(packets[j], cmd, id)) && Larger(packets[..k], cmd, id) < 3
  {
    OkAwaits(cfg, link, cmd, ps, phase, src, size);
    k := OkIsOwnReply(cfg, ReplyLine(cfg, link.line, cmd, phase),
                      PTPContainer(cmd, link.sessionId, link.transactionId, ps),
                      cmd, link.transactionId, link.sessionId, 3);
  }

  lemma OkSent(cfg: Config, link: Link, cmd: u16, ps: seq<u32>, src: Source, size: nat)
    requires cfg.Valid() && src.Valid() && TransactionNew(cfg, link, cmd, ps, SendPhase, src, size).ret == RC_OK
    ensures var (sent, out) := SendReq(cfg, link.out, CommandBytes(cmd, link.transactionId, FirstFive(ps)), true);
            var d := SendData(cfg, out, src, size, cmd, link.transactionId, link.line.split);
      sent == RC_OK && d.ret == RC_OK && TransactionNew(cfg, link, cmd, ps, SendPhase, src, size).link.out == d.o
  {
  }

  /** What the check for the terminating packet adds. */
  lemma EndedAdds(cfg: Config, o: Outgoing, written: nat) returns (end: seq<seq<byte>>)
    requires cfg.Valid()
    ensures EndedBy(cfg, o, written).sent == o.sent + end
    ensures end == [] || (end == [[]] && written % cfg.maxpacketsize == 0)
  {
    end := if written % cfg.maxpacketsize == 0 && Write(o, []).0.Count? then [[]] else [];
    assert o.sent + [] == o.sent;
  }

  /** Sending end to end, on every port and for every way it takes its writes: SENDDATA returns OK only after
      the request went out whole and once, then the header and exactly the data, then at most one empty packet,
      and only for a reply with this call's ID. */
  lemma SendEndToEnd(cfg: Config, link: Link, cmd: u16, ps: seq<u32>, data: seq<byte>)
    returns (ts: seq<seq<byte>>, end: seq<seq<byte>>, k: nat)
    requires cfg.Valid() && cfg.StrictBelow(CONTAINER_SIZE) && !cfg.ignoreHeaderErrors
    requires TransactionNew(cfg, link, cmd, ps, SendPhase, Source(data, 0), |data|).ret == RC_OK
    ensures TransactionNew(cfg, link, cmd, ps, SendPhase, Source(data, 0), |data|).link.out.sent
         == link.out.sent + [CommandBytes(cmd, link.transactionId, FirstFive(ps))] + ts + end
    ensures NonEmpty(ts) && Flatten(ts) == DataHeader(|data|, cmd, link.transactionId) + data
    ensures HDR_LEN + |data| < TWO_32 ==> Flatten(ts) == DataContainer(cmd, link.transactionId, data)
    ensures end == [] || (end == [[]] && Written(|data|, link.line.split) % cfg.maxpacketsize == 0)
    ensures k < |Packets(cfg, link.line)| && IsOwnReply(Packets(cfg, link.line)[k], cmd, link.transactionId)
  {
    var src, id, split := Source(data, 0), link.transactionId, link.line.split;
    var req := CommandBytes(cmd, id, FirstFive(ps));
    k := CallOkIsOwnReply(cfg, link, cmd, ps, SendPhase, src, |data|);
    OkSent(cfg, link, cmd, ps, src, |data|);
    RequestSentOnce(cfg, link.out, req, true);
    var out := SendReq(cfg, link.out, req, true).1;
    ts := SendDataCarries(cfg, out, src, |data|, cmd, id, split);
    end := EndedAdds(cfg, BeforeEnd(cfg, out, src, |data|, cmd, id, split), Written(|data|, split));
    assert data[0..|data|] == data;
    if HDR_LEN + |data| < TWO_32 {
      HeaderOfContainer(cmd, id, data);
    }
  }
}
