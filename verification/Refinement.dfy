/** The engine against the code it was ported from: on the same bytes, however each side's reads are cut,
    both deliver the same payload and the same response code. */
module Refinement {
  import opened Bytes
  import opened Container
  import opened UsbPort
  import opened UsbReceive
  import opened UsbReceiveProofs
  import opened Engine
  import opened Transaction
  import opened UsbSend
  import E = EngineRuns

  /** How the port brings a container and a response: `before`, and then a last read that carries `tail` and the
      whole response. Reads that bring nothing may stand in front of the container, and in front of the response
      if that comes in a read of its own. */
  datatype Reading = Reading(front: seq<PortRead>, before: seq<PortRead>, gap: seq<PortRead>, tail: seq<byte>) {
    function Body(resp: seq<byte>): seq<PortRead> {
      before + (gap + [Got(tail + resp, false)])
    }

    predicate Harmless() {
      Tolerated(front) && Tolerated(gap) && (gap == [] || tail == [])
    }
  }

  /** The reads of `w` bring the container of `payload` and the response. The first of them holds at least the
      header; if it is also the last, it fits into one packet. */
  ghost predicate Brings(w: Reading, code: u16, transId: u32, payload: seq<byte>, resp: seq<byte>) {
    && w.Harmless() && Clean(w.before)
    && HDR_LEN + |payload| < UNTIL_SHORT && Stream(w.before) + w.tail == DataContainer(code, transId, payload)
    && IsResponse(resp) && |resp| <= CONTAINER_SIZE
    && (if w.before == [] then |w.tail| + |resp| <= CONTAINER_SIZE else |w.before[0].bytes| >= HDR_LEN)
  }

  ghost predicate Wire(line: Line, code: u16, transId: u32, payload: seq<byte>, resp: seq<byte>, w: Reading) {
    line.slot == [] && line.script == w.front + w.Body(resp) && Brings(w, code, transId, payload, resp)
  }

  /** What the original hands over: the payload, and the response as the next packet. */
  predicate Arrives(cfg: Config, line: Line, code: u16, payload: seq<byte>, resp: seq<byte>)
    requires cfg.Valid()
  {
    var d := ReceiveData(cfg, line, code, []);
    d.ret == RC_OK && d.data == payload && GetPacket(cfg, d.line).0 == Packet(resp)
  }

  lemma OnePacket(cfg: Config, b: seq<byte>, rest: seq<PortRead>, split: bool)
    requires 0 < |b| <= CONTAINER_SIZE
    ensures GetPacket(cfg, Line([Got(b, false)] + rest, [], split)) == (Packet(b), Line(rest, [], split))
  {
    var script := [Got(b, false)] + rest;
    assert script[1..] == rest;
    assert ReadPacket(cfg, script, 0) == (Packet(b), rest);
  }

  /** The phase behind the first packet `b`, when the container does not end in it. */
  lemma LongArrives(cfg: Config, line: Line, b: seq<byte>, more: seq<byte>, resp: seq<byte>,
                    before: seq<PortRead>, tail: seq<byte>)
    requires cfg.Valid() && line.slot == [] && line.script == Reads(before, tail, resp) && Clean(line.script)
    requires IsResponse(resp) && |resp| <= CONTAINER_SIZE
    requires HDR_LEN <= |b| < Length(b) == |b| + |more| && Length(b) < UNTIL_SHORT && Stream(before) + tail == more
    ensures var d := DataPhase(cfg, line, b, []);
      d.ret == RC_OK && d.data == b[HDR_LEN..] + more && GetPacket(cfg, d.line).0 == Packet(resp)
  {
    LongPhase(cfg, line, b, []);
    RestCompletes(cfg, Start(line.script, b, []), before, tail, resp);
    var d := DataPhase(cfg, line, b, []);
    assert [] + b[HDR_LEN..] == b[HDR_LEN..];
    assert [Got(resp, false)] + [] == [Got(resp, false)];
    OnePacket(cfg, resp, [], d.line.split);
  }

  /** The phase behind the first packet `b`, when the container ends in it: the rest of `b`, if any, is the
      whole response. */
  lemma ShortArrives(cfg: Config, line: Line, b: seq<byte>, length: nat, resp: seq<byte>)
    requires cfg.Valid() && line.slot == [] && IsResponse(resp) && |resp| <= CONTAINER_SIZE
    requires HDR_LEN <= length <= |b| <= CONTAINER_SIZE && Length(b) == length
    requires if |b| == length then line.script == [Got(resp, false)] else b[length..] == resp
    ensures var d := DataPhase(cfg, line, b, []);
      d.ret == RC_OK && d.data == b[HDR_LEN..length] && GetPacket(cfg, d.line).0 == Packet(resp)
  {
    var d := DataPhase(cfg, line, b, []);
    assert [] + b[HDR_LEN..length] == b[HDR_LEN..length];
    if |b| == length {
      assert [Got(resp, false)] + [] == [Got(resp, false)];
      OnePacket(cfg, resp, [], d.line.split);
    } else {
      assert d.line.slot == resp;
      SlotFirst(cfg, d.line);
    }
  }

  lemma ToleratedBringsNothing(h: seq<PortRead>)
    requires Tolerated(h)
    ensures BringsNothing(h)
  {
  }

  lemma BodyStarts(w: Reading, code: u16, transId: u32, payload: seq<byte>, resp: seq<byte>)
    requires Brings(w, code, transId, payload, resp)
    ensures StartsWithBytes(w.Body(resp))
  {
    if w.before == [] {
      assert w.Body(resp) == [Got(w.tail + resp, false)];
    } else {
      assert w.Body(resp)[0] == w.before[0];
    }
  }

  /** The original delivers payload and response for every such wire, merged or not, and whatever tolerated reads
      stand in front of either. */
  lemma OriginalArrives(cfg: Config, line: Line, code: u16, transId: u32, payload: seq<byte>, resp: seq<byte>,
                        w: Reading)
    requires cfg.Valid() && Wire(line, code, transId, payload, resp, w)
    ensures Arrives(cfg, line, code, payload, resp)
  {
    var body := Line(w.Body(resp), [], line.split);
    BodyStarts(w, code, transId, payload, resp);
    ToleratedBringsNothing(w.front);
    ToleratesExactly(cfg, w.front, w.Body(resp), line.split);
    assert line == Line(w.front + w.Body(resp), [], line.split);
    BodyArrives(cfg, body, code, transId, payload, resp, w);
    SameFirstPacket(cfg, line, body, code, payload, resp);
  }

  lemma BodyArrives(cfg: Config, body: Line, code: u16, transId: u32, payload: seq<byte>, resp: seq<byte>, w: Reading)
    requires cfg.Valid() && body.slot == [] && body.script == w.Body(resp) && Brings(w, code, transId, payload, resp)
    ensures Arrives(cfg, body, code, payload, resp)
  {
    if w.before == [] {
      assert w.Body(resp) == [Got(w.tail + resp, false)];
      OneReadArrives(cfg, body, code, transId, payload, resp, w.tail);
    } else if w.tail == [] {
      assert [] + resp == resp;
      SeparateArrives(cfg, body, code, transId, payload, resp, w.before, w.gap);
    } else {
      assert w.Body(resp) == Reads(w.before, w.tail, resp);
      ManyReadsArrive(cfg, body, code, transId, payload, resp, w.before, w.tail);
    }
  }

  lemma SameFirstPacket(cfg: Config, line: Line, body: Line, code: u16, payload: seq<byte>, resp: seq<byte>)
    requires cfg.Valid() && GetPacket(cfg, line) == GetPacket(cfg, body) && Arrives(cfg, body, code, payload, resp)
    ensures Arrives(cfg, line, code, payload, resp)
  {
  }

  lemma OneReadArrives(cfg: Config, line: Line, code: u16, transId: u32, payload: seq<byte>, resp: seq<byte>,
                       c: seq<byte>)
    requires cfg.Valid() && HDR_LEN + |payload| < UNTIL_SHORT && c == DataContainer(code, transId, payload)
    requires line.slot == [] && line.script == [Got(c + resp, false)]
    requires IsResponse(resp) && |c| + |resp| <= CONTAINER_SIZE
    ensures Arrives(cfg, line, code, payload, resp)
  {
    DataContainerFields(code, transId, payload);
    var b := c + resp;
    assert b[..|c|] == c && b[|c|..] == resp;
    FieldsOfPrefix(c, b);
    assert line == Line([Got(b, false)] + [], [], line.split);
    OnePacket(cfg, b, [], line.split);
    assert b[HDR_LEN..|c|] == c[HDR_LEN..];
    ShortArrives(cfg, Line([], [], line.split), b, |c|, resp);
  }

  lemma ManyReadsArrive(cfg: Config, line: Line, code: u16, transId: u32, payload: seq<byte>, resp: seq<byte>,
                        before: seq<PortRead>, tail: seq<byte>)
    requires cfg.Valid() && HDR_LEN + |payload| < UNTIL_SHORT && IsResponse(resp) && |resp| <= CONTAINER_SIZE
    requires line.slot == [] && line.script == Reads(before, tail, resp) && Clean(before)
    requires before != [] && |before[0].bytes| >= HDR_LEN
    requires Stream(before) + tail == DataContainer(code, transId, payload)
    ensures Arrives(cfg, line, code, payload, resp)
  {
    var c := DataContainer(code, transId, payload);
    DataContainerFields(code, transId, payload);
    var before', tail' := ReadInside(before, tail, resp, CONTAINER_SIZE);
    var (r, rest) := ReadPort(line.script, CONTAINER_SIZE);
    var b, more := r.bytes, Stream(before') + tail';
    assert line.script[0] == before[0] && |b| >= HDR_LEN;
    assert ReadPacket(cfg, line.script, 0) == (Packet(b), rest);
    FirstPart(c, b, more);
    var after := Line(rest, [], line.split);
    if more == [] {
      NothingBefore(before', tail', resp);
      ShortArrives(cfg, after, b, |c|, resp);
    } else {
      LongArrives(cfg, after, b, more, resp, before', tail');
    }
  }

  /** The container in reads of its own, and the response in the next that brings anything. */
  lemma SeparateArrives(cfg: Config, line: Line, code: u16, transId: u32, payload: seq<byte>, resp: seq<byte>,
                        before: seq<PortRead>, gap: seq<PortRead>)
    requires cfg.Valid() && HDR_LEN + |payload| < UNTIL_SHORT && IsResponse(resp) && |resp| <= CONTAINER_SIZE
    requires line.slot == [] && line.script == before + (gap + [Got(resp, false)]) && Clean(before) && Tolerated(gap)
    requires before != [] && |before[0].bytes| >= HDR_LEN
    requires Stream(before) + [] == DataContainer(code, transId, payload)
    ensures Arrives(cfg, line, code, payload, resp)
  {
    var c, after := DataContainer(code, transId, payload), gap + [Got(resp, false)];
    DataContainerFields(code, transId, payload);
    var before' := ReadFront(before, after, CONTAINER_SIZE);
    var b, more := ReadPort(line.script, CONTAINER_SIZE).0.bytes, Stream(before');
    assert ReadPacket(cfg, line.script, 0) == (Packet(b), before' + after);
    FirstPart(c, b, more);
    var behind := Line(before' + after, [], line.split);
    var d := SeparatePhase(cfg, behind, b, before', after);
    assert Arrives(cfg, line, code, payload, resp) by {
      GapThenResponse(cfg, gap, resp, d.line.split);
    }
  }

  /** The data phase behind the first packet `b`, when reads of their own bring the rest of the container. */
  lemma SeparatePhase(cfg: Config, line: Line, b: seq<byte>, before: seq<PortRead>, after: seq<PortRead>)
    returns (d: DataOut)
    requires cfg.Valid() && line.slot == [] && line.script == before + after && Clean(before)
    requires HDR_LEN <= |b| && Length(b) == |b| + |Stream(before)| && Length(b) < UNTIL_SHORT
    ensures d == DataPhase(cfg, line, b, []) && d.ret == RC_OK && d.data == b[HDR_LEN..] + Stream(before)
    ensures d.line == Line(after, [], d.line.split)
  {
    d := DataPhase(cfg, line, b, []);
    assert [] + b[HDR_LEN..] == b[HDR_LEN..] && b[HDR_LEN..|b|] == b[HDR_LEN..];
    if Stream(before) == [] {
      CleanIsNonEmpty(before);
      assert before + after == after;
    } else {
      LongPhase(cfg, line, b, []);
      RestCompletesTo(cfg, Start(line.script, b, []), before, after);
    }
  }

  lemma GapThenResponse(cfg: Config, gap: seq<PortRead>, resp: seq<byte>, split: bool)
    requires Tolerated(gap) && 0 < |resp| <= CONTAINER_SIZE
    ensures GetPacket(cfg, Line(gap + [Got(resp, false)], [], split)).0 == Packet(resp)
  {
    ToleratedBringsNothing(gap);
    ToleratesExactly(cfg, gap, [Got(resp, false)], split);
    assert [Got(resp, false)] + [] == [Got(resp, false)];
    OnePacket(cfg, resp, [], split);
  }

  lemma FirstPart(c: seq<byte>, b: seq<byte>, more: seq<byte>)
    requires HDR_LEN <= |b| && b + more == c && Kind(c) == TYPE_DATA
    ensures Length(b) == Length(c) && Kind(b) == TYPE_DATA && Code(b) == Code(c)
    ensures b[HDR_LEN..] + more == c[HDR_LEN..]
    ensures more == [] ==> b == c
  {
    assert b == c[..|b|];
    FieldsOfPrefix(b, c);
  }

  /** The response code as each side reports it. */
  function OriginalCode(cfg: Config, line: Line, ptp: PTPContainer, sessionId: u32, expected: u32): u16 {
    var r := ReceiveResp(cfg, line, ptp, sessionId, expected);
    if r.ret == RC_OK then r.resp.code else r.ret
  }

  lemma OriginalReports(cfg: Config, line: Line, ptp: PTPContainer, sessionId: u32, expected: u32, resp: seq<byte>)
    requires GetPacket(cfg, line).0 == Packet(resp) && IsResponse(resp)
    ensures OriginalCode(cfg, line, ptp, sessionId, expected) == Code(resp)
  {
  }

  lemma EngineReports(s: EngineState, raw: seq<byte>, expectData: bool)
    requires s.Idle() && IsResponse(raw)
    ensures Step(s, raw, expectData).1 == ResponseReady(Code(raw))
  {
  }

  /** The port refines the original: for a data container and a response in a packet of its own, on the same
      byte stream but with any read boundaries on either side, both deliver exactly the payload and then the
      same response code. */
  lemma PortRefinesOriginal(
      cfg: Config, line: Line, w: Reading, s: EngineState, chunks: seq<E.Read>, last: E.Read,
      code: u16, transId: u32, payload: seq<byte>, resp: seq<byte>, ptp: PTPContainer)
    requires cfg.Valid() && Wire(line, code, transId, payload, resp, w) && w.tail == []
    requires s.Valid() && s.Idle()
    requires chunks != [] && E.Fed(chunks) == DataContainer(code, transId, payload)
    requires chunks[|chunks| - 1].bytes != [] && last.bytes == resp
    requires |E.FirstNonEmpty(chunks).bytes| >= HDR_LEN && E.FirstNonEmpty(chunks).expectData
    ensures var d := ReceiveData(cfg, line, code, []);
            var (after, results) := E.Run(s, chunks);
      && d.ret == RC_OK && E.Delivers(results, d.data) && d.data == payload
      && Step(after, last.bytes, last.expectData).1
         == ResponseReady(OriginalCode(cfg, d.line, ptp, ptp.sessionId, ptp.transactionId))
  {
    OriginalArrives(cfg, line, code, transId, payload, resp, w);
    var c := DataContainer(code, transId, payload);
    assert c + [] == c;
    E.MergedResponse(s, code, transId, payload, [], chunks);
    EngineReports(s, resp, last.expectData);
    OriginalReports(cfg, ReceiveData(cfg, line, code, []).line, ptp, ptp.sessionId, ptp.transactionId, resp);
  }

  lemma EngineMerged(s: EngineState, chunks: seq<E.Read>, next: E.Read,
                     code: u16, transId: u32, payload: seq<byte>, resp: seq<byte>)
    requires s.Valid() && s.Idle() && IsResponse(resp)
    requires HDR_LEN + |payload| < TWO_32
    requires chunks != [] && E.Fed(chunks) == DataContainer(code, transId, payload) + resp
    requires |chunks[|chunks| - 1].bytes| > |resp| && next.bytes != []
    requires |E.FirstNonEmpty(chunks).bytes| >= HDR_LEN && E.FirstNonEmpty(chunks).expectData
    ensures var (after, results) := E.Run(s, chunks);
      && E.Delivers(results, payload)
      && (after.hasPending <==> |E.FirstNonEmpty(chunks).bytes| < HDR_LEN + |payload|)
      && (after.hasPending ==> Step(after, next.bytes, next.expectData).1 == ResponseReady(Code(resp)))
      && (!after.hasPending ==> after == s)
  {
    E.MergedResponse(s, code, transId, payload, resp, chunks);
  }

  /** With the response merged into the last read the original still delivers it; the engine keeps it, and
      reports the same code on its next non-empty read, if and only if the payload did not fit into its
      first non-empty read. */
  lemma MergedResponseRefines(
      cfg: Config, line: Line, w: Reading, s: EngineState, chunks: seq<E.Read>,
      next: E.Read, code: u16, transId: u32, payload: seq<byte>, resp: seq<byte>, ptp: PTPContainer)
    requires cfg.Valid() && Wire(line, code, transId, payload, resp, w)
    requires s.Valid() && s.Idle()
    requires chunks != [] && E.Fed(chunks) == DataContainer(code, transId, payload) + resp
    requires |chunks[|chunks| - 1].bytes| > |resp| && next.bytes != []
    requires |E.FirstNonEmpty(chunks).bytes| >= HDR_LEN && E.FirstNonEmpty(chunks).expectData
    ensures var d := ReceiveData(cfg, line, code, []);
            var (after, results) := E.Run(s, chunks);
      && d.ret == RC_OK && E.Delivers(results, d.data) && d.data == payload
      && (after.hasPending <==> |E.FirstNonEmpty(chunks).bytes| < HDR_LEN + |payload|)
      && (after.hasPending ==>
           Step(after, next.bytes, next.expectData).1
           == ResponseReady(OriginalCode(cfg, d.line, ptp, ptp.sessionId, ptp.transactionId)))
      && (!after.hasPending ==> after == s)
  {
    OriginalArrives(cfg, line, code, transId, payload, resp, w);
    EngineMerged(s, chunks, next, code, transId, payload, resp);
    OriginalReports(cfg, ReceiveData(cfg, line, code, []).line, ptp, ptp.sessionId, ptp.transactionId, resp);
  }

  /** A well-formed exchange succeeds: when the request is taken and the device sends the data and an OK
      response with this call's ID, merged or not, ptp_transaction returns OK with the payload and its
      length. */
  lemma GoodExchangeSucceeds(cfg: Config, link: Link, code: u16, ps: seq<u32>, payload: seq<byte>, resp: seq<byte>,
                             w: Reading)
    requires cfg.Valid() && Wire(link.line, code, link.transactionId, payload, resp, w)
    requires SendReq(cfg, link.out, CommandBytes(code, link.transactionId, FirstFive(ps)), true).0 == RC_OK
    requires Code(resp) == RC_OK && TransId(resp) == link.transactionId
    ensures var (c, recvlen) := GetTransaction(cfg, link, code, ps);
      c.ret == RC_OK && c.data == payload && recvlen == |payload|
  {
    OriginalArrives(cfg, link.line, code, link.transactionId, payload, resp, w);
    ReplyFollows(cfg, link, code, ps, payload, resp);
    PhasesDeliver(cfg, link, code, ps, payload);
  }

  lemma ReplyFollows(cfg: Config, link: Link, code: u16, ps: seq<u32>, payload: seq<byte>, resp: seq<byte>)
    requires cfg.Valid() && IsResponse(resp) && Arrives(cfg, link.line, code, payload, resp)
    requires Code(resp) == RC_OK && TransId(resp) == link.transactionId
    ensures PhasesSucceed(cfg, link, code, ps, payload)
  {
    var ptp := PTPContainer(code, link.sessionId, link.transactionId, ps);
    OwnReplyNow(cfg, ReceiveData(cfg, link.line, code, []).line, ptp, resp);
  }

  predicate PhasesSucceed(cfg: Config, link: Link, code: u16, ps: seq<u32>, payload: seq<byte>)
    requires cfg.Valid()
  {
    var d := ReceiveData(cfg, link.line, code, []);
    var ptp := PTPContainer(code, link.sessionId, link.transactionId, ps);
    && d.ret == RC_OK && d.data == payload
    && Respond(cfg, d.line, ptp, code, link.transactionId, link.sessionId, 3).ret == RC_OK
  }

  lemma PhasesDeliver(cfg: Config, link: Link, code: u16, ps: seq<u32>, payload: seq<byte>)
    requires cfg.Valid() && PhasesSucceed(cfg, link, code, ps, payload) && |payload| < TWO_32
    requires SendReq(cfg, link.out, CommandBytes(code, link.transactionId, FirstFive(ps)), true).0 == RC_OK
    ensures var (c, recvlen) := GetTransaction(cfg, link, code, ps);
      c.ret == RC_OK && c.data == payload && recvlen == |payload|
  {
    PhasesCompose(cfg, link, code, ps);
    FitsInWord(|payload|, GetTransaction(cfg, link, code, ps).1);
  }

  lemma OwnReplyNow(cfg: Config, line: Line, ptp: PTPContainer, resp: seq<byte>)
    requires GetPacket(cfg, line).0 == Packet(resp) && IsResponse(resp)
    requires Code(resp) == RC_OK && TransId(resp) == ptp.transactionId
    ensures Respond(cfg, line, ptp, ptp.code, ptp.transactionId, ptp.sessionId, 3).ret == RC_OK
  {
    assert ReceiveResp(cfg, line, ptp, ptp.sessionId, ptp.transactionId).ret == RC_OK;
  }

  /** So does an exchange whose data container has an unknown length: the payload is all that came up to and
      with the first short packet behind the first one. */
  lemma UnknownLengthSucceeds(cfg: Config, link: Link, code: u16, ps: seq<u32>, b: seq<byte>, full: seq<seq<byte>>,
                              short: seq<byte>, resp: seq<byte>)
    requires cfg.Valid() && link.line.slot == [] && IsResponse(resp) && |resp| <= CONTAINER_SIZE
    requires link.line.script == [Got(b, false)] + (FullThenShort(full, short) + [Got(resp, false)])
    requires HDR_LEN <= |b| <= CONTAINER_SIZE && Kind(b) == TYPE_DATA && Length(b) == UNTIL_SHORT && Code(b) == code
    requires forall i | 0 <= i < |full| :: |full[i]| == SHORT_PACKET_LEN
    requires 0 < |short| < SHORT_PACKET_LEN
    requires SendReq(cfg, link.out, CommandBytes(code, link.transactionId, FirstFive(ps)), true).0 == RC_OK
    requires Code(resp) == RC_OK && TransId(resp) == link.transactionId
    ensures var (c, recvlen) := GetTransaction(cfg, link, code, ps);
            var payload := b[HDR_LEN..] + Flatten(full) + short;
      c.ret == RC_OK && c.data == payload && (|payload| < TWO_32 ==> recvlen == |payload|)
  {
    var payload := b[HDR_LEN..] + Flatten(full) + short;
    UnknownLengthArrives(cfg, link.line, b, full, short, [Got(resp, false)], code, []);
    assert [] + payload == payload;
    var after := ReceiveData(cfg, link.line, code, []).line;
    assert [Got(resp, false)] + [] == [Got(resp, false)];
    OnePacket(cfg, resp, [], after.split);
    assert after == Line([Got(resp, false)], [], after.split);
    ReplyFollows(cfg, link, code, ps, payload, resp);
    PhasesCompose(cfg, link, code, ps);
    if |payload| < TWO_32 {
      PhasesDeliver(cfg, link, code, ps, payload);
    }
  }

  /** A well-formed exchange that sends succeeds: when every write is accepted and the call's own reply is the
      next packet, SENDDATA returns OK. */
  lemma GoodSendSucceeds(cfg: Config, link: Link, cmd: u16, ps: seq<u32>, data: seq<byte>, resp: seq<byte>)
    requires cfg.Valid() && cfg.Strict()
    requires AllAccept(link.out.script) && |data| + 3 * SEND_BLOCK <= SEND_BLOCK * |link.out.script|
    requires GetPacket(cfg, link.line).0 == Packet(resp) && IsResponse(resp)
    requires Code(resp) == RC_OK && TransId(resp) == link.transactionId
    ensures TransactionNew(cfg, link, cmd, ps, SendPhase, Source(data, 0), |data|).ret == RC_OK
  {
    var id, req := link.transactionId, CommandBytes(cmd, link.transactionId, FirstFive(ps));
    FirstAccepted(link.out, req);
    var out := SendReq(cfg, link.out, req, true).1;
    var ts := SendDataSucceeds(cfg, out, Source(data, 0), |data|, cmd, id, link.line.split);
    OwnReplyNow(cfg, link.line, PTPContainer(cmd, link.sessionId, id, ps), resp);
  }
}
