/** The transport of usb.c and the transaction calls of ptp.c as they run: methods that update the connection
    in place, each proved against its function. */
module Transport {
  import opened Bytes
  import opened Container
  import opened UsbPort
  import opened UsbReceive
  import opened UsbSend
  import opened Transaction
  import P = UsbReceiveProofs

  /** The memory handler: `size` is the length of `data`. */
  class MemHandler {
    var data: seq<byte>
    var curoff: nat

    ghost predicate Valid()
      reads this
    {
      curoff <= |data|
    }

    constructor (data: seq<byte>)
      ensures this.data == data && curoff == 0
    {
      this.data, curoff := data, 0;
    }

    ghost function AsSource(): Source
      reads this
    {
      Source(data, curoff)
    }

    /** memory_getfunc */
    method Get(wantlen: nat) returns (got: seq<byte>)
      requires Valid()
      modifies this
      ensures Valid() && (got, AsSource()) == Take(old(AsSource()), wantlen)
    {
      var tocopy := wantlen;
      if curoff + tocopy > |data| {
        tocopy := |data| - curoff;
      }
      got := data[curoff..curoff + tocopy];
      curoff := curoff + tocopy;
    }

    /** memory_putfunc: grows the buffer when needed and overwrites from `curoff` on. */
    method Put(bytes: seq<byte>)
      requires Valid()
      modifies this
      ensures Valid() && curoff == old(curoff) + |bytes|
      ensures |data| == if old(curoff) + |bytes| > old(|data|) then old(curoff) + |bytes| else old(|data|)
      ensures data[..curoff] == old(data[..curoff]) + bytes
      ensures data[curoff..] == if curoff <= old(|data|) then old(data)[curoff..] else []
    {
      var end := curoff + |bytes|;
      var rest := if end <= |data| then data[end..] else [];
      data := data[..curoff] + bytes + rest;
      curoff := end;
    }
  }

  class PTPParams {
    const cfg: Config
    // the port
    var incoming: seq<PortRead>
    var accepting: seq<PortWrite>
    var sent: seq<seq<byte>>
    // the connection
    var transactionId: u32
    var sessionId: u32
    var responsePacket: seq<byte>
    var splitHeaderData: bool

    ghost predicate Valid()
      reads this
    {
      cfg.Valid() && |responsePacket| <= CONTAINER_SIZE
    }

    ghost function LineOf(): Line
      reads this
    {
      Line(incoming, responsePacket, splitHeaderData)
    }

    ghost function OutOf(): Outgoing
      reads this
    {
      Outgoing(accepting, sent)
    }

    ghost function LinkOf(): Link
      reads this
    {
      Link(LineOf(), OutOf(), transactionId, sessionId)
    }

    /** The transaction ID of the current call. */
    function CurrentId(): u32
      reads this
    {
      (transactionId - 1) % TWO_32
    }

    method PortReadBytes(max: nat) returns (r: PortRead)
      requires max > 0
      modifies `incoming
      ensures (r, incoming) == ReadPort(old(incoming), max)
    {
      if incoming == [] { return Failed(Timeout); }
      r := incoming[0];
      if r.Got? && |r.bytes| > max {
        incoming := [Got(r.bytes[max..], r.cancel)] + incoming[1..];
        r := Got(r.bytes[..max], r.cancel);
      } else {
        incoming := incoming[1..];
      }
    }

    method PortWriteBytes(data: seq<byte>) returns (r: GpResult)
      modifies `accepting, `sent
      ensures (r, OutOf()) == Write(old(OutOf()), data)
    {
      if accepting == [] { return Error(Timeout); }
      match accepting[0] {
        case Accept => r := Count(|data|);
        case Short(n) => r := Count(Min(n, |data|));
        case Refuse(e) => r := Error(e);
      }
      accepting := accepting[1..];
      if r.Count? {
        sent := sent + [data[..r.n]];
      }
    }

    /** ptp_usb_getpacket */
    method GetPacket() returns (p: PacketResult)
      modifies `incoming, `responsePacket
      ensures (p, LineOf()) == UsbReceive.GetPacket(cfg, old(LineOf()))
    {
      if |responsePacket| > 0 {
        if |responsePacket| > CONTAINER_SIZE {
          responsePacket := responsePacket[..CONTAINER_SIZE];
        }
        p := Packet(responsePacket);
        responsePacket := [];
        assert old(responsePacket)[..|old(responsePacket)|] == old(responsePacket);
        return;
      }
      var tries := 0;
      while true
        invariant 0 <= tries <= 1 && responsePacket == []
        invariant ReadPacket(cfg, incoming, tries) == ReadPacket(cfg, old(incoming), 0)
        decreases 1 - tries
      {
        var result := PortReadBytes(CONTAINER_SIZE);
        if result.Got? && result.bytes == [] {
          result := PortReadBytes(CONTAINER_SIZE);
        }
        match result {
          case Got(bytes, _) =>
            return if bytes != [] then Packet(bytes) else NoPacket(cfg.translate(Count(0)));
          case Failed(e) =>
            if e == IoRead && tries < 1 {
              tries := tries + 1;
            } else {
              return NoPacket(cfg.translate(Error(e)));
            }
        }
      }
    }

    /** ptp_usb_sendreq */
    method SendReq(code: u16, id: u32, ps: seq<u32>) returns (ret: u16)
      requires |ps| <= 5
      modifies `accepting, `sent
      ensures (ret, OutOf()) == UsbSend.SendReq(cfg, old(OutOf()), CommandBytes(code, id, ps), true)
      ensures cfg.StrictBelow(CONTAINER_SIZE) && ret == RC_OK ==> sent == old(sent) + [CommandBytes(code, id, ps)]
    {
      var usbreq := CommandBytes(code, id, ps);
      if cfg.StrictBelow(CONTAINER_SIZE) {
        RequestSentOnce(cfg, OutOf(), usbreq, true);
      }
      var doRetry := true;
      while true
        invariant UsbSend.SendReq(cfg, OutOf(), usbreq, doRetry) == UsbSend.SendReq(cfg, old(OutOf()), usbreq, true)
        decreases doRetry
      {
        var res := PortWriteBytes(usbreq);
        if res == Count(|usbreq|) { return RC_OK; }
        if res == Error(IoWrite) && doRetry {
          doRetry := false;
        } else {
          return cfg.translate(res);
        }
      }
    }

    /** ptp_usb_senddata */
    method SendData(code: u16, id: u32, size: nat, handler: MemHandler) returns (ret: u16)
      requires Valid() && handler.Valid()
      modifies `accepting, `sent, handler
      ensures Valid() && handler.Valid()
      ensures SendOut(ret, OutOf(), handler.AsSource())
           == UsbSend.SendData(cfg, old(OutOf()), old(handler.AsSource()), size, code, id, splitHeaderData)
    {
      var datawlen := 0;
      var packet := DataHeader(size, code, id);
      if !splitHeaderData {
        datawlen := Min(size, PAYLOAD_LEN_WRITE);
        var first := handler.Get(datawlen);
        if |first| != datawlen { return RC_GENERAL_ERROR; }
        packet := packet + first;
      } else {
        assert packet + [] == packet;
      }
      var res := PortWriteBytes(packet);
      if res != Count(|packet|) { return cfg.translate(res); }
      var written := |packet|;
      ret := RC_OK;
      if size > datawlen {
        ret, written := SendRest(size - datawlen, handler);
      }
      if ret == RC_OK && written % cfg.maxpacketsize == 0 {
        var ignored := PortWriteBytes([]);
      }
      if ret != RC_OK && ret != ERROR_CANCEL {
        ret := ERROR_IO;
      }
    }

    /** The block loop of ptp_usb_senddata. */
    method SendRest(count: nat, handler: MemHandler) returns (ret: u16, written: nat)
      requires handler.Valid()
      modifies `accepting, `sent, handler
      ensures handler.Valid()
      ensures var (r, last) := SendBlocks(cfg, Block(old(OutOf()), old(handler.AsSource()), count, 0));
              ret == r && written == last.written && OutOf() == last.o && handler.AsSource() == last.src
    {
      var left: nat := count;
      written := 0;
      ghost var spec := SendBlocks(cfg, Block(OutOf(), handler.AsSource(), count, 0));
      while left > 0
        invariant handler.Valid() && left >= 0
        invariant SendBlocks(cfg, Block(OutOf(), handler.AsSource(), left, written)) == spec
        decreases |accepting|
      {
        var toread := SEND_BLOCK;
        if toread > left { toread := left; }
        var bytes := handler.Get(toread);
        var res := PortWriteBytes(bytes);
        if res.Error? { return cfg.translate(res), written; }
        left := left - res.n;
        written := written + res.n;
      }
      ret := RC_OK;
    }

    /** ptp_usb_getresp */
    method GetResp(resp: PTPContainer) returns (ret: u16, got: PTPContainer)
      requires Valid()
      modifies `incoming, `responsePacket
      ensures Valid() && responsePacket == []
      ensures RespOut(ret, got, LineOf())
           == ReceiveResp(cfg, old(LineOf()), resp, sessionId, CurrentId())
    {
      got := resp;
      ghost var line := LineOf();
      GetPacketConserves(cfg, line);
      var p := GetPacket();
      if p.NoPacket? { return ERROR_IO, got; }
      var usbresp := p.bytes;
      ret := RC_OK;
      if |usbresp| < HDR_LEN {
        ret := ERROR_IO;
      } else if |usbresp| != Container.Length(usbresp) {
        ret := ERROR_IO;
      } else if Kind(usbresp) != TYPE_RESPONSE {
        ret := ERROR_RESP_EXPECTED;
      } else if Code(usbresp) != resp.code {
        ret := Code(usbresp);
      }
      if ret != RC_OK { return; }
      got := PTPContainer(Code(usbresp), sessionId, TransId(usbresp), ParamWords(usbresp));
      if got.transactionId != CurrentId() && cfg.ignoreHeaderErrors {
        got := got.(transactionId := CurrentId());
      }
    }

    /** How much the next read of a data phase asks for. */
    method ChunkToRead(bytesToRead: nat, length: u32) returns (chunk: nat)
      requires cfg.Valid() && bytesToRead > 0
      ensures chunk == ChunkSize(cfg, bytesToRead, length == UNTIL_SHORT)
    {
      chunk := bytesToRead;
      if length == UNTIL_SHORT {
        chunk := SHORT_PACKET_LEN;
      } else if chunk > READLEN {
        chunk := READLEN;
      } else if chunk > cfg.maxpacketsize {
        WholePacketsModulo(chunk, cfg.maxpacketsize);
        chunk := chunk - chunk % cfg.maxpacketsize;
      }
    }

    /** The read loop of ptp_usb_getdata. With a known length it ends because every turn shrinks the bytes to
        read or uses up the one retry; the script of the port matters only when the length is unknown. */
    method ReadPayload(length: u32, toRead: nat, alreadyRead: u32, handler: MemHandler) returns (ret: u16)
      requires Valid() && handler.curoff == |handler.data|
      modifies `incoming, handler
      ensures handler.curoff == |handler.data|
      ensures Rest(ret, handler.data, incoming)
           == ReadRest(cfg, Loop(old(incoming), toRead, true, alreadyRead, old(handler.data)), length == UNTIL_SHORT)
    {
      var bytesToRead: nat, bytesRead: u32, doRetry := toRead, alreadyRead, true;
      var done := false;
      ghost var untilShort := length == UNTIL_SHORT;
      ghost var spec := ReadRest(cfg, Loop(incoming, toRead, true, alreadyRead, handler.data), untilShort);
      ret := RC_OK;
      while bytesToRead > 0
        invariant ret == RC_OK && handler.curoff == |handler.data|
        invariant ReadRest(cfg, Loop(incoming, bytesToRead, doRetry, bytesRead, handler.data), untilShort) == spec
        decreases if untilShort then Size(incoming) else 0, bytesToRead, doRetry
      {
        done, ret, bytesToRead, bytesRead, doRetry := ReadTurn(length, bytesToRead, bytesRead, doRetry, handler);
        if done { return; }
      }
    }

    /** One turn of the read loop. */
    method ReadTurn(length: u32, toRead: nat, soFar: u32, mayRetry: bool, handler: MemHandler)
      returns (done: bool, ret: u16, bytesToRead: nat, bytesRead: u32, doRetry: bool)
      requires Valid() && toRead > 0 && handler.curoff == |handler.data|
      modifies `incoming, handler
      ensures handler.curoff == |handler.data|
      ensures OneRead(cfg, Loop(old(incoming), toRead, mayRetry, soFar, old(handler.data)),
                      ChunkSize(cfg, toRead, length == UNTIL_SHORT), length == UNTIL_SHORT)
           == if done then Stop(Rest(ret, handler.data, incoming))
              else Again(Loop(incoming, bytesToRead, doRetry, bytesRead, handler.data))
      ensures !done ==> ret == RC_OK
      ensures !done && length != UNTIL_SHORT ==> bytesToRead < toRead || (bytesToRead == toRead && mayRetry && !doRetry)
    {
      done, ret, bytesToRead, bytesRead, doRetry := false, RC_OK, toRead, soFar, mayRetry;
      var chunk := ChunkToRead(bytesToRead, length);
      var res := PortReadBytes(chunk);
      if res == Failed(IoRead) && doRetry {
        doRetry := false;
        return;
      } else if res.Failed? {
        done, ret := true, cfg.translate(Error(res.e));
        return;
      } else if res.bytes == [] {
        done, ret := true, cfg.translate(Count(0));
        return;
      } else {
        doRetry := false;
      }
      handler.Put(res.bytes);
      assert handler.data == handler.data[..handler.curoff] == old(handler.data) + res.bytes;
      if length == UNTIL_SHORT {
        if |res.bytes| < SHORT_PACKET_LEN { bytesToRead := 0; }
      } else {
        bytesToRead := bytesToRead - |res.bytes|;
      }
      bytesRead := (bytesRead + |res.bytes|) % TWO_32;
      if bytesRead >= CANCEL_FROM && res.cancel {
        done, ret := true, ERROR_CANCEL;
      }
    }

    /** Reads a late packet to its end, to be in step with the device again. */
    method DrainPacket(toRead: nat)
      requires Valid()
      modifies `incoming
      ensures incoming == Drain(cfg, old(incoming), toRead)
      ensures P.Clean(old(incoming)) && toRead <= |Stream(old(incoming))| ==>
                Stream(incoming) == Stream(old(incoming))[toRead..] && P.Clean(incoming)
    {
      if P.Clean(incoming) && toRead <= |Stream(incoming)| {
        P.DrainConsumes(cfg, incoming, toRead);
      }
      var bytesToRead: nat := toRead;
      ghost var spec := Drain(cfg, incoming, toRead);
      while bytesToRead > 0
        invariant Drain(cfg, incoming, bytesToRead) == spec
        decreases bytesToRead
      {
        var chunk := ChunkToRead(bytesToRead, 0);
        var res := PortReadBytes(chunk);
        if res.Failed? || res.bytes == [] { break; }
        bytesToRead := bytesToRead - |res.bytes|;
      }
    }

    /** What becomes of a late packet: if its container goes on behind it, that is read to its end. */
    method DropLate(usbdata: seq<byte>, ghost data: seq<byte>) returns (ret: u16)
      requires Valid() && |usbdata| >= HDR_LEN
      modifies `incoming
      ensures DataOut(ret, data, LineOf()) == Late(cfg, old(LineOf()), usbdata, data)
    {
      ret := ERROR_IO;
      if |usbdata| >= Container.Length(usbdata) { return; }
      DrainPacket(Container.Length(usbdata) - |usbdata|);
    }

    /** A packet that is no data: a response to the call is kept in the slot. */
    method KeepResponse(usbdata: seq<byte>, ghost data: seq<byte>) returns (ret: u16)
      requires Valid() && HDR_LEN <= |usbdata| <= CONTAINER_SIZE
      modifies `responsePacket
      ensures Valid() && DataOut(ret, data, LineOf()) == Instead(old(LineOf()), usbdata, data)
    {
      if Kind(usbdata) == TYPE_RESPONSE {
        if |usbdata| != Container.Length(usbdata) { return ERROR_IO; }
        if Container.Length(usbdata) > CONTAINER_SIZE { return ERROR_IO; }
        responsePacket := usbdata;
        return RC_OK;
      }
      ret := ERROR_IO;
    }

    /** ptp_usb_getdata */
    method GetData(code: u16, handler: MemHandler) returns (ret: u16)
      requires Valid() && handler.curoff == |handler.data|
      modifies `incoming, `responsePacket, `splitHeaderData, handler
      ensures Valid() && handler.curoff == |handler.data|
      ensures DataOut(ret, handler.data, LineOf()) == ReceiveData(cfg, old(LineOf()), code, old(handler.data))
    {
      GetPacketConserves(cfg, LineOf());
      var p := GetPacket();
      if p.NoPacket? { return if p.ret == ERROR_CANCEL then ERROR_CANCEL else ERROR_IO; }
      var usbdata := p.bytes;
      if |usbdata| < HDR_LEN { return ERROR_IO; }
      if Kind(usbdata) != TYPE_DATA {
        ret := KeepResponse(usbdata, handler.data);
      } else if Code(usbdata) != code && !cfg.ignoreHeaderErrors {
        ret := DropLate(usbdata, handler.data);
      } else {
        ret := GetDataPhase(usbdata, handler);
      }
    }

    /** The part of ptp_usb_getdata behind the header checks. */
    method GetDataPhase(usbdata: seq<byte>, handler: MemHandler) returns (ret: u16)
      requires Valid() && handler.curoff == |handler.data|
      requires responsePacket == [] && HDR_LEN <= |usbdata| <= CONTAINER_SIZE
      modifies `incoming, `responsePacket, `splitHeaderData, handler
      ensures Valid() && handler.curoff == |handler.data|
      ensures DataOut(ret, handler.data, LineOf()) == DataPhase(cfg, old(LineOf()), usbdata, old(handler.data))
    {
      var length := Container.Length(usbdata);
      var bytesRead := |usbdata|;
      if bytesRead > length {
        var surplen := bytesRead - length;
        if surplen >= HDR_LEN {
          responsePacket := usbdata[length..];
        }
        bytesRead := length;
      }
      if length > HDR_LEN && bytesRead == HDR_LEN {
        splitHeaderData := true;
      }
      if bytesRead < HDR_LEN {
        // the length handed to the put function wraps around; no buffer of that size can be had
        return ERROR_IO;
      }
      ghost var before := handler.data;
      handler.Put(usbdata[HDR_LEN..bytesRead]);
      assert handler.data == handler.data[..handler.curoff] == before + usbdata[HDR_LEN..bytesRead];
      if bytesRead >= length { return RC_OK; }
      assert usbdata[HDR_LEN..bytesRead] == usbdata[HDR_LEN..];
      ret := ReadPayload(length, length - bytesRead, bytesRead - HDR_LEN, handler);
      if ret != RC_OK && ret != ERROR_CANCEL {
        ret := ERROR_IO;
      }
    }

    /** The response loop of ptp_transaction_new: `tries` is at least 1 at its head, so it never ends by
        running out of tries. */
    method AwaitOwnResponse(req: PTPContainer) returns (ret: u16, ptp: PTPContainer)
      requires Valid() && req.transactionId == CurrentId()
      modifies `incoming, `responsePacket
      ensures Valid()
      ensures RespOut(ret, ptp, LineOf())
           == Respond(cfg, old(LineOf()), req, req.code, req.transactionId, sessionId, 3)
    {
      var cmd := req.code;
      ptp := req;
      var tries, done := 3, false;
      ghost var id := req.transactionId;
      ghost var spec := Respond(cfg, LineOf(), req, cmd, id, sessionId, 3);
      while true
        invariant Valid() && 1 <= tries <= 3
        invariant Respond(cfg, LineOf(), ptp, cmd, id, sessionId, tries) == spec
        decreases Weight(LineOf())
      {
        RespondUnfolds(cfg, LineOf(), ptp, cmd, id, sessionId, tries);
        done, ret, ptp, tries := NextReply(ptp, cmd, tries);
        if done { return; }
      }
    }

    /** One turn of the response loop. */
    method NextReply(req: PTPContainer, cmd: u16, triesLeft: nat)
      returns (done: bool, ret: u16, ptp: PTPContainer, tries: nat)
      requires Valid() && 1 <= triesLeft <= 3
      modifies `incoming, `responsePacket
      ensures Valid() && tries <= 3 && (!done ==> tries >= 1)
      ensures var r := ReceiveResp(cfg, old(LineOf()), req, sessionId, CurrentId());
        && LineOf() == r.line && ptp == r.resp
        && Judge(r.ret, r.resp, cmd, CurrentId(), triesLeft) == if done then Decided(ret) else Retry(tries)
    {
      var id := CurrentId();
      done, tries := true, triesLeft - 1;
      ret, ptp := GetResp(req);
      if ret == ERROR_RESP_EXPECTED {
        tries := tries + 1;
        done := false;
        return;
      }
      if ret != RC_OK { return; }
      ret := ptp.code;
      if ptp.transactionId < id {
        if cmd == OC_CLOSE_SESSION { return; }
        tries := tries + 1;
        done := false;
        return;
      }
      if ptp.transactionId != id {
        if cmd == OC_OPEN_SESSION && tries > 0 {
          done := false;
          return;
        }
        ret := ERROR_BADPARAM;
      }
    }

    /** The data phase of a call, its cancellation included. */
    method RunPhase(cmd: u16, id: u32, phase: Phase, size: nat, handler: MemHandler) returns (ret: u16)
      requires Valid() && handler.Valid() && (phase == GetPhase ==> handler.curoff == 0 && handler.data == [])
      modifies `incoming, `accepting, `sent, `responsePacket, `splitHeaderData, handler
      ensures Valid() && handler.Valid()
      ensures var d := Transaction.RunPhase(cfg, old(LinkOf()), cmd, id, phase, old(handler.AsSource()), size);
              ret == d.ret && LinkOf() == d.link && (phase == GetPhase ==> handler.data == d.data)
    {
      match phase {
        case NoData => return RC_OK;
        case SendPhase => ret := SendData(cmd, id, size, handler);
        case GetPhase => ret := GetData(cmd, handler);
        case OtherPhase => return ERROR_BADPARAM;
      }
      if ret == ERROR_CANCEL && cfg.cancelAnswer != RC_OK { return cfg.cancelAnswer; }
    }

    method Proceed(req: PTPContainer, phase: Phase, size: nat, handler: MemHandler)
      returns (ret: u16, ptp: PTPContainer)
      requires Valid() && handler.Valid() && (phase == GetPhase ==> handler.curoff == 0 && handler.data == [])
      requires req.transactionId == CurrentId()
      modifies `incoming, `accepting, `sent, `responsePacket, `splitHeaderData, handler
      ensures Valid() && handler.Valid()
      ensures var c := Transaction.Proceed(cfg, old(LinkOf()), req, phase, old(handler.AsSource()), size);
              && ret == c.ret && ptp == c.resp && LinkOf() == c.link
              && (phase == GetPhase ==> handler.data == c.data)
    {
      ptp := req;
      ret := RunPhase(req.code, req.transactionId, phase, size, handler);
      if ret != RC_OK { return; }
      ret, ptp := AwaitOwnResponse(req);
    }

    /** ptp_transaction_new */
    method TransactionNew(cmd: u16, ps: seq<u32>, phase: Phase, size: nat, handler: MemHandler)
      returns (ret: u16, ptp: PTPContainer)
      requires Valid() && handler.Valid() && (phase == GetPhase ==> handler.curoff == 0 && handler.data == [])
      modifies this, handler
      ensures Valid() && handler.Valid()
      ensures var c := Transaction.TransactionNew(cfg, old(LinkOf()), cmd, ps, phase, old(handler.AsSource()), size);
              && ret == c.ret && ptp == c.resp && LinkOf() == c.link
              && (phase == GetPhase ==> handler.data == c.data)
    {
      ptp := PTPContainer(cmd, sessionId, transactionId, ps);
      transactionId := (transactionId + 1) % TWO_32;
      ret := SendReq(cmd, ptp.transactionId, FirstFive(ps));
      if ret == RC_OK {
        ret, ptp := Proceed(ptp, phase, size, handler);
      }
    }

    /** ptp_transaction with GETDATA and the memory handler. */
    method GetTransaction(cmd: u16, ps: seq<u32>) returns (ret: u16, data: seq<byte>, recvlen: nat)
      requires Valid()
      modifies this
      ensures Valid()
      ensures var (c, len) := Transaction.GetTransaction(cfg, old(LinkOf()), cmd, ps);
              ret == c.ret && data == c.data && recvlen == len && LinkOf() == c.link
      ensures cfg.Strict() ==>
                if ret == RC_OK then Handed(old(LineOf().Incoming()), data, recvlen) else data == [] && recvlen == 0
    {
      if cfg.Strict() {
        ReceiveEndToEnd(cfg, LinkOf(), cmd, ps);
      }
      var handler := new MemHandler([]);
      var ptp;
      ret, ptp := TransactionNew(cmd, ps, GetPhase, 0, handler);
      data, recvlen := handler.data, |handler.data|;
      if ret != RC_OK {
        data, recvlen := [], 0;
      }
      recvlen := recvlen % TWO_32;
    }

    /** ptp_opensession: a buffered packet of an earlier session is dropped, and numbering starts over. */
    method OpenSession(session: u32) returns (ret: u16)
      requires Valid()
      modifies this
      ensures Valid()
      ensures (ret, LinkOf()) == Transaction.OpenSession(cfg, old(LinkOf()), session)
      ensures transactionId == 1 && sessionId == session
    {
      OpenSessionForgets(cfg, LinkOf(), LinkOf(), session);
      sessionId, transactionId := 0, 0;
      responsePacket, splitHeaderData := [], false;
      var handler := new MemHandler([]);
      var ptp;
      ret, ptp := TransactionNew(OC_OPEN_SESSION, [session], NoData, 0, handler);
      sessionId := session;
    }
  }

  lemma RespondUnfolds(cfg: Config, line: Line, ptp: PTPContainer, cmd: u16, id: u32, sessionId: u32, tries: nat)
    requires tries >= 1
    ensures var r := ReceiveResp(cfg, line, ptp, sessionId, id);
            var v := Judge(r.ret, r.resp, cmd, id, tries);
      && Respond(cfg, line, ptp, cmd, id, sessionId, tries)
         == (if v.Decided? then r.(ret := v.ret) else Respond(cfg, r.line, r.resp, cmd, id, sessionId, v.tries))
      && (v.Retry? ==> Weight(r.line) < Weight(line))
  {
    if ReceiveResp(cfg, line, ptp, sessionId, id).ret != ERROR_IO {
      RespConsumes(cfg, line, ptp, sessionId, id);
    }
  }
}
