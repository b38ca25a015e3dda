/** The receiving half of usb.c as functions on the state of the line: the port's script, the one-slot
    buffer for a surplus packet, and the split-header flag. */
module UsbReceive {
  import opened Arith
  import opened Bytes
  import opened Container
  import opened UsbPort

  datatype Line = Line(script: seq<PortRead>, slot: seq<byte>, split: bool) {
    predicate Valid() {
      |slot| <= CONTAINER_SIZE
    }

    /** Everything still to be received: the buffered packet, then the port. */
    function Incoming(): seq<byte> {
      slot + Stream(script)
    }
  }

  const READLEN := 512 * 1024
  const SHORT_PACKET_LEN := 512
  const UNTIL_SHORT := 0xffff_ffff
  const CANCEL_FROM := 1024 * 1024

  datatype PacketResult = Packet(bytes: seq<byte>) | NoPacket(ret: u16)

  // ---- ptp_usb_getpacket ----

  /** A zero-length read may be the end of the previous transfer: the port is read once more. */
  function ReadTwice(script: seq<PortRead>): (PortRead, seq<PortRead>) {
    var (r, rest) := ReadPort(script, CONTAINER_SIZE);
    if r.Got? && r.bytes == [] then ReadPort(rest, CONTAINER_SIZE) else (r, rest)
  }

  function ReadPacket(cfg: Config, script: seq<PortRead>, tries: nat): (PacketResult, seq<PortRead>)
    decreases 1 - tries
  {
    var (r, rest) := ReadTwice(script);
    match r
    case Got(bytes, _) =>
      if bytes != [] then (Packet(bytes), rest) else (NoPacket(cfg.translate(Count(0))), rest)
    case Failed(e) =>
      if e == IoRead && tries < 1 then ReadPacket(cfg, rest, tries + 1)
      else (NoPacket(cfg.translate(Error(e))), rest)
  }

  function GetPacket(cfg: Config, line: Line): (PacketResult, Line) {
    if line.slot != [] then
      (Packet(line.slot[..Min(|line.slot|, CONTAINER_SIZE)]), line.(slot := []))
    else
      var (p, rest) := ReadPacket(cfg, line.script, 0);
      (p, line.(script := rest))
  }

  /** The buffered packet comes back byte for byte before the port is touched. */
  lemma SlotFirst(cfg: Config, line: Line)
    requires line.Valid() && line.slot != []
    ensures GetPacket(cfg, line) == (Packet(line.slot), line.(slot := []))
  {
    assert line.slot[..|line.slot|] == line.slot;
  }

  lemma ReadTwiceConserves(script: seq<PortRead>)
    ensures var (r, rest) := ReadTwice(script);
      && Stream(script) == (if r.Got? then r.bytes else []) + Stream(rest)
      && (r.Got? ==> |r.bytes| <= CONTAINER_SIZE)
      && (script != [] ==> Size(rest) < Size(script))
      && (r.Got? && r.bytes != [] ==> script != [])
  {
    var (r, rest) := ReadPort(script, CONTAINER_SIZE);
    ReadPortConserves(script, CONTAINER_SIZE);
    ReadPortConserves(rest, CONTAINER_SIZE);
  }

  lemma ReadPacketConserves(cfg: Config, script: seq<PortRead>, tries: nat)
    ensures var (p, rest) := ReadPacket(cfg, script, tries);
      && Stream(script) == (if p.Packet? then p.bytes else []) + Stream(rest)
      && (p.Packet? ==> 0 < |p.bytes| <= CONTAINER_SIZE && Size(rest) < Size(script))
      && Size(rest) <= Size(script)
    decreases 1 - tries
  {
    ReadTwiceConserves(script);
    var (r, rest) := ReadTwice(script);
    if r == Failed(IoRead) && tries < 1 {
      ReadPacketConserves(cfg, rest, tries + 1);
    }
  }

  /** A packet is the front of what is incoming, at most 1024 bytes; a failed attempt loses nothing. */
  lemma GetPacketConserves(cfg: Config, line: Line)
    requires line.Valid()
    ensures var (p, after) := GetPacket(cfg, line);
      && line.Incoming() == (if p.Packet? then p.bytes else []) + after.Incoming()
      && (p.Packet? ==> 0 < |p.bytes| <= 1024)
      && after.slot == [] && after.split == line.split
  {
    if line.slot != [] {
      SlotFirst(cfg, line);
      assert line.Incoming() == line.slot + ([] + Stream(line.script));
    } else {
      ReadPacketConserves(cfg, line.script, 0);
      assert forall s: seq<byte> :: [] + s == s;
    }
  }

  // ---- Reads in front of a packet that do no harm ----

  /** Reads that bring nothing. */
  ghost predicate BringsNothing(h: seq<PortRead>) {
    forall i | 0 <= i < |h| :: h[i].Failed? || h[i].bytes == []
  }

  predicate IsEmpty(r: PortRead) {
    r.Got? && r.bytes == []
  }

  /** At most one empty read, such as the zero-length packet that ended the phase before. */
  predicate AtMostOneEmpty(h: seq<PortRead>) {
    h == [] || (|h| == 1 && IsEmpty(h[0]))
  }

  /** At most one failed read, with at most one empty read on each side of it. */
  predicate Tolerated(h: seq<PortRead>) {
    || AtMostOneEmpty(h)
    || (h[0] == Failed(IoRead) && AtMostOneEmpty(h[1..]))
    || (IsEmpty(h[0]) && h[1] == Failed(IoRead) && AtMostOneEmpty(h[2..]))
  }

  ghost predicate StartsWithBytes(script: seq<PortRead>) {
    script != [] && script[0].Got? && script[0].bytes != []
  }

  lemma FirstRead(r: PortRead, more: seq<PortRead>)
    requires r.Failed? || r.bytes == []
    ensures ReadPort([r] + more, CONTAINER_SIZE) == (r, more)
  {
  }

  lemma ReadTwiceEmpty(r: PortRead, more: seq<PortRead>)
    requires IsEmpty(r)
    ensures ReadTwice([r] + more) == ReadPort(more, CONTAINER_SIZE)
  {
    FirstRead(r, more);
  }

  lemma ReadTwiceFailed(r: PortRead, more: seq<PortRead>)
    requires r.Failed?
    ensures ReadTwice([r] + more) == (r, more)
  {
    FirstRead(r, more);
  }

  lemma Headed(h: seq<PortRead>, more: seq<PortRead>)
    requires h != []
    ensures h + more == [h[0]] + (h[1..] + more)
  {
  }

  /** Without another try an attempt gets behind one empty read at most. */
  lemma LastAttempt(cfg: Config, h: seq<PortRead>, more: seq<PortRead>)
    requires BringsNothing(h) && StartsWithBytes(more)
    ensures AtMostOneEmpty(h) ==> ReadPacket(cfg, h + more, 1) == ReadPacket(cfg, more, 1)
    ensures !AtMostOneEmpty(h) ==> ReadPacket(cfg, h + more, 1).0.NoPacket?
  {
    if h == [] {
      assert h + more == more;
    } else {
      Headed(h, more);
      if IsEmpty(h[0]) {
        ReadTwiceEmpty(h[0], h[1..] + more);
        if |h| == 1 {
          assert h[1..] + more == more;
        } else {
          Headed(h[1..], more);
          FirstRead(h[1], h[1..][1..] + more);
        }
      } else {
        ReadTwiceFailed(h[0], h[1..] + more);
      }
    }
  }

  lemma FirstAttempt(cfg: Config, more: seq<PortRead>)
    requires StartsWithBytes(more)
    ensures var (r, rest) := ReadPort(more, CONTAINER_SIZE);
      r.Got? && ReadPacket(cfg, more, 0) == ReadPacket(cfg, more, 1) == (Packet(r.bytes), rest)
  {
  }

  /** Exactly what getpacket gets over: of the reads that bring nothing, it tolerates one failed read and one
      empty read before and after it, and then returns the packet as if they had not been there; with any
      others in front it gives up. */
  lemma ToleratesExactly(cfg: Config, h: seq<PortRead>, more: seq<PortRead>, split: bool)
    requires BringsNothing(h) && StartsWithBytes(more)
    ensures Tolerated(h) ==> GetPacket(cfg, Line(h + more, [], split)) == GetPacket(cfg, Line(more, [], split))
    ensures GetPacket(cfg, Line(h + more, [], split)).0.Packet? <==> Tolerated(h)
  {
    FirstAttempt(cfg, more);
    if h == [] {
      assert h + more == more;
    } else {
      Headed(h, more);
      var tail := h[1..];
      if h[0].Failed? {
        ReadTwiceFailed(h[0], tail + more);
        LastAttempt(cfg, tail, more);
      } else {
        ReadTwiceEmpty(h[0], tail + more);
        if tail == [] {
          assert tail + more == more;
        } else {
          Headed(tail, more);
          FirstRead(tail[0], tail[1..] + more);
          assert h[1] == tail[0] && tail[1..] == h[2..];
          LastAttempt(cfg, tail[1..], more);
        }
      }
    }
  }

  /** How much is left to receive, buffered packet included. */
  function Weight(line: Line): nat {
    2 * Size(line.script) + if line.slot == [] then 0 else 1
  }

  lemma GetPacketConsumes(cfg: Config, line: Line)
    requires GetPacket(cfg, line).0.Packet?
    ensures Weight(GetPacket(cfg, line).1) < Weight(line)
  {
    if line.slot == [] {
      ReadPacketConserves(cfg, line.script, 0);
    }
  }

  // ---- ptp_usb_getdata ----

  /** How much is asked for: large blobs, then all but the last short packet; one packet at a time when
      the length is unknown. */
  function ChunkSize(cfg: Config, todo: nat, untilShort: bool): (n: nat)
    requires cfg.Valid() && todo > 0
    ensures n > 0 && (!untilShort ==> n <= todo)
  {
    if untilShort then SHORT_PACKET_LEN
    else if todo > READLEN then READLEN
    else if todo > cfg.maxpacketsize then WholePackets(todo, cfg.maxpacketsize)
    else todo
  }

  /** The bytes of the whole packets of size `m` in `n` bytes. */
  function WholePackets(n: nat, m: nat): (k: nat)
    requires m > 0
    ensures k <= n && (n >= m ==> k >= m)
  {
    if n < m then 0 else m + WholePackets(n - m, m)
  }

  lemma {:induction false} WholePacketsModulo(n: nat, m: nat)
    requires m > 0
    ensures WholePackets(n, m) == n - n % m
  {
    if n < m {
      ModuloSmall(n, m);
    } else {
      WholePacketsModulo(n - m, m);
      ModuloStep(n, m);
    }
  }

  /** What every read of a data phase asks for: one packet's worth when the length is unknown; otherwise all
      that is missing if that fits a packet, a large blob if more than that is missing, and else as many whole
      packets as there are, so that less than one packet is left. */
  lemma ChunksArePackets(cfg: Config, todo: nat, untilShort: bool)
    requires cfg.Valid() && todo > 0
    ensures var n, m: int := ChunkSize(cfg, todo, untilShort), cfg.maxpacketsize;
      && (untilShort ==> n == 512)
      && (!untilShort && todo > 0x8_0000 ==> n == 0x8_0000)
      && (!untilShort && todo <= m && todo <= 0x8_0000 ==> n == todo)
      && (!untilShort && m < todo <= 0x8_0000 ==> n % m == 0 && todo - m < n <= todo)
  {
    if !untilShort && cfg.maxpacketsize < todo <= READLEN {
      var m: int := cfg.maxpacketsize;
      WholePacketsModulo(todo, m);
      var n := ChunkSize(cfg, todo, untilShort);
      assert n == (todo / m) * m + 0;
      ModuloUnique(n, m, todo / m, 0);
    }
  }

  datatype Rest = Rest(ret: u16, data: seq<byte>, script: seq<PortRead>)

  /** The read loop's variables: `todo` bytes to go, `total` payload bytes so far. */
  datatype Loop = Loop(script: seq<PortRead>, todo: nat, retry: bool, total: u32, data: seq<byte>)

  datatype LoopStep = Stop(out: Rest) | Again(next: Loop)

  /** One turn of the read loop behind the first packet, asking for at most `max` bytes. */
  function OneRead(cfg: Config, l: Loop, max: nat, untilShort: bool): (step: LoopStep)
    requires 0 < max && (!untilShort ==> max <= l.todo)
    ensures step.Again? ==> Size(step.next.script) < Size(l.script)
  {
    var (r, rest) := ReadPort(l.script, max);
    ReadPortConserves(l.script, max);
    match r
    case Failed(e) =>
      if e == IoRead && l.retry then Again(l.(script := rest, retry := false))
      else Stop(Rest(cfg.translate(Error(e)), l.data, rest))
    case Got(bytes, cancel) =>
      if bytes == [] then Stop(Rest(cfg.translate(Count(0)), l.data, rest)) else
      var left := if !untilShort then l.todo - |bytes| else if |bytes| < SHORT_PACKET_LEN then 0 else l.todo;
      var sum := (l.total + |bytes|) % TWO_32;
      if sum >= CANCEL_FROM && cancel then Stop(Rest(ERROR_CANCEL, l.data + bytes, rest))
      else Again(Loop(rest, left, false, sum, l.data + bytes))
  }

  function ReadRest(cfg: Config, l: Loop, untilShort: bool): Rest
    requires cfg.Valid()
    decreases Size(l.script)
  {
    if l.todo == 0 then Rest(RC_OK, l.data, l.script) else
    match OneRead(cfg, l, ChunkSize(cfg, l.todo, untilShort), untilShort)
    case Stop(out) => out
    case Again(next) => ReadRest(cfg, next, untilShort)
  }

  /** A late packet of another command is read to its end, or to the first read that brings nothing. */
  function Drain(cfg: Config, script: seq<PortRead>, todo: nat): seq<PortRead>
    requires cfg.Valid()
    decreases todo
  {
    if todo == 0 then script else
    var (r, rest) := ReadPort(script, ChunkSize(cfg, todo, false));
    if r.Got? && r.bytes != [] then Drain(cfg, rest, todo - |r.bytes|) else rest
  }

  datatype DataOut = DataOut(ret: u16, data: seq<byte>, line: Line)

  /** Every failure but a cancellation leaves as an I/O error. */
  function Exit(ret: u16): u16 {
    if ret == RC_OK || ret == ERROR_CANCEL then ret else ERROR_IO
  }

  /** Receives a data phase and appends its payload to `data`. */
  function ReceiveData(cfg: Config, line: Line, code: u16, data: seq<byte>): DataOut
    requires cfg.Valid()
  {
    var (p, after) := GetPacket(cfg, line);
    match p
    case NoPacket(ret) => DataOut(if ret == ERROR_CANCEL then ret else ERROR_IO, data, after)
    case Packet(b) =>
      if |b| < HDR_LEN then DataOut(ERROR_IO, data, after)
      else if Kind(b) != TYPE_DATA then Instead(after, b, data)
      else if Code(b) != code && !cfg.ignoreHeaderErrors then Late(cfg, after, b, data)
      else DataPhase(cfg, after, b, data)
  }

  /** A response instead of data is buffered for getresp. */
  function Instead(line: Line, b: seq<byte>, data: seq<byte>): DataOut
    requires |b| >= HDR_LEN
  {
    if Kind(b) == TYPE_RESPONSE && Length(b) == |b| then DataOut(RC_OK, data, line.(slot := b))
    else DataOut(ERROR_IO, data, line)
  }

  /** Data of another command is drained. */
  function Late(cfg: Config, line: Line, b: seq<byte>, data: seq<byte>): DataOut
    requires cfg.Valid() && |b| >= HDR_LEN
  {
    if |b| >= Length(b) then DataOut(ERROR_IO, data, line)
    else DataOut(ERROR_IO, data, line.(script := Drain(cfg, line.script, Length(b) - |b|)))
  }

  /** The surplus behind a data container that ended within the first packet. */
  function Surplus(b: seq<byte>, length: nat): seq<byte> {
    if |b| > length && |b| - length >= HDR_LEN then b[length..] else []
  }

  /** The loop variables when the packet `b` holds only a part of its container. */
  function Start(script: seq<PortRead>, b: seq<byte>, data: seq<byte>): Loop
    requires HDR_LEN <= |b| < Length(b)
  {
    Loop(script, Length(b) - |b|, true, |b| - HDR_LEN, data + b[HDR_LEN..])
  }

  /** The first packet `b` starts the expected data container. A length below the header's makes the first
      copy wrap around to almost 2^64 bytes, an allocation that fails. */
  function DataPhase(cfg: Config, line: Line, b: seq<byte>, data: seq<byte>): DataOut
    requires cfg.Valid() && |b| >= HDR_LEN
  {
    var length: int := Length(b);
    var n := Min(|b|, length);
    var buffered := line.(slot := Surplus(b, length));
    if n < HDR_LEN then DataOut(ERROR_IO, data, buffered) else
    var noted := buffered.(split := buffered.split || (length > HDR_LEN && n == HDR_LEN));
    var first := data + b[HDR_LEN..n];
    if n == length then DataOut(RC_OK, first, noted) else
    var rest := ReadRest(cfg, Start(line.script, b, data), length == UNTIL_SHORT);
    DataOut(Exit(rest.ret), rest.data, noted.(script := rest.script))
  }

  // ---- ptp_usb_getresp ----

  datatype PTPContainer = PTPContainer(code: u16, sessionId: u32, transactionId: u32, params: seq<u32>)

  datatype RespOut = RespOut(ret: u16, resp: PTPContainer, line: Line)

  function ParamWords(b: seq<byte>): (ps: seq<u32>)
    requires |b| >= HDR_LEN
  {
    Words(b, Min((|b| - HDR_LEN) / 4, 5))
  }

  /** Receives one packet and takes it as the response to `resp.code`. `expected` is the ID of the current
      transaction. */
  function ReceiveResp(cfg: Config, line: Line, resp: PTPContainer, sessionId: u32, expected: u32): RespOut {
    var (p, after) := GetPacket(cfg, line);
    match p
    case NoPacket(_) => RespOut(ERROR_IO, resp, after)
    case Packet(b) =>
      var ret := RespVerdict(b, resp.code);
      if ret != RC_OK then RespOut(ret, resp, after) else
      var id := if cfg.ignoreHeaderErrors then expected else TransId(b);
      RespOut(RC_OK, PTPContainer(Code(b), sessionId, id, ParamWords(b)), after)
  }

  /** What getresp returns for a packet when it was called for `code`. */
  function RespVerdict(b: seq<byte>, code: u16): (ret: u16)
    ensures ret == RC_OK ==> IsResponse(b) && (Code(b) == code || Code(b) == RC_OK)
  {
    if |b| < HDR_LEN then ERROR_IO
    else if |b| != Length(b) then ERROR_IO
    else if Kind(b) != TYPE_RESPONSE then ERROR_RESP_EXPECTED
    else if Code(b) != code then Code(b)
    else RC_OK
  }

  /** The bytes of a response container with at most five parameters. */
  function ResponseBytes(code: u16, transId: u32, ps: seq<u32>): (s: seq<byte>)
    requires |ps| <= 5
    ensures |s| == HDR_LEN + 4 * |ps|
  {
    Header(HDR_LEN + 4 * |ps|, TYPE_RESPONSE, code, transId) + PutWords(ps)
  }

  lemma ResponseFields(code: u16, transId: u32, ps: seq<u32>)
    requires |ps| <= 5
    ensures var b := ResponseBytes(code, transId, ps);
      IsResponse(b) && Code(b) == code && TransId(b) == transId && Words(b, |ps|) == ps
  {
    var b, header := ResponseBytes(code, transId, ps), Header(HDR_LEN + 4 * |ps|, TYPE_RESPONSE, code, transId);
    AtAppend(header, PutWords(ps));
    HeaderFields(b, HDR_LEN + 4 * |ps|, TYPE_RESPONSE, code, transId);
    WordsAt(b, ps);
  }

  /** A response that getresp accepts is handed over with its own code and parameters and the session of the
      connection; its ID is its own too, unless headers are known to be broken. */
  lemma ResponseRead(cfg: Config, line: Line, resp: PTPContainer, sessionId: u32, expected: u32,
                     code: u16, transId: u32, ps: seq<u32>)
    requires |ps| <= 5 && (code == RC_OK || code == resp.code)
    requires GetPacket(cfg, line).0 == Packet(ResponseBytes(code, transId, ps))
    ensures ReceiveResp(cfg, line, resp, sessionId, expected)
         == RespOut(RC_OK, PTPContainer(code, sessionId, if cfg.ignoreHeaderErrors then expected else transId, ps),
                    GetPacket(cfg, line).1)
  {
    ResponseFields(code, transId, ps);
    var b := ResponseBytes(code, transId, ps);
    assert |b| - HDR_LEN == 4 * |ps|;
  }

  /** What getresp makes of everything else: nothing readable, or no whole container, is an I/O error; a whole
      container of another kind asks for another round; a response with another code is that code. */
  lemma OtherwiseRefused(cfg: Config, line: Line, resp: PTPContainer, sessionId: u32, expected: u32)
    ensures var (p, after) := GetPacket(cfg, line);
            var r := ReceiveResp(cfg, line, resp, sessionId, expected);
      && r.line == after && (r.ret != RC_OK ==> r.resp == resp)
      && (p.NoPacket? || |p.bytes| < HDR_LEN || Length(p.bytes) != |p.bytes| ==> r.ret == 0x02FF)
      && (p.Packet? && |p.bytes| >= HDR_LEN && Length(p.bytes) == |p.bytes| && Kind(p.bytes) != TYPE_RESPONSE ==>
           r.ret == 0x02FD)
      && (p.Packet? && IsResponse(p.bytes) && Code(p.bytes) != resp.code && Code(p.bytes) != RC_OK ==>
           r.ret == Code(p.bytes))
  {
  }
}
