/** What the receiving half of usb.c delivers, for every way the port splits its reads. */
module UsbReceiveProofs {
  import opened Bytes
  import opened Container
  import opened UsbPort
  import opened UsbReceive

  /** `data` grew by exactly the bytes that left the front of the stream. */
  ghost predicate Moved(before: seq<byte>, after: seq<byte>, data: seq<byte>, grown: seq<byte>) {
    && |data| <= |grown| && |grown| - |data| <= |before|
    && grown == data + before[..|grown| - |data|]
    && after == before[|grown| - |data|..]
  }

  lemma MovedStep(before: seq<byte>, piece: seq<byte>, mid: seq<byte>, after: seq<byte>,
                  data: seq<byte>, grown: seq<byte>)
    requires before == piece + mid && Moved(mid, after, data + piece, grown)
    ensures Moved(before, after, data, grown)
  {
    var k := |grown| - |data|;
    assert before[..k] == piece + mid[..k - |piece|];
    assert before[k..] == mid[k - |piece|..];
  }

  lemma MovedPiece(before: seq<byte>, piece: seq<byte>, after: seq<byte>, data: seq<byte>)
    requires before == piece + after
    ensures Moved(before, after, data, data + piece)
  {
  }

  /** The loop hands over exactly the bytes it takes from the port, in order, never more than asked for;
      and when failures are not translated to success, OK means all of them. */
  ghost predicate RestGood(cfg: Config, l: Loop, untilShort: bool, out: Rest) {
    && Moved(Stream(l.script), Stream(out.script), l.data, out.data)
    && (!untilShort ==> |out.data| - |l.data| <= l.todo)
    && (!untilShort && out.ret == RC_OK && cfg.Strict() ==> |out.data| - |l.data| == l.todo)
  }

  lemma StopGood(cfg: Config, l: Loop, max: nat, untilShort: bool)
    requires 0 < max && (!untilShort ==> max <= l.todo)
    requires l.todo > 0 && OneRead(cfg, l, max, untilShort).Stop?
    ensures RestGood(cfg, l, untilShort, OneRead(cfg, l, max, untilShort).out)
  {
    var (r, rest) := ReadPort(l.script, max);
    ReadPortConserves(l.script, max);
    MovedPiece(Stream(l.script), if r.Got? then r.bytes else [], Stream(rest), l.data);
    assert l.data + [] == l.data;
  }

  lemma AgainMoves(cfg: Config, l: Loop, max: nat, untilShort: bool) returns (piece: seq<byte>)
    requires 0 < max && (!untilShort ==> max <= l.todo)
    requires OneRead(cfg, l, max, untilShort).Again?
    ensures var next := OneRead(cfg, l, max, untilShort).next;
      && Stream(l.script) == piece + Stream(next.script) && next.data == l.data + piece
      && (!untilShort ==> next.todo + |piece| == l.todo)
  {
    var r := ReadPort(l.script, max).0;
    ReadPortConserves(l.script, max);
    piece := if r.Got? then r.bytes else [];
    assert l.data + [] == l.data;
  }

  lemma PieceGood(cfg: Config, l: Loop, next: Loop, piece: seq<byte>, untilShort: bool, out: Rest)
    requires Stream(l.script) == piece + Stream(next.script) && next.data == l.data + piece
    requires !untilShort ==> next.todo + |piece| == l.todo
    requires RestGood(cfg, next, untilShort, out)
    ensures RestGood(cfg, l, untilShort, out)
  {
    MovedStep(Stream(l.script), piece, Stream(next.script), Stream(out.script), l.data, out.data);
  }

  lemma {:induction false} RestConserves(cfg: Config, l: Loop, untilShort: bool)
    requires cfg.Valid()
    ensures RestGood(cfg, l, untilShort, ReadRest(cfg, l, untilShort))
    decreases Size(l.script)
  {
    if l.todo == 0 {
      MovedPiece(Stream(l.script), [], Stream(l.script), l.data);
      assert l.data + [] == l.data;
    } else {
      var max := ChunkSize(cfg, l.todo, untilShort);
      match OneRead(cfg, l, max, untilShort)
      case Stop(_) =>
        StopGood(cfg, l, max, untilShort);
      case Again(next) =>
        var piece := AgainMoves(cfg, l, max, untilShort);
        RestConserves(cfg, next, untilShort);
        PieceGood(cfg, l, next, piece, untilShort, ReadRest(cfg, next, untilShort));
    }
  }

  /** The stream starts with a data container of known length, at least the header's. */
  predicate StartsData(s: seq<byte>) {
    |s| >= HDR_LEN && Kind(s) == TYPE_DATA && HDR_LEN <= Length(s) < UNTIL_SHORT
  }

  /** What is incoming is `s` from position `from` on. */
  predicate Resumes(s: seq<byte>, from: nat, incoming: seq<byte>) {
    from <= |s| && incoming == s[from..]
  }

  /** All that receiving a data phase can mean when it returns OK. */
  ghost predicate Received(s: seq<byte>, data: seq<byte>, out: DataOut) {
    if StartsData(s) then
      && Length(s) <= |s|
      && out.data == data + s[HDR_LEN..Length(s)]
      && (exists from: nat :: Length(s) <= from < Length(s) + HDR_LEN && Resumes(s, from, out.line.Incoming()))
    else if |s| >= HDR_LEN && Kind(s) == TYPE_RESPONSE then
      out.data == data && out.line.Incoming() == s && IsResponse(out.line.slot)
    else
      |s| >= HDR_LEN && Kind(s) == TYPE_DATA && Length(s) == UNTIL_SHORT
      && Moved(s[HDR_LEN..], out.line.Incoming(), data, out.data)
  }

  lemma PacketPhaseMoves(cfg: Config, line: Line, b: seq<byte>, data: seq<byte>)
    requires cfg.Valid() && line.slot == [] && HDR_LEN <= |b| < Length(b)
    ensures var out := DataPhase(cfg, line, b, data);
      && Moved(b[HDR_LEN..] + Stream(line.script), out.line.Incoming(), data, out.data)
      && (out.ret == RC_OK && cfg.Strict() && Length(b) != UNTIL_SHORT ==>
           |out.data| - |data| == Length(b) - HDR_LEN)
  {
    var l := Start(line.script, b, data);
    var rest := ReadRest(cfg, l, Length(b) == UNTIL_SHORT);
    RestConserves(cfg, l, Length(b) == UNTIL_SHORT);
    MovedStep(b[HDR_LEN..] + Stream(line.script), b[HDR_LEN..], Stream(line.script), Stream(rest.script),
              data, rest.data);
    LongPhase(cfg, line, b, data);
    assert [] + Stream(rest.script) == Stream(rest.script);
  }

  lemma LongPhase(cfg: Config, line: Line, b: seq<byte>, data: seq<byte>)
    requires cfg.Valid() && line.slot == [] && HDR_LEN <= |b| < Length(b)
    ensures var out := DataPhase(cfg, line, b, data);
            var rest := ReadRest(cfg, Start(line.script, b, data), Length(b) == UNTIL_SHORT);
      && out.ret == Exit(rest.ret) && out.data == rest.data
      && out.line.script == rest.script && out.line.slot == []
  {
    assert b[HDR_LEN..|b|] == b[HDR_LEN..];
  }

  /** A container that ends within the first packet: the surplus is buffered or, if shorter than a header,
      dropped. */
  lemma PacketPhaseEnds(cfg: Config, line: Line, b: seq<byte>, data: seq<byte>)
    requires cfg.Valid() && line.slot == [] && HDR_LEN <= |b| <= CONTAINER_SIZE
    requires HDR_LEN <= Length(b) <= |b|
    ensures var s, out := b + Stream(line.script), DataPhase(cfg, line, b, data);
      && out.ret == RC_OK && out.data == data + s[HDR_LEN..Length(b)]
      && Resumes(s, if 0 < |b| - Length(b) < HDR_LEN then |b| else Length(b), out.line.Incoming())
  {
    var length: int := Length(b);
    var s := b + Stream(line.script);
    assert s[HDR_LEN..length] == b[HDR_LEN..length];
    assert s[length..] == b[length..] + Stream(line.script);
    assert s[|b|..] == [] + Stream(line.script);
  }

  /** OK is returned only with the payload of the data container that was sent, byte for byte, or with
      nothing when the device answered with a response instead, which is then buffered whole. */
  lemma OkMeansWholePayload(cfg: Config, line: Line, code: u16, data: seq<byte>)
    requires cfg.Valid() && cfg.Strict() && line.Valid()
    requires ReceiveData(cfg, line, code, data).ret == RC_OK
    ensures Received(line.Incoming(), data, ReceiveData(cfg, line, code, data))
  {
    GetPacketConserves(cfg, line);
    var (p, after) := GetPacket(cfg, line);
    assert [] + Stream(after.script) == Stream(after.script);
    FieldsOfPrefix(p.bytes, line.Incoming());
    if Kind(p.bytes) == TYPE_DATA {
      DataPhaseReceives(cfg, after, p.bytes, data);
    }
  }

  lemma DataPhaseReceives(cfg: Config, line: Line, b: seq<byte>, data: seq<byte>)
    requires cfg.Valid() && cfg.Strict() && line.slot == [] && HDR_LEN <= |b| <= CONTAINER_SIZE
    requires Kind(b) == TYPE_DATA && DataPhase(cfg, line, b, data).ret == RC_OK
    ensures Received(b + Stream(line.script), data, DataPhase(cfg, line, b, data))
  {
    var s := b + Stream(line.script);
    FieldsOfPrefix(b, s);
    var out := DataPhase(cfg, line, b, data);
    if |b| < Length(b) {
      PacketPhaseMoves(cfg, line, b, data);
      assert s[HDR_LEN..] == b[HDR_LEN..] + Stream(line.script);
      if StartsData(s) {
        MovedWhole(s, out.line.Incoming(), data, out.data);
        assert Resumes(s, Length(s), out.line.Incoming());
      }
    } else {
      PacketPhaseEnds(cfg, line, b, data);
    }
  }

  lemma MovedWhole(s: seq<byte>, after: seq<byte>, data: seq<byte>, grown: seq<byte>)
    requires |s| >= HDR_LEN && Length(s) >= HDR_LEN
    requires Moved(s[HDR_LEN..], after, data, grown) && |grown| - |data| == Length(s) - HDR_LEN
    ensures Length(s) <= |s| && grown == data + s[HDR_LEN..Length(s)] && after == s[Length(s)..]
  {
  }

  // ---- Exactly when OK can be trusted ----

  ghost predicate Trustworthy(cfg: Config, line: Line, code: u16)
    requires cfg.Valid()
  {
    var out := ReceiveData(cfg, line, code, []);
    line.Valid() && out.ret == RC_OK ==> Received(line.Incoming(), [], out)
  }

  /** Receiving returns OK for nothing but whole payloads, on every line and for every command, if and only
      if a read that brings nothing is never translated to success. */
  lemma TrustworthyIffStrict(cfg: Config)
    requires cfg.Valid()
    ensures cfg.Strict() <==> forall line: Line, code: u16 :: Trustworthy(cfg, line, code)
  {
    if cfg.Strict() {
      forall line: Line, code: u16 ensures Trustworthy(cfg, line, code) {
        if line.Valid() && ReceiveData(cfg, line, code, []).ret == RC_OK {
          OkMeansWholePayload(cfg, line, code, []);
        }
      }
    } else if cfg.translate(Count(0)) == RC_OK {
      CutShort(cfg, [Got([], false)]);
    } else {
      var e :| cfg.translate(Error(e)) == RC_OK;
      if e == IoRead {
        CutShort(cfg, [Failed(e), Failed(e)]);
      } else {
        CutShort(cfg, [Failed(e)]);
      }
    }
  }

  /** Reads that bring nothing and still leave as success. */
  predicate Silent(cfg: Config, nothing: seq<PortRead>) {
    || (nothing == [Got([], false)] && cfg.translate(Count(0)) == RC_OK)
    || (nothing == [Failed(IoRead), Failed(IoRead)] && cfg.translate(Error(IoRead)) == RC_OK)
    || (|nothing| == 1 && nothing[0].Failed? && nothing[0].e != IoRead
        && cfg.translate(Error(nothing[0].e)) == RC_OK)
  }

  lemma SilentIsEmpty(cfg: Config, nothing: seq<PortRead>)
    requires Silent(cfg, nothing)
    ensures Stream(nothing) == []
  {
    if |nothing| == 2 {
      assert nothing[1..] == [Failed(IoRead)];
      assert Stream(nothing[1..]) == [];
    }
  }

  /** A header that announces one byte, and then reads that bring nothing. */
  lemma CutShort(cfg: Config, nothing: seq<PortRead>)
    requires cfg.Valid() && Silent(cfg, nothing)
    ensures exists line: Line :: !Trustworthy(cfg, line, 0)
  {
    var b := Header(13, TYPE_DATA, 0, 0);
    assert At(b, 0, b);
    HeaderFields(b, 13, TYPE_DATA, 0, 0);
    Untrustworthy(cfg, b, nothing);
  }

  lemma Untrustworthy(cfg: Config, b: seq<byte>, nothing: seq<PortRead>)
    requires cfg.Valid() && Silent(cfg, nothing)
    requires |b| == HDR_LEN && Kind(b) == TYPE_DATA && Code(b) == 0 && Length(b) == HDR_LEN + 1
    ensures !Trustworthy(cfg, Line([Got(b, false)] + nothing, [], false), 0)
  {
    var line := Line([Got(b, false)] + nothing, [], false);
    SilentIsEmpty(cfg, nothing);
    assert ([Got(b, false)] + nothing)[1..] == nothing;
    assert line.Incoming() == b;
    SuccessAnyway(cfg, b, nothing);
    TooShort(b, ReceiveData(cfg, line, 0, []));
  }

  lemma SuccessAnyway(cfg: Config, b: seq<byte>, nothing: seq<PortRead>)
    requires cfg.Valid() && Silent(cfg, nothing)
    requires |b| == HDR_LEN && Kind(b) == TYPE_DATA && Code(b) == 0 && Length(b) == HDR_LEN + 1
    ensures ReceiveData(cfg, Line([Got(b, false)] + nothing, [], false), 0, []).ret == RC_OK
  {
    FirstPacket(cfg, b, nothing, false, 0, []);
    NothingMore(cfg, Start(nothing, b, []));
    LongPhase(cfg, Line(nothing, [], false), b, []);
  }

  lemma TooShort(b: seq<byte>, out: DataOut)
    requires |b| == HDR_LEN && Kind(b) == TYPE_DATA && Length(b) == HDR_LEN + 1
    ensures !Received(b, [], out)
  {
  }

  /** The first packet of a port starts the data phase of `code`. */
  lemma FirstPacket(cfg: Config, b: seq<byte>, more: seq<PortRead>, split: bool, code: u16, data: seq<byte>)
    requires cfg.Valid() && HDR_LEN <= |b| <= CONTAINER_SIZE && Kind(b) == TYPE_DATA
    requires Code(b) == code || cfg.ignoreHeaderErrors
    ensures ReceiveData(cfg, Line([Got(b, false)] + more, [], split), code, data)
         == DataPhase(cfg, Line(more, [], split), b, data)
  {
    var script := [Got(b, false)] + more;
    assert script[1..] == more;
    assert ReadPacket(cfg, script, 0) == (Packet(b), more);
  }

  lemma NothingMore(cfg: Config, l: Loop)
    requires cfg.Valid() && l.todo == 1 && l.retry && Silent(cfg, l.script)
    ensures ReadRest(cfg, l, false).ret == RC_OK
  {
    if |l.script| == 2 {
      var next := l.(script := l.script[1..], retry := false);
      assert OneRead(cfg, l, 1, false) == Again(next);
      assert OneRead(cfg, next, 1, false).Stop?;
    }
  }

  // ---- The buffered packet over whole runs ----

  datatype Call = DataCall(code: u16) | RespCall(resp: PTPContainer, sessionId: u32, expected: u32)

  function AfterCall(cfg: Config, line: Line, call: Call): Line
    requires cfg.Valid()
  {
    match call
    case DataCall(code) => ReceiveData(cfg, line, code, []).line
    case RespCall(resp, sessionId, expected) => ReceiveResp(cfg, line, resp, sessionId, expected).line
  }

  function AfterCalls(cfg: Config, line: Line, calls: seq<Call>): Line
    requires cfg.Valid()
    decreases calls
  {
    if calls == [] then line else AfterCalls(cfg, AfterCall(cfg, line, calls[0]), calls[1..])
  }

  function Slot(line: Line): seq<seq<byte>> {
    if line.slot == [] then [] else [line.slot]
  }

  /** The packets that calls leave in the slot, in order. */
  function Buffered(cfg: Config, line: Line, calls: seq<Call>): seq<seq<byte>>
    requires cfg.Valid()
    decreases calls
  {
    if calls == [] then [] else
    var after := AfterCall(cfg, line, calls[0]);
    Slot(after) + Buffered(cfg, after, calls[1..])
  }

  /** The packets that calls take up while one is buffered, in order. */
  function Delivered(cfg: Config, line: Line, calls: seq<Call>): seq<seq<byte>>
    requires cfg.Valid()
    decreases calls
  {
    if calls == [] then [] else
    var p := GetPacket(cfg, line).0;
    (if line.slot != [] && p.Packet? then [p.bytes] else [])
    + Delivered(cfg, AfterCall(cfg, line, calls[0]), calls[1..])
  }

  lemma PhaseKeepsValid(cfg: Config, line: Line, b: seq<byte>, data: seq<byte>)
    requires cfg.Valid() && line.slot == [] && HDR_LEN <= |b| <= CONTAINER_SIZE
    ensures DataPhase(cfg, line, b, data).line.Valid()
  {
  }

  lemma DataKeepsValid(cfg: Config, line: Line, code: u16)
    requires cfg.Valid() && line.Valid()
    ensures ReceiveData(cfg, line, code, []).line.Valid()
  {
    GetPacketConserves(cfg, line);
    var (p, after) := GetPacket(cfg, line);
    if p.Packet? && |p.bytes| >= HDR_LEN {
      PhaseKeepsValid(cfg, after, p.bytes, []);
    }
  }

  lemma CallKeepsValid(cfg: Config, line: Line, call: Call)
    requires cfg.Valid() && line.Valid()
    ensures AfterCall(cfg, line, call).Valid()
  {
    match call
    case DataCall(code) => DataKeepsValid(cfg, line, code);
    case RespCall(_, _, _) => GetPacketConserves(cfg, line);
  }

  /** In every run the slot stays within 1024 bytes, and every packet put there is taken up exactly once,
      unchanged and in order: none is truncated, overwritten or lost. */
  lemma {:induction false} SlotConserved(cfg: Config, line: Line, calls: seq<Call>)
    requires cfg.Valid() && line.Valid()
    ensures AfterCalls(cfg, line, calls).Valid()
    ensures Slot(line) + Buffered(cfg, line, calls)
         == Delivered(cfg, line, calls) + Slot(AfterCalls(cfg, line, calls))
    decreases calls
  {
    if calls != [] {
      var after := AfterCall(cfg, line, calls[0]);
      CallKeepsValid(cfg, line, calls[0]);
      if line.slot != [] {
        SlotFirst(cfg, line);
      }
      SlotConserved(cfg, after, calls[1..]);
    }
  }

  // ---- Ports without faults ----

  /** Every read brings something and nobody cancels. */
  ghost predicate Clean(script: seq<PortRead>) {
    forall i | 0 <= i < |script| :: script[i].Got? && script[i].bytes != [] && !script[i].cancel
  }

  lemma CleanIsNonEmpty(script: seq<PortRead>)
    requires Clean(script) && Stream(script) == []
    ensures script == []
  {
  }

  /** The reads of a line whose last one carries the end of a container and the response behind it. */
  function Reads(before: seq<PortRead>, tail: seq<byte>, resp: seq<byte>): seq<PortRead> {
    before + [Got(tail + resp, false)]
  }

  /** A read that takes only a part of the first piece. */
  lemma ReadPart(first: seq<byte>, more: seq<PortRead>, max: nat)
    requires 0 < max < |first|
    ensures ReadPort([Got(first, false)] + more, max) == (Got(first[..max], false), [Got(first[max..], false)] + more)
  {
    assert ([Got(first, false)] + more)[1..] == more;
  }

  /** Asking for no more than the container, a read never reaches into the response. */
  lemma ReadInside(before: seq<PortRead>, tail: seq<byte>, resp: seq<byte>, max: nat)
    returns (before': seq<PortRead>, tail': seq<byte>)
    requires Clean(Reads(before, tail, resp)) && resp != []
    requires 0 < max && (before == [] ==> max <= |tail|)
    ensures var (r, rest) := ReadPort(Reads(before, tail, resp), max);
      && r.Got? && r.bytes != [] && !r.cancel
      && rest == Reads(before', tail', resp) && Clean(rest)
      && r.bytes + (Stream(before') + tail') == Stream(before) + tail
  {
    var script := Reads(before, tail, resp);
    if before == [] {
      assert script == [Got(tail + resp, false)] + [];
      ReadPart(tail + resp, [], max);
      assert (tail + resp)[max..] == tail[max..] + resp;
      assert tail == (tail + resp)[..max] + tail[max..];
      before', tail' := [], tail[max..];
    } else {
      tail' := tail;
      assert script[0] == before[0];
      var bytes, later := before[0].bytes, Reads(before[1..], tail, resp);
      assert script[1..] == later;
      assert script == [Got(bytes, false)] + later;
      if |bytes| <= max {
        before' := before[1..];
      } else {
        before' := [Got(bytes[max..], false)] + before[1..];
        ReadPart(bytes, later, max);
        StreamOfPart(bytes, before[1..], max);
        assert Reads(before', tail, resp) == [Got(bytes[max..], false)] + later;
      }
    }
  }

  lemma StreamOfPart(bytes: seq<byte>, more: seq<PortRead>, max: nat)
    requires max <= |bytes|
    ensures bytes[..max] + Stream([Got(bytes[max..], false)] + more) == bytes + Stream(more)
  {
    assert ([Got(bytes[max..], false)] + more)[1..] == more;
    assert bytes == bytes[..max] + bytes[max..];
  }

  lemma NothingBefore(before: seq<PortRead>, tail: seq<byte>, resp: seq<byte>)
    requires Clean(Reads(before, tail, resp)) && |Stream(before)| + |tail| == 0
    ensures Reads(before, tail, resp) == [Got(resp, false)]
  {
    assert forall i | 0 <= i < |before| :: before[i] == Reads(before, tail, resp)[i];
    CleanIsNonEmpty(before);
    assert tail + resp == resp;
  }

  lemma Regroup(a: seq<byte>, b: seq<byte>, c: seq<byte>, whole: seq<byte>)
    requires b + c == whole
    ensures (a + b) + c == a + whole
  {
    assert (a + b) + c == a + (b + c);
  }

  /** Without faults the read loop takes exactly the rest of the container and leaves the response, merged
      into the last read or not, as a packet of its own. */
  lemma {:induction false} RestCompletes(cfg: Config, l: Loop, before: seq<PortRead>, tail: seq<byte>, resp: seq<byte>)
    requires cfg.Valid() && l.script == Reads(before, tail, resp) && Clean(l.script) && resp != []
    requires l.todo == |Stream(before)| + |tail|
    ensures ReadRest(cfg, l, false) == Rest(RC_OK, l.data + (Stream(before) + tail), [Got(resp, false)])
    decreases Size(l.script)
  {
    if l.todo == 0 {
      NothingBefore(before, tail, resp);
      assert l.data + (Stream(before) + tail) == l.data;
    } else {
      var max := ChunkSize(cfg, l.todo, false);
      var before', tail' := ReadInside(before, tail, resp, max);
      var piece := ReadPort(l.script, max).0.bytes;
      var next := OneRead(cfg, l, max, false).next;
      assert next.script == Reads(before', tail', resp) && next.data == l.data + piece;
      RestCompletes(cfg, next, before', tail', resp);
      Regroup(l.data, piece, Stream(before') + tail', Stream(before) + tail);
    }
  }

  lemma CleanRead(script: seq<PortRead>, max: nat)
    requires Clean(script) && script != [] && max > 0
    ensures var (r, rest) := ReadPort(script, max); r.Got? && r.bytes != [] && Clean(rest)
  {
  }

  /** A read takes from the reads in front and never from what follows them. */
  lemma ReadFront(before: seq<PortRead>, after: seq<PortRead>, max: nat) returns (before': seq<PortRead>)
    requires Clean(before) && before != [] && max > 0
    ensures var (r, rest) := ReadPort(before + after, max);
      && r.Got? && r.bytes != [] && !r.cancel && |r.bytes| <= |before[0].bytes|
      && rest == before' + after && Clean(before') && r.bytes + Stream(before') == Stream(before)
      && r.bytes == before[0].bytes[..Min(|before[0].bytes|, max)]
  {
    var bytes, later := before[0].bytes, before[1..];
    assert (before + after)[1..] == later + after;
    assert before + after == [Got(bytes, false)] + (later + after);
    if |bytes| <= max {
      before' := later;
      assert bytes[..|bytes|] == bytes;
    } else {
      before' := [Got(bytes[max..], false)] + later;
      ReadPart(bytes, later + after, max);
      StreamOfPart(bytes, later, max);
      assert before' + after == [Got(bytes[max..], false)] + (later + after);
    }
  }

  /** Reads without faults that bring exactly what is missing complete the payload, and what follows them is left
      alone, whatever it is. */
  lemma {:induction false} RestCompletesTo(cfg: Config, l: Loop, before: seq<PortRead>, after: seq<PortRead>)
    requires cfg.Valid() && l.script == before + after && Clean(before) && l.todo == |Stream(before)|
    ensures ReadRest(cfg, l, false) == Rest(RC_OK, l.data + Stream(before), after)
    decreases Size(l.script)
  {
    if l.todo == 0 {
      CleanIsNonEmpty(before);
      assert before + after == after && l.data + Stream(before) == l.data;
    } else {
      var max := ChunkSize(cfg, l.todo, false);
      var before' := ReadFront(before, after, max);
      var piece := ReadPort(l.script, max).0.bytes;
      var next := OneRead(cfg, l, max, false).next;
      assert next.script == before' + after && next.data == l.data + piece;
      RestCompletesTo(cfg, next, before', after);
      Regroup(l.data, piece, Stream(before'), Stream(before));
    }
  }

  /** One failed read in front of the rest does no harm: the loop goes on as if it had not been there. Once any
      bytes came a failed read is final. */
  lemma RestRetriesOnce(cfg: Config, l: Loop, untilShort: bool, more: seq<PortRead>)
    requires cfg.Valid() && l.todo > 0 && l.script == [Failed(IoRead)] + more
    ensures ReadRest(cfg, l, untilShort)
         == if l.retry then ReadRest(cfg, l.(script := more, retry := false), untilShort)
            else Rest(cfg.translate(Error(IoRead)), l.data, more)
    ensures l.retry && !untilShort && Clean(more) && l.todo == |Stream(more)| ==>
              ReadRest(cfg, l, untilShort) == Rest(RC_OK, l.data + Stream(more), [])
  {
    assert l.script[1..] == more;
    assert more + [] == more;
    if l.retry && !untilShort && Clean(more) && l.todo == |Stream(more)| {
      RestCompletesTo(cfg, l.(script := more, retry := false), more, []);
    }
  }

  // ---- Cancellation by the user ----

  /** The same reads, with nobody cancelling. */
  function Uncancelled(script: seq<PortRead>): (r: seq<PortRead>)
    ensures |r| == |script|
  {
    if script == [] then []
    else
      [match script[0] case Got(bytes, _) => Got(bytes, false) case Failed(e) => Failed(e)]
      + Uncancelled(script[1..])
  }

  lemma UncancelledRead(script: seq<PortRead>, max: nat)
    requires max > 0
    ensures var (r, rest) := ReadPort(script, max);
      ReadPort(Uncancelled(script), max)
      == (match r case Got(bytes, _) => Got(bytes, false) case Failed(e) => Failed(e), Uncancelled(rest))
  {
    if script != [] && script[0].Got? && |script[0].bytes| > max {
      var bytes, rest := script[0].bytes, ReadPort(script, max).1;
      assert rest[1..] == script[1..];
      assert Uncancelled(script) == [Got(bytes, false)] + Uncancelled(script[1..]);
      ReadPart(bytes, Uncancelled(script[1..]), max);
    }
  }

  lemma UncancelledTurn(cfg: Config, l: Loop, max: nat)
    requires 0 < max <= l.todo && l.total + l.todo < CANCEL_FROM
    ensures OneRead(cfg, l.(script := Uncancelled(l.script)), max, false)
         == match OneRead(cfg, l, max, false)
            case Stop(out) => Stop(out.(script := Uncancelled(out.script)))
            case Again(next) => Again(next.(script := Uncancelled(next.script)))
    ensures OneRead(cfg, l, max, false).Again? ==>
              var next := OneRead(cfg, l, max, false).next; next.total + next.todo < CANCEL_FROM
  {
    UncancelledRead(l.script, max);
  }

  /** As long as the payload stays below 1 MiB nobody is asked: the wish to cancel changes nothing. */
  lemma {:induction false} EarlyCancelIgnored(cfg: Config, l: Loop)
    requires cfg.Valid() && l.total + l.todo < 0x10_0000
    ensures var out, calm := ReadRest(cfg, l, false), ReadRest(cfg, l.(script := Uncancelled(l.script)), false);
      calm.ret == out.ret && calm.data == out.data && calm.script == Uncancelled(out.script)
    decreases Size(l.script)
  {
    if l.todo > 0 {
      var max := ChunkSize(cfg, l.todo, false);
      UncancelledTurn(cfg, l, max);
      match OneRead(cfg, l, max, false)
      case Stop(_) =>
      case Again(next) => EarlyCancelIgnored(cfg, next);
    }
  }

  /** From 1 MiB on the wish to cancel is honoured at once: the loop ends as cancelled, with all bytes that
      came. */
  lemma LateCancelStops(cfg: Config, l: Loop, untilShort: bool)
    requires cfg.Valid() && l.todo > 0
    requires var r := ReadPort(l.script, ChunkSize(cfg, l.todo, untilShort)).0;
      r.Got? && r.bytes != [] && r.cancel && 0x10_0000 <= l.total + |r.bytes| < TWO_32
    ensures var (r, rest) := ReadPort(l.script, ChunkSize(cfg, l.todo, untilShort));
      ReadRest(cfg, l, untilShort) == Rest(0x02FB, l.data + r.bytes, rest)
  {
  }

  // ---- What else a data phase may meet ----

  /** A first packet without a header, of another kind, or that is a response with the wrong length fails the
      data phase and hands over nothing. */
  lemma RefusedPacket(cfg: Config, line: Line, code: u16, data: seq<byte>)
    requires cfg.Valid() && GetPacket(cfg, line).0.Packet?
    requires var b := GetPacket(cfg, line).0.bytes;
      || |b| < HDR_LEN || (Kind(b) != TYPE_DATA && Kind(b) != TYPE_RESPONSE)
      || (Kind(b) == TYPE_RESPONSE && Length(b) != |b|)
      || (Kind(b) == TYPE_DATA && Length(b) < HDR_LEN)
    ensures var out := ReceiveData(cfg, line, code, data); out.ret == 0x02FF && out.data == data
  {
  }

  /** A data phase ends in success, as cancelled, or with an I/O error, and without a first packet it leaves the
      data alone. */
  lemma DataPhaseCodes(cfg: Config, line: Line, code: u16, data: seq<byte>)
    requires cfg.Valid()
    ensures var out, p := ReceiveData(cfg, line, code, data), GetPacket(cfg, line).0;
      && (out.ret == 0x2001 || out.ret == 0x02FB || out.ret == 0x02FF)
      && (p.NoPacket? ==> out.data == data && (out.ret == 0x02FB <==> p.ret == 0x02FB) && out.ret != 0x2001)
  {
  }

  /** The connection learns that the device sends headers alone from exactly those data phases whose first packet
      was a bare header with a payload to come. */
  lemma SplitLearnt(cfg: Config, line: Line, code: u16, data: seq<byte>)
    requires cfg.Valid()
    ensures ReceiveData(cfg, line, code, data).line.split
       <==> || line.split
            || var p := GetPacket(cfg, line).0;
               && p.Packet? && |p.bytes| == HDR_LEN < Length(p.bytes) && Kind(p.bytes) == TYPE_DATA
               && (Code(p.bytes) == code || cfg.ignoreHeaderErrors)
  {
  }

  // ---- Containers of unknown length ----

  /** Full packets, then a short one. */
  function FullThenShort(full: seq<seq<byte>>, short: seq<byte>): seq<PortRead> {
    if full == [] then [Got(short, false)] else [Got(full[0], false)] + FullThenShort(full[1..], short)
  }

  /** When the length is unknown the payload ends with the first packet shorter than 512 bytes; what follows
      it is left alone. */
  lemma {:induction false} UntilShortPacket(cfg: Config, l: Loop, full: seq<seq<byte>>, short: seq<byte>,
                                            rest: seq<PortRead>)
    requires cfg.Valid() && l.todo > 0 && l.script == FullThenShort(full, short) + rest
    requires forall i | 0 <= i < |full| :: |full[i]| == SHORT_PACKET_LEN
    requires 0 < |short| < SHORT_PACKET_LEN
    ensures ReadRest(cfg, l, true) == Rest(RC_OK, l.data + Flatten(full) + short, rest)
    decreases full
  {
    if full == [] {
      assert l.script[1..] == rest;
      assert OneRead(cfg, l, SHORT_PACKET_LEN, true).Again?;
      assert l.data + Flatten(full) == l.data;
    } else {
      var later := FullThenShort(full[1..], short) + rest;
      assert l.script == [Got(full[0], false)] + later;
      assert l.script[1..] == later;
      var next := OneRead(cfg, l, SHORT_PACKET_LEN, true).next;
      assert next.script == later && next.todo == l.todo;
      UntilShortPacket(cfg, next, full[1..], short, rest);
      assert (l.data + full[0]) + Flatten(full[1..]) == l.data + Flatten(full);
    }
  }

  /** A data phase of unknown length, its first packet `b` included, delivers everything up to and with the
      first short packet behind it. */
  lemma UnknownLengthArrives(cfg: Config, line: Line, b: seq<byte>, full: seq<seq<byte>>, short: seq<byte>,
                             rest: seq<PortRead>, code: u16, data: seq<byte>)
    requires cfg.Valid() && line.slot == []
    requires line.script == [Got(b, false)] + (FullThenShort(full, short) + rest)
    requires HDR_LEN <= |b| <= CONTAINER_SIZE && Kind(b) == TYPE_DATA && Length(b) == UNTIL_SHORT
    requires Code(b) == code || cfg.ignoreHeaderErrors
    requires forall i | 0 <= i < |full| :: |full[i]| == SHORT_PACKET_LEN
    requires 0 < |short| < SHORT_PACKET_LEN
    ensures var out := ReceiveData(cfg, line, code, data);
      && out.ret == RC_OK && out.data == data + (b[HDR_LEN..] + Flatten(full) + short)
      && out.line.script == rest && out.line.slot == []
  {
    var more := FullThenShort(full, short) + rest;
    var after := Line(more, [], line.split);
    assert line == Line([Got(b, false)] + more, [], line.split);
    FirstPacket(cfg, b, more, line.split, code, data);
    LongPhase(cfg, after, b, data);
    UntilShortPacket(cfg, Start(more, b, data), full, short, rest);
    assert data + b[HDR_LEN..] + Flatten(full) + short == data + (b[HDR_LEN..] + Flatten(full) + short);
  }

  // ---- Late containers of another command ----

  /** Draining a port without faults takes exactly the bytes it was asked to take. */
  lemma {:induction false} DrainConsumes(cfg: Config, script: seq<PortRead>, todo: nat)
    requires cfg.Valid() && Clean(script) && todo <= |Stream(script)|
    ensures Stream(Drain(cfg, script, todo)) == Stream(script)[todo..]
    ensures Clean(Drain(cfg, script, todo))
    decreases todo
  {
    if todo > 0 {
      var max := ChunkSize(cfg, todo, false);
      var (r, rest) := ReadPort(script, max);
      ReadPortConserves(script, max);
      CleanRead(script, max);
      DrainConsumes(cfg, rest, todo - |r.bytes|);
      assert Stream(script)[todo..] == Stream(rest)[todo - |r.bytes|..];
    }
  }

  /** On every port draining takes bytes from the front only, and never more than asked for. */
  lemma {:induction false} DrainTakesFront(cfg: Config, script: seq<PortRead>, todo: nat) returns (taken: seq<byte>)
    requires cfg.Valid()
    ensures Stream(script) == taken + Stream(Drain(cfg, script, todo)) && |taken| <= todo
    decreases todo
  {
    taken := [];
    if todo > 0 {
      var (r, rest) := ReadPort(script, ChunkSize(cfg, todo, false));
      ReadPortConserves(script, ChunkSize(cfg, todo, false));
      if r.Got? && r.bytes != [] {
        var more := DrainTakesFront(cfg, rest, todo - |r.bytes|);
        taken := r.bytes + more;
        Prepend(r.bytes, more, Stream(Drain(cfg, script, todo)), Stream(rest), Stream(script));
      }
    }
  }

  lemma Prepend(piece: seq<byte>, more: seq<byte>, after: seq<byte>, mid: seq<byte>, whole: seq<byte>)
    requires whole == piece + mid && mid == more + after
    ensures whole == (piece + more) + after
  {
  }

  /** It stops at the first read that brings nothing. */
  lemma DrainStops(cfg: Config, script: seq<PortRead>, todo: nat)
    requires cfg.Valid() && todo > 0 && script != [] && (script[0].Failed? || script[0].bytes == [])
    ensures Drain(cfg, script, todo) == script[1..]
  {
  }

  /** Without faults there is a packet whenever anything is still incoming. */
  lemma CleanPacket(cfg: Config, line: Line)
    requires line.Valid() && Clean(line.script) && line.Incoming() != []
    ensures var (p, after) := GetPacket(cfg, line); p.Packet? && Clean(after.script)
  {
    if line.slot == [] {
      CleanRead(line.script, CONTAINER_SIZE);
    }
  }

  /** The first packet is data, but of another command. */
  predicate LatePacket(cfg: Config, p: PacketResult, code: u16) {
    && p.Packet? && |p.bytes| >= HDR_LEN && Kind(p.bytes) == TYPE_DATA
    && Code(p.bytes) != code && !cfg.ignoreHeaderErrors
  }

  /** A late container fails the data phase and is drained; on a port without faults the next packet is the
      first byte behind it if and only if the container's first packet held nothing else. What stood behind the
      container in its own packet is lost, although behind the expected container it would be buffered. */
  lemma LateContainerDrained(cfg: Config, line: Line, code: u16, data: seq<byte>)
    requires cfg.Valid() && line.Valid() && Clean(line.script)
    requires LatePacket(cfg, GetPacket(cfg, line).0, code)
    requires Length(GetPacket(cfg, line).0.bytes) <= |line.Incoming()|
    ensures var s, b, out := line.Incoming(), GetPacket(cfg, line).0.bytes, ReceiveData(cfg, line, code, data);
      && out.ret == ERROR_IO && out.data == data && Clean(out.line.script)
      && out.line.Incoming() == (if |b| <= Length(b) then s[Length(b)..] else s[|b|..])
      && (out.line.Incoming() == s[Length(b)..] <==> |b| <= Length(b))
  {
    GetPacketConserves(cfg, line);
    CleanPacket(cfg, line);
    LateUnfolds(cfg, line, code, data);
    var (p, after) := GetPacket(cfg, line);
    var s, b := line.Incoming(), p.bytes;
    BehindPacket(s, b, Stream(after.script), after.Incoming());
    if |b| < Length(b) {
      DrainConsumes(cfg, after.script, Length(b) - |b|);
      BehindContainer(s, b, Stream(after.script), Length(b));
      assert [] + s[Length(b)..] == s[Length(b)..];
    }
  }

  lemma LateUnfolds(cfg: Config, line: Line, code: u16, data: seq<byte>)
    requires cfg.Valid() && LatePacket(cfg, GetPacket(cfg, line).0, code)
    ensures var (p, after) := GetPacket(cfg, line);
            var length: int := Length(p.bytes);
      ReceiveData(cfg, line, code, data)
      == DataOut(ERROR_IO, data, if |p.bytes| >= length then after
                                 else after.(script := Drain(cfg, after.script, length - |p.bytes|)))
  {
  }

  lemma BehindPacket(s: seq<byte>, b: seq<byte>, stream: seq<byte>, incoming: seq<byte>)
    requires s == b + incoming && incoming == [] + stream
    ensures incoming == stream == s[|b|..]
  {
  }

  lemma BehindContainer(s: seq<byte>, b: seq<byte>, more: seq<byte>, length: nat)
    requires s == b + more && |b| <= length <= |s|
    ensures more[length - |b|..] == s[length..]
  {
  }
}
