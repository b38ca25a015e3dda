/** The sending half of usb.c: requests, data phases, and the zero-length packet that ends a transfer. */
module UsbSend {
  import opened Arith
  import opened Bytes
  import opened Container
  import opened UsbPort
  import R = UsbReceive

  /** The write side of the port: what coming writes accept, and the transfers made so far. */
  datatype Outgoing = Outgoing(script: seq<PortWrite>, sent: seq<seq<byte>>)

  /** The memory handler as a source of bytes. */
  datatype Source = Source(data: seq<byte>, curoff: nat) {
    predicate Valid() {
      curoff <= |data|
    }
  }

  const PAYLOAD_LEN_WRITE := 1012
  const SEND_BLOCK := 4096

  function Write(o: Outgoing, data: seq<byte>): (r: (GpResult, Outgoing))
    ensures r.0.Count? ==> r.0.n <= |data|
    ensures r.0.Count? ==> |r.1.script| < |o.script|
  {
    var (r, rest) := WritePort(o.script, data);
    match r
    case Count(n) => (r, Outgoing(rest, o.sent + [data[..n]]))
    case Error(_) => (r, Outgoing(rest, o.sent))
  }

  /** memory_getfunc: at most `want` bytes, fewer at the end of the data. */
  function Take(src: Source, want: nat): (r: (seq<byte>, Source))
    requires src.Valid()
    ensures r.1.Valid() && |r.0| <= want
  {
    var n := if src.curoff + want > |src.data| then |src.data| - src.curoff else want;
    (src.data[src.curoff..src.curoff + n], src.(curoff := src.curoff + n))
  }

  // ---- ptp_usb_sendreq ----

  function SendReq(cfg: Config, o: Outgoing, req: seq<byte>, retry: bool): (u16, Outgoing)
    decreases retry
  {
    var (r, rest) := Write(o, req);
    if r == Count(|req|) then (RC_OK, rest)
    else if r == Error(IoWrite) && retry then SendReq(cfg, rest, req, false)
    else (cfg.translate(r), rest)
  }

  /** What a request that returned OK left on the wire: the whole request, once. */
  ghost predicate SentOnce(cfg: Config, o: Outgoing, req: seq<byte>, retry: bool) {
    var (ret, after) := SendReq(cfg, o, req, retry);
    ret == RC_OK ==> after.sent == o.sent + [req]
  }

  lemma {:induction false} RequestSentOnce(cfg: Config, o: Outgoing, req: seq<byte>, retry: bool)
    requires cfg.StrictBelow(|req|)
    ensures SentOnce(cfg, o, req, retry)
    decreases retry
  {
    var (r, rest) := Write(o, req);
    assert req[..|req|] == req;
    if r == Error(IoWrite) && retry {
      RequestSentOnce(cfg, rest, req, false);
    }
  }

  /** OK means that the request went out whole and once, on every port, if and only if neither an error nor a
      shorter count is ever translated to success. */
  lemma RequestSentOnceExactly(cfg: Config, req: seq<byte>)
    ensures cfg.StrictBelow(|req|) <==> forall o: Outgoing :: SentOnce(cfg, o, req, true)
  {
    if cfg.StrictBelow(|req|) {
      forall o: Outgoing ensures SentOnce(cfg, o, req, true) {
        RequestSentOnce(cfg, o, req, true);
      }
    } else if e: GpError :| cfg.translate(Error(e)) == RC_OK {
      var o := Outgoing([Refuse(e), Refuse(e)], []);
      assert o.script[1..] == [Refuse(e)];
      assert SendReq(cfg, o, req, true).0 == RC_OK && SendReq(cfg, o, req, true).1.sent == [];
      assert !SentOnce(cfg, o, req, true);
    } else {
      var n: nat :| n < |req| && cfg.translate(Count(n)) == RC_OK;
      var o := Outgoing([Short(n)], []);
      assert SendReq(cfg, o, req, true).1.sent == [] + [req[..n]];
      assert SendReq(cfg, o, req, true).0 == RC_OK;
      assert ([] + [req[..n]])[0] == req[..n] && ([] + [req])[0] == req && |req[..n]| == n;
      assert !SentOnce(cfg, o, req, true);
    }
  }

  /** The request is tried once more after a write error, and after nothing else. */
  lemma RequestRetriesExactly(cfg: Config, o: Outgoing, req: seq<byte>)
    requires cfg.StrictBelow(|req|)
    ensures var (ret, after) := SendReq(cfg, o, req, true);
      && (ret == RC_OK <==> || TakesWhole(o.script, |req|)
                            || (|o.script| > 0 && o.script[0] == Refuse(IoWrite) && TakesWhole(o.script[1..], |req|)))
      && (o.script != [] && o.script[0].Refuse? && o.script[0].e != IoWrite ==>
           ret == cfg.translate(Error(o.script[0].e)) && after == Outgoing(o.script[1..], o.sent))
      && (|o.script| > 1 && o.script[0] == o.script[1] == Refuse(IoWrite) ==>
           ret == cfg.translate(Error(IoWrite)) && after == Outgoing(o.script[2..], o.sent))
      && (o.script != [] && o.script[0].Short? && o.script[0].n < |req| ==>
           ret == cfg.translate(Count(o.script[0].n)) && after.script == o.script[1..])
  {
    if |o.script| > 1 && o.script[0] == Refuse(IoWrite) {
      assert o.script[1..][0] == o.script[1] && o.script[1..][1..] == o.script[2..];
    }
  }

  // ---- ptp_usb_senddata ----

  /** The variables of the block loop: `left` bytes to go, `written` bytes by this loop. */
  datatype Block = Block(o: Outgoing, src: Source, left: nat, written: nat)

  function SendBlocks(cfg: Config, b: Block): (r: (u16, Block))
    requires b.src.Valid()
    ensures r.1.src.Valid()
    decreases |b.o.script|
  {
    if b.left == 0 then (RC_OK, b) else
    var (bytes, src) := Take(b.src, Min(SEND_BLOCK, b.left));
    var (r, o) := Write(b.o, bytes);
    match r
    case Error(_) => (cfg.translate(r), b.(o := o, src := src))
    case Count(n) => SendBlocks(cfg, Block(o, src, b.left - n, b.written + n))
  }

  datatype SendOut = SendOut(ret: u16, o: Outgoing, src: Source)

  function DataHeader(size: nat, code: u16, id: u32): seq<byte> {
    Header((HDR_LEN + size) % TWO_32, TYPE_DATA, code, id)
  }

  /** Header and data are together the data container, as long as its length fits. */
  lemma HeaderOfContainer(code: u16, id: u32, data: seq<byte>)
    requires HDR_LEN + |data| < TWO_32
    ensures DataHeader(|data|, code, id) + data == DataContainer(code, id, data)
  {
    FitsInWord(HDR_LEN + |data|, (HDR_LEN + |data|) % TWO_32);
  }

  /** Ends a data phase that wrote `written` bytes as the source counts them. */
  function Finish(cfg: Config, ret: u16, o: Outgoing, src: Source, written: nat): SendOut
    requires cfg.Valid()
  {
    var ended := if ret == RC_OK && written % cfg.maxpacketsize == 0 then Write(o, []).1 else o;
    SendOut(R.Exit(ret), ended, src)
  }

  function SendData(cfg: Config, o: Outgoing, src: Source, size: nat, code: u16, id: u32, split: bool): SendOut
    requires cfg.Valid() && src.Valid()
  {
    var datawlen := if split then 0 else Min(size, PAYLOAD_LEN_WRITE);
    var (first, src1) := if split then ([], src) else Take(src, datawlen);
    if |first| != datawlen then SendOut(RC_GENERAL_ERROR, o, src1) else
    var packet := DataHeader(size, code, id) + first;
    var (r, o1) := Write(o, packet);
    if r != Count(|packet|) then SendOut(cfg.translate(r), o1, src1)
    else if size <= datawlen then Finish(cfg, RC_OK, o1, src1, |packet|)
    else
      var (ret, last) := SendBlocks(cfg, Block(o1, src1, size - datawlen, 0));
      Finish(cfg, ret, last.o, last.src, last.written)
  }

  // ---- What is on the wire ----

  ghost predicate AllAccept(script: seq<PortWrite>) {
    forall i | 0 <= i < |script| :: script[i] == Accept
  }

  /** A port that takes a write whole or refuses it. */
  ghost predicate AllOrFail(script: seq<PortWrite>) {
    forall i | 0 <= i < |script| :: !script[i].Short?
  }

  predicate NonEmpty(transfers: seq<seq<byte>>) {
    forall i | 0 <= i < |transfers| :: transfers[i] != []
  }

  /** The transfers `ts`, none of them empty, were made and carry exactly `bytes`. */
  ghost predicate Carried(before: Outgoing, after: Outgoing, ts: seq<seq<byte>>, bytes: seq<byte>) {
    after.sent == before.sent + ts && NonEmpty(ts) && Flatten(ts) == bytes
  }

  lemma TakeAll(src: Source, want: nat)
    requires src.Valid() && src.curoff + want <= |src.data|
    ensures Take(src, want) == (src.data[src.curoff..src.curoff + want], src.(curoff := src.curoff + want))
  {
  }

  lemma CarriedFirst(before: Outgoing, mid: Outgoing, after: Outgoing, piece: seq<byte>,
                     ts: seq<seq<byte>>, bytes: seq<byte>)
    requires mid.sent == before.sent + [piece] && piece != [] && Carried(mid, after, ts, bytes)
    ensures Carried(before, after, [piece] + ts, piece + bytes)
  {
    assert ([piece] + ts)[1..] == ts;
  }

  /** The next write of `n` bytes is taken whole. */
  predicate TakesWhole(script: seq<PortWrite>, n: nat) {
    script != [] && match script[0]
      case Accept => true
      case Short(k) => k >= n
      case Refuse(_) => false
  }

  /** The variables after one block of `n` bytes was taken. */
  function Accepted(b: Block, n: nat): (next: Block)
    requires b.src.Valid() && b.src.curoff + n <= |b.src.data| && n <= b.left && b.o.script != []
    ensures next.src.Valid()
  {
    var bytes := b.src.data[b.src.curoff..b.src.curoff + n];
    Block(Outgoing(b.o.script[1..], b.o.sent + [bytes]), b.src.(curoff := b.src.curoff + n),
          b.left - n, b.written + n)
  }

  lemma BlockStep(cfg: Config, b: Block, n: nat)
    requires b.src.Valid() && b.src.curoff + b.left <= |b.src.data|
    requires b.left > 0 && n == Min(SEND_BLOCK, b.left) && TakesWhole(b.o.script, n)
    ensures SendBlocks(cfg, b) == SendBlocks(cfg, Accepted(b, n))
  {
    var bytes := Take(b.src, n).0;
    assert bytes[..|bytes|] == bytes;
  }

  lemma CarriedBlock(b: Block, n: nat, after: Outgoing, rest: seq<seq<byte>>)
    requires b.src.Valid() && b.src.curoff + b.left <= |b.src.data|
    requires 0 < n <= b.left && b.o.script != []
    requires Carried(Accepted(b, n).o, after, rest, b.src.data[b.src.curoff + n..b.src.curoff + b.left])
    ensures Carried(b.o, after, [b.src.data[b.src.curoff..b.src.curoff + n]] + rest,
                    b.src.data[b.src.curoff..b.src.curoff + b.left])
  {
    var from := b.src.curoff;
    var bytes, more := b.src.data[from..from + n], b.src.data[from + n..from + b.left];
    CarriedFirst(b.o, Accepted(b, n).o, after, bytes, rest, more);
    assert bytes + more == b.src.data[from..from + b.left];
  }

  /** With more to go than the source still has, the loop never returns OK: a source at its end yields empty
      writes, until the port fails. */
  lemma {:induction false} OverrunFails(cfg: Config, b: Block)
    requires cfg.Strict() && b.src.Valid() && b.src.curoff + b.left > |b.src.data|
    ensures SendBlocks(cfg, b).0 != RC_OK
    decreases |b.o.script|
  {
    var (bytes, src) := Take(b.src, Min(SEND_BLOCK, b.left));
    var (r, o) := Write(b.o, bytes);
    if r.Count? {
      OverrunFails(cfg, Block(o, src, b.left - r.n, b.written + r.n));
    }
  }

  /** The source holds exactly what is to go, or the port takes a write whole or refuses it. */
  ghost predicate Steady(b: Block) {
    AllOrFail(b.o.script) || b.src.curoff + b.left == |b.src.data|
  }

  /** OK from a block loop that goes on means that the next block was taken whole: what a short write leaves
      behind is more than the source has. */
  lemma FirstBlockWhole(cfg: Config, b: Block)
    requires cfg.Strict() && b.src.Valid() && b.src.curoff + b.left <= |b.src.data| && Steady(b)
    requires b.left > 0 && SendBlocks(cfg, b).0 == RC_OK
    ensures TakesWhole(b.o.script, Min(SEND_BLOCK, b.left))
  {
    var n := Min(SEND_BLOCK, b.left);
    var (bytes, src) := Take(b.src, n);
    var (r, o) := Write(b.o, bytes);
    if r.Count? && r.n < n {
      OverrunFails(cfg, Block(o, src, b.left - r.n, b.written + r.n));
    }
  }

  /** When the block loop returns OK, on a port that takes writes whole or refuses them or with a source that
      holds nothing but the data, then the rest of the data went out whole, the source moved by exactly that
      much, and `written` counts it. */
  lemma {:induction false} BlocksCarry(cfg: Config, b: Block) returns (ts: seq<seq<byte>>)
    requires cfg.Strict() && b.src.Valid() && b.src.curoff + b.left <= |b.src.data| && Steady(b)
    requires SendBlocks(cfg, b).0 == RC_OK
    ensures var last := SendBlocks(cfg, b).1;
      && Carried(b.o, last.o, ts, b.src.data[b.src.curoff..b.src.curoff + b.left])
      && last.written == b.written + b.left && last.src.curoff == b.src.curoff + b.left
      && forall i | 0 <= i < |ts| :: |ts[i]| == Min(4096, b.left - 4096 * i)
    decreases |b.o.script|
  {
    ts := [];
    if b.left == 0 {
      assert b.o.sent + ts == b.o.sent;
    } else {
      var n := Min(SEND_BLOCK, b.left);
      FirstBlockWhole(cfg, b);
      BlockStep(cfg, b, n);
      var rest := BlocksCarry(cfg, Accepted(b, n));
      CarriedBlock(b, n, SendBlocks(cfg, Accepted(b, n)).1.o, rest);
      ts := [b.src.data[b.src.curoff..b.src.curoff + n]] + rest;
      assert forall i | 0 < i < |ts| :: ts[i] == rest[i - 1];
    }
  }

  /** When every write is accepted and there are enough of them the block loop succeeds. */
  lemma {:induction false} BlocksSucceed(cfg: Config, b: Block)
    requires b.src.Valid() && b.src.curoff + b.left <= |b.src.data|
    requires AllAccept(b.o.script) && b.left <= SEND_BLOCK * |b.o.script|
    ensures var (ret, last) := SendBlocks(cfg, b);
      && ret == RC_OK && AllAccept(last.o.script) && last.src.curoff == b.src.curoff + b.left
      && (b.left + SEND_BLOCK <= SEND_BLOCK * |b.o.script| ==> last.o.script != [])
    decreases |b.o.script|
  {
    if b.left > 0 {
      var n := Min(SEND_BLOCK, b.left);
      BlockStep(cfg, b, n);
      BlocksSucceed(cfg, Accepted(b, n));
    }
  }

  /** When the loop returns OK the source has moved by exactly what was to go: nothing was skipped. */
  ghost predicate SkipsNothing(cfg: Config, o: Outgoing, src: Source, left: nat)
    requires src.Valid()
  {
    var (ret, last) := SendBlocks(cfg, Block(o, src, left, 0));
    ret == RC_OK ==> last.src.curoff == src.curoff + left
  }

  /** Exactly when no port makes the loop skip bytes: the bytes that a short write does not take are skipped,
      and this goes unnoticed if and only if the source holds more than is to go. */
  lemma SkipsNothingExactly(cfg: Config, src: Source, left: nat)
    requires cfg.Strict() && src.Valid()
    ensures (forall o: Outgoing :: SkipsNothing(cfg, o, src, left))
       <==> left == 0 || src.curoff + left >= |src.data|
  {
    if left == 0 || src.curoff + left >= |src.data| {
      forall o: Outgoing ensures SkipsNothing(cfg, o, src, left) {
        var b := Block(o, src, left, 0);
        if src.curoff + left > |src.data| {
          OverrunFails(cfg, b);
        } else if SendBlocks(cfg, b).0 == RC_OK && left > 0 {
          var ts := BlocksCarry(cfg, b);
        }
      }
    } else {
      var o := ShortFirst(left);
      ShortWriteSkips(cfg, src, left);
      assert !SkipsNothing(cfg, o, src, left);
    }
  }

  /** A port that takes one byte less than the first block, and then everything. */
  function ShortFirst(left: nat): Outgoing
    requires left > 0
  {
    Outgoing([Short(Min(SEND_BLOCK, left) - 1)] + seq(left, _ => Accept), [])
  }

  lemma ShortWriteSkips(cfg: Config, src: Source, left: nat)
    requires src.Valid() && 0 < left && src.curoff + left < |src.data|
    ensures var (ret, last) := SendBlocks(cfg, Block(ShortFirst(left), src, left, 0));
      ret == RC_OK && last.src.curoff == src.curoff + left + 1
  {
    var n, o := Min(SEND_BLOCK, left), ShortFirst(left);
    var (bytes, moved) := Take(src, n);
    var next := Block(Outgoing(seq(left, _ => Accept), [bytes[..n - 1]]), moved, left - n + 1, n - 1);
    assert o.script[1..] == seq(left, _ => Accept);
    assert [] + [bytes[..n - 1]] == [bytes[..n - 1]];
    assert SendBlocks(cfg, Block(o, src, left, 0)) == SendBlocks(cfg, next);
    BlocksSucceed(cfg, next);
  }

  /** The count that decides about the zero-length packet: the header counts only when nothing follows the
      first transfer, and on the long path the first transfer is not counted. */
  function Written(size: nat, split: bool): nat {
    if split then (if size == 0 then HDR_LEN else size)
    else if size <= PAYLOAD_LEN_WRITE then HDR_LEN + size
    else size - PAYLOAD_LEN_WRITE
  }

  lemma FirstAccepted(o: Outgoing, packet: seq<byte>)
    requires TakesWhole(o.script, |packet|)
    ensures Write(o, packet) == (Count(|packet|), Outgoing(o.script[1..], o.sent + [packet]))
  {
    assert packet[..|packet|] == packet;
  }

  /** The first transfer: the header and what goes with it. */
  function FirstTransfer(src: Source, size: nat, code: u16, id: u32, split: bool): seq<byte>
    requires src.Valid() && src.curoff + size <= |src.data|
  {
    DataHeader(size, code, id) + src.data[src.curoff..src.curoff + FirstLength(size, split)]
  }

  function FirstLength(size: nat, split: bool): (n: nat)
    ensures n <= size
  {
    if split then 0 else Min(size, PAYLOAD_LEN_WRITE)
  }

  /** The state in which the block loop starts. */
  function AfterFirst(o: Outgoing, src: Source, size: nat, code: u16, id: u32, split: bool): (b: Block)
    requires src.Valid() && src.curoff + size <= |src.data| && o.script != []
    ensures b.src.Valid() && b.src.curoff + b.left <= |b.src.data|
  {
    var n := FirstLength(size, split);
    Block(Outgoing(o.script[1..], o.sent + [FirstTransfer(src, size, code, id, split)]),
          src.(curoff := src.curoff + n), size - n, 0)
  }

  /** The port's write side before the final check. */
  function BeforeEnd(cfg: Config, o: Outgoing, src: Source, size: nat, code: u16, id: u32, split: bool): Outgoing
    requires src.Valid() && src.curoff + size <= |src.data| && o.script != []
  {
    SendBlocks(cfg, AfterFirst(o, src, size, code, id, split)).1.o
  }

  function EndedBy(cfg: Config, o: Outgoing, written: nat): Outgoing
    requires cfg.Valid()
  {
    if written % cfg.maxpacketsize == 0 then Write(o, []).1 else o
  }

  /** A data phase on a full source is its first transfer, the block loop, and the final check. */
  lemma SendDataUnfolds(cfg: Config, o: Outgoing, src: Source, size: nat, code: u16, id: u32, split: bool)
    requires cfg.Valid() && src.Valid() && src.curoff + size <= |src.data|
    requires TakesWhole(o.script, HDR_LEN + FirstLength(size, split))
    ensures var b := AfterFirst(o, src, size, code, id, split);
      SendData(cfg, o, src, size, code, id, split)
      == Finish(cfg, SendBlocks(cfg, b).0, SendBlocks(cfg, b).1.o, SendBlocks(cfg, b).1.src,
                if b.left == 0 then Written(size, split) else SendBlocks(cfg, b).1.written)
  {
    TakeAll(src, FirstLength(size, split));
    FirstAccepted(o, FirstTransfer(src, size, code, id, split));
    assert FirstLength(size, split) == 0 ==> src.data[src.curoff..src.curoff] == [];
  }

  /** The port takes a write whole or refuses it, or the source holds exactly the data and a short first write
      is not translated to success. */
  ghost predicate SteadyPhase(cfg: Config, o: Outgoing, src: Source, size: nat) {
    || (AllOrFail(o.script) && cfg.Strict())
    || (src.curoff + size == |src.data| && cfg.StrictBelow(CONTAINER_SIZE))
  }

  lemma SuccessUnfolds(cfg: Config, o: Outgoing, src: Source, size: nat, code: u16, id: u32, split: bool)
    requires cfg.Valid() && src.Valid() && src.curoff + size <= |src.data| && SteadyPhase(cfg, o, src, size)
    requires SendData(cfg, o, src, size, code, id, split).ret == RC_OK
    ensures TakesWhole(o.script, HDR_LEN + FirstLength(size, split))
    ensures SendBlocks(cfg, AfterFirst(o, src, size, code, id, split)).0 == RC_OK
  {
    FirstWhole(cfg, o, src, size, code, id, split);
    SendDataUnfolds(cfg, o, src, size, code, id, split);
  }

  lemma FirstWhole(cfg: Config, o: Outgoing, src: Source, size: nat, code: u16, id: u32, split: bool)
    requires cfg.Valid() && src.Valid() && src.curoff + size <= |src.data| && SteadyPhase(cfg, o, src, size)
    requires SendData(cfg, o, src, size, code, id, split).ret == RC_OK
    ensures TakesWhole(o.script, HDR_LEN + FirstLength(size, split))
  {
    TakeAll(src, FirstLength(size, split));
  }

  /** With a source that holds the data and nothing else, on every port (or with a longer one on a port that
      takes writes whole or refuses them): when OK is returned, the transfers carry the header with length
      12 + size and then exactly the data, none of them empty; only behind them, and only if maxpacketsize
      divides `Written`, an empty one. */
  lemma SendDataCarries(cfg: Config, o: Outgoing, src: Source, size: nat, code: u16, id: u32, split: bool)
    returns (ts: seq<seq<byte>>)
    requires cfg.Valid() && src.Valid() && src.curoff + size <= |src.data| && SteadyPhase(cfg, o, src, size)
    requires SendData(cfg, o, src, size, code, id, split).ret == RC_OK
    ensures o.script != []
    ensures ts != [] && |ts[0]| == 12 + if split then 0 else Min(size, 1012)
    ensures forall i | 1 <= i < |ts| :: |ts[i]| == Min(4096, size - (|ts[0]| - 12) - 4096 * (i - 1))
    ensures Carried(o, BeforeEnd(cfg, o, src, size, code, id, split), ts,
                    DataHeader(size, code, id) + src.data[src.curoff..src.curoff + size])
    ensures SendData(cfg, o, src, size, code, id, split).o
         == EndedBy(cfg, BeforeEnd(cfg, o, src, size, code, id, split), Written(size, split))
  {
    SuccessUnfolds(cfg, o, src, size, code, id, split);
    SendDataUnfolds(cfg, o, src, size, code, id, split);
    var b := AfterFirst(o, src, size, code, id, split);
    var rest := BlocksCarry(cfg, b);
    var first := FirstTransfer(src, size, code, id, split);
    var more := src.data[b.src.curoff..src.curoff + size];
    CarriedFirst(o, b.o, BeforeEnd(cfg, o, src, size, code, id, split), first, rest, more);
    assert first + more == DataHeader(size, code, id) + src.data[src.curoff..src.curoff + size];
    ts := [first] + rest;
    assert forall i | 1 <= i < |ts| :: ts[i] == rest[i - 1];
  }

  /** When every write is accepted the data phase succeeds, and the zero-length packet is sent exactly when
      maxpacketsize divides `Written`. */
  lemma SendDataSucceeds(cfg: Config, o: Outgoing, src: Source, size: nat, code: u16, id: u32, split: bool)
    returns (ts: seq<seq<byte>>)
    requires cfg.Valid() && cfg.Strict() && src.Valid() && src.curoff + size <= |src.data|
    requires AllAccept(o.script) && size + 2 * SEND_BLOCK <= SEND_BLOCK * |o.script|
    ensures var out := SendData(cfg, o, src, size, code, id, split);
      && out.ret == RC_OK && NonEmpty(ts)
      && Flatten(ts) == DataHeader(size, code, id) + src.data[src.curoff..src.curoff + size]
      && out.o.sent == o.sent + ts + (if Written(size, split) % cfg.maxpacketsize == 0 then [[]] else [])
  {
    SendDataUnfolds(cfg, o, src, size, code, id, split);
    BlocksSucceed(cfg, AfterFirst(o, src, size, code, id, split));
    ts := SendDataCarries(cfg, o, src, size, code, id, split);
    FirstAccepted(BeforeEnd(cfg, o, src, size, code, id, split), []);
  }

  // ---- Sending that fails ----

  /** The handler gives what it has, at most what is wanted, from where it stands. */
  lemma TakeExactly(src: Source, want: nat)
    requires src.Valid()
    ensures var (got, after) := Take(src, want);
      && |got| == Min(want, |src.data| - src.curoff) && At(src.data, src.curoff, got)
      && after == src.(curoff := src.curoff + |got|)
  {
  }

  /** A source too short for the first packet ends the data phase before anything is written. */
  lemma SourceTooShort(cfg: Config, o: Outgoing, src: Source, size: nat, code: u16, id: u32)
    requires cfg.Valid() && src.Valid() && |src.data| - src.curoff < Min(size, 1012)
    ensures var out := SendData(cfg, o, src, size, code, id, false); out.ret == 0x2002 && out.o == o
  {
  }

  /** A first packet that is not taken whole ends the data phase with the code of that write; nothing follows. */
  lemma FirstPacketFails(cfg: Config, o: Outgoing, src: Source, size: nat, code: u16, id: u32, split: bool)
    requires cfg.Valid() && src.Valid() && src.curoff + size <= |src.data|
    requires !TakesWhole(o.script, HDR_LEN + FirstLength(size, split))
    ensures var out, packet := SendData(cfg, o, src, size, code, id, split), FirstTransfer(src, size, code, id, split);
      out.ret == cfg.translate(WritePort(o.script, packet).0) && out.o == Write(o, packet).1
  {
    TakeAll(src, FirstLength(size, split));
    assert FirstLength(size, split) == 0 ==> src.data[src.curoff..src.curoff] == [];
  }

  /** A block that cannot be written ends the data phase with an I/O error, unless it is translated to a
      cancellation; no terminating packet follows. */
  lemma BlockFails(cfg: Config, o: Outgoing, src: Source, size: nat, code: u16, id: u32, split: bool)
    requires cfg.Valid() && src.Valid() && src.curoff + size <= |src.data|
    requires TakesWhole(o.script, HDR_LEN + FirstLength(size, split))
    requires SendBlocks(cfg, AfterFirst(o, src, size, code, id, split)).0 != RC_OK
    ensures var out, blocks := SendData(cfg, o, src, size, code, id, split),
                               SendBlocks(cfg, AfterFirst(o, src, size, code, id, split));
      out.ret == (if blocks.0 == 0x02FB then 0x02FB else 0x02FF) && out.o == blocks.1.o
  {
    SendDataUnfolds(cfg, o, src, size, code, id, split);
  }

  // ---- The terminating packet ----

  /** The length of the last logical transfer: with a split header, header and data are two of them. */
  function LastTransfer(size: nat, split: bool): nat {
    if split && size > 0 then size else HDR_LEN + size
  }

  /** When maxpacketsize divides 1024 the check on `written` is the check on the last transfer, although
      `written` leaves out the first 1024 bytes on the long path. */
  lemma ZeroLengthPacketRule(size: nat, split: bool, m: nat)
    requires m > 0 && 1024 % m == 0
    ensures Written(size, split) % m == 0 <==> LastTransfer(size, split) % m == 0
  {
    if !split && size > PAYLOAD_LEN_WRITE {
      ShiftModulo(size - PAYLOAD_LEN_WRITE, CONTAINER_SIZE, m);
    }
  }

  ghost predicate RightForAllSizes(m: nat)
    requires m > 0
  {
    forall size: nat, split: bool :: Written(size, split) % m == 0 <==> LastTransfer(size, split) % m == 0
  }

  /** The rule holds for every size exactly for the packet sizes that divide 1024. */
  lemma ZeroLengthPacketExactly(m: nat)
    requires m > 0
    ensures RightForAllSizes(m) <==> 1024 % m == 0
  {
    if CONTAINER_SIZE % m == 0 {
      forall size: nat, split: bool
        ensures Written(size, split) % m == 0 <==> LastTransfer(size, split) % m == 0
      {
        ZeroLengthPacketRule(size, split, m);
      }
    } else {
      var size := PAYLOAD_LEN_WRITE + m;
      assert Written(size, false) == m && LastTransfer(size, false) == CONTAINER_SIZE + m;
      ModuloUnique(m, m, 1, 0);
      ShiftModulo(CONTAINER_SIZE, m, m);
      assert !(Written(size, false) % m == 0 <==> LastTransfer(size, false) % m == 0);
    }
  }
}
