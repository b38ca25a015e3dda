/** The second, independent command encoder and response parser (ptp_client.cpp). */
module Client {
  import opened Bytes
  import opened Container
  import opened Engine

  const MAX_PARAMS := 5

  datatype PtpResponse = PtpResponse(code: u16, transactionId: u32, params: seq<u32>, paramCount: nat)

  method Store(buf: array<byte>, at: nat, piece: seq<byte>)
    requires at + |piece| <= buf.Length
    modifies buf
    ensures buf[..] == old(buf[..at]) + piece + old(buf[at + |piece|..])
  {
    forall i | 0 <= i < |piece| {
      buf[at + i] := piece[i];
    }
  }

  /** Allocates the whole container and fills it word by word. */
  method BuildCommand(opCode: u16, transactionId: u32, params: seq<u32>) returns (buf: array<byte>)
    ensures fresh(buf)
    ensures buf[..] == CommandBytes(opCode, transactionId, FirstFive(params))
  {
    var paramCount := Min(|params|, MAX_PARAMS);
    var totalLen := HDR_LEN + paramCount * 4;
    buf := new byte[totalLen];
    StoreHeader(buf, totalLen, opCode, transactionId);
    ghost var head := buf[..HDR_LEN];
    var i := 0;
    while i < paramCount
      invariant 0 <= i <= paramCount
      invariant buf[..HDR_LEN + 4 * i] == head + PutWords(params[..i])
    {
      Store(buf, HDR_LEN + 4 * i, Put32(params[i]));
      WordsSnoc(params, i);
      assert buf[..HDR_LEN + 4 * (i + 1)] == (head + PutWords(params[..i])) + Put32(params[i]);
      i := i + 1;
    }
    assert buf[..] == buf[..totalLen];
    assert params[..paramCount] == FirstFive(params);
  }

  lemma WordsSnoc(ps: seq<u32>, i: nat)
    requires i < |ps|
    ensures PutWords(ps[..i + 1]) == PutWords(ps[..i]) + Put32(ps[i])
  {
    assert ps[..i + 1][..i] == ps[..i];
  }

  method StoreHeader(buf: array<byte>, length: u32, opCode: u16, transactionId: u32)
    requires buf.Length >= HDR_LEN
    modifies buf
    ensures buf[..HDR_LEN] == Header(length, TYPE_COMMAND, opCode, transactionId)
  {
    Store(buf, 0, Put32(length));
    Store(buf, 4, Put16(TYPE_COMMAND));
    Store(buf, 6, Put16(opCode));
    Store(buf, 8, Put32(transactionId));
  }

  /** What a response container says; a container too short to have a header says nothing. */
  function Response(data: seq<byte>): PtpResponse {
    if |data| < HDR_LEN then PtpResponse(0, 0, [0, 0, 0, 0, 0], 0) else
    var n := Min((|data| - HDR_LEN) / 4, MAX_PARAMS);
    PtpResponse(Code(data), TransId(data), Words(data, n) + seq(MAX_PARAMS - n, _ => 0), n)
  }

  method ParseResponse(data: seq<byte>) returns (resp: PtpResponse)
    ensures resp == Response(data)
  {
    resp := PtpResponse(0, 0, [0, 0, 0, 0, 0], 0);
    if |data| < HDR_LEN { return; }
    resp := resp.(code := Code(data), transactionId := TransId(data));
    resp := resp.(paramCount := Min((|data| - HDR_LEN) / 4, MAX_PARAMS));
    var i := 0;
    while i < resp.paramCount
      invariant 0 <= i <= resp.paramCount == Min((|data| - HDR_LEN) / 4, MAX_PARAMS)
      invariant resp.code == Code(data) && resp.transactionId == TransId(data)
      invariant resp.params == Words(data, i) + seq(MAX_PARAMS - i, _ => 0)
    {
      resp := resp.(params := resp.params[i := Get32(data, HDR_LEN + 4 * i)]);
      i := i + 1;
    }
  }

  /** Parsing an encoded command gives back its code, its transaction ID and its first five parameters,
      the missing ones as zero. */
  lemma ParseRecovers(code: u16, transId: u32, ps: seq<u32>)
    ensures Response(CommandBytes(code, transId, FirstFive(ps)))
         == PtpResponse(code, transId, FirstFive(ps) + seq(MAX_PARAMS - |FirstFive(ps)|, _ => 0), |FirstFive(ps)|)
  {
    var five := FirstFive(ps);
    var c := CommandBytes(code, transId, five);
    CommandFields(code, transId, five);
    WordsAt(c, five);
  }

  /** A container without a header reads as all zeros. */
  lemma NoHeader(data: seq<byte>)
    requires |data| < 12
    ensures Response(data) == PtpResponse(0, 0, [0, 0, 0, 0, 0], 0)
  {
  }

  /** Bytes behind the fifth parameter, or too few for another one, are ignored. */
  lemma ExtraIgnored(code: u16, transId: u32, ps: seq<u32>, extra: seq<byte>)
    requires |ps| <= 5 && (|ps| == 5 || |extra| < 4)
    ensures Response(CommandBytes(code, transId, ps) + extra) == Response(CommandBytes(code, transId, ps))
  {
    var c := CommandBytes(code, transId, ps);
    var d := c + extra;
    assert c == d[..|c|];
    FieldsOfPrefix(c, d);
    WordsOfPrefix(c, d, |ps|);
    HowManyWords(|ps|, |extra|);
  }

  lemma HowManyWords(n: nat, extra: nat)
    requires n <= 5 && (n == 5 || extra < 4)
    ensures Min((4 * n + extra) / 4, MAX_PARAMS) == n == Min(4 * n / 4, MAX_PARAMS)
  {
  }

  lemma WordsOfPrefix(c: seq<byte>, d: seq<byte>, n: nat)
    requires HDR_LEN + 4 * n <= |c| <= |d| && c == d[..|c|]
    ensures Words(c, n) == Words(d, n)
  {
    assert forall i | 0 <= i < |c| :: c[i] == d[i];
  }

  /** Two commands have the same bytes only if they agree in code, ID and their first five parameters. */
  lemma EncodingIsInjective(code: u16, transId: u32, ps: seq<u32>, code': u16, transId': u32, ps': seq<u32>)
    requires CommandBytes(code, transId, FirstFive(ps)) == CommandBytes(code', transId', FirstFive(ps'))
    ensures code == code' && transId == transId' && FirstFive(ps) == FirstFive(ps')
  {
    ParseRecovers(code, transId, ps);
    ParseRecovers(code', transId', ps');
    var five, five' := FirstFive(ps), FirstFive(ps');
    assert five == (five + seq(MAX_PARAMS - |five|, _ => 0))[..|five|];
    assert five' == (five' + seq(MAX_PARAMS - |five'|, _ => 0))[..|five'|];
  }

  /** The engine and the client put the same bytes on the wire for the same opcode, ID and parameters. */
  method EncodersAgree(engine: PTPEngine, code: u16, ps: seq<u32>) returns (a: seq<byte>, b: array<byte>)
    requires engine.Valid()
    modifies engine
    ensures a == b[..]
    ensures Response(a).code == code && Response(a).transactionId == old(engine.transactionId)
  {
    b := BuildCommand(code, engine.transactionId, ps);
    ParseRecovers(code, engine.transactionId, ps);
    a := engine.BuildCommand(code, ps);
  }
}
