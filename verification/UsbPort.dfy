/** The USB port as the transport sees it: a finite script of what the coming reads bring, and of what
    the coming writes accept. */
module UsbPort {
  import opened Bytes

  const RC_OK: u16 := 0x2001
  const RC_GENERAL_ERROR: u16 := 0x2002
  const ERROR_CANCEL: u16 := 0x02FB
  const ERROR_BADPARAM: u16 := 0x02FC
  const ERROR_RESP_EXPECTED: u16 := 0x02FD
  const ERROR_IO: u16 := 0x02FF

  datatype GpError = IoRead | IoWrite | Timeout | OtherError(code: int)

  /** A result of the port library: a byte count or an error. */
  datatype GpResult = Count(n: nat) | Error(e: GpError)

  /** What one read brings: bytes (and what the user answers if asked to cancel after it), or an error. */
  datatype PortRead = Got(bytes: seq<byte>, cancel: bool) | Failed(e: GpError)

  datatype PortWrite = Accept | Short(n: nat) | Refuse(e: GpError)

  /** The parameters of a connection. `translate` stands for translate_gp_result_to_ptp and
      `cancelAnswer` for the answer to a cancel request, which are not part of this model. */
  datatype Config = Config(maxpacketsize: u16, ignoreHeaderErrors: bool, cancelAnswer: u16,
                           translate: GpResult -> u16)
  {
    predicate Valid() {
      maxpacketsize > 0
    }

    /** A read that brings nothing is never translated to success. */
    ghost predicate Strict() {
      translate(Count(0)) != RC_OK && forall e: GpError :: translate(Error(e)) != RC_OK
    }

    /** Neither an error nor a count below `k` is ever translated to success. */
    ghost predicate StrictBelow(k: nat) {
      && (forall n: nat | n < k :: translate(Count(n)) != RC_OK)
      && forall e: GpError :: translate(Error(e)) != RC_OK
    }
  }

  /** A read of at most `max` bytes; what does not fit stays for the next read. An exhausted script times
      out. */
  function ReadPort(script: seq<PortRead>, max: nat): (r: (PortRead, seq<PortRead>))
    requires max > 0
    ensures r.0.Got? ==> |r.0.bytes| <= max
  {
    if script == [] then (Failed(Timeout), []) else
    match script[0]
    case Failed(_) => (script[0], script[1..])
    case Got(bytes, cancel) =>
      if |bytes| <= max then (script[0], script[1..])
      else (Got(bytes[..max], cancel), [Got(bytes[max..], cancel)] + script[1..])
  }

  /** All bytes a script brings, in order. */
  function Stream(script: seq<PortRead>): seq<byte> {
    if script == [] then []
    else (match script[0] case Got(bytes, _) => bytes case Failed(_) => []) + Stream(script[1..])
  }

  function Size(script: seq<PortRead>): nat {
    if script == [] then 0
    else 1 + (match script[0] case Got(bytes, _) => |bytes| case Failed(_) => 0) + Size(script[1..])
  }

  /** A read takes its bytes from the front of the stream and loses none. */
  lemma ReadPortConserves(script: seq<PortRead>, max: nat)
    requires max > 0
    ensures var (r, rest) := ReadPort(script, max);
      && Stream(script) == (if r.Got? then r.bytes else []) + Stream(rest)
      && (script != [] ==> Size(rest) < Size(script))
      && (script == [] ==> rest == [])
  {
    if script != [] && script[0].Got? && |script[0].bytes| > max {
      SplitHead(script, max);
    }
  }

  lemma SplitHead(script: seq<PortRead>, max: nat)
    requires script != [] && script[0].Got? && 0 < max < |script[0].bytes|
    ensures Stream(script) == script[0].bytes[..max] + Stream(ReadPort(script, max).1)
    ensures Size(ReadPort(script, max).1) == Size(script) - max
  {
    var bytes, later := script[0].bytes, script[1..];
    var rest := ReadPort(script, max).1;
    assert rest[1..] == later;
    assert Stream(rest) == bytes[max..] + Stream(later);
    assert bytes[..max] + (bytes[max..] + Stream(later)) == bytes + Stream(later);
  }

  /** A write: how many bytes the port took, what is left of its script, and the bytes it took. */
  function WritePort(script: seq<PortWrite>, data: seq<byte>): (r: (GpResult, seq<PortWrite>))
    ensures r.0.Count? ==> r.0.n <= |data|
  {
    if script == [] then (Error(Timeout), []) else
    match script[0]
    case Accept => (Count(|data|), script[1..])
    case Short(n) => (Count(Min(n, |data|)), script[1..])
    case Refuse(e) => (Error(e), script[1..])
  }
}
