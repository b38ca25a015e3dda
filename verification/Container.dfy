/** The USB bulk container: a 12-byte header (length, type, code, transaction ID) and a payload. */
module Container {
  import opened Bytes

  const HDR_LEN := 12
  const REQ_LEN := 32
  /** sizeof(PTPUSBBulkContainer): the header and 1012 bytes of payload. */
  const CONTAINER_SIZE := 1024

  const TYPE_COMMAND: u16 := 1
  const TYPE_DATA: u16 := 2
  const TYPE_RESPONSE: u16 := 3

  const OC_OPEN_SESSION: u16 := 0x1002
  const OC_CLOSE_SESSION: u16 := 0x1003

  function Header(length: u32, kind: u16, code: u16, transId: u32): (s: seq<byte>)
    ensures |s| == HDR_LEN
  {
    Put32(length) + (Put16(kind) + (Put16(code) + Put32(transId)))
  }

  function Length(s: seq<byte>): u32
    requires |s| >= HDR_LEN
  {
    Get32(s, 0)
  }

  function Kind(s: seq<byte>): u16
    requires |s| >= HDR_LEN
  {
    Get16(s, 4)
  }

  function Code(s: seq<byte>): u16
    requires |s| >= HDR_LEN
  {
    Get16(s, 6)
  }

  function TransId(s: seq<byte>): u32
    requires |s| >= HDR_LEN
  {
    Get32(s, 8)
  }

  lemma HeaderFields(s: seq<byte>, length: u32, kind: u16, code: u16, transId: u32)
    requires At(s, 0, Header(length, kind, code, transId))
    ensures |s| >= HDR_LEN
    ensures Length(s) == length && Kind(s) == kind && Code(s) == code && TransId(s) == transId
  {
    AtSplit(s, 0, Put32(length), Put16(kind) + (Put16(code) + Put32(transId)));
    AtSplit(s, 4, Put16(kind), Put16(code) + Put32(transId));
    AtSplit(s, 6, Put16(code), Put32(transId));
    AtPut32(s, 0, length);
    AtPut16(s, 4, kind);
    AtPut16(s, 6, code);
    AtPut32(s, 8, transId);
  }

  /** The header byte by byte: little-endian length, type, code and transaction ID at 0, 4, 6 and 8 (USB Still
      Image Capture Device Definition 1.0, section 7.1). */
  lemma HeaderLayout(length: u32, kind: u16, code: u16, transId: u32)
    ensures var s := Header(length, kind, code, transId);
      && |s| == 12
      && s[0] == length % 0x100 && s[1] == length / 0x100 % 0x100
      && s[2] == length / 0x1_0000 % 0x100 && s[3] == length / 0x100_0000
      && s[4] == kind % 0x100 && s[5] == kind / 0x100 && s[6] == code % 0x100 && s[7] == code / 0x100
      && s[8] == transId % 0x100 && s[9] == transId / 0x100 % 0x100
      && s[10] == transId / 0x1_0000 % 0x100 && s[11] == transId / 0x100_0000
  {
    Put32Layout(length);
    Put32Layout(transId);
  }

  lemma Put32Layout(v: u32)
    ensures Put32(v) == [v % 0x100, v / 0x100 % 0x100, v / 0x1_0000 % 0x100, v / 0x100_0000]
  {
    assert v % 0x1_0000 % 0x100 == v % 0x100 && v % 0x1_0000 / 0x100 == v / 0x100 % 0x100;
    assert v / 0x1_0000 / 0x100 == v / 0x100_0000;
  }

  /** The fields of a container do not depend on what follows its header. */
  lemma FieldsOfPrefix(s: seq<byte>, t: seq<byte>)
    requires HDR_LEN <= |s| <= |t| && s == t[..|s|]
    ensures Length(s) == Length(t) && Kind(s) == Kind(t)
    ensures Code(s) == Code(t) && TransId(s) == TransId(t)
  {
    assert forall i | 0 <= i < HDR_LEN :: s[i] == t[i];
  }

  function DataContainer(code: u16, transId: u32, payload: seq<byte>): (s: seq<byte>)
    requires HDR_LEN + |payload| < TWO_32
    ensures |s| == HDR_LEN + |payload|
  {
    Header(HDR_LEN + |payload|, TYPE_DATA, code, transId) + payload
  }

  lemma DataContainerFields(code: u16, transId: u32, payload: seq<byte>)
    requires HDR_LEN + |payload| < TWO_32
    ensures var c := DataContainer(code, transId, payload);
            && Length(c) == |c| && Kind(c) == TYPE_DATA
            && Code(c) == code && TransId(c) == transId && c[HDR_LEN..] == payload
  {
    var h := Header(HDR_LEN + |payload|, TYPE_DATA, code, transId);
    var c := DataContainer(code, transId, payload);
    assert c[0..12] == h;
    HeaderFields(c, HDR_LEN + |payload|, TYPE_DATA, code, transId);
  }

  /** A whole response container. */
  predicate IsResponse(s: seq<byte>) {
    |s| >= HDR_LEN && Kind(s) == TYPE_RESPONSE && Length(s) == |s|
  }

  /** A container has room for five parameters. */
  function FirstFive(ps: seq<u32>): seq<u32> {
    if |ps| <= 5 then ps else ps[..5]
  }

  /** The first `n` parameter words of a container. */
  function Words(data: seq<byte>, n: nat): (ws: seq<u32>)
    requires HDR_LEN + 4 * n <= |data|
    ensures |ws| == n
  {
    seq(n, i requires 0 <= i < n => Get32(data, HDR_LEN + 4 * i))
  }

  lemma {:induction false} WordsAt(c: seq<byte>, words: seq<u32>)
    requires At(c, HDR_LEN, PutWords(words))
    ensures HDR_LEN + 4 * |words| <= |c| && Words(c, |words|) == words
  {
    var ws := Words(c, |words|);
    forall i | 0 <= i < |words| ensures ws[i] == words[i] {
      AtPutWords(c, HDR_LEN, words, i);
    }
  }

  /** The bytes of a command container with at most five parameters. */
  function CommandBytes(code: u16, transId: u32, ps: seq<u32>): (s: seq<byte>)
    requires |ps| <= 5
    ensures |s| == HDR_LEN + 4 * |ps|
  {
    Header(HDR_LEN + 4 * |ps|, TYPE_COMMAND, code, transId) + PutWords(ps)
  }

  lemma CommandFields(code: u16, transId: u32, ps: seq<u32>)
    requires |ps| <= 5
    ensures var c := CommandBytes(code, transId, ps);
            && Length(c) == |c| && Kind(c) == TYPE_COMMAND && Code(c) == code && TransId(c) == transId
            && At(c, HDR_LEN, PutWords(ps))
  {
    var c := CommandBytes(code, transId, ps);
    assert c[0..12] == Header(HDR_LEN + 4 * |ps|, TYPE_COMMAND, code, transId);
    HeaderFields(c, HDR_LEN + 4 * |ps|, TYPE_COMMAND, code, transId);
  }
}
