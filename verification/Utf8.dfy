/** UCS-2 units to UTF-8 as the engine and the client transcode them, against RFC 3629. */
module Utf8 {
  import opened Bytes

  /** The bytes the source appends for one unit. The or-ed bit groups never overlap, so the shifts and
      masks are written as quotients and remainders. */
  function EncodeUnit(ch: u16): (s: seq<byte>)
    ensures 1 <= |s| <= 3
  {
    if ch < 0x80 then [ch]
    else if ch < 0x800 then [0xC0 + ch / 0x40, 0x80 + ch % 0x40]
    else [0xE0 + ch / 0x1000, 0x80 + ch / 0x40 % 0x40, 0x80 + ch % 0x40]
  }

  /** On 16-bit words the shifts, masks and ors of the source are these quotients, remainders and sums. */
  lemma BitGroups(ch: bv16)
    ensures ch < 0x800 ==> 0xC0 | (ch >> 6) == 0xC0 + ch / 0x40
    ensures 0x80 | (ch & 0x3F) == 0x80 + ch % 0x40
    ensures 0xE0 | (ch >> 12) == 0xE0 + ch / 0x1000
    ensures 0x80 | ((ch >> 6) & 0x3F) == 0x80 + ch / 0x40 % 0x40
  {
  }

  function Encode(units: seq<u16>): seq<byte> {
    if units == [] then [] else EncodeUnit(units[0]) + Encode(units[1..])
  }

  predicate IsSurrogate(ch: u16) {
    0xD800 <= ch <= 0xDFFF
  }

  // ---- RFC 3629, section 4: the byte sequences that are UTF-8, and the characters they stand for ----

  predicate IsTail(b: byte) {
    0x80 <= b <= 0xBF
  }

  /** The length of the character that starts `s`, 0 if `s` starts with none (the UTF8-1 to UTF8-4
      productions). */
  function CharLength(s: seq<byte>): (n: nat)
    ensures n <= 4 && n <= |s|
  {
    if |s| >= 1 && s[0] <= 0x7F then 1
    else if |s| >= 2 && 0xC2 <= s[0] <= 0xDF && IsTail(s[1]) then 2
    else if |s| >= 3 && IsTriple(s[0], s[1]) && IsTail(s[2]) then 3
    else if |s| >= 4 && IsQuadruple(s[0], s[1]) && IsTail(s[2]) && IsTail(s[3]) then 4
    else 0
  }

  predicate IsTriple(a: byte, b: byte) {
    || (a == 0xE0 && 0xA0 <= b <= 0xBF)
    || (0xE1 <= a <= 0xEC && IsTail(b))
    || (a == 0xED && 0x80 <= b <= 0x9F)
    || (0xEE <= a <= 0xEF && IsTail(b))
  }

  predicate IsQuadruple(a: byte, b: byte) {
    || (a == 0xF0 && 0x90 <= b <= 0xBF)
    || (0xF1 <= a <= 0xF3 && IsTail(b))
    || (a == 0xF4 && 0x80 <= b <= 0x8F)
  }

  /** The code point of the character that starts `s`. */
  function CharValue(s: seq<byte>): int
    requires CharLength(s) > 0
  {
    match CharLength(s)
    case 1 => s[0]
    case 2 => Low(s[0], 0xC0) * 0x40 + Low(s[1], 0x80)
    case 3 => Low(s[0], 0xE0) * 0x1000 + Low(s[1], 0x80) * 0x40 + Low(s[2], 0x80)
    case _ => Low(s[0], 0xF0) * 0x4_0000 + Low(s[1], 0x80) * 0x1000 + Low(s[2], 0x80) * 0x40 + Low(s[3], 0x80)
  }

  function Low(b: byte, prefix: int): int {
    (b as int) - prefix
  }

  /** The code points of `s`, or None when `s` is not well-formed UTF-8. */
  function Decode(s: seq<byte>): Option<seq<int>> {
    if s == [] then Some([])
    else if CharLength(s) == 0 then None
    else
      match Decode(s[CharLength(s)..])
      case None => None
      case Some(rest) => Some([CharValue(s)] + rest)
  }

  lemma EncodeUnitDecodes(ch: u16, rest: seq<byte>)
    ensures IsSurrogate(ch) ==> CharLength(EncodeUnit(ch) + rest) == 0
    ensures !IsSurrogate(ch) ==> CharLength(EncodeUnit(ch) + rest) == |EncodeUnit(ch)|
    ensures !IsSurrogate(ch) ==> CharValue(EncodeUnit(ch) + rest) == ch
  {
    var s := EncodeUnit(ch) + rest;
    assert forall i | 0 <= i < |EncodeUnit(ch)| :: s[i] == EncodeUnit(ch)[i];
  }

  /** The output is well-formed UTF-8 if and only if no unit is a surrogate, and then it decodes back
      to exactly the units. */
  lemma {:induction false} OutputIsUtf8(units: seq<u16>)
    ensures Decode(Encode(units)).Some? <==> forall i | 0 <= i < |units| :: !IsSurrogate(units[i])
    ensures Decode(Encode(units)).Some? ==> Decode(Encode(units)).value == units
  {
    if units != [] {
      var first, rest := EncodeUnit(units[0]), Encode(units[1..]);
      EncodeUnitDecodes(units[0], rest);
      assert (first + rest)[|first|..] == rest;
      OutputIsUtf8(units[1..]);
      assert forall i | 0 <= i < |units| - 1 :: units[1..][i] == units[i + 1];
      assert units == [units[0]] + units[1..];
    }
  }

  lemma {:induction false} EncodeSnoc(units: seq<u16>, ch: u16)
    ensures Encode(units + [ch]) == Encode(units) + EncodeUnit(ch)
  {
    if units == [] {
      assert units + [ch] == [ch];
    } else {
      assert (units + [ch])[1..] == units[1..] + [ch];
      EncodeSnoc(units[1..], ch);
    }
  }

  lemma {:induction false} EncodeAppend(a: seq<u16>, b: seq<u16>)
    ensures Encode(a + b) == Encode(a) + Encode(b)
  {
    if a == [] {
      assert a + b == b;
    } else {
      assert (a + b)[1..] == a[1..] + b;
      EncodeAppend(a[1..], b);
    }
  }

  // ---- Units in a byte buffer ----

  function PutUnits(units: seq<u16>): (s: seq<byte>)
    ensures |s| == 2 * |units|
  {
    if units == [] then [] else PutUnits(units[..|units| - 1]) + Put16(units[|units| - 1])
  }

  /** `n` units from offset `off` on. */
  function Units(data: seq<byte>, off: nat, n: nat): (us: seq<u16>)
    requires off + 2 * n <= |data|
    ensures |us| == n
  {
    seq(n, i requires 0 <= i < n => Get16(data, off + 2 * i))
  }

  lemma UnitsSnoc(data: seq<byte>, off: nat, n: nat)
    requires off + 2 * n + 2 <= |data|
    ensures Units(data, off, n + 1) == Units(data, off, n) + [Get16(data, off + 2 * n)]
  {
  }

  lemma {:induction false} UnitsOfPut(data: seq<byte>, off: nat, units: seq<u16>)
    requires At(data, off, PutUnits(units))
    ensures Units(data, off, |units|) == units
  {
    if units != [] {
      var n := |units| - 1;
      AtSplit(data, off, PutUnits(units[..n]), Put16(units[n]));
      UnitsOfPut(data, off, units[..n]);
      AtPut16(data, off + 2 * n, units[n]);
      UnitsSnoc(data, off, n);
      assert units == units[..n] + [units[n]];
    }
  }

  // ---- The three loops ----

  /** The units before the first null. */
  function UntilNull(units: seq<u16>): (us: seq<u16>)
    ensures |us| <= |units|
  {
    if units == [] || units[0] == 0 then [] else [units[0]] + UntilNull(units[1..])
  }

  function NonNull(units: seq<u16>): seq<u16> {
    if units == [] then []
    else (if units[0] == 0 then [] else [units[0]]) + NonNull(units[1..])
  }

  lemma {:induction false} NonNullSnoc(units: seq<u16>, ch: u16)
    ensures NonNull(units + [ch]) == NonNull(units) + if ch == 0 then [] else [ch]
  {
    if units == [] {
      assert units + [ch] == [ch];
    } else {
      assert (units + [ch])[1..] == units[1..] + [ch];
      NonNullSnoc(units[1..], ch);
    }
  }

  lemma {:induction false} UntilNullSplit(units: seq<u16>, n: nat)
    requires n <= |units| && (forall i | 0 <= i < n :: units[i] != 0)
    requires n == |units| || units[n] == 0
    ensures UntilNull(units) == units[..n]
  {
    if n > 0 {
      assert forall i | 0 <= i < n - 1 :: units[1..][i] == units[i + 1];
      UntilNullSplit(units[1..], n - 1);
      assert units[..n] == [units[0]] + units[1..][..n - 1];
    }
  }

  method AppendUnit(text: seq<byte>, ch: u16) returns (out: seq<byte>)
    ensures out == text + EncodeUnit(ch)
  {
    out := text;
    if ch < 0x80 {
      out := out + [ch];
    } else if ch < 0x800 {
      out := out + [0xC0 + ch / 0x40];
      out := out + [0x80 + ch % 0x40];
    } else {
      out := out + [0xE0 + ch / 0x1000];
      out := out + [0x80 + ch / 0x40 % 0x40];
      out := out + [0x80 + ch % 0x40];
    }
  }

  /** Transcodes up to the first null unit (ptp_engine.cpp). */
  method ParseUCS2String(data: seq<byte>) returns (out: seq<byte>)
    ensures out == Encode(UntilNull(Units(data, 0, |data| / 2)))
  {
    ghost var all := Units(data, 0, |data| / 2);
    out := [];
    var i := 0;
    ghost var n := 0;
    while i + 1 < |data|
      invariant i == 2 * n && n <= |data| / 2
      invariant forall k | 0 <= k < n :: all[k] != 0
      invariant out == Encode(all[..n])
    {
      var ch := Get16(data, i);
      if ch == 0 { break; }
      out := AppendUnit(out, ch);
      EncodeSnoc(all[..n], ch);
      assert all[..n + 1] == all[..n] + [ch];
      i, n := i + 2, n + 1;
    }
    UntilNullSplit(all, n);
  }

  /** The client's own loop: it looks at the two bytes, then at the unit (ptp_client.cpp). */
  method ReadUcs2String(data: seq<byte>) returns (out: seq<byte>)
    ensures out == Encode(UntilNull(Units(data, 0, |data| / 2)))
  {
    ghost var all := Units(data, 0, |data| / 2);
    out := [];
    var i := 0;
    ghost var n := 0;
    while i + 1 < |data|
      invariant i == 2 * n && n <= |data| / 2
      invariant forall k | 0 <= k < n :: all[k] != 0
      invariant out == Encode(all[..n])
    {
      var lo, hi := data[i], data[i + 1];
      if lo == 0 && hi == 0 { break; }
      var ch := (lo as int) + (hi as int) * 0x100;
      assert ch == Get16(data, i) == all[n];
      out := AppendUnit(out, ch);
      EncodeSnoc(all[..n], ch);
      assert all[..n + 1] == all[..n] + [ch];
      i, n := i + 2, n + 1;
    }
    UntilNullSplit(all, n);
  }

  /** What a counted string at `off` reads as, and the offset behind it: as many units as are counted
      and present, null units skipped. */
  function PtpString(data: seq<byte>, off: nat): (r: (seq<byte>, nat))
    ensures off <= |data| ==> off <= r.1 <= |data|
  {
    if off >= |data| then ([], off) else
    var n := Min(data[off], (|data| - off - 1) / 2);
    (Encode(NonNull(Units(data, off + 1, n))), off + 1 + 2 * n)
  }

  /** One more counted unit adds its bytes, a null nothing. */
  lemma {:induction false} NextUnit(data: seq<byte>, off: nat, n: nat)
    requires off + 2 * n + 2 <= |data|
    ensures var ch := Get16(data, off + 2 * n);
      Encode(NonNull(Units(data, off, n + 1)))
      == Encode(NonNull(Units(data, off, n))) + if ch == 0 then [] else EncodeUnit(ch)
  {
    var units, ch := Units(data, off, n), Get16(data, off + 2 * n);
    UnitsSnoc(data, off, n);
    NonNullSnoc(units, ch);
    if ch == 0 {
      assert NonNull(units) + [] == NonNull(units);
      assert Encode(NonNull(units)) + [] == Encode(NonNull(units));
    } else {
      EncodeSnoc(NonNull(units), ch);
    }
  }

  method ReadPtpString(data: seq<byte>, off: nat) returns (out: seq<byte>, next: nat)
    ensures (out, next) == PtpString(data, off)
  {
    out, next := [], off;
    if off >= |data| { return; }
    var charCount: int := data[off];
    next := next + 1;
    var i: int := 0;
    while i < charCount && next + 1 < |data|
      invariant 0 <= i <= charCount && next == off + 1 + 2 * i <= |data|
      invariant out == Encode(NonNull(Units(data, off + 1, i)))
    {
      var ch := Get16(data, next);
      NextUnit(data, off + 1, i);
      if ch != 0 {
        out := AppendUnit(out, ch);
      } else {
        assert out + [] == out;
      }
      next, i := next + 2, i + 1;
    }
  }

  // ---- When the loops agree ----

  lemma {:induction false} NonNullIsUntilNullPlus(units: seq<u16>)
    ensures NonNull(units) == UntilNull(units) + NonNull(units[|UntilNull(units)|..])
  {
    if units != [] && units[0] != 0 {
      NonNullIsUntilNullPlus(units[1..]);
      assert units[1..][|UntilNull(units[1..])|..] == units[|UntilNull(units)|..];
    }
  }

  /** Skipping nulls and stopping at the first null give the same text if and only if nothing but
      nulls follows the first null. */
  lemma {:induction false} LoopsAgree(units: seq<u16>)
    ensures Encode(NonNull(units)) == Encode(UntilNull(units))
       <==> NonNull(units[|UntilNull(units)|..]) == []
  {
    var after := NonNull(units[|UntilNull(units)|..]);
    NonNullIsUntilNullPlus(units);
    EncodeAppend(UntilNull(units), after);
    if after == [] {
      assert Encode(UntilNull(units)) + [] == Encode(UntilNull(units));
    } else {
      assert |Encode(after)| > 0;
    }
  }

  predicate NoNull(units: seq<u16>) {
    forall i | 0 <= i < |units| :: units[i] != 0
  }

  lemma {:induction false} NonNullIdentity(units: seq<u16>)
    requires NoNull(units)
    ensures NonNull(units) == units && UntilNull(units) == units
  {
    if units != [] {
      assert forall i | 0 <= i < |units| - 1 :: units[1..][i] == units[i + 1];
      NonNullIdentity(units[1..]);
    }
  }

  /** The wire form of a string without nulls: a count, the units and a terminating null; a lone zero
      for the empty string (MTP 1.0, section 3.2.3). */
  function PutString(units: seq<u16>): seq<byte>
    requires |units| <= 254
  {
    if units == [] then [0] else [|units| + 1] + PutUnits(units + [0])
  }

  lemma {:induction false} UnitsLayout(units: seq<u16>, i: nat)
    requires i < |units|
    ensures PutUnits(units)[2 * i] == units[i] % 0x100 && PutUnits(units)[2 * i + 1] == units[i] / 0x100
  {
    var n := |units| - 1;
    if i < n {
      UnitsLayout(units[..n], i);
    }
  }

  /** The wire form of a string byte by byte: the count with the terminator, little-endian units, and the
      terminator. */
  lemma StringLayout(units: seq<u16>, i: nat)
    requires i < |units| <= 254
    ensures var s := PutString(units);
      && |s| == 3 + 2 * |units| && s[0] == |units| + 1
      && s[1 + 2 * i] == units[i] % 0x100 && s[2 + 2 * i] == units[i] / 0x100
      && s[|s| - 2] == 0 && s[|s| - 1] == 0
  {
    var ended := units + [0];
    UnitsLayout(ended, i);
    UnitsLayout(ended, |units|);
    assert PutString(units) == [|ended|] + PutUnits(ended);
  }

  lemma {:induction false} CountedUnits(data: seq<byte>, off: nat, units: seq<u16>)
    requires off < |data| && data[off] == |units| && At(data, off + 1, PutUnits(units))
    ensures PtpString(data, off) == (Encode(NonNull(units)), off + 1 + 2 * |units|)
  {
    UnitsOfPut(data, off + 1, units);
  }

  lemma HalfOfRoom(room: nat, n: nat)
    requires 2 * n <= room <= 2 * n + 1
    ensures room / 2 == n
  {
  }

  /** A string cut short reads as far as it goes: the whole units that are there, and then at most one byte is
      left. Without room for the count nothing is read. */
  lemma {:induction false} CutString(data: seq<byte>, off: nat, units: seq<u16>)
    requires NoNull(units) && off < |data| && data[off] > |units|
    requires At(data, off + 1, PutUnits(units)) && |data| - (off + 1 + 2 * |units|) <= 1
    ensures PtpString(data, off) == (Encode(units), off + 1 + 2 * |units|)
    ensures PtpString(data, |data|) == ([], |data|)
  {
    HalfOfRoom(|data| - off - 1, |units|);
    ReadsUnits(data, off, |units|);
    UnitsOfPut(data, off + 1, units);
    NonNullIdentity(units);
  }

  lemma {:induction false} ReadsUnits(data: seq<byte>, off: nat, n: nat)
    requires off < |data| && Min(data[off], (|data| - off - 1) / 2) == n
    ensures off + 1 + 2 * n <= |data|
    ensures PtpString(data, off) == (Encode(NonNull(Units(data, off + 1, n))), off + 1 + 2 * n)
  {
  }

  lemma {:induction false} EndedString(data: seq<byte>, off: nat, units: seq<u16>, ended: seq<u16>)
    requires NoNull(units) && ended == units + [0] && |ended| <= 255
    requires At(data, off, [|ended|] + PutUnits(ended))
    ensures PtpString(data, off) == (Encode(units), off + 1 + 2 * |ended|)
  {
    AtIndex(data, off, [|ended|] + PutUnits(ended), 0);
    AtSplit(data, off, [|ended|], PutUnits(ended));
    CountedUnits(data, off, ended);
    TerminatorSkipped(units);
  }

  /** Reading back a string from where its wire form stands, whatever surrounds it. */
  lemma {:induction false} StringRoundTrip(data: seq<byte>, off: nat, units: seq<u16>)
    requires |units| <= 254 && NoNull(units) && At(data, off, PutString(units))
    ensures PtpString(data, off) == (Encode(units), off + |PutString(units)|)
  {
    if units == [] {
      AtIndex(data, off, [0], 0);
      CountedUnits(data, off, []);
    } else {
      var ended := units + [0];
      assert PutString(units) == [|ended|] + PutUnits(ended);
      EndedString(data, off, units, ended);
    }
  }

  lemma {:induction false} TerminatorSkipped(units: seq<u16>)
    requires NoNull(units)
    ensures NonNull(units + [0]) == units
  {
    NonNullSnoc(units, 0);
    NonNullIdentity(units);
    assert units + [] == units;
  }

  /** On the same text the three readers produce the same UTF-8: the two null-terminated ones from the
      bare units, the counted one from the wire form. */
  lemma {:induction false} ReadersAgree(units: seq<u16>)
    requires |units| <= 254 && NoNull(units)
    ensures Encode(UntilNull(Units(PutUnits(units), 0, |units|))) == Encode(units)
    ensures PtpString(PutString(units), 0) == (Encode(units), |PutString(units)|)
  {
    var bare, counted := PutUnits(units), PutString(units);
    assert At(bare, 0, bare) && At(counted, 0, counted);
    UnitsOfPut(bare, 0, units);
    NonNullIdentity(units);
    StringRoundTrip(counted, 0, units);
  }
}
