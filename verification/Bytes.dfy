/** Bytes, 16-bit and 32-bit words, and the little-endian layout every PTP container uses. */
module Bytes {

  type byte = x: int | 0 <= x < 0x100
  type u16 = x: int | 0 <= x < 0x1_0000
  type u32 = x: int | 0 <= x < 0x1_0000_0000

  const TWO_32 := 0x1_0000_0000

  datatype Option<+T> = None | Some(value: T)

  function Min(a: int, b: int): int {
    if a < b then a else b
  }

  lemma FitsInWord(n: nat, cut: nat)
    requires n < TWO_32 && cut == n % TWO_32
    ensures cut == n
  {
  }

  function Put16(v: u16): (s: seq<byte>)
    ensures |s| == 2
  {
    [v % 0x100, v / 0x100]
  }

  function Put32(v: u32): (s: seq<byte>)
    ensures |s| == 4
  {
    Put16(v % 0x1_0000) + Put16(v / 0x1_0000)
  }

  function Get16(s: seq<byte>, i: nat): u16
    requires i + 2 <= |s|
  {
    (s[i] as int) + 0x100 * (s[i + 1] as int)
  }

  function Get32(s: seq<byte>, i: nat): u32
    requires i + 4 <= |s|
  {
    (Get16(s, i) as int) + 0x1_0000 * (Get16(s, i + 2) as int)
  }

  /** `piece` is what stands in `s` from position `i` on. */
  predicate At(s: seq<byte>, i: nat, piece: seq<byte>) {
    i + |piece| <= |s| && s[i..i + |piece|] == piece
  }

  lemma AtIndex(s: seq<byte>, i: nat, piece: seq<byte>, k: nat)
    requires At(s, i, piece) && k < |piece|
    ensures s[i + k] == piece[k]
  {
    assert s[i + k] == s[i..i + |piece|][k];
  }

  lemma AtSplit(s: seq<byte>, i: nat, a: seq<byte>, b: seq<byte>)
    requires At(s, i, a + b)
    ensures At(s, i, a) && At(s, i + |a|, b)
  {
    var piece := s[i..i + |a + b|];
    assert s[i..i + |a|] == piece[..|a|] == a;
    assert s[i + |a|..i + |a| + |b|] == piece[|a|..] == b;
  }

  lemma AtAppend(a: seq<byte>, b: seq<byte>)
    ensures At(a + b, 0, a) && At(a + b, |a|, b)
  {
  }

  lemma AtPut16(s: seq<byte>, i: nat, v: u16)
    requires At(s, i, Put16(v))
    ensures Get16(s, i) == v
  {
    AtIndex(s, i, Put16(v), 0);
    AtIndex(s, i, Put16(v), 1);
  }

  lemma AtPut32(s: seq<byte>, i: nat, v: u32)
    requires At(s, i, Put32(v))
    ensures Get32(s, i) == v
  {
    AtSplit(s, i, Put16(v % 0x1_0000), Put16(v / 0x1_0000));
    AtPut16(s, i, v % 0x1_0000);
    AtPut16(s, i + 2, v / 0x1_0000);
  }

  function Flatten(pieces: seq<seq<byte>>): seq<byte> {
    if pieces == [] then [] else pieces[0] + Flatten(pieces[1..])
  }

  /** The 32-bit words `ps`, one after the other. */
  function PutWords(ps: seq<u32>): (s: seq<byte>)
    ensures |s| == 4 * |ps|
  {
    if ps == [] then [] else PutWords(ps[..|ps| - 1]) + Put32(ps[|ps| - 1])
  }

  lemma {:induction false} AtPutWords(s: seq<byte>, i: nat, ps: seq<u32>, k: nat)
    requires At(s, i, PutWords(ps)) && k < |ps|
    ensures i + 4 * k + 4 <= |s| && Get32(s, i + 4 * k) == ps[k]
  {
    var n := |ps| - 1;
    var before := ps[..n];
    AtSplit(s, i, PutWords(before), Put32(ps[n]));
    if k == n {
      AtPut32(s, i + 4 * n, ps[n]);
    } else {
      AtPutWords(s, i, before, k);
    }
  }
}
