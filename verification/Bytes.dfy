/** Bytes and little-endian integers. */
module Bytes {
  import opened Basics

  type Byte = x: int | 0 <= x < 0x100

  type U16 = x: int | 0 <= x < 0x1_0000

  type U32 = x: int | 0 <= x < 0x1_0000_0000

  /** `u16::to_le_bytes`. */
  function Le16(v: U16): (r: seq<Byte>)
    ensures |r| == 2
  {
    [v % 0x100, v / 0x100]
  }

  /** `u32::to_le_bytes`. */
  function Le32(v: U32): (r: seq<Byte>)
    ensures |r| == 4
  {
    [v % 0x100, v / 0x100 % 0x100, v / 0x1_0000 % 0x100, v / 0x100_0000]
  }

  function FromLe16(a: Byte, b: Byte): U16 { a + 0x100 * b }

  function FromLe32(a: Byte, b: Byte, c: Byte, d: Byte): U32 { a + 0x100 * b + 0x1_0000 * c + 0x100_0000 * d }

  function U16At(b: seq<Byte>, at: nat): Option<U16> {
    if at + 2 <= |b| then Some(FromLe16(b[at], b[at + 1])) else None
  }

  function U32At(b: seq<Byte>, at: nat): Option<U32> {
    if at + 4 <= |b| then Some(FromLe32(b[at], b[at + 1], b[at + 2], b[at + 3])) else None
  }

  lemma Le16RoundTrip(v: U16)
    ensures var r := Le16(v); FromLe16(r[0], r[1]) == v
  {
  }

  lemma Le32RoundTrip(v: U32)
    ensures var r := Le32(v); FromLe32(r[0], r[1], r[2], r[3]) == v
  {
    var a, b := v / 0x100, v / 0x1_0000;
    assert v == v % 0x100 + 0x100 * a;
    assert b == a / 0x100 && a == a % 0x100 + 0x100 * b;
    assert v / 0x100_0000 == b / 0x100 && b == b % 0x100 + 0x100 * (b / 0x100);
  }

  /** `piece` stands in `s` at `at`. */
  ghost predicate At(s: seq<Byte>, at: nat, piece: seq<Byte>) {
    at + |piece| <= |s| && forall k :: 0 <= k < |piece| ==> s[at + k] == piece[k]
  }

  lemma AtSplit(s: seq<Byte>, at: nat, a: seq<Byte>, b: seq<Byte>)
    requires At(s, at, a + b)
    ensures At(s, at, a) && At(s, at + |a|, b)
  {
    assert forall k :: 0 <= k < |a| ==> a[k] == (a + b)[k];
    assert forall k :: 0 <= k < |b| ==> b[k] == (a + b)[|a| + k];
  }

  lemma AtSlice(s: seq<Byte>, at: nat, piece: seq<Byte>)
    requires At(s, at, piece)
    ensures s[at..at + |piece|] == piece
  {
  }

  /** Reading a little-endian integer where it was written. */
  lemma ReadsBack16(s: seq<Byte>, at: nat, v: U16)
    requires At(s, at, Le16(v))
    ensures U16At(s, at) == Some(v)
  {
    var r := Le16(v);
    assert s[at + 0] == r[0] && s[at + 1] == r[1];
    Le16RoundTrip(v);
  }

  lemma ReadsBack32(s: seq<Byte>, at: nat, v: U32)
    requires At(s, at, Le32(v))
    ensures U32At(s, at) == Some(v)
  {
    var r := Le32(v);
    assert s[at + 0] == r[0] && s[at + 1] == r[1] && s[at + 2] == r[2] && s[at + 3] == r[3];
    Le32RoundTrip(v);
  }
}
