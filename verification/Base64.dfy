/**
 Base64 (`base64_encode` and `base64_decode` in src/info.rs), against the bit-level
 definition of section 4 of RFC 4648.
 */
module Base64 {
  import opened Basics
  import opened Bytes
  import opened Text

  const TABLE: string := "ABCDEFGHIJKLMNOPQRSTUVWXYZ" + "abcdefghijklmnopqrstuvwxyz" + "0123456789+/"

  /** `TABLE[v]`. */
  function TableAt(v: nat): char
    requires v < 64
  {
    TABLE[v]
  }

  // ---- Bits ----------------------------------------------------------------------------

  function Pow2(k: nat): (r: nat)
    ensures r > 0
  {
    if k == 0 then 1 else 2 * Pow2(k - 1)
  }

  /** The low `w` bits of `v`, most significant first. */
  function BitsOf(v: nat, w: nat): (r: seq<bool>)
    ensures |r| == w
  {
    if w == 0 then [] else BitsOf(v / 2, w - 1) + [v % 2 == 1]
  }

  function FromBits(bits: seq<bool>): nat {
    if bits == [] then 0
    else 2 * FromBits(bits[..|bits| - 1]) + if bits[|bits| - 1] then 1 else 0
  }

  lemma {:induction false} BitsRoundTrip(v: nat, w: nat)
    requires v < Pow2(w)
    ensures FromBits(BitsOf(v, w)) == v
  {
    if w > 0 {
      BitsRoundTrip(v / 2, w - 1);
      assert BitsOf(v, w)[..w - 1] == BitsOf(v / 2, w - 1);
    }
  }

  lemma {:induction false} FromBitsRange(bits: seq<bool>)
    ensures FromBits(bits) < Pow2(|bits|)
  {
    if bits != [] { FromBitsRange(bits[..|bits| - 1]); }
  }

  /** Shifting `a` left by `k` and putting `b` below it concatenates their bits. */
  lemma {:induction false} BitsConcat(a: nat, b: nat, w: nat, k: nat)
    requires b < Pow2(k)
    ensures BitsOf(a * Pow2(k) + b, w + k) == BitsOf(a, w) + BitsOf(b, k)
    decreases k
  {
    if k > 0 {
      Halved(a, Pow2(k - 1), b);
      BitsConcat(a, b / 2, w, k - 1);
    } else {
      assert BitsOf(b, 0) == [];
    }
  }

  lemma Halved(a: nat, p: nat, b: nat)
    ensures var v := a * (2 * p) + b; v / 2 == a * p + b / 2 && v % 2 == b % 2
  {
    var n := a * p;
    assert a * (2 * p) + b == 2 * n + b;
  }

  function AllBits(bytes: seq<Byte>): (r: seq<bool>)
    ensures |r| == 8 * |bytes|
  {
    if bytes == [] then [] else BitsOf(bytes[0], 8) + AllBits(bytes[1..])
  }

  lemma {:induction false} AllBitsSnoc(bytes: seq<Byte>, b: Byte)
    ensures AllBits(bytes + [b]) == AllBits(bytes) + BitsOf(b, 8)
  {
    if bytes == [] {
      assert [b][1..] == [];
    } else {
      assert (bytes + [b])[1..] == bytes[1..] + [b];
      AllBitsSnoc(bytes[1..], b);
    }
  }

  /** Whole bytes of a bit string; what is left over is dropped. */
  function WholeBytes(bits: seq<bool>): seq<Byte>
    decreases |bits|
  {
    if |bits| < 8 then []
    else
      FromBitsRange(bits[..8]);
      Pow2Of8();
      [FromBits(bits[..8])] + WholeBytes(bits[8..])
  }

  lemma Pow2Of8()
    ensures Pow2(2) == 4 && Pow2(4) == 16 && Pow2(6) == 64 && Pow2(8) == 256
  {
  }

  lemma FirstEight(first: seq<bool>, more: seq<bool>, rest: seq<bool>)
    requires |first| == 8
    ensures (first + more + rest)[..8] == first && (first + more + rest)[8..] == more + rest
  {
  }

  lemma {:induction false} WholeBytesOf(bytes: seq<Byte>, rest: seq<bool>)
    requires |rest| < 8
    ensures WholeBytes(AllBits(bytes) + rest) == bytes
  {
    if bytes != [] {
      hide FromBits;
      hide BitsOf;
      hide Pow2;
      var first, more := BitsOf(bytes[0], 8), AllBits(bytes[1..]);
      var bits := AllBits(bytes) + rest;
      Pow2Of8();
      BitsRoundTrip(bytes[0], 8);
      FirstEight(first, more, rest);
      WholeBytesOf(bytes[1..], rest);
      assert bits == first + more + rest;
      hide AllBits;
    }
  }

  // ---- The standard ----------------------------------------------------------------------

  /** Table 1 of RFC 4648. */
  function Symbol(v: nat): char
    requires v < 64
  {
    if v < 26 then ('A' as int + v) as char
    else if v < 52 then ('a' as int + v - 26) as char
    else if v < 62 then ('0' as int + v - 52) as char
    else if v == 62 then '+'
    else '/'
  }

  /** One symbol for each whole six bits. */
  function Symbols(bits: seq<bool>): (r: string)
    decreases |bits|
  {
    if |bits| < 6 then ""
    else
      FromBitsRange(bits[..6]);
      Pow2Of8();
      [Symbol(FromBits(bits[..6]))] + Symbols(bits[6..])
  }

  function ZeroBits(n: nat): (r: seq<bool>)
    ensures |r| == n
  {
    if n == 0 then [] else [false] + ZeroBits(n - 1)
  }

  function Repeat(c: char, n: nat): (r: string)
    ensures |r| == n
    ensures forall k :: 0 <= k < n ==> r[k] == c
  {
    if n == 0 then "" else [c] + Repeat(c, n - 1)
  }

  /** Section 4: the bits, zero bits up to a multiple of six, one symbol for every six, and
      `=` up to a multiple of four symbols. */
  function RfcEncode(bytes: seq<Byte>): string {
    var symbols := Symbols(PaddedBits(bytes));
    symbols + Repeat('=', PadSymbols(|symbols|))
  }

  function PaddedBits(bytes: seq<Byte>): (r: seq<bool>)
    ensures |r| % 6 == 0
  {
    AllBits(bytes) + ZeroBits(PadBits(|bytes|))
  }

  /** How many zero bits bring `n` bytes to a multiple of six bits. */
  function PadBits(n: nat): (r: nat)
    ensures r < 6 && (8 * n + r) % 6 == 0
  {
    var m := n / 3;
    assert 8 * n == 6 * (4 * m) + 8 * (n % 3);
    if n % 3 == 0 then 0 else if n % 3 == 1 then 4 else 2
  }

  /** How many `=` bring `n` symbols to a multiple of four. */
  function PadSymbols(n: nat): (r: nat)
    ensures r < 4 && (n + r) % 4 == 0
  {
    if n % 4 == 0 then 0 else 4 - n % 4
  }

  // ---- The encoder -------------------------------------------------------------------------

  /** A chunk's bytes in one 24-bit number, missing ones zero. */
  function Triple(chunk: seq<Byte>): (r: U32)
    requires 1 <= |chunk| <= 3
    ensures r < 0x100_0000
  {
    var b0: U32, b1: U32, b2: U32 := chunk[0], if |chunk| > 1 then chunk[1] else 0, if |chunk| > 2 then chunk[2] else 0;
    b0 * 0x1_0000 + b1 * 0x100 + b2
  }

  /** One chunk of one to three bytes, from the shifts and masks of its 24-bit number. */
  function EncodeChunk(chunk: seq<Byte>): (r: string)
    requires 1 <= |chunk| <= 3
    ensures |r| == 4
  {
    var triple := Triple(chunk);
    [TableAt(triple / 0x4_0000 % 64), TableAt(triple / 0x1000 % 64),
     if |chunk| > 1 then TableAt(triple / 64 % 64) else '=',
     if |chunk| > 2 then TableAt(triple % 64) else '=']
  }

  function Encode(bytes: seq<Byte>): string {
    if |bytes| <= 3 then if bytes == [] then "" else EncodeChunk(bytes)
    else EncodeChunk(bytes[..3]) + Encode(bytes[3..])
  }

  method Base64Encode(input: seq<Byte>) returns (out: string)
    ensures out == RfcEncode(input)
    ensures |out| == (|input| + 2) / 3 * 4
  {
    hide Encode;
    hide RfcEncode;
    hide TableAt;
    out := "";
    var i := 0;
    while i < |input|
      invariant i <= |input| && out + Encode(input[i..]) == Encode(input)
    {
      var n := if i + 3 <= |input| then 3 else |input| - i;
      ghost var was, rest := out, input[i..];
      out := EncodeOne(out, input[i..i + n]);
      assert rest[..n] == input[i..i + n] && rest[n..] == input[i + n..];
      EncodeStep(rest, n);
      Regroup(was, EncodeChunk(input[i..i + n]), Encode(input[i + n..]));
      i := i + n;
    }
    EncodeNothing(input[|input|..]);
    assert out + "" == out;
    EncodeIsRfc(input);
    EncodeLength(input);
  }

  /** The body of the loop: appends one chunk's four characters. */
  method EncodeOne(soFar: string, chunk: seq<Byte>) returns (out: string)
    requires 1 <= |chunk| <= 3
    ensures out == soFar + EncodeChunk(chunk)
  {
    hide TableAt;
    var b0: U32 := chunk[0];
    var b1: U32 := if |chunk| > 1 then chunk[1] else 0;
    var b2: U32 := if |chunk| > 2 then chunk[2] else 0;
    var triple := b0 * 0x1_0000 + b1 * 0x100 + b2;
    assert triple == Triple(chunk);
    out := soFar + [TableAt(triple / 0x4_0000 % 64)];
    out := out + [TableAt(triple / 0x1000 % 64)];
    if |chunk| > 1 { out := out + [TableAt(triple / 64 % 64)]; } else { out := out + ['=']; }
    if |chunk| > 2 { out := out + [TableAt(triple % 64)]; } else { out := out + ['=']; }
  }

  lemma EncodeNothing(bytes: seq<Byte>)
    requires bytes == []
    ensures Encode(bytes) == ""
  {
  }

  lemma EncodeStep(bytes: seq<Byte>, n: nat)
    requires bytes != [] && n == if |bytes| >= 3 then 3 else |bytes|
    ensures Encode(bytes) == EncodeChunk(bytes[..n]) + Encode(bytes[n..])
  {
    hide EncodeChunk;
    if |bytes| <= 3 { assert bytes[..n] == bytes && bytes[n..] == []; }
  }

  lemma {:induction false} EncodeLength(bytes: seq<Byte>)
    ensures |Encode(bytes)| == (|bytes| + 2) / 3 * 4
  {
    hide EncodeChunk;
    if |bytes| > 3 {
      EncodeLength(bytes[3..]);
      assert (|bytes| + 2) / 3 == (|bytes| - 3 + 2) / 3 + 1;
    }
  }

  lemma UpperLetters(k: nat)
    requires k < 26
    ensures "ABCDEFGHIJKLMNOPQRSTUVWXYZ"[k] as int == 'A' as int + k
  {
  }

  lemma LowerLetters(k: nat)
    requires k < 26
    ensures "abcdefghijklmnopqrstuvwxyz"[k] as int == 'a' as int + k
  {
  }

  /** The table is the standard's. */
  lemma TableIsSymbol(v: nat)
    requires v < 64
    ensures TableAt(v) == Symbol(v)
  {
    Pieces("ABCDEFGHIJKLMNOPQRSTUVWXYZ", "abcdefghijklmnopqrstuvwxyz", "0123456789+/", v);
    if v < 26 {
      UpperLetters(v);
    } else if v < 52 {
      LowerLetters(v - 26);
    } else {
      OtherSymbols(v - 52);
    }
  }

  lemma OtherSymbols(k: nat)
    requires k < 12
    ensures "0123456789+/"[k] == if k < 10 then ('0' as int + k) as char else if k == 10 then '+' else '/'
  {
  }

  lemma Pieces(a: string, b: string, c: string, k: nat)
    requires k < |a| + |b| + |c|
    ensures (a + b + c)[k] == if k < |a| then a[k] else if k < |a| + |b| then b[k - |a|] else c[k - |a| - |b|]
  {
  }

  lemma SymbolsStep(v: nat, bits: seq<bool>)
    requires v < 64
    ensures Symbols(BitsOf(v, 6) + bits) == [Symbol(v)] + Symbols(bits)
  {
    hide BitsOf;
    hide FromBits;
    var all := BitsOf(v, 6) + bits;
    Pow2Of8();
    BitsRoundTrip(v, 6);
    assert all[..6] == BitsOf(v, 6) && all[6..] == bits;
  }

  lemma BitsConcat8(a: nat, b: nat, w: nat)
    requires b < 256
    ensures BitsOf(a * 256 + b, w + 8) == BitsOf(a, w) + BitsOf(b, 8)
  {
    Pow2Of8();
    BitsConcat(a, b, w, 8);
  }

  lemma BitsConcat6(a: nat, b: nat, w: nat)
    requires b < 64
    ensures BitsOf(a * 64 + b, w + 6) == BitsOf(a, w) + BitsOf(b, 6)
  {
    Pow2Of8();
    BitsConcat(a, b, w, 6);
  }

  /** Three bytes are four sextets. */
  lemma TripleBits(b0: Byte, b1: Byte, b2: Byte, t: nat)
    requires t == b0 as int * 0x1_0000 + b1 as int * 0x100 + b2 as int
    ensures BitsOf(b0, 8) + BitsOf(b1, 8) + BitsOf(b2, 8)
            == BitsOf(t / 0x4_0000 % 64, 6) + BitsOf(t / 0x1000 % 64, 6) + BitsOf(t / 64 % 64, 6) + BitsOf(t % 64, 6)
  {
    hide BitsOf;
    BitsConcat8(b0, b1, 8);
    BitsConcat8(b0 * 256 + b1, b2, 16);
    assert (b0 * 256 + b1) * 256 + b2 == t;
    Quotients(t);
    BitsConcat6(t / 0x4_0000, t / 0x1000 % 64, 6);
    BitsConcat6(t / 0x1000, t / 64 % 64, 12);
    BitsConcat6(t / 64, t % 64, 18);
  }

  lemma Quotients(t: nat)
    requires t < 0x100_0000
    ensures t == t / 64 * 64 + t % 64
    ensures t / 64 == t / 0x1000 * 64 + t / 64 % 64
    ensures t / 0x1000 == t / 0x4_0000 * 64 + t / 0x1000 % 64
    ensures t / 0x4_0000 % 64 == t / 0x4_0000
  {
  }

  lemma ZeroBitsOf(n: nat)
    ensures ZeroBits(n) == BitsOf(0, n)
  {
    if n > 0 {
      ZeroBitsOf(n - 1);
      ZeroBitsSnoc(n - 1);
    }
  }

  lemma {:induction false} ZeroBitsSnoc(n: nat)
    ensures ZeroBits(n + 1) == ZeroBits(n) + [false]
  {
    if n > 0 { ZeroBitsSnoc(n - 1); }
  }

  lemma AllBitsOf(bytes: seq<Byte>, n: nat)
    requires n <= |bytes|
    ensures AllBits(bytes) == AllBits(bytes[..n]) + AllBits(bytes[n..])
    decreases n
  {
    if n > 0 {
      AllBitsOf(bytes[1..], n - 1);
      assert bytes[1..][..n - 1] == bytes[..n][1..] && bytes[1..][n - 1..] == bytes[n..];
    }
  }

  lemma TwoMore(a: char, b: char, text: string)
    ensures [a] + ([b] + text) == [a, b] + text
  {
  }

  /** The symbols of two sextets in a row. */
  lemma TwoSymbols(a: nat, b: nat, bits: seq<bool>)
    requires a < 64 && b < 64
    ensures Symbols(BitsOf(a, 6) + BitsOf(b, 6) + bits) == [Symbol(a), Symbol(b)] + Symbols(bits)
  {
    hide BitsOf;
    hide Symbols;
    hide Symbol;
    var x, y := BitsOf(a, 6), BitsOf(b, 6);
    Regroup(x, y, bits);
    SymbolsStep(b, bits);
    SymbolsStep(a, y + bits);
    TwoMore(Symbol(a), Symbol(b), Symbols(bits));
  }

  /** The symbols of four sextets in a row. */
  lemma FourSymbols(a: nat, b: nat, c: nat, d: nat, bits: seq<bool>)
    requires a < 64 && b < 64 && c < 64 && d < 64
    ensures Symbols(BitsOf(a, 6) + BitsOf(b, 6) + BitsOf(c, 6) + BitsOf(d, 6) + bits)
            == [Symbol(a), Symbol(b), Symbol(c), Symbol(d)] + Symbols(bits)
  {
    hide BitsOf;
    hide Symbols;
    hide Symbol;
    var front, z, w := BitsOf(a, 6) + BitsOf(b, 6), BitsOf(c, 6), BitsOf(d, 6);
    TwoSymbols(c, d, bits);
    TwoSymbols(a, b, z + w + bits);
    Regroup5(front, z, w, bits);
    FourMore(Symbol(a), Symbol(b), Symbol(c), Symbol(d), Symbols(bits));
  }

  lemma FourMore(a: char, b: char, c: char, d: char, text: string)
    ensures [a, b] + ([c, d] + text) == [a, b, c, d] + text
  {
  }

  lemma Regroup5(x: seq<bool>, z: seq<bool>, w: seq<bool>, bits: seq<bool>)
    ensures x + z + w + bits == x + (z + w + bits)
  {
  }

  lemma ChunkBits(chunk: seq<Byte>)
    requires |chunk| == 3
    ensures AllBits(chunk) == BitsOf(chunk[0], 8) + BitsOf(chunk[1], 8) + BitsOf(chunk[2], 8)
  {
    hide BitsOf;
    var a, b, c := chunk[0], chunk[1], chunk[2];
    assert chunk == [] + [a] + [b] + [c];
    AllBitsSnoc([], a);
    AllBitsSnoc([] + [a], b);
    AllBitsSnoc([] + [a] + [b], c);
  }

  lemma FullChunk(chunk: seq<Byte>, bits: seq<bool>)
    requires |chunk| == 3
    ensures Symbols(AllBits(chunk) + bits) == EncodeChunk(chunk) + Symbols(bits)
  {
    hide BitsOf;
    hide Symbols;
    hide Symbol;
    hide TableAt;
    hide AllBits;
    ChunkBits(chunk);
    var t := Triple(chunk);
    TripleBits(chunk[0], chunk[1], chunk[2], t);
    FourSymbols(t / 0x4_0000 % 64, t / 0x1000 % 64, t / 64 % 64, t % 64, bits);
    TableIsSymbol(t / 0x4_0000 % 64);
    TableIsSymbol(t / 0x1000 % 64);
    TableIsSymbol(t / 64 % 64);
    TableIsSymbol(t % 64);
  }

  /** Symbols of a prefix of whole sextets. */
  lemma {:induction false} SymbolsPrefix(bits: seq<bool>, n: nat)
    requires 6 * n <= |bits|
    ensures n <= |Symbols(bits)|
    ensures Symbols(bits[..6 * n]) == Symbols(bits)[..n]
    decreases n
  {
    if n > 0 {
      SymbolsPrefix(bits[6..], n - 1);
      assert bits[..6 * n][..6] == bits[..6];
      assert bits[..6 * n][6..] == bits[6..][..6 * (n - 1)];
    } else {
      assert bits[..6 * n] == [];
    }
  }

  lemma {:induction false} AllBitsJoin(a: seq<Byte>, b: seq<Byte>)
    ensures AllBits(a + b) == AllBits(a) + AllBits(b)
  {
    AllBitsOf(a + b, |a|);
    assert (a + b)[..|a|] == a && (a + b)[|a|..] == b;
  }

  lemma {:induction false} ZeroBytes(n: nat)
    ensures AllBits(seq(n, _ => 0)) == ZeroBits(8 * n)
  {
    if n > 0 {
      var zeros: seq<Byte> := seq(n, _ => 0);
      assert zeros[1..] == seq(n - 1, _ => 0);
      ZeroBytes(n - 1);
      ZeroBitsOf(8);
      ZeroBitsJoin(8, 8 * (n - 1));
    }
  }

  lemma {:induction false} ZeroBitsJoin(a: nat, b: nat)
    ensures ZeroBits(a + b) == ZeroBits(a) + ZeroBits(b)
  {
    if a > 0 { ZeroBitsJoin(a - 1, b); }
  }

  /** A short last chunk: its symbols are the first ones of the chunk filled up with zero
      bytes. */
  lemma ShortChunk(chunk: seq<Byte>)
    requires 1 <= |chunk| <= 2
    ensures Symbols(PaddedBits(chunk)) == EncodeChunk(chunk)[..|chunk| + 1]
  {
    hide Symbols;
    hide AllBits;
    hide TableAt;
    hide ZeroBits;
    var n := |chunk|;
    var zeros: seq<Byte> := seq(3 - n, _ => 0);
    var full := chunk + zeros;
    FullChunkAlone(full);
    FilledBits(chunk, zeros);
    SymbolsPrefix(AllBits(full), n + 1);
    assert Triple(full) == Triple(chunk);
    assert EncodeChunk(full)[..n + 1] == EncodeChunk(chunk)[..n + 1];
  }

  lemma FullChunkAlone(chunk: seq<Byte>)
    requires |chunk| == 3
    ensures Symbols(AllBits(chunk)) == EncodeChunk(chunk)
  {
    hide AllBits;
    hide EncodeChunk;
    FullChunk(chunk, []);
    assert AllBits(chunk) + [] == AllBits(chunk) && EncodeChunk(chunk) + "" == EncodeChunk(chunk);
  }

  /** The padded bits of a short chunk are the first bits of the filled one. */
  lemma FilledBits(chunk: seq<Byte>, zeros: seq<Byte>)
    requires 1 <= |chunk| <= 2 && zeros == seq(3 - |chunk|, _ => 0)
    ensures AllBits(chunk + zeros)[..6 * (|chunk| + 1)] == PaddedBits(chunk)
  {
    hide AllBits;
    hide ZeroBits;
    var n := |chunk|;
    AllBitsJoin(chunk, zeros);
    ZeroBytes(3 - n);
    ZeroBitsJoin(PadBits(n), 8 * (3 - n) - PadBits(n));
    var pad, more := ZeroBits(PadBits(n)), ZeroBits(8 * (3 - n) - PadBits(n));
    assert AllBits(chunk) + (pad + more) == (AllBits(chunk) + pad) + more;
    assert |AllBits(chunk) + pad| == 6 * (n + 1);
  }

  lemma RfcEncodeLast(bytes: seq<Byte>)
    requires |bytes| <= 3
    ensures RfcEncode(bytes) == Encode(bytes)
  {
    hide RfcEncode;
    hide EncodeChunk;
    if |bytes| == 3 {
      RfcEncodeThree(bytes);
    } else if bytes != [] {
      RfcEncodeShort(bytes);
    } else {
      NoSymbols();
    }
  }

  lemma RfcEncodeThree(bytes: seq<Byte>)
    requires |bytes| == 3
    ensures RfcEncode(bytes) == EncodeChunk(bytes)
  {
    hide Symbols;
    hide EncodeChunk;
    hide AllBits;
    FullChunkAlone(bytes);
    assert PaddedBits(bytes) == AllBits(bytes);
    assert EncodeChunk(bytes) + "" == EncodeChunk(bytes);
  }

  lemma RfcEncodeShort(bytes: seq<Byte>)
    requires 1 <= |bytes| <= 2
    ensures RfcEncode(bytes) == EncodeChunk(bytes)
  {
    hide Symbols;
    hide TableAt;
    hide PaddedBits;
    hide Repeat;
    hide Triple;
    ShortChunk(bytes);
    var symbols := EncodeChunk(bytes)[..|bytes| + 1];
    var padding := Repeat('=', 3 - |bytes|);
    assert EncodeChunk(bytes) == symbols + padding;
  }

  lemma NoSymbols()
    ensures RfcEncode([]) == ""
  {
  }

  lemma RfcEncodeStep(bytes: seq<Byte>)
    requires |bytes| > 3
    ensures RfcEncode(bytes) == EncodeChunk(bytes[..3]) + RfcEncode(bytes[3..])
  {
    hide Symbols;
    hide AllBits;
    hide EncodeChunk;
    hide ZeroBits;
    hide Repeat;
    var chunk, rest := bytes[..3], bytes[3..];
    AllBitsOf(bytes, 3);
    assert PadBits(|bytes|) == PadBits(|rest|);
    var zeros := ZeroBits(PadBits(|rest|));
    FullChunk(chunk, PaddedBits(rest));
    assert AllBits(bytes) + zeros == AllBits(chunk) + (AllBits(rest) + zeros);
    var symbols := Symbols(PaddedBits(rest));
    Regroup(EncodeChunk(chunk), symbols, Repeat('=', PadSymbols(|symbols|)));
  }

  /** The shifts and masks compute what section 4 of RFC 4648 defines on bits. */
  lemma {:induction false} EncodeIsRfc(bytes: seq<Byte>)
    ensures Encode(bytes) == RfcEncode(bytes)
  {
    hide RfcEncode;
    hide EncodeChunk;
    if |bytes| <= 3 {
      RfcEncodeLast(bytes);
    } else {
      EncodeIsRfc(bytes[3..]);
      RfcEncodeStep(bytes);
    }
  }

  // ---- The decoder ---------------------------------------------------------------------------

  /** `TABLE.iter().position`. */
  function Position(c: char): Option<nat> {
    var n := FindAny(TABLE, {c});
    if n < |TABLE| then Some(n) else None
  }

  lemma PositionInTable(c: char)
    ensures match Position(c)
            case None => forall k :: 0 <= k < 64 ==> TableAt(k) != c
            case Some(n) => n < 64 && TableAt(n) == c
  {
    hide FindAny;
  }

  lemma PositionOfSymbol(v: nat)
    requires v < 64
    ensures Position(Symbol(v)) == Some(v)
  {
    hide Position;
    hide Symbol;
    hide TableAt;
    PositionInTable(Symbol(v));
    TableIsSymbol(v);
    var n := Position(Symbol(v)).value;
    TableIsSymbol(n);
    SymbolsDiffer(n, v);
  }

  lemma SymbolsDiffer(a: nat, b: nat)
    requires a < 64 && b < 64 && Symbol(a) == Symbol(b)
    ensures a == b
  {
  }

  /** The bits a text carries: six for each symbol before the first `=`; anything else is
      skipped. */
  function TextBits(text: string): seq<bool> {
    if text == "" || text[0] == '=' then []
    else (match Position(text[0]) case None => [] case Some(v) => BitsOf(v, 6)) + TextBits(text[1..])
  }

  /** On any text at all the decoder delivers the whole bytes of the bits it carries. Its
      accumulator stays below 2^bits with fewer than eight bits between symbols and below
      2^14 inside a step, so nothing is shifted out of its 32 bits. */
  method Base64Decode(input: string) returns (out: seq<Byte>)
    ensures out == WholeBytes(TextBits(input))
  {
    hide BitsOf;
    hide AllBits;
    hide TextBits;
    hide WholeBytes;
    hide Position;
    hide Pow2;
    hide Carried;
    out := [];
    var buf: U32, bits: U32 := 0, 0;
    var i := 0;
    Empty(input);
    while i < |input|
      invariant i <= |input| && bits < 8 && buf < Pow2(bits)
      invariant Carried(out, buf, bits, TextBits(input[i..])) == TextBits(input)
    {
      var b := input[i];
      TextBitsStep(input, i);
      if b == '=' {
        CarriedEnd(out, buf, bits);
        return;
      }
      var val := Position(b);
      i := i + 1;
      if val.Some? {
        out, buf, bits := TakeSymbol(out, buf, bits, val.value, TextBits(input[i..]));
      }
    }
    TextBitsNone(input[|input|..]);
    CarriedEnd(out, buf, bits);
  }

  /** `buf >> low`, and what is left below. */
  function High(buf: nat, low: nat): int { buf / Pow2(low) }

  function Low(buf: nat, low: nat): int { buf % Pow2(low) }

  /** The decoder's turn for one symbol: six more bits, and a byte as soon as there are eight. */
  method TakeSymbol(soFar: seq<Byte>, carry: U32, carried: U32, val: nat, ghost rest: seq<bool>)
    returns (out: seq<Byte>, buf: U32, bits: U32)
    requires carried < 8 && carry < Pow2(carried) && val < 64
    ensures bits < 8 && buf < Pow2(bits)
    ensures Carried(out, buf, bits, rest) == Carried(soFar, carry, carried, BitsOf(val, 6) + rest)
  {
    hide BitsOf;
    hide Pow2;
    hide Carried;
    hide High;
    hide Low;
    Shifted(carry, carried, val);
    CarriedShift(soFar, carry, carried, val, rest);
    out, buf, bits := soFar, carry * 64 + val, carried + 6;
    if bits >= 8 {
      bits := bits - 8;
      Split8(buf, bits);
      var byte: Byte := High(buf, bits);
      CarriedByte(out, buf, bits + 8, byte, Low(buf, bits), bits, rest);
      out := out + [byte];
      buf := Low(buf, bits);
    }
  }

  /** The bits already delivered, those in the accumulator, and those still to come. */
  ghost function Carried(out: seq<Byte>, buf: nat, bits: nat, rest: seq<bool>): seq<bool> {
    AllBits(out) + BitsOf(buf, bits) + rest
  }

  lemma Empty(input: string)
    ensures Carried([], 0, 0, TextBits(input[0..])) == TextBits(input) && 0 < Pow2(0)
  {
    assert input[0..] == input;
  }

  lemma TextBitsNone(text: string)
    requires text == ""
    ensures TextBits(text) == []
  {
  }

  lemma TextBitsStep(input: string, i: nat)
    requires i < |input|
    ensures input[i] == '=' ==> TextBits(input[i..]) == []
    ensures input[i] != '=' ==>
              TextBits(input[i..])
              == (match Position(input[i])
                  case None => TextBits(input[i + 1..])
                  case Some(v) => BitsOf(v, 6) + TextBits(input[i + 1..]))
    ensures Position(input[i]).Some? ==> Position(input[i]).value < 64
  {
    hide Position;
    hide BitsOf;
    assert input[i..][0] == input[i] && input[i..][1..] == input[i + 1..];
    PositionBelow(input[i]);
  }

  lemma PositionBelow(c: char)
    ensures Position(c).Some? ==> Position(c).value < 64
  {
  }

  lemma CarriedEnd(out: seq<Byte>, buf: nat, bits: nat)
    requires bits < 8
    ensures out == WholeBytes(Carried(out, buf, bits, []))
  {
    hide WholeBytes;
    hide BitsOf;
    assert AllBits(out) + BitsOf(buf, bits) + [] == AllBits(out) + BitsOf(buf, bits);
    WholeBytesOf(out, BitsOf(buf, bits));
  }

  lemma CarriedShift(out: seq<Byte>, buf: nat, bits: nat, val: nat, rest: seq<bool>)
    requires BitsOf(buf * 64 + val, bits + 6) == BitsOf(buf, bits) + BitsOf(val, 6)
    ensures Carried(out, buf, bits, BitsOf(val, 6) + rest) == Carried(out, buf * 64 + val, bits + 6, rest)
  {
    hide BitsOf;
    hide AllBits;
  }

  lemma CarriedByte(out: seq<Byte>, v: nat, w: nat, byte: Byte, left: nat, low: nat, rest: seq<bool>)
    requires BitsOf(v, w) == BitsOf(byte, 8) + BitsOf(left, low)
    ensures Carried(out, v, w, rest) == Carried(out + [byte], left, low, rest)
  {
    hide BitsOf;
    hide AllBits;
    AllBitsSnoc(out, byte);
  }

  lemma Shifted(buf: nat, bits: nat, val: nat)
    requires bits < 8 && buf < Pow2(bits) && val < 64
    ensures buf * 64 + val < Pow2(bits + 6) <= 0x4000
    ensures BitsOf(buf * 64 + val, bits + 6) == BitsOf(buf, bits) + BitsOf(val, 6)
  {
    Pow2Of8();
    Pow2Sum(bits, 6);
    Pow2Order(bits + 6, 14);
    BitsConcat(buf, val, bits, 6);
  }

  lemma {:induction false} Pow2Sum(a: nat, b: nat)
    ensures Pow2(a + b) == Pow2(a) * Pow2(b)
  {
    if a > 0 {
      Pow2Sum(a - 1, b);
      assert Pow2(a + b) == 2 * Pow2(a - 1 + b);
    }
  }

  lemma {:induction false} Pow2Order(a: nat, b: nat)
    requires a <= b
    ensures Pow2(a) <= Pow2(b)
  {
    if a < b { Pow2Order(a, b - 1); }
  }

  lemma Split8(buf: nat, low: nat)
    requires buf < Pow2(low + 8)
    ensures 0 <= High(buf, low) < 256 && 0 <= Low(buf, low) < Pow2(low) && Low(buf, low) <= buf
    ensures BitsOf(buf, low + 8) == BitsOf(High(buf, low), 8) + BitsOf(Low(buf, low), low)
  {
    Pow2Of8();
    Pow2Sum(low, 8);
    DivBelow(buf, Pow2(low), 256);
    BitsConcat(buf / Pow2(low), buf % Pow2(low), 8, low);
  }

  lemma DivBelow(n: nat, d: nat, m: nat)
    requires d > 0 && n < d * m
    ensures 0 <= n / d < m && 0 <= n % d < d && n % d <= n
    ensures n / d * d + n % d == n
  {
    MulOrder(n / d, m, d);
  }

  lemma MulOrder(a: nat, b: nat, d: nat)
    ensures a >= b ==> a * d >= b * d
  {
  }

  lemma {:induction false} TextBitsOfSymbols(bits: seq<bool>, padding: string)
    requires |bits| % 6 == 0 && forall k :: 0 <= k < |padding| ==> padding[k] == '='
    ensures TextBits(Symbols(bits) + padding) == bits
    decreases |bits|
  {
    hide BitsOf;
    hide FromBits;
    hide Position;
    hide Symbol;
    var text := Symbols(bits) + padding;
    if bits == [] {
      assert text == padding;
    } else {
      FromBitsRange(bits[..6]);
      Pow2Of8();
      var v := FromBits(bits[..6]);
      PositionOfSymbol(v);
      FromBitsInjective(bits[..6]);
      SymbolIsNoPad(v);
      assert text[0] == Symbol(v) && text[1..] == Symbols(bits[6..]) + padding;
      TextBitsOfSymbols(bits[6..], padding);
      assert bits[..6] + bits[6..] == bits;
    }
  }

  lemma SymbolIsNoPad(v: nat)
    requires v < 64
    ensures Symbol(v) != '='
  {
  }

  lemma {:induction false} FromBitsInjective(bits: seq<bool>)
    ensures BitsOf(FromBits(bits), |bits|) == bits
  {
    if bits != [] { FromBitsInjective(bits[..|bits| - 1]); }
  }

  /** The streaming decoder inverts the encoder on every byte string. */
  lemma Base64RoundTrip(bytes: seq<Byte>)
    ensures WholeBytes(TextBits(Encode(bytes))) == bytes
  {
    hide Symbols;
    hide AllBits;
    hide WholeBytes;
    hide TextBits;
    hide Encode;
    hide PadBits;
    EncodeIsRfc(bytes);
    var symbols := Symbols(PaddedBits(bytes));
    TextBitsOfSymbols(PaddedBits(bytes), Repeat('=', PadSymbols(|symbols|)));
    WholeBytesOf(bytes, ZeroBits(PadBits(|bytes|)));
  }

  /** Encoding then decoding, by the two loops themselves. */
  method EncodeThenDecode(bytes: seq<Byte>) returns (back: seq<Byte>)
    ensures back == bytes
  {
    var text := Base64Encode(bytes);
    EncodeIsRfc(bytes);
    Base64RoundTrip(bytes);
    back := Base64Decode(text);
  }

  /** The symbols and the padding. */
  function Alphabet(): string { TABLE + "=" }

  lemma ChunkIsAscii(chunk: seq<Byte>, k: nat)
    requires 1 <= |chunk| <= 3 && k < 4
    ensures EncodeChunk(chunk)[k] in Alphabet()
  {
    hide TableAt;
    hide Triple;
    hide Alphabet;
    var t := Triple(chunk);
    TableEntry(t / 0x4_0000 % 64);
    TableEntry(t / 0x1000 % 64);
    TableEntry(t / 64 % 64);
    TableEntry(t % 64);
    PadInTable();
  }

  lemma PadInTable()
    ensures '=' in Alphabet()
  {
    assert (TABLE + "=")[|TABLE|] == '=';
  }

  /** Every character of an encoding is in the alphabet or the padding, so it is ASCII. */
  lemma {:induction false} EncodingIsAscii(bytes: seq<Byte>, k: nat)
    requires k < |Encode(bytes)|
    ensures Encode(bytes)[k] in Alphabet()
    decreases |bytes|
  {
    hide EncodeChunk;
    hide Alphabet;
    if |bytes| > 3 && k >= 4 {
      EncodingIsAscii(bytes[3..], k - 4);
    } else {
      ChunkIsAscii(if |bytes| > 3 then bytes[..3] else bytes, k);
    }
  }

  lemma TableEntry(v: nat)
    requires v < 64
    ensures TableAt(v) in Alphabet()
  {
    assert (TABLE + "=")[v] == TABLE[v];
  }
}
