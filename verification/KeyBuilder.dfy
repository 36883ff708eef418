/**
  The byte framing of the cache-key builder: a string or byte slice is its eight-byte length followed
  by its bytes, and an integer or boolean is eight bytes. A frame does not say which kind it is.
 */
module KeyBuilder {
  import opened Options

  type Byte = n: nat | n < 256

  const TWO_63: int := 0x8000_0000_0000_0000
  const TWO_64: int := 0x1_0000_0000_0000_0000

  type Int64 = i: int | -0x8000_0000_0000_0000 <= i < 0x8000_0000_0000_0000

  /** A Go string or byte slice: its length is an int. */
  type Bytes = s: seq<Byte> | |s| < 0x8000_0000_0000_0000

  /** One call on the builder: String and Bytes write alike, and so do Int and Bool. */
  datatype Token = Str(s: Bytes) | Num(i: Int64)

  function BoolNum(b: bool): Int64 {
    if b then 1 else 0
  }

  // ---------------------------------------------------------------------------
  // Fixed-width integers
  // ---------------------------------------------------------------------------

  /** The low `width` bytes of `n`, most significant first. */
  function BigEndian(n: nat, width: nat): (b: seq<Byte>)
    ensures |b| == width
  {
    if width == 0 then [] else BigEndian(n / 256, width - 1) + [n % 256]
  }

  function FromBigEndian(b: seq<Byte>): nat {
    if b == [] then 0 else 256 * FromBigEndian(b[..|b| - 1]) + b[|b| - 1]
  }

  function Pow256(width: nat): nat {
    if width == 0 then 1 else 256 * Pow256(width - 1)
  }

  lemma {:induction false} BigEndianRoundTrip(n: nat, width: nat)
    requires n < Pow256(width)
    ensures FromBigEndian(BigEndian(n, width)) == n
  {
    if width > 0 {
      BigEndianRoundTrip(n / 256, width - 1);
      assert BigEndian(n, width)[..width - 1] == BigEndian(n / 256, width - 1);
    }
  }

  lemma EightBytes()
    ensures Pow256(8) == TWO_64
  {
    assert Pow256(4) == 0x1_0000_0000;
  }

  /** The two's complement: the same number modulo 2^64. */
  function Unsigned(i: Int64): (n: nat)
    ensures n < TWO_64 && n == i % TWO_64
  {
    if i < 0 then i + TWO_64 else i
  }

  function Signed(n: nat): Int64
    requires n < TWO_64
  {
    if n < TWO_63 then n else n - TWO_64
  }

  function Word(n: nat): (b: seq<Byte>)
    ensures |b| == 8
  {
    BigEndian(n, 8)
  }

  function ReadWord(b: seq<Byte>): Option<(nat, seq<Byte>)> {
    if |b| < 8 then None else Some((FromBigEndian(b[..8]), b[8..]))
  }

  lemma ReadWordOfWord(n: nat, rest: seq<Byte>)
    requires n < TWO_64
    ensures ReadWord(Word(n) + rest) == Some((n, rest))
  {
    EightBytes();
    BigEndianRoundTrip(n, 8);
    assert (Word(n) + rest)[..8] == Word(n);
    assert (Word(n) + rest)[8..] == rest;
  }

  // ---------------------------------------------------------------------------
  // Frames
  // ---------------------------------------------------------------------------

  function Frame(t: Token): seq<Byte> {
    match t
    case Str(s) => Word(|s|) + s
    case Num(i) => Word(Unsigned(i))
  }

  function Frames(ts: seq<Token>): seq<Byte> {
    if ts == [] then [] else Frame(ts[0]) + Frames(ts[1..])
  }

  lemma {:induction false} FramesOfConcat(a: seq<Token>, b: seq<Token>)
    ensures Frames(a + b) == Frames(a) + Frames(b)
  {
    if a == [] {
      assert a + b == b;
    } else {
      assert (a + b)[1..] == a[1..] + b;
      FramesOfConcat(a[1..], b);
    }
  }

  function ReadNum(b: seq<Byte>): Option<(Int64, seq<Byte>)> {
    match ReadWord(b)
    case None => None
    case Some((n, rest)) => if n < TWO_64 then Some((Signed(n), rest)) else None
  }

  function ReadStr(b: seq<Byte>): (r: Option<(Bytes, seq<Byte>)>)
    ensures r.Some? ==> |r.value.1| < |b|
  {
    match ReadWord(b)
    case None => None
    case Some((n, rest)) => if n <= |rest| && n < TWO_63 then Some((rest[..n], rest[n..])) else None
  }

  lemma ReadNumOfFrame(i: Int64, rest: seq<Byte>)
    ensures ReadNum(Frame(Num(i)) + rest) == Some((i, rest))
  {
    ReadWordOfWord(Unsigned(i), rest);
  }

  lemma ReadStrOfFrame(s: Bytes, rest: seq<Byte>)
    ensures ReadStr(Frame(Str(s)) + rest) == Some((s, rest))
  {
    assert Word(|s|) + s + rest == Word(|s|) + (s + rest);
    ReadWordOfWord(|s|, s + rest);
    assert (s + rest)[..|s|] == s && (s + rest)[|s|..] == rest;
  }

  /** An ambiguity of framing: a zero integer and an empty string are the same eight bytes. */
  lemma ZeroFramesAsEmptyString()
    ensures Frame(Num(0)) == Frame(Str([]))
  {
    assert Word(0) + [] == Word(0);
  }
}
