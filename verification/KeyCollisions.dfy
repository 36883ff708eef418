/**
  Configurations with the same key bytes. Each of the two counts that the bytes leave open is needed: one
  pair has as many headers but not as many addresses, the other as many addresses but not as many headers.
 */
module KeyCollisions {
  import opened KeyBuilder
  import opened Sorting
  import opened ConfigKey
  import opened KeyUniqueness
  import opened KeyBytes

  // ---------------------------------------------------------------------------
  // The number of addresses is needed
  // ---------------------------------------------------------------------------

  /** No address; the separator as user name and certificate. */
  function Left(c: Config): Config {
    c.(addresses := [], username := SEP, header := map[], caCert := SEP, insecureSkipVerify := false,
       retryOnStatus := [0])
  }

  /** The separator as an address; no certificate, and verification off. */
  function Right(c: Config): Config {
    c.(addresses := [SEP], username := c.password, password := SEP, header := map[], caCert := [],
       insecureSkipVerify := true, retryOnStatus := [])
  }

  function Rest(c: Config): seq<Token> {
    Nums(NumbersOf(c)) + ([Str(c.shardCostConfig)] + (Nums([c.healthCheckJitterBits, c.jitterScaleBits]) + []))
  }

  /** The calls both variants make, except for the one call `t`. */
  function Around(c: Config, t: Token): seq<Token> {
    [Str(SEP)] + ([Str(SEP)] + ([Str(c.password)] + ([Str(SEP)] + ([Str(SEP)]
    + ([t] + ([Num(1)] + ([Num(0)] + Rest(c))))))))
  }

  lemma NumbersUnchanged(c: Config)
    ensures NumbersOf(Left(c)) == NumbersOf(c) == NumbersOf(Right(c))
  {
  }

  lemma LeftTokens(c: Config)
    ensures Tokens(ContentOf(Left(c), [])) == Around(c, Num(0))
  {
    var k := ContentOf(Left(c), []);
    TokensInOrder(k);
    NumbersUnchanged(c);
    assert Nums(k.statuses) == [Num(0)];
    NoStrings(k, Back(k));
  }

  /** An empty address list and an empty header write nothing. */
  lemma NoStrings(k: Content, back: seq<Token>)
    requires k.entries == []
    ensures Front(k, back)
         == Strs(k.addresses) + ([Str(SEP)] + ([Str(k.username)] + ([Str(k.password)] + ([Str(SEP)] + back))))
    ensures k.addresses == [] ==>
      Front(k, back) == [Str(SEP)] + ([Str(k.username)] + ([Str(k.password)] + ([Str(SEP)] + back)))
  {
    assert EntriesTokens(k.entries) + ([Str(SEP)] + back) == [Str(SEP)] + back;
  }

  lemma RightTokens(c: Config)
    ensures Tokens(ContentOf(Right(c), [])) == Around(c, Str([]))
  {
    var k := ContentOf(Right(c), []);
    TokensInOrder(k);
    NumbersUnchanged(c);
    assert Strs(k.addresses) == [Str(SEP)];
    assert Nums(k.statuses) + Rest(c) == Rest(c);
    NoStrings(k, Back(k));
  }

  lemma FramesAround(c: Config, t: Token, u: Token)
    requires Frame(t) == Frame(u)
    ensures Frames(Around(c, t)) == Frames(Around(c, u))
  {
    var end := [Num(1)] + ([Num(0)] + Rest(c));
    var t1, u1 := [t] + end, [u] + end;
    FramesOfCons(t, end);
    FramesOfCons(u, end);
    var t2, u2 := [Str(SEP)] + t1, [Str(SEP)] + u1;
    FramesOfCons(Str(SEP), t1);
    FramesOfCons(Str(SEP), u1);
    var t3, u3 := [Str(SEP)] + t2, [Str(SEP)] + u2;
    FramesOfCons(Str(SEP), t2);
    FramesOfCons(Str(SEP), u2);
    var t4, u4 := [Str(c.password)] + t3, [Str(c.password)] + u3;
    FramesOfCons(Str(c.password), t3);
    FramesOfCons(Str(c.password), u3);
    FramesOfCons(Str(SEP), t4);
    FramesOfCons(Str(SEP), u4);
    FramesOfCons(Str(SEP), [Str(SEP)] + t4);
    FramesOfCons(Str(SEP), [Str(SEP)] + u4);
  }

  /** The bytes are not unambiguous on their own: for every configuration these two variants of it hash
      the same bytes, yet differ in addresses, credentials, certificate and TLS verification. Only one of
      them has the separator as an address, so the condition is needed of both. */
  lemma KeyBytesCollide(c: Config)
    ensures BytesOf(ContentOf(Left(c), [])) == BytesOf(ContentOf(Right(c), []))
    ensures !SameHashed(Left(c), Right(c)) && Left(c).header == Right(c).header
    ensures SeparatorFree(ContentOf(Left(c), [])) && !SeparatorFree(ContentOf(Right(c), []))
    ensures Cacheable(c) ==> Cacheable(Left(c)) && Cacheable(Right(c))
  {
    LeftTokens(c);
    RightTokens(c);
    ZeroFramesAsEmptyString();
    FramesAround(c, Num(0), Str([]));
    assert Left(c).addresses != Right(c).addresses;
    if SameHashed(Left(c), Right(c)) {
      SameFields(Left(c), Right(c));
    }
  }

  // ---------------------------------------------------------------------------
  // The number of headers is needed
  // ---------------------------------------------------------------------------

  function Zeros(n: nat): (b: seq<Byte>)
    ensures |b| == n
  {
    seq(n, _ => 0)
  }

  function ZeroNums(n: nat): seq<Int64> {
    seq(n, _ => 0)
  }

  /** The certificate, its length and two zeros fill 256 words. */
  const FILLER := 2024

  /** One header, named by the separator, with one empty value; a certificate of zeros. */
  function WithHeader(c: Config): Config {
    c.(header := map[SEP := [[]]], caCert := Zeros(FILLER), insecureSkipVerify := false, retryOnStatus := [])
  }

  /** No header; a short certificate, and 256 statuses. */
  function WithStatuses(c: Config): Config {
    c.(header := map[], caCert := [0], insecureSkipVerify := false, retryOnStatus := [FILLER] + ZeroNums(255))
  }

  lemma WordsOfPowers()
    ensures Word(0) == Zeros(8) && Word(1) == Zeros(7) + [1] && Word(256) == Zeros(6) + [1, 0]
  {
    SmallWord(0);
    SmallWord(1);
    SmallWord(2);
    assert Word(256) == BigEndian(1, 7) + [0];
    assert BigEndian(1, 7) == BigEndian(0, 6) + [1];
    ZeroBytes(6);
  }

  lemma {:induction false} ZeroBytes(width: nat)
    ensures BigEndian(0, width) == Zeros(width)
  {
    if width > 0 {
      ZeroBytes(width - 1);
      assert Zeros(width - 1) + [0] == Zeros(width);
    }
  }

  lemma SmallWord(n: nat)
    requires n < 256
    ensures Word(n) == Zeros(7) + [n]
    ensures n == 0 ==> Word(n) == Zeros(8)
  {
    ZeroBytes(7);
  }

  lemma {:induction false} FramesOfZeros(n: nat)
    ensures Frames(Nums(ZeroNums(n))) == Zeros(8 * n)
  {
    if n > 0 {
      FramesOfZeros(n - 1);
      assert Nums(ZeroNums(n)) == [Num(0)] + Nums(ZeroNums(n - 1));
      FramesOfCons(Num(0), Nums(ZeroNums(n - 1)));
      SmallWord(0);
      assert Zeros(8) + Zeros(8 * (n - 1)) == Zeros(8 * n);
    }
  }

  function RestOf(k: Content): seq<Token> {
    Nums(k.numbers) + ([Str(k.shardCost)] + (Nums(k.scales) + []))
  }

  /** The calls in which the variants differ, up to the common rest. */
  function HeaderCalls(rest: seq<Token>): seq<Token> {
    [Num(1)] + ([Str([])] + ([Str(SEP)] + ([Str(Zeros(FILLER))] + ([Num(0)] + ([Num(0)] + rest)))))
  }

  function StatusCalls(rest: seq<Token>): seq<Token> {
    [Str([0])] + ([Num(0)] + ([Num(256)] + ([Num(FILLER)] + (Nums(ZeroNums(255)) + rest))))
  }

  function Middle(): seq<Byte> {
    Zeros(7) + [1] + Zeros(15) + [1, 0]
  }

  lemma FramesOfZero(rest: seq<Token>)
    ensures Frames([Num(0)] + rest) == Zeros(8) + Frames(rest)
  {
    SmallWord(0);
    FramesOfCons(Num(0), rest);
  }

  lemma FramesOfStr(z: Bytes, rest: seq<Token>)
    ensures Frames([Str(z)] + rest) == Word(|z|) + (z + Frames(rest))
  {
    FramesOfCons(Str(z), rest);
    Regroup(Word(|z|), z, Frames(rest));
  }

  /** A string and two zeros. */
  lemma FramesOfPadded(z: Bytes, rest: seq<Token>)
    ensures Frames([Str(z)] + ([Num(0)] + ([Num(0)] + rest)))
         == Word(|z|) + (z + (Zeros(8) + (Zeros(8) + Frames(rest))))
  {
    FramesOfZero(rest);
    FramesOfZero([Num(0)] + rest);
    FramesOfStr(z, [Num(0)] + ([Num(0)] + rest));
  }

  lemma FramesOfHeader(rest: seq<Token>)
    ensures Frames([Num(1)] + ([Str([])] + ([Str(SEP)] + rest))) == Middle() + Frames(rest)
  {
    var t := [Str(SEP)] + rest;
    FramesOfStr(SEP, rest);
    FramesOfStr([], t);
    FramesOfCons(Num(1), [Str([])] + t);
    assert [] + Frames(t) == Frames(t);
    MiddleOfHeaders(Frames(rest));
  }

  lemma FramesOfHeaderCalls(rest: seq<Token>)
    ensures Frames(HeaderCalls(rest)) == Middle() + (Word(FILLER) + (Zeros(FILLER + 16) + Frames(rest)))
  {
    FramesOfPadded(Zeros(FILLER), rest);
    FramesOfHeader([Str(Zeros(FILLER))] + ([Num(0)] + ([Num(0)] + rest)));
    ZerosJoin(FILLER, Frames(rest));
  }

  lemma ZerosJoin(n: nat, b: seq<Byte>)
    ensures Zeros(n) + (Zeros(8) + (Zeros(8) + b)) == Zeros(n + 16) + b
  {
    assert Zeros(n) + Zeros(8) + Zeros(8) == Zeros(n + 16);
  }

  lemma Regroup4<T>(a: seq<T>, b: seq<T>, c: seq<T>, d: seq<T>, e: seq<T>)
    ensures a + (b + (c + (d + e))) == a + b + c + d + e
  {
  }

  lemma MiddleOfHeaders(b: seq<Byte>)
    ensures Word(1) + (Word(0) + (Word(1) + (SEP + b))) == Middle() + b
  {
    MiddleWords();
    Regroup4(Word(1), Word(0), Word(1), SEP, b);
  }

  lemma MiddleOfStatuses(b: seq<Byte>)
    ensures Word(1) + ([0] + (Word(0) + (Word(256) + b))) == Middle() + b
  {
    MiddleWords();
    Regroup4(Word(1), [0], Word(0), Word(256), b);
  }

  /** Eight bytes later, the same fifteen zeros, a one and a zero. */
  lemma MiddleWords()
    ensures Word(1) + Word(0) + Word(1) + SEP == Middle() == Word(1) + [0] + Word(0) + Word(256)
  {
    WordsOfPowers();
  }

  lemma FramesOfStatusCalls(rest: seq<Token>)
    ensures Frames(StatusCalls(rest)) == Middle() + (Word(FILLER) + (Zeros(FILLER + 16) + Frames(rest)))
  {
    FramesOfZeros(255);
    var t3 := Nums(ZeroNums(255)) + rest;
    var t2 := [Num(FILLER)] + t3;
    var t1 := [Num(256)] + t2;
    FramesOfConcat(Nums(ZeroNums(255)), rest);
    FramesOfCons(Num(FILLER), t3);
    FramesOfCons(Num(256), t2);
    FramesOfCons(Num(0), t1);
    FramesOfStr([0], [Num(0)] + t1);
    MiddleOfStatuses(Frames(t2));
  }

  function Before(k: Content, rest: seq<Token>): seq<Token> {
    Strs(k.addresses) + ([Str(SEP)] + ([Str(k.username)] + ([Str(k.password)] + ([Str(SEP)] + rest))))
  }

  lemma TokensWithHeader(k: Content)
    requires k.entries == [Entry(SEP, [[]])] && k.caCert == Zeros(FILLER) && k.insecure == 0 && k.statuses == []
    ensures Tokens(k) == Before(k, HeaderCalls(RestOf(k)))
  {
    TokensInOrder(k);
    var e := Entry(SEP, [[]]);
    var end := [Str(SEP)] + Back(k);
    EntriesInOrder(e, [], end);
    assert [e] + [] == k.entries;
    assert EntriesTokens([]) + end == end;
    assert Strs(e.values) == [Str([])];
    assert Nums(k.statuses) + RestOf(k) == RestOf(k);
  }

  lemma BackWithStatuses(k: Content, first: Int64, more: seq<Int64>)
    requires k.statuses == [first] + more && 1 + |more| < TWO_63
    ensures Back(k) == [Str(k.caCert)] + ([Num(k.insecure)] + ([Num(1 + |more|)]
                       + ([Num(first)] + (Nums(more) + RestOf(k)))))
  {
    assert k.statuses[1..] == more;
    NumsInOrder(k.statuses, RestOf(k));
  }

  lemma TokensWithStatuses(k: Content)
    requires k.entries == [] && k.caCert == [0] && k.insecure == 0 && k.statuses == [FILLER] + ZeroNums(255)
    ensures Tokens(k) == Before(k, StatusCalls(RestOf(k)))
  {
    TokensInOrder(k);
    NoStrings(k, Back(k));
    BackWithStatuses(k, FILLER, ZeroNums(255));
  }

  lemma FramesBefore(k: Content, s: seq<Token>, t: seq<Token>)
    requires Frames(s) == Frames(t)
    ensures Frames(Before(k, s)) == Frames(Before(k, t))
  {
    var s1, t1 := [Str(SEP)] + s, [Str(SEP)] + t;
    FramesOfCons(Str(SEP), s);
    FramesOfCons(Str(SEP), t);
    var s2, t2 := [Str(k.password)] + s1, [Str(k.password)] + t1;
    FramesOfCons(Str(k.password), s1);
    FramesOfCons(Str(k.password), t1);
    var s3, t3 := [Str(k.username)] + s2, [Str(k.username)] + t2;
    FramesOfCons(Str(k.username), s2);
    FramesOfCons(Str(k.username), t2);
    FramesOfCons(Str(SEP), s3);
    FramesOfCons(Str(SEP), t3);
    FramesOfConcat(Strs(k.addresses), [Str(SEP)] + s3);
    FramesOfConcat(Strs(k.addresses), [Str(SEP)] + t3);
  }

  lemma ContentsCollide(j: Content, k: Content)
    requires j.entries == [Entry(SEP, [[]])] && j.caCert == Zeros(FILLER) && j.insecure == 0 && j.statuses == []
    requires k.entries == [] && k.caCert == [0] && k.insecure == 0 && k.statuses == [FILLER] + ZeroNums(255)
    requires j.addresses == k.addresses && j.username == k.username && j.password == k.password
    requires j.numbers == k.numbers && j.shardCost == k.shardCost && j.scales == k.scales
    ensures BytesOf(j) == BytesOf(k)
  {
    TokensWithHeader(j);
    TokensWithStatuses(k);
    FramesOfHeaderCalls(RestOf(j));
    FramesOfStatusCalls(RestOf(j));
    FramesBefore(j, HeaderCalls(RestOf(j)), StatusCalls(RestOf(j)));
  }

  lemma OneEntry(c: Config)
    requires Enumerates([SEP], WithHeader(c).header)
    ensures ContentOf(WithHeader(c), [SEP]).entries == [Entry(SEP, [[]])]
  {
    var none: seq<Bytes> := [];
    assert [SEP][1..] == none && Sort(none) == [] && Sort([SEP]) == [SEP];
    var values: seq<Bytes> := [[]];
    assert values[1..] == none && Sort(values) == [[]];
  }

  /** The same holds of the headers: for every configuration these two variants, with the same addresses and
      credentials, hash the same bytes, yet differ in headers, certificate and retried statuses. */
  lemma HeadersCollide(c: Config)
    ensures Enumerates([SEP], WithHeader(c).header)
    ensures BytesOf(ContentOf(WithHeader(c), [SEP])) == BytesOf(ContentOf(WithStatuses(c), []))
    ensures WithHeader(c).addresses == WithStatuses(c).addresses && !SameHashed(WithHeader(c), WithStatuses(c))
    ensures Cacheable(c) ==> Cacheable(WithHeader(c)) && Cacheable(WithStatuses(c))
  {
    assert SEP in [SEP];
    var j, k := ContentOf(WithHeader(c), [SEP]), ContentOf(WithStatuses(c), []);
    OneEntry(c);
    assert NumbersOf(WithHeader(c)) == NumbersOf(c) == NumbersOf(WithStatuses(c));
    ContentsCollide(j, k);
    assert SEP in WithHeader(c).header.Keys && SEP !in WithStatuses(c).header.Keys;
  }
}
