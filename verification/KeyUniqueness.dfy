/**
  What a key stream determines. As a sequence of builder calls it determines every hashed field of the
  configuration, and nothing but them. `KeyBytes` has what the hashed bytes determine.
 */
module KeyUniqueness {
  import opened KeyBuilder
  import opened Sorting
  import opened ConfigKey

  // ---------------------------------------------------------------------------
  // The content of a key is the hashed part of the configuration
  // ---------------------------------------------------------------------------

  /** Equal in every hashed field; header values compare as multisets. */
  ghost predicate SameHashed(c: Config, d: Config) {
    && c.(header := map[], custom := {}) == d.(header := map[], custom := {})
    && c.header.Keys == d.header.Keys
    && forall k :: k in c.header ==> multiset(c.header[k]) == multiset(d.header[k])
  }

  lemma {:induction false} OnceEach(s: seq<Bytes>, k: Bytes)
    requires forall i, j :: 0 <= i < j < |s| ==> s[i] != s[j]
    ensures multiset(s)[k] == if k in s then 1 else 0
  {
    if s != [] {
      var front := s[..|s| - 1];
      assert s == front + [s[|s| - 1]];
      OnceEach(front, k);
    }
  }

  lemma EnumerationsHaveSameElements(o1: seq<Bytes>, o2: seq<Bytes>, h1: map<Bytes, Values>, h2: map<Bytes, Values>)
    requires Enumerates(o1, h1) && Enumerates(o2, h2) && h1.Keys == h2.Keys
    ensures multiset(o1) == multiset(o2)
  {
    forall k: Bytes ensures multiset(o1)[k] == multiset(o2)[k] {
      OnceEach(o1, k);
      OnceEach(o2, k);
      assert k in h1.Keys <==> k in h2.Keys;
    }
  }

  lemma SameEntries(h1: map<Bytes, Values>, h2: map<Bytes, Values>, keys: seq<Bytes>)
    requires forall k :: k in keys ==> k in h1 && k in h2
    ensures EntriesOf(h1, keys) == EntriesOf(h2, keys)
       <==> forall k :: k in keys ==> multiset(h1[k]) == multiset(h2[k])
  {
    var es, fs := EntriesOf(h1, keys), EntriesOf(h2, keys);
    forall i | 0 <= i < |keys|
      ensures es[i] == fs[i] <==> multiset(h1[keys[i]]) == multiset(h2[keys[i]])
    {
      SortIsCanonical(h1[keys[i]], h2[keys[i]]);
    }
    if forall k :: k in keys ==> multiset(h1[k]) == multiset(h2[k]) {
      assert forall i :: 0 <= i < |keys| ==> es[i] == fs[i];
      assert es == fs;
    }
  }

  /** The key does not depend on the order in which the header map is ranged over, nor on the order of
      the values of one header. */
  lemma ContentIgnoresOrder(c: Config, o1: seq<Bytes>, d: Config, o2: seq<Bytes>)
    requires Enumerates(o1, c.header) && Enumerates(o2, d.header)
    requires SameHashed(c, d)
    ensures ContentOf(c, o1) == ContentOf(d, o2)
  {
    EnumerationsHaveSameElements(o1, o2, c.header, d.header);
    SortIsCanonical(o1, o2);
    SortKeepsMembers(o1);
    SameEntries(c.header, d.header, Sort(o1));
    SameFields(c, d);
  }

  lemma SameFields(c: Config, d: Config)
    requires c.(header := map[], custom := {}) == d.(header := map[], custom := {})
    ensures c.addresses == d.addresses && c.username == d.username && c.password == d.password
    ensures c.caCert == d.caCert && c.insecureSkipVerify == d.insecureSkipVerify
    ensures c.retryOnStatus == d.retryOnStatus && c.shardCostConfig == d.shardCostConfig
    ensures c.healthCheckJitterBits == d.healthCheckJitterBits && c.jitterScaleBits == d.jitterScaleBits
    ensures NumbersOf(c) == NumbersOf(d)
  {
    var c', d' := c.(header := map[], custom := {}), d.(header := map[], custom := {});
    assert NumbersOf(c) == NumbersOf(c') && NumbersOf(d) == NumbersOf(d');
  }

  /** Every number is in its own place, and the three states of on-start discovery stay apart. */
  lemma NumbersDetermineFields(c: Config, d: Config)
    requires NumbersOf(c) == NumbersOf(d)
    ensures c.disableRetry == d.disableRetry && c.enableRetryOnTimeout == d.enableRetryOnTimeout
    ensures c.maxRetries == d.maxRetries && c.requestTimeout == d.requestTimeout
    ensures c.dnsCacheRefresh == d.dnsCacheRefresh && c.dnsDialTimeout == d.dnsDialTimeout
    ensures c.dnsKeepAlive == d.dnsKeepAlive && c.dnsTimeout == d.dnsTimeout
    ensures c.compressRequestBody == d.compressRequestBody
    ensures c.discoverNodesOnStart == d.discoverNodesOnStart
    ensures c.discoverNodesInterval == d.discoverNodesInterval && c.verifyDeadAfter == d.verifyDeadAfter
    ensures c.healthCheckTimeout == d.healthCheckTimeout && c.healthCheckMaxRetries == d.healthCheckMaxRetries
    ensures c.resurrectTimeoutInitial == d.resurrectTimeoutInitial && c.resurrectTimeoutMax == d.resurrectTimeoutMax
    ensures c.resurrectTimeoutFactorCutoff == d.resurrectTimeoutFactorCutoff
    ensures c.minimumResurrectTimeout == d.minimumResurrectTimeout
    ensures c.maxRetryClusterHealth == d.maxRetryClusterHealth && c.activeListCap == d.activeListCap
    ensures c.standbyRotationInterval == d.standbyRotationInterval
    ensures c.standbyRotationCount == d.standbyRotationCount
    ensures c.standbyPromotionChecks == d.standbyPromotionChecks
    ensures c.maxAddressResolvers == d.maxAddressResolvers && c.enableDebugLogger == d.enableDebugLogger
  {
    var n, m := NumbersOf(c), NumbersOf(d);
    assert forall i :: 0 <= i < NUMBERS ==> n[i] == m[i];
    assert n[0] == m[0] && n[1] == m[1] && n[2] == m[2] && n[3] == m[3] && n[4] == m[4];
    assert n[5] == m[5] && n[6] == m[6] && n[7] == m[7] && n[8] == m[8] && n[9] == m[9];
    assert n[10] == m[10] && n[11] == m[11] && n[12] == m[12] && n[13] == m[13] && n[14] == m[14];
    assert n[15] == m[15] && n[16] == m[16] && n[17] == m[17] && n[18] == m[18] && n[19] == m[19];
    assert n[20] == m[20] && n[21] == m[21] && n[22] == m[22] && n[23] == m[23] && n[24] == m[24];
  }

  lemma ContentDeterminesConfig(c: Config, o1: seq<Bytes>, d: Config, o2: seq<Bytes>)
    requires Enumerates(o1, c.header) && Enumerates(o2, d.header)
    requires ContentOf(c, o1) == ContentOf(d, o2)
    ensures SameHashed(c, d)
  {
    var j, k := ContentOf(c, o1), ContentOf(d, o2);
    NumbersDetermineFields(c, d);
    assert j.scales[0] == k.scales[0] && j.scales[1] == k.scales[1];
    SortKeepsMembers(o1);
    SortKeepsMembers(o2);
    HeaderFromEntries(c.header, Sort(o1), d.header, Sort(o2));
  }

  lemma KeysFromEntries(h1: map<Bytes, Values>, k1: seq<Bytes>, h2: map<Bytes, Values>, k2: seq<Bytes>)
    requires forall k :: k in k1 ==> k in h1
    requires forall k :: k in k2 ==> k in h2
    requires EntriesOf(h1, k1) == EntriesOf(h2, k2)
    ensures k1 == k2
  {
    var es, fs := EntriesOf(h1, k1), EntriesOf(h2, k2);
    forall i | 0 <= i < |k1| ensures k1[i] == k2[i] {
      assert es[i].key == fs[i].key;
    }
  }

  /** `keys` lists exactly the names of the header. */
  ghost predicate Lists(keys: seq<Bytes>, header: map<Bytes, Values>) {
    forall k :: k in keys <==> k in header
  }

  lemma HeaderFromEntries(h1: map<Bytes, Values>, k1: seq<Bytes>, h2: map<Bytes, Values>, k2: seq<Bytes>)
    requires Lists(k1, h1) && Lists(k2, h2)
    requires EntriesOf(h1, k1) == EntriesOf(h2, k2)
    ensures h1.Keys == h2.Keys
    ensures forall k :: k in h1 ==> multiset(h1[k]) == multiset(h2[k])
  {
    KeysFromEntries(h1, k1, h2, k2);
    SameEntries(h1, h2, k1);
  }

  // ---------------------------------------------------------------------------
  // Builder calls
  // ---------------------------------------------------------------------------

  lemma StrsDetermine(a: seq<Bytes>, b: seq<Bytes>)
    requires Strs(a) == Strs(b)
    ensures a == b
  {
    forall i | 0 <= i < |a| ensures a[i] == b[i] {
      assert Strs(a)[i] == Strs(b)[i];
    }
  }

  lemma NumsDetermine(a: seq<Int64>, b: seq<Int64>)
    requires Nums(a) == Nums(b)
    ensures a == b
  {
    forall i | 0 <= i < |a| ensures a[i] == b[i] {
      assert Nums(a)[i] == Nums(b)[i];
    }
  }

  lemma CutAt<T>(a: seq<T>, b: seq<T>, c: seq<T>, d: seq<T>)
    requires a + b == c + d && |a| == |c|
    ensures a == c && b == d
  {
    assert a == (a + b)[..|a|] && b == (a + b)[|a|..];
    assert c == (c + d)[..|c|] && d == (c + d)[|c|..];
  }

  /** The last string of a stream and the run of integers behind it. */
  lemma LastString(a: seq<Token>, x: Bytes, n: seq<Int64>, b: seq<Token>, y: Bytes, m: seq<Int64>)
    requires a + [Str(x)] + Nums(n) == b + [Str(y)] + Nums(m)
    ensures a == b && x == y && n == m
  {
    var s, t := a + [Str(x)] + Nums(n), b + [Str(y)] + Nums(m);
    assert s[|a|] == Str(x) && t[|b|] == Str(y);
    assert forall i :: |a| < i < |s| ==> s[i] == Num(n[i - |a| - 1]);
    assert forall i :: |b| < i < |t| ==> t[i] == Num(m[i - |b| - 1]);
    assert |a| == |b|;
    CutAt(a + [Str(x)], Nums(n), b + [Str(y)], Nums(m));
    CutAt(a, [Str(x)], b, [Str(y)]);
    assert [Str(x)][0] == [Str(y)][0];
    NumsDetermine(n, m);
  }

  /** The first integer of the headers tells where the addresses and credentials end. */
  lemma LeadingStrings(a: seq<Bytes>, es: seq<Entry>, b: seq<Bytes>, fs: seq<Entry>)
    requires Strs(a) + EntriesTokens(es) == Strs(b) + EntriesTokens(fs)
    ensures a == b && EntriesTokens(es) == EntriesTokens(fs)
  {
    var s, t := Strs(a) + EntriesTokens(es), Strs(b) + EntriesTokens(fs);
    assert es != [] ==> s[|a| + 1] == Num(|es[0].values|);
    assert fs != [] ==> t[|b| + 1] == Num(|fs[0].values|);
    assert es != [] ==> s[|a|] == Str(es[0].key);
    assert fs != [] ==> t[|b|] == Str(fs[0].key);
    assert forall i :: 0 <= i < |a| ==> s[i] == Str(a[i]);
    assert forall i :: 0 <= i < |b| ==> t[i] == Str(b[i]);
    assert |a| == |b|;
    CutAt(Strs(a), EntriesTokens(es), Strs(b), EntriesTokens(fs));
    StrsDetermine(a, b);
  }

  lemma {:induction false} EntriesDetermine(es: seq<Entry>, fs: seq<Entry>)
    requires EntriesTokens(es) == EntriesTokens(fs)
    ensures es == fs
  {
    if es != [] && fs != [] {
      var e, f := es[0], fs[0];
      var s, t := EntriesTokens(es), EntriesTokens(fs);
      assert s[0] == Str(e.key) && t[0] == Str(f.key);
      assert s[1] == Num(|e.values|) && t[1] == Num(|f.values|);
      CutAt(EntryTokens(e), EntriesTokens(es[1..]), EntryTokens(f), EntriesTokens(fs[1..]));
      CutAt([Str(e.key), Num(|e.values|)], Strs(e.values), [Str(f.key), Num(|f.values|)], Strs(f.values));
      StrsDetermine(e.values, f.values);
      EntriesDetermine(es[1..], fs[1..]);
      assert es == [e] + es[1..] && fs == [f] + fs[1..];
    }
  }

  lemma IntegersDetermine(j: Content, k: Content)
    requires Shaped(j) && Shaped(k) && Integers(j) == Integers(k)
    ensures j.insecure == k.insecure && j.statuses == k.statuses && j.numbers == k.numbers
  {
    var n, m := Integers(j), Integers(k);
    assert n[0] == j.insecure && m[0] == k.insecure && n[1] == |j.statuses| && m[1] == |k.statuses|;
    CutAt([j.insecure, |j.statuses|] + j.statuses, j.numbers, [k.insecure, |k.statuses|] + k.statuses, k.numbers);
    CutAt([j.insecure, |j.statuses|], j.statuses, [k.insecure, |k.statuses|], k.statuses);
  }

  /** The stream of calls is uniquely decodable, although it counts neither addresses nor headers and
      the separators may also occur as data. */
  lemma TokensDetermineContent(j: Content, k: Content)
    requires Shaped(j) && Shaped(k) && Tokens(j) == Tokens(k)
    ensures j == k
  {
    var a, b := Strs(Seeds(j)) + EntriesTokens(j.entries), Strs(Seeds(k)) + EntriesTokens(k.entries);
    LastString(a + [Str(SEP)] + [Str(j.caCert)] + Nums(Integers(j)), j.shardCost, j.scales,
               b + [Str(SEP)] + [Str(k.caCert)] + Nums(Integers(k)), k.shardCost, k.scales);
    LastString(a + [Str(SEP)], j.caCert, Integers(j), b + [Str(SEP)], k.caCert, Integers(k));
    IntegersDetermine(j, k);
    CutAt(a, [Str(SEP)], b, [Str(SEP)]);
    LeadingStrings(Seeds(j), j.entries, Seeds(k), k.entries);
    EntriesDetermine(j.entries, k.entries);
    CutAt(j.addresses, [SEP, j.username, j.password], k.addresses, [SEP, k.username, k.password]);
    assert [SEP, j.username, j.password][1] == j.username && [SEP, j.username, j.password][2] == j.password;
    assert [SEP, k.username, k.password][1] == k.username && [SEP, k.username, k.password][2] == k.password;
  }

  /** Two configurations have the same stream of calls exactly when they agree on every hashed field. */
  lemma KeyCallsDetermineConfig(c: Config, o1: seq<Bytes>, d: Config, o2: seq<Bytes>)
    requires Enumerates(o1, c.header) && Enumerates(o2, d.header)
    ensures Tokens(ContentOf(c, o1)) == Tokens(ContentOf(d, o2)) <==> SameHashed(c, d)
  {
    if SameHashed(c, d) {
      ContentIgnoresOrder(c, o1, d, o2);
    }
    if Tokens(ContentOf(c, o1)) == Tokens(ContentOf(d, o2)) {
      TokensDetermineContent(ContentOf(c, o1), ContentOf(d, o2));
      ContentDeterminesConfig(c, o1, d, o2);
    }
  }
}
