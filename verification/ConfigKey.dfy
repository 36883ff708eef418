/**
  The default-client cache key: which configurations can be keyed, and the sequence of builder calls a
  configuration turns into. Neither the number of addresses nor the number of headers is written.
 */
module ConfigKey {
  import opened Options
  import opened KeyBuilder
  import opened Sorting

  const SEP: Bytes := [0]

  type Statuses = s: seq<Int64> | |s| < 0x8000_0000_0000_0000

  type Values = s: seq<Bytes> | |s| < 0x8000_0000_0000_0000

  /** The configuration fields that cannot be compared by value. */
  datatype OpaqueField =
    | Transport | Logger | Selector | Router | Observer | Signer | Classifier | PoolFunc
    | Resolver | ResolverRunner | RetryBackoff | HealthModifier | Context

  datatype Config = Config(
    addresses: seq<Bytes>,
    username: Bytes,
    password: Bytes,
    header: map<Bytes, Values>,
    caCert: Bytes,
    insecureSkipVerify: bool,
    retryOnStatus: Statuses,
    disableRetry: bool,
    enableRetryOnTimeout: bool,
    maxRetries: Int64,
    requestTimeout: Int64,
    dnsCacheRefresh: Int64,
    dnsDialTimeout: Int64,
    dnsKeepAlive: Int64,
    dnsTimeout: Int64,
    compressRequestBody: bool,
    discoverNodesOnStart: Option<bool>,
    discoverNodesInterval: Int64,
    verifyDeadAfter: Int64,
    healthCheckTimeout: Int64,
    healthCheckMaxRetries: Int64,
    resurrectTimeoutInitial: Int64,
    resurrectTimeoutMax: Int64,
    resurrectTimeoutFactorCutoff: Int64,
    minimumResurrectTimeout: Int64,
    maxRetryClusterHealth: Int64,
    activeListCap: Int64,
    standbyRotationInterval: Int64,
    standbyRotationCount: Int64,
    standbyPromotionChecks: Int64,
    maxAddressResolvers: Int64,
    enableDebugLogger: bool,
    shardCostConfig: Bytes,
    healthCheckJitterBits: Int64,
    jitterScaleBits: Int64,
    custom: set<OpaqueField>)      // the opaque fields that are set

  predicate Cacheable(c: Config) {
    c.custom == {}
  }

  // ---------------------------------------------------------------------------
  // The content of a key
  // ---------------------------------------------------------------------------

  datatype Entry = Entry(key: Bytes, values: Values)

  /** What is written, grouped: headers as a list, and the runs of integers as lists. */
  datatype Content = Content(
    addresses: seq<Bytes>,
    username: Bytes,
    password: Bytes,
    entries: seq<Entry>,
    caCert: Bytes,
    insecure: Int64,
    statuses: Statuses,
    numbers: seq<Int64>,
    shardCost: Bytes,
    scales: seq<Int64>)

  const NUMBERS := 25

  predicate Shaped(k: Content) {
    |k.numbers| == NUMBERS && |k.scales| == 2
  }

  function Discovery(onStart: Option<bool>): Int64 {
    if onStart.None? then -1 else BoolNum(onStart.value)
  }

  function NumbersOf(c: Config): (n: seq<Int64>)
    ensures |n| == NUMBERS
  {
    [ BoolNum(c.disableRetry), BoolNum(c.enableRetryOnTimeout), c.maxRetries, c.requestTimeout,
      c.dnsCacheRefresh, c.dnsDialTimeout, c.dnsKeepAlive, c.dnsTimeout, BoolNum(c.compressRequestBody),
      Discovery(c.discoverNodesOnStart), c.discoverNodesInterval, c.verifyDeadAfter, c.healthCheckTimeout,
      c.healthCheckMaxRetries, c.resurrectTimeoutInitial, c.resurrectTimeoutMax,
      c.resurrectTimeoutFactorCutoff, c.minimumResurrectTimeout, c.maxRetryClusterHealth, c.activeListCap,
      c.standbyRotationInterval, c.standbyRotationCount, c.standbyPromotionChecks, c.maxAddressResolvers,
      BoolNum(c.enableDebugLogger) ]
  }

  /** `order` lists the header names once each, in the arbitrary order a map is ranged over. */
  ghost predicate Enumerates(order: seq<Bytes>, header: map<Bytes, Values>) {
    && (forall k :: k in order <==> k in header)
    && (forall i, j :: 0 <= i < j < |order| ==> order[i] != order[j])
  }

  function SortedValues(v: Values): (r: Values)
    ensures |r| == |v|
  {
    SortKeepsElements(v);
    assert |multiset(Sort(v))| == |Sort(v)| && |multiset(v)| == |v|;
    Sort(v)
  }

  function EntriesOf(header: map<Bytes, Values>, keys: seq<Bytes>): (es: seq<Entry>)
    requires forall k :: k in keys ==> k in header
    ensures |es| == |keys|
    ensures forall i :: 0 <= i < |keys| ==> es[i] == Entry(keys[i], SortedValues(header[keys[i]]))
  {
    if keys == [] then []
    else EntriesOf(header, keys[..|keys| - 1])
         + [Entry(keys[|keys| - 1], SortedValues(header[keys[|keys| - 1]]))]
  }

  lemma SortKeepsMembers(order: seq<Bytes>)
    ensures |Sort(order)| == |order|
    ensures forall k :: k in Sort(order) <==> k in order
  {
    SortKeepsElements(order);
    assert |multiset(Sort(order))| == |Sort(order)| && |multiset(order)| == |order|;
    forall k ensures k in Sort(order) <==> k in order {
      assert k in Sort(order) <==> k in multiset(Sort(order));
      assert k in order <==> k in multiset(order);
    }
  }

  function ContentOf(c: Config, order: seq<Bytes>): (k: Content)
    requires Enumerates(order, c.header)
    ensures Shaped(k)
  {
    SortKeepsMembers(order);
    Content(c.addresses, c.username, c.password, EntriesOf(c.header, Sort(order)), c.caCert,
            BoolNum(c.insecureSkipVerify), c.retryOnStatus, NumbersOf(c), c.shardCostConfig,
            [c.healthCheckJitterBits, c.jitterScaleBits])
  }

  // ---------------------------------------------------------------------------
  // The builder calls
  // ---------------------------------------------------------------------------

  function Strs(ss: seq<Bytes>): (ts: seq<Token>)
    ensures |ts| == |ss| && forall i :: 0 <= i < |ss| ==> ts[i] == Str(ss[i])
  {
    seq(|ss|, i requires 0 <= i < |ss| => Str(ss[i]))
  }

  function Nums(ns: seq<Int64>): (ts: seq<Token>)
    ensures |ts| == |ns| && forall i :: 0 <= i < |ns| ==> ts[i] == Num(ns[i])
  {
    seq(|ns|, i requires 0 <= i < |ns| => Num(ns[i]))
  }

  function EntryTokens(e: Entry): seq<Token> {
    [Str(e.key), Num(|e.values|)] + Strs(e.values)
  }

  function EntriesTokens(es: seq<Entry>): seq<Token> {
    if es == [] then [] else EntryTokens(es[0]) + EntriesTokens(es[1..])
  }

  /** The addresses and credentials. */
  function Seeds(k: Content): seq<Bytes> {
    k.addresses + [SEP, k.username, k.password]
  }

  /** The integers between the certificate and the shard-cost string. */
  function Integers(k: Content): seq<Int64> {
    [k.insecure, |k.statuses|] + k.statuses + k.numbers
  }

  function Tokens(k: Content): seq<Token> {
    Strs(Seeds(k)) + EntriesTokens(k.entries) + [Str(SEP)] + [Str(k.caCert)] + Nums(Integers(k))
    + [Str(k.shardCost)] + Nums(k.scales)
  }

  lemma {:induction false} EntriesTokensOfAppend(es: seq<Entry>, e: Entry)
    ensures EntriesTokens(es + [e]) == EntriesTokens(es) + EntryTokens(e)
  {
    if es == [] {
      assert [e][1..] == [] && es + [e] == [e];
    } else {
      assert (es + [e])[1..] == es[1..] + [e];
      EntriesTokensOfAppend(es[1..], e);
    }
  }

  method WriteStrings(b0: seq<Token>, ss: seq<Bytes>) returns (b: seq<Token>)
    ensures b == b0 + Strs(ss)
  {
    b := b0;
    for i := 0 to |ss|
      invariant b == b0 + Strs(ss[..i])
    {
      b := b + [Str(ss[i])];
    }
    assert ss[..|ss|] == ss;
  }

  method WriteNumbers(b0: seq<Token>, ns: seq<Int64>) returns (b: seq<Token>)
    ensures b == b0 + Nums(ns)
  {
    b := b0;
    for i := 0 to |ns|
      invariant b == b0 + Nums(ns[..i])
    {
      b := b + [Num(ns[i])];
    }
    assert ns[..|ns|] == ns;
  }

  lemma NextEntry(b0: seq<Token>, es: seq<Entry>, i: nat)
    requires i < |es|
    ensures b0 + EntriesTokens(es[..i + 1])
         == b0 + EntriesTokens(es[..i]) + [Str(es[i].key), Num(|es[i].values|)] + Strs(es[i].values)
  {
    assert es[..i + 1] == es[..i] + [es[i]];
    EntriesTokensOfAppend(es[..i], es[i]);
  }

  method WriteHeader(b0: seq<Token>, header: map<Bytes, Values>, keys: seq<Bytes>) returns (b: seq<Token>)
    requires forall k :: k in keys ==> k in header
    ensures b == b0 + EntriesTokens(EntriesOf(header, keys))
  {
    b := b0;
    ghost var es := EntriesOf(header, keys);
    for i := 0 to |keys|
      invariant b == b0 + EntriesTokens(es[..i])
    {
      var vals := SortedValues(header[keys[i]]);
      b := b + [Str(keys[i]), Num(|vals|)];
      b := WriteStrings(b, vals);
      NextEntry(b0, es, i);
    }
    assert es[..|keys|] == es;
  }

  /** None of the thirteen opaque fields is set. */
  predicate NoneSet(custom: set<OpaqueField>) {
    && Transport !in custom && Logger !in custom && Selector !in custom && Router !in custom
    && Observer !in custom && Signer !in custom && Classifier !in custom && PoolFunc !in custom
    && Resolver !in custom && ResolverRunner !in custom && RetryBackoff !in custom
    && HealthModifier !in custom && Context !in custom
  }

  lemma NoneSetIsEmpty(custom: set<OpaqueField>)
    ensures NoneSet(custom) <==> custom == {}
  {
    if custom != {} {
      var f :| f in custom;
      assert f.Transport? || f.Logger? || f.Selector? || f.Router? || f.Observer? || f.Signer? || f.Classifier?
          || f.PoolFunc? || f.Resolver? || f.ResolverRunner? || f.RetryBackoff? || f.HealthModifier? || f.Context?;
    }
  }

  /** The calls the key builder receives, or none when the configuration cannot be keyed. `order` is
      the order in which the header map happens to be ranged over. */
  method BuildKey(cfg: Config, order: seq<Bytes>) returns (ok: bool, b: seq<Token>)
    requires Enumerates(order, cfg.header)
    ensures ok <==> Cacheable(cfg)
    ensures ok <==> NoneSet(cfg.custom)
    ensures ok ==> b == Tokens(ContentOf(cfg, order))
  {
    NoneSetIsEmpty(cfg.custom);
    if cfg.custom != {} {
      return false, [];
    }
    ghost var k := ContentOf(cfg, order);
    b := WriteStrings([], cfg.addresses);
    b := b + [Str(SEP), Str(cfg.username), Str(cfg.password)];
    assert b == Strs(Seeds(k));
    SortKeepsMembers(order);
    b := WriteHeader(b, cfg.header, Sort(order));
    b := b + [Str(SEP)] + [Str(cfg.caCert)];
    ghost var head := b;
    b := WriteNumbers(b, [BoolNum(cfg.insecureSkipVerify), |cfg.retryOnStatus|]);
    b := WriteNumbers(b, cfg.retryOnStatus);
    var onStart := -1;
    if cfg.discoverNodesOnStart.Some? {
      onStart := BoolNum(cfg.discoverNodesOnStart.value);
    }
    b := WriteNumbers(b,
      [ BoolNum(cfg.disableRetry), BoolNum(cfg.enableRetryOnTimeout), cfg.maxRetries, cfg.requestTimeout,
        cfg.dnsCacheRefresh, cfg.dnsDialTimeout, cfg.dnsKeepAlive, cfg.dnsTimeout,
        BoolNum(cfg.compressRequestBody), onStart, cfg.discoverNodesInterval, cfg.verifyDeadAfter,
        cfg.healthCheckTimeout, cfg.healthCheckMaxRetries, cfg.resurrectTimeoutInitial, cfg.resurrectTimeoutMax,
        cfg.resurrectTimeoutFactorCutoff, cfg.minimumResurrectTimeout, cfg.maxRetryClusterHealth,
        cfg.activeListCap, cfg.standbyRotationInterval, cfg.standbyRotationCount, cfg.standbyPromotionChecks,
        cfg.maxAddressResolvers, BoolNum(cfg.enableDebugLogger) ]);
    assert b == head + Nums(Integers(k)) by {
      NumsOfThree([k.insecure, |k.statuses|], k.statuses, k.numbers, head);
    }
    b := b + [Str(cfg.shardCostConfig)];
    b := WriteNumbers(b, [cfg.healthCheckJitterBits, cfg.jitterScaleBits]);
    ok := true;
  }

  lemma NumsOfThree(x: seq<Int64>, y: seq<Int64>, z: seq<Int64>, head: seq<Token>)
    ensures head + Nums(x) + Nums(y) + Nums(z) == head + Nums(x + y + z)
  {
  }

  // ---------------------------------------------------------------------------
  // Where each field is in the stream
  // ---------------------------------------------------------------------------

  /** Addresses, separator and credentials are at the front. */
  lemma StreamFront(c: Config, order: seq<Bytes>)
    requires Enumerates(order, c.header)
    ensures var ts, n := Tokens(ContentOf(c, order)), |c.addresses|;
            && |ts| > n + 3
            && (forall i :: 0 <= i < n ==> ts[i] == Str(c.addresses[i]))
            && ts[n] == Str([0]) && ts[n + 1] == Str(c.username) && ts[n + 2] == Str(c.password)
  {
  }

  lemma Tail<T>(head: seq<T>, tail: seq<T>, n: nat)
    requires n == |tail|
    ensures n <= |head + tail| && (head + tail)[|head + tail| - n..] == tail
  {
  }

  lemma LastCallsOf(c: Config)
    ensures LastCalls(c)
         == Nums(NumbersOf(c)) + [Str(c.shardCostConfig)] + Nums([c.healthCheckJitterBits, c.jitterScaleBits])
  {
    var ts, ns := LastCalls(c), NumbersOf(c);
    assert ts[..25] == Nums(ns);
    assert ts == ts[..25] + ts[25..];
    assert ts[25..] == [Str(c.shardCostConfig)] + Nums([c.healthCheckJitterBits, c.jitterScaleBits]);
  }

  lemma BackOf(k: Content, last: seq<Token>)
    requires last == Nums(k.numbers) + [Str(k.shardCost)] + Nums(k.scales) && |last| == 28
    ensures var ts, s := Tokens(k), |k.statuses|;
            && |ts| >= s + 32
            && ts[|ts| - s - 32..] == [Str([0]), Str(k.caCert), Num(k.insecure), Num(s)] + Nums(k.statuses) + last
  {
    var head := Strs(Seeds(k)) + EntriesTokens(k.entries);
    var tail := [Str([0]), Str(k.caCert), Num(k.insecure), Num(|k.statuses|)] + Nums(k.statuses) + last;
    assert Nums(Integers(k)) == [Num(k.insecure), Num(|k.statuses|)] + Nums(k.statuses) + Nums(k.numbers);
    assert Tokens(k) == head + tail;
    Tail(head, tail, |k.statuses| + 32);
  }

  /** From the second separator on, the certificate and every number and string has its own place, counted
      from the end: `s` numbers of statuses stand between their count and the 28 last calls. */
  lemma StreamBack(c: Config, order: seq<Bytes>)
    requires Enumerates(order, c.header)
    ensures var ts, s := Tokens(ContentOf(c, order)), |c.retryOnStatus|;
            && |ts| >= s + 32
            && ts[|ts| - s - 32..] == [ Str([0]), Str(c.caCert), Num(BoolNum(c.insecureSkipVerify)), Num(s) ]
                                      + Nums(c.retryOnStatus) + LastCalls(c)
  {
    LastCallsOf(c);
    BackOf(ContentOf(c, order), LastCalls(c));
  }

  function LastCalls(c: Config): (ts: seq<Token>)
    ensures |ts| == 28
  {
    [ Num(if c.disableRetry then 1 else 0), Num(if c.enableRetryOnTimeout then 1 else 0), Num(c.maxRetries),
      Num(c.requestTimeout), Num(c.dnsCacheRefresh), Num(c.dnsDialTimeout), Num(c.dnsKeepAlive),
      Num(c.dnsTimeout), Num(if c.compressRequestBody then 1 else 0),
      Num(if c.discoverNodesOnStart == None then -1 else if c.discoverNodesOnStart == Some(true) then 1 else 0),
      Num(c.discoverNodesInterval), Num(c.verifyDeadAfter), Num(c.healthCheckTimeout),
      Num(c.healthCheckMaxRetries), Num(c.resurrectTimeoutInitial), Num(c.resurrectTimeoutMax),
      Num(c.resurrectTimeoutFactorCutoff), Num(c.minimumResurrectTimeout), Num(c.maxRetryClusterHealth),
      Num(c.activeListCap), Num(c.standbyRotationInterval), Num(c.standbyRotationCount),
      Num(c.standbyPromotionChecks), Num(c.maxAddressResolvers), Num(if c.enableDebugLogger then 1 else 0),
      Str(c.shardCostConfig), Num(c.healthCheckJitterBits), Num(c.jitterScaleBits) ]
  }

  lemma MiddleOf(k: Content, n: nat)
    requires n == |k.addresses|
    ensures n + 3 <= |Tokens(k)| && Tokens(k)[..n + 3] + EntriesTokens(k.entries) <= Tokens(k)
  {
    var front := Strs(Seeds(k));
    var rest := [Str(SEP)] + [Str(k.caCert)] + Nums(Integers(k)) + [Str(k.shardCost)] + Nums(k.scales);
    assert Tokens(k) == front + EntriesTokens(k.entries) + rest;
    assert Tokens(k)[..n + 3] == front;
  }

  lemma NamesOfEntries(header: map<Bytes, Values>, keys: seq<Bytes>)
    requires forall k :: k in keys ==> k in header
    ensures EntryNames(EntriesOf(header, keys)) == keys
  {
  }

  lemma SortedEntry(v: Values)
    ensures Ascending(SortedValues(v)) && multiset(SortedValues(v)) == multiset(v)
  {
    SortIsAscending(v);
    SortKeepsElements(v);
  }

  /** Between them stand the headers: each name once and ascending, each with its values ascending. */
  lemma StreamHeaders(c: Config, order: seq<Bytes>)
    requires Enumerates(order, c.header)
    ensures var ts, es := Tokens(ContentOf(c, order)), ContentOf(c, order).entries;
            && ts[..|c.addresses| + 3] + EntriesTokens(es) <= ts
            && Ascending(EntryNames(es)) && multiset(EntryNames(es)) == multiset(order)
            && forall i :: 0 <= i < |es| ==>
                 && es[i].key in c.header && Ascending(es[i].values)
                 && multiset(es[i].values) == multiset(c.header[es[i].key])
  {
    var k := ContentOf(c, order);
    MiddleOf(k, |c.addresses|);
    SortKeepsMembers(order);
    SortKeepsElements(order);
    SortIsAscending(order);
    NamesOfEntries(c.header, Sort(order));
    forall i | 0 <= i < |k.entries|
      ensures k.entries[i].key in c.header && Ascending(k.entries[i].values)
      ensures multiset(k.entries[i].values) == multiset(c.header[k.entries[i].key])
    {
      assert k.entries[i].key == Sort(order)[i];
      SortedEntry(c.header[k.entries[i].key]);
    }
  }

  function EntryNames(es: seq<Entry>): (names: seq<Bytes>)
    ensures |names| == |es| && forall i :: 0 <= i < |es| ==> names[i] == es[i].key
  {
    seq(|es|, i requires 0 <= i < |es| => es[i].key)
  }
}
