/**
  The bytes of a key. Frames carry no kind, so the bytes of one stream of calls can also be read as
  another. The ambiguity is exactly that of the two counts that are not written: configurations with the
  same bytes agree on every hashed field exactly when they have as many addresses and as many headers.
 */
module KeyBytes {
  import opened Options
  import opened KeyBuilder
  import opened ConfigKey
  import opened KeyUniqueness

  /** No address and no header name is the separator. */
  predicate SeparatorFree(k: Content) {
    SEP !in k.addresses && forall i :: 0 <= i < |k.entries| ==> k.entries[i].key != SEP
  }

  function BytesOf(k: Content): seq<Byte> {
    Frames(Tokens(k))
  }

  // ---------------------------------------------------------------------------
  // A reader
  // ---------------------------------------------------------------------------

  function ReadStrs(b: seq<Byte>, n: nat): (r: Option<(seq<Bytes>, seq<Byte>)>)
    ensures r.Some? ==> |r.value.1| <= |b| && |r.value.0| == n
    decreases n
  {
    if n == 0 then Some(([], b))
    else
      var (s, b1) :- ReadStr(b);
      var (ss, b2) :- ReadStrs(b1, n - 1);
      Some(([s] + ss, b2))
  }

  function ReadNums(b: seq<Byte>, n: nat): (r: Option<(seq<Int64>, seq<Byte>)>)
    ensures r.Some? ==> |r.value.0| == n
    decreases n
  {
    if n == 0 then Some(([], b))
    else
      var (i, b1) :- ReadNum(b);
      var (ns, b2) :- ReadNums(b1, n - 1);
      Some(([i] + ns, b2))
  }

  function ReadEntriesN(b: seq<Byte>, n: nat): (r: Option<(seq<Entry>, seq<Byte>)>)
    decreases n
  {
    if n == 0 then Some(([], b))
    else
      var (key, b1) :- ReadStr(b);
      var (m, b2) :- ReadNum(b1);
      if m < 0 then None
      else
        var (values, b3) :- ReadStrs(b2, m);
        var (es, b4) :- ReadEntriesN(b3, n - 1);
        Some(([Entry(key, values)] + es, b4))
  }

  /** The fields behind the headers. */
  function ReadBack(k: Content, b: seq<Byte>): (r: Option<Content>)
    ensures r.Some? ==> r.value.addresses == k.addresses && r.value.entries == k.entries
  {
    var (caCert, b5) :- ReadStr(b);
    var (insecure, b6) :- ReadNum(b5);
    var (n, b7) :- ReadNum(b6);
    if n < 0 then None
    else
      var (statuses, b8) :- ReadNums(b7, n);
      var (numbers, b9) :- ReadNums(b8, NUMBERS);
      var (shardCost, b10) :- ReadStr(b9);
      var (scales, b11) :- ReadNums(b10, 2);
      if b11 != [] then None
      else
        Some(k.(caCert := caCert, insecure := insecure, statuses := statuses, numbers := numbers,
                shardCost := shardCost, scales := scales))
  }

  const BLANK: Content := Content([], [], [], [], [], 0, [], [], [], [])

  /** A reader that is told how many addresses and headers there are; it skips the separators. */
  function ReadCounted(b: seq<Byte>, addresses: nat, headers: nat): Option<Content> {
    var (seeds, b1) :- ReadStrs(b, addresses);
    var (_, b2) :- ReadStr(b1);
    var (username, b3) :- ReadStr(b2);
    var (password, b4) :- ReadStr(b3);
    var (es, b5) :- ReadEntriesN(b4, headers);
    var (_, b6) :- ReadStr(b5);
    ReadBack(BLANK.(addresses := seeds, username := username, password := password, entries := es), b6)
  }

  /** Strings up to the first separator. */
  function ReadAddresses(b: seq<Byte>): (r: Option<(seq<Bytes>, seq<Byte>)>)
    ensures r.Some? ==> SEP !in r.value.0
    decreases |b|
  {
    var (s, b1) :- ReadStr(b);
    if s == SEP then Some(([], b1))
    else
      var (ss, b2) :- ReadAddresses(b1);
      Some(([s] + ss, b2))
  }

  /** Header entries up to the first name that is the separator. */
  function ReadEntries(b: seq<Byte>): (r: Option<(seq<Entry>, seq<Byte>)>)
    ensures r.Some? ==> forall i :: 0 <= i < |r.value.0| ==> r.value.0[i].key != SEP
    decreases |b|
  {
    var (key, b1) :- ReadStr(b);
    if key == SEP then Some(([], b1))
    else
      var (n, b2) :- ReadNum(b1);
      if n < 0 then None
      else
        var (values, b3) :- ReadStrs(b2, n);
        var (es, b4) :- ReadEntries(b3);
        Some(([Entry(key, values)] + es, b4))
  }

  function ReadContent(b: seq<Byte>): (r: Option<Content>)
    ensures r.Some? ==> SeparatorFree(r.value)
  {
    var (addresses, b1) :- ReadAddresses(b);
    var (username, b2) :- ReadStr(b1);
    var (password, b3) :- ReadStr(b2);
    var (entries, b4) :- ReadEntries(b3);
    ReadBack(BLANK.(addresses := addresses, username := username, password := password, entries := entries), b4)
  }

  // ---------------------------------------------------------------------------
  // Reading what was written
  // ---------------------------------------------------------------------------

  lemma FramesOfCons(t: Token, ts: seq<Token>)
    ensures Frames([t] + ts) == Frame(t) + Frames(ts)
  {
    assert ([t] + ts)[1..] == ts;
  }

  lemma ReadStrAt(s: Bytes, ts: seq<Token>)
    ensures ReadStr(Frames([Str(s)] + ts)) == Some((s, Frames(ts)))
  {
    FramesOfCons(Str(s), ts);
    ReadStrOfFrame(s, Frames(ts));
  }

  lemma ReadNumAt(i: Int64, ts: seq<Token>)
    ensures ReadNum(Frames([Num(i)] + ts)) == Some((i, Frames(ts)))
  {
    FramesOfCons(Num(i), ts);
    ReadNumOfFrame(i, Frames(ts));
  }

  lemma StrsInOrder(ss: seq<Bytes>, ts: seq<Token>)
    requires ss != []
    ensures Strs(ss) + ts == [Str(ss[0])] + (Strs(ss[1..]) + ts)
  {
    assert Strs(ss) == [Str(ss[0])] + Strs(ss[1..]);
    Regroup([Str(ss[0])], Strs(ss[1..]), ts);
  }

  lemma NumsInOrder(ns: seq<Int64>, ts: seq<Token>)
    requires ns != []
    ensures Nums(ns) + ts == [Num(ns[0])] + (Nums(ns[1..]) + ts)
  {
    assert Nums(ns) == [Num(ns[0])] + Nums(ns[1..]);
    Regroup([Num(ns[0])], Nums(ns[1..]), ts);
  }

  lemma ReadStrsCons(b: seq<Byte>, s: Bytes, b1: seq<Byte>, ss: seq<Bytes>, b2: seq<Byte>)
    requires ReadStr(b) == Some((s, b1)) && ReadStrs(b1, |ss|) == Some((ss, b2))
    ensures ReadStrs(b, |[s] + ss|) == Some(([s] + ss, b2))
  {
  }

  lemma {:induction false} ReadStrsAt(ss: seq<Bytes>, ts: seq<Token>)
    ensures ReadStrs(Frames(Strs(ss) + ts), |ss|) == Some((ss, Frames(ts)))
  {
    if ss == [] {
      assert Strs(ss) + ts == ts;
    } else {
      var rest := Strs(ss[1..]) + ts;
      StrsInOrder(ss, ts);
      ReadStrAt(ss[0], rest);
      ReadStrsAt(ss[1..], ts);
      ReadStrsCons(Frames(Strs(ss) + ts), ss[0], Frames(rest), ss[1..], Frames(ts));
      assert ss == [ss[0]] + ss[1..];
    }
  }

  lemma {:induction false} ReadNumsAt(ns: seq<Int64>, ts: seq<Token>)
    ensures ReadNums(Frames(Nums(ns) + ts), |ns|) == Some((ns, Frames(ts)))
  {
    if ns == [] {
      assert Nums(ns) + ts == ts;
    } else {
      NumsInOrder(ns, ts);
      ReadNumAt(ns[0], Nums(ns[1..]) + ts);
      ReadNumsAt(ns[1..], ts);
      assert ns == [ns[0]] + ns[1..];
    }
  }

  lemma ReadAddressesCons(b: seq<Byte>, s: Bytes, b1: seq<Byte>, ss: seq<Bytes>, b2: seq<Byte>)
    requires ReadStr(b) == Some((s, b1)) && s != SEP && ReadAddresses(b1) == Some((ss, b2))
    ensures ReadAddresses(b) == Some(([s] + ss, b2))
  {
  }

  lemma {:induction false} ReadAddressesAt(ss: seq<Bytes>, ts: seq<Token>)
    requires SEP !in ss
    ensures ReadAddresses(Frames(Strs(ss) + ([Str(SEP)] + ts))) == Some((ss, Frames(ts)))
  {
    var end := [Str(SEP)] + ts;
    if ss == [] {
      assert Strs(ss) + end == end;
      ReadStrAt(SEP, ts);
    } else {
      var rest := Strs(ss[1..]) + end;
      StrsInOrder(ss, end);
      ReadStrAt(ss[0], rest);
      ReadAddressesAt(ss[1..], ts);
      ReadAddressesCons(Frames(Strs(ss) + end), ss[0], Frames(rest), ss[1..], Frames(ts));
      assert ss == [ss[0]] + ss[1..];
    }
  }

  lemma EntriesInOrder(e: Entry, es: seq<Entry>, end: seq<Token>)
    ensures EntriesTokens([e] + es) + end
         == [Str(e.key)] + ([Num(|e.values|)] + (Strs(e.values) + (EntriesTokens(es) + end)))
  {
    assert ([e] + es)[1..] == es;
  }

  lemma {:induction false} ReadEntriesAt(es: seq<Entry>, ts: seq<Token>)
    requires forall i :: 0 <= i < |es| ==> es[i].key != SEP
    ensures ReadEntries(Frames(EntriesTokens(es) + ([Str(SEP)] + ts))) == Some((es, Frames(ts)))
  {
    var end := [Str(SEP)] + ts;
    if es == [] {
      assert EntriesTokens(es) + end == end;
      ReadStrAt(SEP, ts);
    } else {
      var e, rest := es[0], EntriesTokens(es[1..]) + end;
      assert es == [e] + es[1..];
      EntriesInOrder(e, es[1..], end);
      ReadStrAt(e.key, [Num(|e.values|)] + (Strs(e.values) + rest));
      ReadNumAt(|e.values|, Strs(e.values) + rest);
      ReadStrsAt(e.values, rest);
      ReadEntriesAt(es[1..], ts);
    }
  }

  /** The part of the stream from the certificate on. */
  function Back(k: Content): seq<Token> {
    [Str(k.caCert)] + ([Num(k.insecure)] + ([Num(|k.statuses|)] + (Nums(k.statuses) + (Nums(k.numbers)
    + ([Str(k.shardCost)] + (Nums(k.scales) + []))))))
  }

  function Front(k: Content, back: seq<Token>): seq<Token> {
    Strs(k.addresses) + ([Str(SEP)] + ([Str(k.username)] + ([Str(k.password)]
    + (EntriesTokens(k.entries) + ([Str(SEP)] + back)))))
  }

  lemma Regroup<T>(a: seq<T>, b: seq<T>, c: seq<T>)
    ensures a + b + c == a + (b + c)
  {
  }

  lemma SeedsInOrder(k: Content, rest: seq<Token>)
    ensures Strs(Seeds(k)) + rest
         == Strs(k.addresses) + ([Str(SEP)] + ([Str(k.username)] + ([Str(k.password)] + rest)))
  {
    assert Strs(Seeds(k)) == Strs(k.addresses) + [Str(SEP), Str(k.username), Str(k.password)];
    Regroup(Strs(k.addresses), [Str(SEP), Str(k.username), Str(k.password)], rest);
    assert [Str(SEP), Str(k.username), Str(k.password)] + rest
        == [Str(SEP)] + ([Str(k.username)] + ([Str(k.password)] + rest));
  }

  lemma IntegersInOrder(k: Content, rest: seq<Token>)
    ensures Nums(Integers(k)) + rest
         == [Num(k.insecure)] + ([Num(|k.statuses|)] + (Nums(k.statuses) + (Nums(k.numbers) + rest)))
  {
    var head := [k.insecure, |k.statuses|];
    assert Nums(Integers(k)) == Nums(head) + (Nums(k.statuses) + Nums(k.numbers));
    Regroup(Nums(head), Nums(k.statuses) + Nums(k.numbers), rest);
    Regroup(Nums(k.statuses), Nums(k.numbers), rest);
    var tail := Nums(k.statuses) + (Nums(k.numbers) + rest);
    assert Nums(head) + tail == [Num(k.insecure)] + ([Num(|k.statuses|)] + tail);
  }

  lemma TokensInOrder(k: Content)
    ensures Tokens(k) == Front(k, Back(k))
  {
    var scales := Nums(k.scales);
    assert scales + [] == scales;
    var end := [Str(k.shardCost)] + scales;
    var a := Strs(Seeds(k));
    var e := EntriesTokens(k.entries);
    var n := Nums(Integers(k));
    IntegersInOrder(k, end);
    assert Back(k) == [Str(k.caCert)] + (n + end);
    SeedsInOrder(k, e + ([Str(SEP)] + Back(k)));
    Regroup(a + e + [Str(SEP)] + [Str(k.caCert)] + n, [Str(k.shardCost)], scales);
    Regroup(a + e + [Str(SEP)] + [Str(k.caCert)], n, end);
    Regroup(a + e + [Str(SEP)], [Str(k.caCert)], n + end);
    Regroup(a + e, [Str(SEP)], Back(k));
    Regroup(a, e, [Str(SEP)] + Back(k));
  }

  lemma ReadBackAt(j: Content, k: Content)
    requires Shaped(k)
    ensures ReadBack(j, Frames(Back(k)))
         == Some(k.(addresses := j.addresses, username := j.username, password := j.password, entries := j.entries))
  {
    var t5 := Nums(k.scales) + [];
    var t4 := [Str(k.shardCost)] + t5;
    var t3 := Nums(k.numbers) + t4;
    var t2 := Nums(k.statuses) + t3;
    var t1 := [Num(|k.statuses|)] + t2;
    var t0 := [Num(k.insecure)] + t1;
    ReadStrAt(k.caCert, t0);
    ReadNumAt(k.insecure, t1);
    ReadNumAt(|k.statuses|, t2);
    ReadNumsAt(k.statuses, t3);
    ReadNumsAt(k.numbers, t4);
    ReadStrAt(k.shardCost, t5);
    ReadNumsAt(k.scales, []);
  }

  lemma ReadAll(k: Content)
    requires Shaped(k) && SeparatorFree(k)
    ensures ReadContent(BytesOf(k)) == Some(k)
  {
    TokensInOrder(k);
    var t3 := EntriesTokens(k.entries) + ([Str(SEP)] + Back(k));
    var t2 := [Str(k.password)] + t3;
    var t1 := [Str(k.username)] + t2;
    ReadAddressesAt(k.addresses, t1);
    ReadStrAt(k.username, t2);
    ReadStrAt(k.password, t3);
    ReadEntriesAt(k.entries, Back(k));
    ReadBackAt(BLANK.(addresses := k.addresses, username := k.username, password := k.password,
                      entries := k.entries), k);
  }

  /** Reading the separators as end marks recovers the content exactly when neither an address nor a header
      name is the separator. */
  lemma BytesReadBack(k: Content)
    requires Shaped(k)
    ensures ReadContent(BytesOf(k)) == Some(k) <==> SeparatorFree(k)
  {
    if SeparatorFree(k) {
      ReadAll(k);
    }
  }

  lemma {:induction false} ReadEntriesNAt(es: seq<Entry>, ts: seq<Token>)
    ensures ReadEntriesN(Frames(EntriesTokens(es) + ts), |es|) == Some((es, Frames(ts)))
  {
    if es == [] {
      assert EntriesTokens(es) + ts == ts;
    } else {
      var e, rest := es[0], EntriesTokens(es[1..]) + ts;
      assert es == [e] + es[1..];
      EntriesInOrder(e, es[1..], ts);
      ReadStrAt(e.key, [Num(|e.values|)] + (Strs(e.values) + rest));
      ReadNumAt(|e.values|, Strs(e.values) + rest);
      ReadStrsAt(e.values, rest);
      ReadEntriesNAt(es[1..], ts);
    }
  }

  /** The counted reader recovers every content, whatever its strings are. */
  lemma ReadCountedAt(k: Content)
    requires Shaped(k)
    ensures ReadCounted(BytesOf(k), |k.addresses|, |k.entries|) == Some(k)
  {
    TokensInOrder(k);
    var t4 := [Str(SEP)] + Back(k);
    var t3 := EntriesTokens(k.entries) + t4;
    var t2 := [Str(k.password)] + t3;
    var t1 := [Str(k.username)] + t2;
    ReadStrsAt(k.addresses, [Str(SEP)] + t1);
    ReadStrAt(SEP, t1);
    ReadStrAt(k.username, t2);
    ReadStrAt(k.password, t3);
    ReadEntriesNAt(k.entries, t4);
    ReadStrAt(SEP, Back(k));
    ReadBackAt(BLANK.(addresses := k.addresses, username := k.username, password := k.password,
                      entries := k.entries), k);
  }

  // ---------------------------------------------------------------------------
  // What the bytes determine
  // ---------------------------------------------------------------------------

  lemma {:induction false} EntryPerHeader(c: Config, order: seq<Bytes>)
    requires Enumerates(order, c.header)
    ensures |ContentOf(c, order).entries| == |c.header|
  {
    SortKeepsMembers(order);
    OrderIsAsLong(order, c.header.Keys);
  }

  lemma {:induction false} OrderIsAsLong(order: seq<Bytes>, keys: set<Bytes>)
    requires forall k :: k in order <==> k in keys
    requires forall i, j :: 0 <= i < j < |order| ==> order[i] != order[j]
    ensures |order| == |keys|
  {
    if order == [] {
      assert keys == {};
    } else {
      var front, last := order[..|order| - 1], order[|order| - 1];
      assert forall k :: k in order <==> k in front || k == last;
      OrderIsAsLong(front, keys - {last});
    }
  }

  /** For all configurations: the hashed fields agree exactly when the hashed bytes do and there are as many
      addresses and as many headers. The two counts, which are not written, are all that is ambiguous. */
  lemma KeyBytesAndCountsDetermineConfig(c: Config, o1: seq<Bytes>, d: Config, o2: seq<Bytes>)
    requires Enumerates(o1, c.header) && Enumerates(o2, d.header)
    ensures SameHashed(c, d)
       <==> && BytesOf(ContentOf(c, o1)) == BytesOf(ContentOf(d, o2))
            && |c.addresses| == |d.addresses| && |c.header| == |d.header|
  {
    EntryPerHeader(c, o1);
    EntryPerHeader(d, o2);
    if SameHashed(c, d) {
      ContentIgnoresOrder(c, o1, d, o2);
      SameFields(c, d);
    } else if BytesOf(ContentOf(c, o1)) == BytesOf(ContentOf(d, o2))
              && |c.addresses| == |d.addresses| && |c.header| == |d.header| {
      ReadCountedAt(ContentOf(c, o1));
      ReadCountedAt(ContentOf(d, o2));
      ContentDeterminesConfig(c, o1, d, o2);
    }
  }

  /** Among configurations without separator-named addresses or headers the counts follow from the bytes, so
      the bytes alone determine every hashed field. */
  lemma KeyBytesDetermineConfig(c: Config, o1: seq<Bytes>, d: Config, o2: seq<Bytes>)
    requires Enumerates(o1, c.header) && Enumerates(o2, d.header)
    requires SeparatorFree(ContentOf(c, o1)) && SeparatorFree(ContentOf(d, o2))
    ensures BytesOf(ContentOf(c, o1)) == BytesOf(ContentOf(d, o2)) <==> SameHashed(c, d)
  {
    KeyBytesAndCountsDetermineConfig(c, o1, d, o2);
    if BytesOf(ContentOf(c, o1)) == BytesOf(ContentOf(d, o2)) {
      BytesReadBack(ContentOf(c, o1));
      BytesReadBack(ContentOf(d, o2));
      EntryPerHeader(c, o1);
      EntryPerHeader(d, o2);
    }
  }

  lemma {:induction false} FramesOfStrsDetermine(a: seq<Bytes>, b: seq<Bytes>)
    requires Frames(Strs(a)) == Frames(Strs(b))
    ensures a == b
  {
    if a != [] && b != [] {
      assert Strs(a) == [Str(a[0])] + Strs(a[1..]) && Strs(b) == [Str(b[0])] + Strs(b[1..]);
      ReadStrAt(a[0], Strs(a[1..]));
      ReadStrAt(b[0], Strs(b[1..]));
      FramesOfStrsDetermine(a[1..], b[1..]);
      assert a == [a[0]] + a[1..] && b == [b[0]] + b[1..];
    }
  }

  lemma CommonTail(a: seq<Bytes>, b: seq<Bytes>, rest: seq<Token>)
    requires Frames(Strs(a) + rest) == Frames(Strs(b) + rest)
    ensures a == b
  {
    FramesOfConcat(Strs(a), rest);
    FramesOfConcat(Strs(b), rest);
    var x, y := Frames(Strs(a)), Frames(Strs(b));
    assert |x| == |y|;
    CutAt(x, Frames(rest), y, Frames(rest));
    FramesOfStrsDetermine(a, b);
  }

  /** Whatever the strings are, a change of the addresses alone always changes the bytes. */
  lemma AddressesAloneAreUnambiguous(c: Config, order: seq<Bytes>, other: seq<Bytes>)
    requires Enumerates(order, c.header)
    ensures BytesOf(ContentOf(c, order)) == BytesOf(ContentOf(c.(addresses := other), order))
       <==> c.addresses == other
  {
    var d := c.(addresses := other);
    var j, k := ContentOf(c, order), ContentOf(d, order);
    assert NumbersOf(c) == NumbersOf(d);
    assert k == j.(addresses := other);
    TokensInOrder(j);
    TokensInOrder(k);
    var rest := [Str(SEP)] + ([Str(j.username)] + ([Str(j.password)]
                + (EntriesTokens(j.entries) + ([Str(SEP)] + Back(j)))));
    if BytesOf(j) == BytesOf(k) {
      CommonTail(c.addresses, other, rest);
    }
  }
}
