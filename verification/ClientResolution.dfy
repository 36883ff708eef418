/**
  What NewClient makes of a configuration: seed addresses from the configuration or the environment, the
  URLs they parse to, and the credentials in force; and that equal cache keys mean equal resolutions.
 */
module ClientResolution {
  import opened Options
  import opened Text
  import opened KeyBuilder
  import opened ConfigKey
  import opened KeyUniqueness
  import opened KeyBytes
  import opened KeyCollisions

  const COMMA: Byte := 44
  const SLASH: Byte := 47

  datatype UserInfo = UserInfo(name: Bytes, password: Option<Bytes>)

  datatype Url = Url(text: seq<Byte>, user: Option<UserInfo>)

  /** url.Parse: any partial function from text to URLs. */
  type UrlParser = seq<Byte> -> Option<Url>

  /** http://localhost:9200 */
  const DEFAULT_URL: Url := Url(
    [104, 116, 116, 112, 58, 47, 47, 108, 111, 99, 97, 108, 104, 111, 115, 116, 58, 57, 50, 48, 48], None)

  // ---------------------------------------------------------------------------
  // Addresses
  // ---------------------------------------------------------------------------

  /** The `w` bytes from `i` on are the UTF-8 encoding of one white-space character, as Go defines it. */
  predicate SpaceAt(s: seq<Byte>, i: nat, w: nat) {
    i + w <= |s|
    && (|| (w == 1 && (9 <= s[i] <= 13 || s[i] == 32))
        || (w == 2 && s[i] == 0xC2 && (s[i + 1] == 0x85 || s[i + 1] == 0xA0))
        || (w == 3 && s[i] == 0xE1 && s[i + 1] == 0x9A && s[i + 2] == 0x80)
        || (w == 3 && s[i] == 0xE2 && s[i + 1] == 0x80
            && (0x80 <= s[i + 2] <= 0x8A || s[i + 2] == 0xA8 || s[i + 2] == 0xA9 || s[i + 2] == 0xAF))
        || (w == 3 && s[i] == 0xE2 && s[i + 1] == 0x81 && s[i + 2] == 0x9F)
        || (w == 3 && s[i] == 0xE3 && s[i + 1] == 0x80 && s[i + 2] == 0x80))
  }

  predicate SpaceTo(s: seq<Byte>, i: nat, j: nat)
    requires i <= j
  {
    SpaceAt(s, i, j - i)
  }

  /** Where the first character from `i` on that is not white space starts. */
  function SkipRight(s: seq<Byte>, i: nat): (r: nat)
    requires i <= |s|
    ensures i <= r <= |s|
    decreases |s| - i
  {
    if SpaceAt(s, i, 1) then SkipRight(s, i + 1)
    else if SpaceAt(s, i, 2) then SkipRight(s, i + 2)
    else if SpaceAt(s, i, 3) then SkipRight(s, i + 3)
    else i
  }

  /** Where the last character of `s[lo..j]` that is not white space ends. */
  function SkipLeft(s: seq<Byte>, lo: nat, j: nat): (r: nat)
    requires lo <= j <= |s|
    ensures lo <= r <= j
    decreases j
  {
    if lo + 1 <= j && SpaceAt(s, j - 1, 1) then SkipLeft(s, lo, j - 1)
    else if lo + 2 <= j && SpaceAt(s, j - 2, 2) then SkipLeft(s, lo, j - 2)
    else if lo + 3 <= j && SpaceAt(s, j - 3, 3) then SkipLeft(s, lo, j - 3)
    else j
  }

  function TrimBlanks(s: Bytes): Bytes {
    var i := SkipRight(s, 0);
    s[i..SkipLeft(s, i, |s|)]
  }

  function TrimSlashes(s: seq<Byte>): seq<Byte> {
    if s != [] && s[|s| - 1] == SLASH then TrimSlashes(s[..|s| - 1]) else s
  }

  /** `s[i..j]` is white-space characters and nothing else. */
  ghost predicate AllSpace(s: seq<Byte>, i: nat, j: nat)
    decreases j - i
  {
    i == j || exists w :: 1 <= w <= j - i && SpaceAt(s, i, w) && AllSpace(s, i + w, j)
  }

  /** `y` is `x` without the white space around it. */
  ghost predicate TrimOf(x: seq<Byte>, y: seq<Byte>) {
    exists i, j :: 0 <= i <= j <= |x| && Around(x, i, j) && y == x[i..j]
  }

  /** Outside `x[i..j]` there is only white space, and it neither starts nor ends with any. */
  ghost predicate Around(x: seq<Byte>, i: nat, j: nat)
    requires i <= j <= |x|
  {
    && AllSpace(x, 0, i) && AllSpace(x, j, |x|)
    && (forall w :: 1 <= w <= j - i ==> !SpaceAt(x, i, w))
    && (forall k :: i <= k < j ==> !SpaceTo(x, k, j))
  }

  /** `y` is `x` without the slashes at its end. */
  ghost predicate Unslashed(x: seq<Byte>, y: seq<Byte>) {
    && y <= x && (forall i :: |y| <= i < |x| ==> x[i] == SLASH)
    && (y == [] || y[|y| - 1] != SLASH)
  }

  lemma {:induction false} TrimSlashesIs(s: seq<Byte>)
    ensures Unslashed(s, TrimSlashes(s))
  {
    if s != [] && s[|s| - 1] == SLASH {
      TrimSlashesIs(s[..|s| - 1]);
    }
  }

  lemma {:induction false} AllSpaceAppend(s: seq<Byte>, i: nat, j: nat, w: nat)
    requires i <= j && AllSpace(s, i, j) && w >= 1 && SpaceAt(s, j, w)
    ensures AllSpace(s, i, j + w)
    decreases j - i
  {
    if i == j {
      assert AllSpace(s, i + w, j + w);
    } else {
      var v :| 1 <= v <= j - i && SpaceAt(s, i, v) && AllSpace(s, i + v, j);
      AllSpaceAppend(s, i + v, j, w);
    }
  }

  lemma {:induction false} SkippedRight(s: seq<Byte>, i: nat)
    requires i <= |s| && AllSpace(s, 0, i)
    ensures AllSpace(s, 0, SkipRight(s, i)) && forall w :: 1 <= w ==> !SpaceAt(s, SkipRight(s, i), w)
    decreases |s| - i
  {
    if SpaceAt(s, i, 1) {
      AllSpaceAppend(s, 0, i, 1);
      SkippedRight(s, i + 1);
    } else if SpaceAt(s, i, 2) {
      AllSpaceAppend(s, 0, i, 2);
      SkippedRight(s, i + 2);
    } else if SpaceAt(s, i, 3) {
      AllSpaceAppend(s, 0, i, 3);
      SkippedRight(s, i + 3);
    }
  }

  lemma {:induction false} SkippedLeft(s: seq<Byte>, lo: nat, j: nat)
    requires lo <= j <= |s| && AllSpace(s, j, |s|)
    ensures var r := SkipLeft(s, lo, j);
            AllSpace(s, r, |s|) && forall k :: lo <= k < r ==> !SpaceTo(s, k, r)
    decreases j
  {
    if lo + 1 <= j && SpaceAt(s, j - 1, 1) {
      assert AllSpace(s, j - 1 + 1, |s|);
      SkippedLeft(s, lo, j - 1);
    } else if lo + 2 <= j && SpaceAt(s, j - 2, 2) {
      assert AllSpace(s, j - 2 + 2, |s|);
      SkippedLeft(s, lo, j - 2);
    } else if lo + 3 <= j && SpaceAt(s, j - 3, 3) {
      assert AllSpace(s, j - 3 + 3, |s|);
      SkippedLeft(s, lo, j - 3);
    } else {
      forall k | lo <= k < j ensures !SpaceTo(s, k, j) {
        assert j - k > 3 || k == j - 1 || k == j - 2 || k == j - 3;
      }
    }
  }

  lemma {:induction false} TrimBlanksIs(s: Bytes)
    ensures TrimOf(s, TrimBlanks(s))
  {
    SkippedRight(s, 0);
    var i := SkipRight(s, 0);
    SkippedLeft(s, i, |s|);
    assert Around(s, i, SkipLeft(s, i, |s|));
  }

  function Utf8(c: char): seq<Byte>
    requires c as int < 0x1_0000
  {
    var n := c as int;
    if n < 0x80 then [n]
    else if n < 0x800 then [0xC0 + n / 64, 0x80 + n % 64]
    else [0xE0 + n / 4096, 0x80 + n / 64 % 64, 0x80 + n % 64]
  }

  /** The bytes and the characters that count as white space are the same. */
  lemma {:induction false} SpaceBytesAreSpaceChars(c: char)
    requires c as int < 0x1_0000
    ensures SpaceAt(Utf8(c), 0, |Utf8(c)|) <==> IsSpace(c)
  {
  }

  lemma {:induction false} SplitPartsAreShort(s: seq<Byte>, sep: Byte)
    ensures forall p :: p in Split(s, sep) ==> |p| <= |s|
  {
    if s != [] {
      SplitPartsAreShort(s[1..], sep);
    }
  }

  function EnvParts(env: Bytes): (r: seq<Bytes>)
    ensures |r| == |Split(env, COMMA)|
    ensures forall i :: 0 <= i < |r| ==> r[i] == Split(env, COMMA)[i]
  {
    SplitPartsAreShort(env, COMMA);
    var parts := Split(env, COMMA);
    seq(|parts|, i requires 0 <= i < |parts| => assert parts[i] in parts; parts[i])
  }

  /** The comma-separated addresses of a set, non-empty environment variable. */
  function EnvAddresses(env: Option<Bytes>): seq<Bytes> {
    if env.None? || env.value == [] then []
    else var parts := EnvParts(env.value); seq(|parts|, i requires 0 <= i < |parts| => TrimBlanks(parts[i]))
  }

  method AddrsFromEnvironment(env: Option<Bytes>) returns (addrs: seq<Bytes>)
    ensures addrs == EnvAddresses(env)
  {
    addrs := [];
    if env.Some? && env.value != [] {
      var list := EnvParts(env.value);
      for idx := 0 to |list|
        invariant addrs == EnvAddresses(env)[..idx]
      {
        addrs := addrs + [TrimBlanks(list[idx])];
      }
    }
  }

  function Effective(env: Option<Bytes>, c: Config): seq<Bytes> {
    if c.addresses == [] then EnvAddresses(env) else c.addresses
  }

  function UrlsOf(parse: UrlParser, addrs: seq<Bytes>): Option<seq<Url>> {
    if addrs == [] then Some([])
    else
      var us :- UrlsOf(parse, addrs[..|addrs| - 1]);
      var u :- parse(TrimSlashes(addrs[|addrs| - 1]));
      Some(us + [u])
  }

  lemma {:induction false} UrlsOfPrefix(parse: UrlParser, addrs: seq<Bytes>, n: nat)
    requires n <= |addrs| && UrlsOf(parse, addrs[..n]).None?
    ensures UrlsOf(parse, addrs).None?
    decreases |addrs|
  {
    if n < |addrs| {
      assert addrs[..|addrs| - 1][..n] == addrs[..n];
      UrlsOfPrefix(parse, addrs[..|addrs| - 1], n);
    } else {
      assert addrs[..n] == addrs;
    }
  }

  lemma {:induction false} UrlsOfEach(parse: UrlParser, addrs: seq<Bytes>)
    ensures UrlsOf(parse, addrs).Some?
       <==> forall i :: 0 <= i < |addrs| ==> parse(TrimSlashes(addrs[i])).Some?
    ensures UrlsOf(parse, addrs).Some? ==>
      && |UrlsOf(parse, addrs).value| == |addrs|
      && forall i :: 0 <= i < |addrs| ==> parse(TrimSlashes(addrs[i])) == Some(UrlsOf(parse, addrs).value[i])
  {
    if addrs != [] {
      UrlsOfEach(parse, addrs[..|addrs| - 1]);
    }
  }

  /** Fails exactly if some address fails to parse; otherwise one URL per address, in order. */
  method AddrsToURLs(parse: UrlParser, addrs: seq<Bytes>) returns (urls: Option<seq<Url>>)
    ensures urls == UrlsOf(parse, addrs)
    ensures urls.Some? <==> forall i :: 0 <= i < |addrs| ==> parse(TrimSlashes(addrs[i])).Some?
    ensures urls.Some? ==>
      && |urls.value| == |addrs|
      && forall i :: 0 <= i < |addrs| ==> parse(TrimSlashes(addrs[i])) == Some(urls.value[i])
  {
    UrlsOfEach(parse, addrs);
    var found: seq<Url> := [];
    for i := 0 to |addrs|
      invariant UrlsOf(parse, addrs[..i]) == Some(found)
    {
      var u := parse(TrimSlashes(addrs[i]));
      assert addrs[..i + 1][..i] == addrs[..i];
      if u.None? {
        UrlsOfPrefix(parse, addrs, i + 1);
        return None;
      }
      found := found + [u.value];
    }
    assert addrs[..|addrs|] == addrs;
    urls := Some(found);
  }

  // ---------------------------------------------------------------------------
  // Credentials
  // ---------------------------------------------------------------------------

  datatype Credentials = Credentials(username: Bytes, password: Bytes)

  /** Fills only what is missing, and only from the first URL that carries user information. */
  method ExtractCredentials(given: Credentials, urls: seq<Url>) returns (r: Credentials)
    ensures r == InForce(given, urls)
  {
    r := given;
    if |urls| == 0 || (given.username != [] && given.password != []) {
      return;
    }
    for i := 0 to |urls|
      invariant r == given
      invariant forall j :: 0 <= j < i ==> urls[j].user.None?
    {
      if urls[i].user.None? {
        continue;
      }
      FirstUserIs(urls, i);
      var u := urls[i].user.value;
      if r.username == [] {
        r := r.(username := u.name);
      }
      if r.password == [] && u.password.Some? {
        r := r.(password := u.password.value);
      }
      return;
    }
    NoFirstUser(urls);
  }

  function FirstUser(urls: seq<Url>): Option<UserInfo> {
    if urls == [] then None
    else if urls[0].user.Some? then urls[0].user
    else FirstUser(urls[1..])
  }

  lemma {:induction false} FirstUserIs(urls: seq<Url>, i: nat)
    requires i < |urls| && urls[i].user.Some? && forall j :: 0 <= j < i ==> urls[j].user.None?
    ensures FirstUser(urls) == urls[i].user
  {
    if i > 0 {
      FirstUserIs(urls[1..], i - 1);
    }
  }

  lemma {:induction false} NoFirstUser(urls: seq<Url>)
    requires forall j :: 0 <= j < |urls| ==> urls[j].user.None?
    ensures FirstUser(urls) == None
  {
    if urls != [] {
      NoFirstUser(urls[1..]);
    }
  }

  function InForce(given: Credentials, urls: seq<Url>): Credentials {
    match FirstUser(urls)
    case None => given
    case Some(u) =>
      Credentials(
        if given.username != [] then given.username else u.name,
        if given.password == [] && u.password.Some? then u.password.value else given.password)
  }

  /** Configured credentials are never replaced, and what is missing comes from the first URL that carries
      user information, at index `i`: later URLs never matter. A password that URL lacks stays missing, and
      without any such URL, when `i` is their number, nothing changes. */
  lemma CredentialsInForce(given: Credentials, urls: seq<Url>, i: nat)
    requires i <= |urls| && (i < |urls| ==> urls[i].user.Some?) && forall j :: 0 <= j < i ==> urls[j].user.None?
    ensures i == |urls| ==> InForce(given, urls) == given
    ensures i < |urls| ==>
      var user, r := urls[i].user.value, InForce(given, urls);
      && r == InForce(given, [urls[i]])
      && r.username == (if given.username != [] then given.username else user.name)
      && r.password == (if given.password != [] then given.password
                        else if user.password.Some? then user.password.value else [])
  {
    if i == |urls| {
      NoFirstUser(urls);
    } else {
      FirstUserIs(urls, i);
    }
  }

  // ---------------------------------------------------------------------------
  // The client and its key
  // ---------------------------------------------------------------------------

  datatype Resolved = Resolved(urls: seq<Url>, credentials: Credentials)

  /** The URLs and credentials the transport is built with, or none when an address does not parse. */
  function Resolve(parse: UrlParser, env: Option<Bytes>, c: Config): Option<Resolved> {
    var parsed :- UrlsOf(parse, Effective(env, c));
    var urls := if parsed == [] then [DEFAULT_URL] else parsed;
    Some(Resolved(urls, InForce(Credentials(c.username, c.password), urls)))
  }

  /** One URL per address, each that of its address without trailing slashes; none if one does not parse. */
  ghost predicate ParsedFrom(parse: UrlParser, addrs: seq<Bytes>, r: Option<Resolved>) {
    && (r.Some? ==>
          && |r.value.urls| == |addrs|
          && forall i :: 0 <= i < |addrs| ==>
               exists text :: Unslashed(addrs[i], text) && parse(text) == Some(r.value.urls[i]))
    && (r.None? ==> exists i, text :: 0 <= i < |addrs| && Unslashed(addrs[i], text) && parse(text).None?)
  }

  /** The pieces of a comma-separated text, without the white space around them. */
  ghost predicate PiecesOf(text: Bytes, addrs: seq<Bytes>) {
    && |addrs| == |Split(text, COMMA)|
    && forall i :: 0 <= i < |addrs| ==> TrimOf(Split(text, COMMA)[i], addrs[i])
  }

  /** Configured credentials, filled up from the first URL with user information. */
  ghost predicate FilledFrom(given: Credentials, urls: seq<Url>, r: Credentials) {
    && ((forall j :: 0 <= j < |urls| ==> urls[j].user.None?) ==> r == given)
    && forall i :: 0 <= i < |urls| && urls[i].user.Some? && (forall j :: 0 <= j < i ==> urls[j].user.None?) ==>
         && r.username == (if given.username != [] then given.username else urls[i].user.value.name)
         && r.password == (if given.password != [] then given.password
                           else if urls[i].user.value.password.Some? then urls[i].user.value.password.value
                           else [])
  }

  lemma {:induction false} InForceIsFilled(given: Credentials, urls: seq<Url>)
    ensures FilledFrom(given, urls, InForce(given, urls))
  {
    if forall j :: 0 <= j < |urls| ==> urls[j].user.None? {
      CredentialsInForce(given, urls, |urls|);
    }
    forall i | 0 <= i < |urls| && urls[i].user.Some? && (forall j :: 0 <= j < i ==> urls[j].user.None?)
      ensures InForce(given, urls).username
           == if given.username != [] then given.username else urls[i].user.value.name
      ensures InForce(given, urls).password
           == if given.password != [] then given.password
              else if urls[i].user.value.password.Some? then urls[i].user.value.password.value else []
    {
      CredentialsInForce(given, urls, i);
    }
  }

  lemma {:induction false} ParsedFromAddresses(parse: UrlParser, addrs: seq<Bytes>, r: Option<Resolved>)
    requires r.Some? <==> UrlsOf(parse, addrs).Some?
    requires r.Some? ==> r.value.urls == UrlsOf(parse, addrs).value
    ensures ParsedFrom(parse, addrs, r)
  {
    UrlsOfEach(parse, addrs);
    forall i | 0 <= i < |addrs| ensures Unslashed(addrs[i], TrimSlashes(addrs[i])) {
      TrimSlashesIs(addrs[i]);
    }
    if r.None? {
      var i :| 0 <= i < |addrs| && parse(TrimSlashes(addrs[i])).None?;
      assert Unslashed(addrs[i], TrimSlashes(addrs[i]));
    }
  }

  lemma {:induction false} EnvAddressesArePieces(env: Bytes)
    requires env != []
    ensures PiecesOf(env, EnvAddresses(Some(env))) && EnvAddresses(Some(env)) != []
  {
    forall i | 0 <= i < |Split(env, COMMA)| ensures TrimOf(Split(env, COMMA)[i], EnvAddresses(Some(env))[i]) {
      TrimBlanksIs(EnvParts(env)[i]);
    }
  }

  /** Where the URLs and credentials of a client come from. */
  ghost predicate ResolvedFrom(parse: UrlParser, env: Option<Bytes>, cfg: Config, r: Option<Resolved>) {
    && (cfg.addresses != [] ==> ParsedFrom(parse, cfg.addresses, r))
    && (cfg.addresses == [] && env.Some? && env.value != [] ==>
          exists addrs :: PiecesOf(env.value, addrs) && ParsedFrom(parse, addrs, r))
    && (cfg.addresses == [] && (env.None? || env.value == []) ==> r.Some? && r.value.urls == [DEFAULT_URL])
    && (r.Some? ==> FilledFrom(Credentials(cfg.username, cfg.password), r.value.urls, r.value.credentials))
  }

  /** Configured addresses are used whatever the environment says; without them the environment's pieces; and
      without either the default URL alone. */
  lemma {:induction false} AddressesComeFrom(parse: UrlParser, env: Option<Bytes>, cfg: Config)
    ensures ResolvedFrom(parse, env, cfg, Resolve(parse, env, cfg))
    ensures cfg.addresses != [] ==> Resolve(parse, env, cfg) == Resolve(parse, None, cfg)
  {
    var r := Resolve(parse, env, cfg);
    if r.Some? {
      InForceIsFilled(Credentials(cfg.username, cfg.password), r.value.urls);
    }
    UrlsOfEach(parse, Effective(env, cfg));
    if cfg.addresses != [] {
      ParsedFromAddresses(parse, cfg.addresses, r);
    } else if env.Some? && env.value != [] {
      EnvAddressesArePieces(env.value);
      ParsedFromAddresses(parse, EnvAddresses(env), r);
    }
  }

  lemma {:induction false} DefaultUrlText()
    ensures var text := "http://localhost:9200";
            |DEFAULT_URL.text| == |text| && forall i :: 0 <= i < |text| ==> DEFAULT_URL.text[i] == text[i] as int
    ensures DEFAULT_URL.user == None
  {
  }

  method NewClient(parse: UrlParser, env: Option<Bytes>, cfg: Config) returns (r: Option<Resolved>)
    ensures r == Resolve(parse, env, cfg)
    ensures ResolvedFrom(parse, env, cfg, r)
  {
    AddressesComeFrom(parse, env, cfg);
    var addrs: seq<Bytes>;
    if |cfg.addresses| == 0 {
      addrs := AddrsFromEnvironment(env);
    } else {
      addrs := cfg.addresses;
    }
    var parsed := AddrsToURLs(parse, addrs);
    if parsed.None? {
      return None;
    }
    var urls := parsed.value;
    if |urls| == 0 {
      urls := [DEFAULT_URL];
    }
    var creds := ExtractCredentials(Credentials(cfg.username, cfg.password), urls);
    r := Some(Resolved(urls, creds));
  }

  /** The configuration that is hashed: seed addresses from the environment are folded in first. */
  function KeyConfig(env: Option<Bytes>, c: Config): Config {
    c.(addresses := Effective(env, c))
  }

  function KeyContent(env: Option<Bytes>, c: Config, order: seq<Bytes>): Content
    requires Enumerates(order, c.header)
  {
    ContentOf(KeyConfig(env, c), order)
  }

  lemma SameHashedSameResolution(parse: UrlParser, env: Option<Bytes>, c: Config, d: Config)
    requires SameHashed(KeyConfig(env, c), KeyConfig(env, d))
    ensures Resolve(parse, env, c) == Resolve(parse, env, d)
  {
    SameFields(KeyConfig(env, c), KeyConfig(env, d));
  }

  /** Cache coherence: under one environment, configurations with the same stream of key calls are
      resolved alike, whether their addresses are listed or come from the environment. */
  lemma EqualKeysEqualClients(
    parse: UrlParser, env: Option<Bytes>, c: Config, o1: seq<Bytes>, d: Config, o2: seq<Bytes>)
    requires Enumerates(o1, c.header) && Enumerates(o2, d.header)
    requires Tokens(KeyContent(env, c, o1)) == Tokens(KeyContent(env, d, o2))
    ensures Resolve(parse, env, c) == Resolve(parse, env, d)
    ensures SameHashed(KeyConfig(env, c), KeyConfig(env, d))
  {
    KeyCallsDetermineConfig(KeyConfig(env, c), o1, KeyConfig(env, d), o2);
    SameHashedSameResolution(parse, env, c, d);
  }

  /** The same for the hashed bytes, when as many addresses are in force and there are as many headers. */
  lemma EqualKeyBytesEqualClients(
    parse: UrlParser, env: Option<Bytes>, c: Config, o1: seq<Bytes>, d: Config, o2: seq<Bytes>)
    requires Enumerates(o1, c.header) && Enumerates(o2, d.header)
    requires BytesOf(KeyContent(env, c, o1)) == BytesOf(KeyContent(env, d, o2))
    requires |Effective(env, c)| == |Effective(env, d)| && |c.header| == |d.header|
    ensures Resolve(parse, env, c) == Resolve(parse, env, d)
    ensures SameHashed(KeyConfig(env, c), KeyConfig(env, d))
  {
    KeyBytesAndCountsDetermineConfig(KeyConfig(env, c), o1, KeyConfig(env, d), o2);
    SameHashedSameResolution(parse, env, c, d);
  }

  /** And, whatever the counts, when no address in force and no header name is the separator. */
  lemma SeparatorFreeKeyBytesEqualClients(
    parse: UrlParser, env: Option<Bytes>, c: Config, o1: seq<Bytes>, d: Config, o2: seq<Bytes>)
    requires Enumerates(o1, c.header) && Enumerates(o2, d.header)
    requires SeparatorFree(KeyContent(env, c, o1)) && SeparatorFree(KeyContent(env, d, o2))
    requires BytesOf(KeyContent(env, c, o1)) == BytesOf(KeyContent(env, d, o2))
    ensures Resolve(parse, env, c) == Resolve(parse, env, d)
  {
    KeyBytesDetermineConfig(KeyConfig(env, c), o1, KeyConfig(env, d), o2);
    SameHashedSameResolution(parse, env, c, d);
  }

  /** NewDefaultClient keys one configuration under whatever environment it finds. Between two environments
      its key bytes agree exactly when the addresses in force do, and then the clients resolve alike. */
  lemma DefaultKeyFollowsEnvironment(
    parse: UrlParser, c: Config, order: seq<Bytes>, env1: Option<Bytes>, env2: Option<Bytes>)
    requires Enumerates(order, c.header)
    ensures BytesOf(KeyContent(env1, c, order)) == BytesOf(KeyContent(env2, c, order))
       <==> Effective(env1, c) == Effective(env2, c)
    ensures BytesOf(KeyContent(env1, c, order)) == BytesOf(KeyContent(env2, c, order)) ==>
      Resolve(parse, env1, c) == Resolve(parse, env2, c)
  {
    var d := KeyConfig(env1, c);
    assert KeyConfig(env2, c) == d.(addresses := Effective(env2, c));
    AddressesAloneAreUnambiguous(d, order, Effective(env2, c));
  }

  /** Without such a condition it fails: with no environment and a URL parser that refuses the separator
      as an address, one configuration of the colliding pair resolves to the default URL and the other
      to an error. */
  lemma CollidingKeysResolveApart(parse: UrlParser, c: Config)
    requires parse(SEP).None?
    ensures BytesOf(KeyContent(None, Left(c), [])) == BytesOf(KeyContent(None, Right(c), []))
    ensures Resolve(parse, None, Left(c)).Some? && Resolve(parse, None, Right(c)).None?
  {
    assert KeyConfig(None, Left(c)) == Left(c) && KeyConfig(None, Right(c)) == Right(c);
    KeyBytesCollide(c);
    assert TrimSlashes(SEP) == SEP;
    assert [SEP][..0] == [];
  }
}
