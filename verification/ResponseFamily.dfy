/**
  Whole families of value copies of one response. Copies share the reader and the render cache until
  ParseError gives one of them a reader of its own. Any of the calls may be made on any copy in any order;
  what each returns is decided by which copies still hold the bytes.
 */
module ResponseFamily {
  import opened Options
  import opened KeyBuilder
  import opened ErrorBody
  import opened Responses
  import ResponseRuns

  /** A call on the copy at an index; indices wrap around. */
  datatype Call =
    | MakeCopy(of: nat)
    | String(of: nat)
    | RawBody(of: nat)
    | HijackBody(of: nat)
    | ParseError(of: nat)

  datatype Seen = Made | Shows(text: Rendered) | Gives(bytes: Option<seq<Byte>>) | Finds(e: ParseResult)

  /** What the response arrived with: a status, the body's bytes if there is a body, and the error reading
      it ends in if there is one. */
  datatype Arrival = Arrival(code: GoInt, data: Option<seq<Byte>>, failure: Option<nat>)

  /** `buffered`: the copy still refers to the buffer. `holds`: its reader has the bytes left.
      `original`: its reader is the one the response arrived with. */
  datatype Copy = Copy(buffered: bool, holds: bool, original: bool)

  /** `cache` is the state of the copy that was rendered into the cache, if one was. */
  datatype Family = Family(copies: seq<Copy>, cache: Option<Copy>)

  function Begin(buffered: bool): Family {
    Family([Copy(buffered, true, true)], None)
  }

  function At(f: Family, c: Call): (i: nat)
    requires f.copies != []
    ensures i < |f.copies|
  {
    c.of % |f.copies|
  }

  function Release(copies: seq<Copy>): (r: seq<Copy>)
    ensures |r| == |copies|
  {
    seq(|copies|, k requires 0 <= k < |copies| => copies[k].(holds := false))
  }

  function AfterCopy(f: Family, i: nat): Family
    requires i < |f.copies|
  {
    f.(copies := f.copies + [f.copies[i]])
  }

  /** A rendering that has to read and finds the bytes puts them in the cache. */
  function AfterString(f: Family, i: nat): Family
    requires i < |f.copies|
  {
    var me := f.copies[i];
    if me.buffered || f.cache.Some? then f
    else Family(if me.holds then Release(f.copies) else f.copies, Some(me))
  }

  function AfterHijack(f: Family, i: nat): Family
    requires i < |f.copies|
  {
    f.(copies := f.copies[i := f.copies[i].(buffered := false)])
  }

  /** A ParseError that finds the bytes takes them from all other copies. */
  function AfterParse(f: Family, i: nat): Family
    requires i < |f.copies|
  {
    var me := f.copies[i];
    f.(copies := (if me.holds then Release(f.copies) else f.copies)[i := me.(original := false)])
  }

  function Step(f: Family, c: Call): (f': Family)
    requires f.copies != []
    ensures f'.copies != []
  {
    var i := At(f, c);
    match c
    case MakeCopy(_) => AfterCopy(f, i)
    case String(_) => AfterString(f, i)
    case RawBody(_) => f
    case HijackBody(_) => AfterHijack(f, i)
    case ParseError(_) => AfterParse(f, i)
  }

  /** The call takes the bytes out of the reader they are in. */
  predicate Takes(f: Family, c: Call)
    requires f.copies != []
  {
    var me := f.copies[At(f, c)];
    me.holds && (c.ParseError? || (c.String? && !me.buffered && f.cache.None?))
  }

  function Replay(f: Family, calls: seq<Call>): (f': Family)
    requires f.copies != []
    ensures f'.copies != []
    decreases |calls|
  {
    if calls == [] then f else Step(Replay(f, calls[..|calls| - 1]), calls[|calls| - 1])
  }

  function BytesOf(a: Arrival, c: Copy): seq<Byte>
    requires a.data.Some?
  {
    if c.holds then a.data.value else []
  }

  function FailureOf(a: Arrival, c: Copy): Option<nat> {
    if c.original then a.failure else None
  }

  function TextOf(a: Arrival, c: Copy): Rendered {
    if a.data.None? then StatusOnly(a.code) else Render(a.code, BytesOf(a, c), FailureOf(a, c))
  }

  function TextAt(a: Arrival, f: Family, i: nat): Rendered
    requires i < |f.copies|
  {
    if f.copies[i].buffered && a.data.Some? then WithBody(a.code, a.data.value)
    else TextOf(a, if f.cache.Some? then f.cache.value else f.copies[i])
  }

  function BufferAt(a: Arrival, f: Family, i: nat): Option<seq<Byte>>
    requires i < |f.copies|
  {
    if f.copies[i].buffered then a.data else None
  }

  function FoundAt(codec: Codec, a: Arrival, f: Family, i: nat): ParseResult
    requires i < |f.copies|
  {
    var failure := FailureOf(a, f.copies[i]);
    if a.data.None? then EmptyBody(a.code)
    else if failure.Some? then ReadBodyError(failure.value)
    else ParseBytes(codec, a.code, BytesOf(a, f.copies[i]))
  }

  /** What a call returns. */
  function Answer(codec: Codec, a: Arrival, f: Family, c: Call): Seen
    requires f.copies != []
  {
    var i := At(f, c);
    match c
    case MakeCopy(_) => Made
    case String(_) => Shows(TextAt(a, f, i))
    case RawBody(_) => Gives(BufferAt(a, f, i))
    case HijackBody(_) => Gives(BufferAt(a, f, i))
    case ParseError(_) => Finds(FoundAt(codec, a, f, i))
  }

  /** What each of the calls returns. */
  function Answers(codec: Codec, a: Arrival, f: Family, calls: seq<Call>): (seen: seq<Seen>)
    requires f.copies != []
    ensures |seen| == |calls|
    decreases |calls|
  {
    if calls == [] then []
    else
      var before, last := calls[..|calls| - 1], calls[|calls| - 1];
      Answers(codec, a, f, before) + [Answer(codec, a, Replay(f, before), last)]
  }

  /** A call's answer depends on the calls before it only. */
  lemma {:induction false} AnswersAt(codec: Codec, a: Arrival, f: Family, calls: seq<Call>, k: nat)
    requires f.copies != [] && k < |calls|
    ensures Answers(codec, a, f, calls)[k] == Answer(codec, a, Replay(f, calls[..k]), calls[k])
    decreases |calls|
  {
    var before := calls[..|calls| - 1];
    if k < |before| {
      AnswersAt(codec, a, f, before, k);
      assert before[..k] == calls[..k];
    }
  }

  // ---------------------------------------------------------------------------
  // The family of objects
  // ---------------------------------------------------------------------------

  /** One response object: its buffer and its reader are in the state `c` says. */
  ghost predicate Is(r: Response, a: Arrival, c: Copy)
    reads r, r.body
  {
    && r.statusCode == a.code
    && r.rawBody == (if c.buffered then a.data else None)
    && (a.data.None? <==> r.body == null)
    && (a.data.Some? ==> r.body.rest == BytesOf(a, c) && r.body.failure == FailureOf(a, c))
  }

  /** The copies that hold the bytes are those whose reader is `home`; it is null when none does. */
  ghost predicate Matches(rs: seq<Response>, cache: RenderCache, home: Reader?, a: Arrival, f: Family)
    reads rs, cache, set r | r in rs :: r.body
  {
    && f.copies != [] && |rs| == |f.copies|
    && (forall j, k :: 0 <= j < k < |rs| ==> rs[j] != rs[k])
    && (forall k :: 0 <= k < |rs| ==> rs[k].render == cache && Is(rs[k], a, f.copies[k]))
    && (forall k :: 0 <= k < |rs| && a.data.Some? ==> (f.copies[k].holds <==> rs[k].body == home))
    && (cache.loaded <==> a.data.Some? && f.cache.Some?)
    && (cache.loaded ==> Render(a.code, cache.buf, cache.err) == TextOf(a, f.cache.value))
  }

  /** The objects a family's calls may change. */
  ghost predicate Owned(rs: seq<Response>, cache: RenderCache, mine: set<object>)
    reads rs
  {
    cache in mine && forall k :: 0 <= k < |rs| ==> rs[k] in mine && (rs[k].body != null ==> rs[k].body in mine)
  }

  method CopyAt(
    rs: seq<Response>, ghost cache: RenderCache, ghost home: Reader?, ghost a: Arrival, ghost f: Family, i: nat,
    ghost mine: set<object>)
    returns (rs': seq<Response>, ghost mine': set<object>)
    requires Matches(rs, cache, home, a, f) && Owned(rs, cache, mine) && i < |rs|
    ensures Matches(rs', cache, home, a, AfterCopy(f, i)) && Owned(rs', cache, mine') && fresh(mine' - mine)
  {
    var copy := new Response.Copy(rs[i]);
    rs', mine' := rs + [copy], mine + {copy};
  }

  method StringAt(
    rs: seq<Response>, ghost cache: RenderCache, ghost home: Reader?, ghost a: Arrival, ghost f: Family, i: nat,
    ghost mine: set<object>)
    returns (text: Rendered, ghost home': Reader?)
    requires Matches(rs, cache, home, a, f) && Owned(rs, cache, mine) && i < |rs|
    modifies mine
    ensures Matches(rs, cache, home', a, AfterString(f, i)) && Owned(rs, cache, mine)
    ensures text == TextAt(a, f, i)
  {
    ghost var reading := !f.copies[i].buffered && f.cache.None?;
    home' := if reading && f.copies[i].holds then null else home;
    text := rs[i].String();
  }

  method HijackAt(
    rs: seq<Response>, ghost cache: RenderCache, ghost home: Reader?, ghost a: Arrival, ghost f: Family, i: nat,
    ghost mine: set<object>)
    returns (data: Option<seq<Byte>>)
    requires Matches(rs, cache, home, a, f) && Owned(rs, cache, mine) && i < |rs|
    modifies mine
    ensures Matches(rs, cache, home, a, AfterHijack(f, i)) && Owned(rs, cache, mine)
    ensures data == BufferAt(a, f, i)
  {
    data := rs[i].HijackBody();
  }

  method ParseAt(
    codec: Codec,
    rs: seq<Response>, ghost cache: RenderCache, ghost home: Reader?, ghost a: Arrival, ghost f: Family, i: nat,
    ghost mine: set<object>)
    returns (e: ParseResult, ghost home': Reader?, ghost mine': set<object>)
    requires Matches(rs, cache, home, a, f) && Owned(rs, cache, mine) && i < |rs|
    modifies mine
    ensures Matches(rs, cache, home', a, AfterParse(f, i)) && Owned(rs, cache, mine') && fresh(mine' - mine)
    ensures e == FoundAt(codec, a, f, i)
  {
    e := rs[i].ParseError(codec);
    home' := if f.copies[i].holds then rs[i].body else home;
    mine' := if rs[i].body == null then mine else mine + {rs[i].body};
  }

  method Do(
    codec: Codec,
    rs: seq<Response>, ghost cache: RenderCache, ghost home: Reader?, ghost a: Arrival, ghost f: Family, c: Call,
    ghost mine: set<object>)
    returns (rs': seq<Response>, seen: Seen, ghost home': Reader?, ghost mine': set<object>)
    requires Matches(rs, cache, home, a, f) && Owned(rs, cache, mine)
    modifies mine
    ensures Matches(rs', cache, home', a, Step(f, c)) && Owned(rs', cache, mine') && fresh(mine' - mine)
    ensures seen == Answer(codec, a, f, c)
  {
    rs', home', mine' := rs, home, mine;
    var i := c.of % |rs|;
    if c.MakeCopy? {
      rs', mine' := CopyAt(rs, cache, home, a, f, i, mine);
      seen := Made;
    } else if c.String? {
      var text;
      text, home' := StringAt(rs, cache, home, a, f, i, mine);
      seen := Shows(text);
    } else if c.RawBody? {
      var data := rs[i].RawBody();
      seen := Gives(data);
    } else if c.HijackBody? {
      var data := HijackAt(rs, cache, home, a, f, i, mine);
      seen := Gives(data);
    } else {
      var e;
      e, home', mine' := ParseAt(codec, rs, cache, home, a, f, i, mine);
      seen := Finds(e);
    }
  }

  /** The response as Execute or NewResponse hands it over. */
  ghost predicate Arrives(r: Response, a: Arrival, buffered: bool)
    reads r, r.body, r.render
  {
    r.render != null && !r.render.loaded && Is(r, a, Copy(buffered, true, true))
  }

  lemma {:induction false} NextCall(codec: Codec, a: Arrival, f: Family, calls: seq<Call>, k: nat)
    requires f.copies != [] && k < |calls|
    ensures Replay(f, calls[..k + 1]) == Step(Replay(f, calls[..k]), calls[k])
    ensures Answers(codec, a, f, calls[..k + 1])
         == Answers(codec, a, f, calls[..k]) + [Answer(codec, a, Replay(f, calls[..k]), calls[k])]
  {
    assert calls[..k + 1][..k] == calls[..k];
  }

  method RunCalls(
    codec: Codec, first: seq<Response>, ghost cache: RenderCache, ghost home: Reader?, ghost a: Arrival,
    ghost f: Family, calls: seq<Call>, ghost given: set<object>)
    returns (seen: seq<Seen>)
    requires Matches(first, cache, home, a, f) && Owned(first, cache, given)
    modifies given
    ensures seen == Answers(codec, a, f, calls)
  {
    var rs := first;
    seen := [];
    ghost var now, here, mine := f, home, given;
    for k := 0 to |calls|
      invariant Matches(rs, cache, here, a, now) && Owned(rs, cache, mine)
      invariant forall o :: o in mine ==> o in given || fresh(o)
      invariant now == Replay(f, calls[..k]) && seen == Answers(codec, a, f, calls[..k])
    {
      var s;
      rs, s, here, mine := Do(codec, rs, cache, here, a, now, calls[k], mine);
      NextCall(codec, a, f, calls, k);
      now := Step(now, calls[k]);
      seen := seen + [s];
    }
    assert calls[..|calls|] == calls;
  }

  /** Over every sequence of calls on a response and its copies, each call returns what the replay of the
      calls before it says. */
  method RunFamily(codec: Codec, r: Response, ghost a: Arrival, ghost buffered: bool, calls: seq<Call>)
    returns (seen: seq<Seen>)
    requires Arrives(r, a, buffered)
    modifies r, r.body, r.render
    ensures seen == Answers(codec, a, Begin(buffered), calls)
  {
    ghost var given: set<object> := if r.body == null then {r, r.render} else {r, r.render, r.body};
    seen := RunCalls(codec, [r], r.render, r.body, a, Begin(buffered), calls, given);
  }

  /** What Execute hands over: with a transport error the body as it came, after a failed read an empty one
      that still fails, otherwise the buffered bytes. */
  function Arrived(
    code: GoInt, body: Option<(seq<Byte>, Option<nat>)>, transport: Option<ResponseRuns.TransportError>)
    : (Arrival, bool)
  {
    if body.None? then (Arrival(code, None, None), transport.None?)
    else if transport.Some? then (Arrival(code, Some(body.value.0), body.value.1), false)
    else if body.value.1.Some? then (Arrival(code, Some([]), body.value.1), false)
    else (Arrival(code, Some(body.value.0), None), true)
  }

  /** Any calls on any copies of a response that came from Execute, with or without an error. */
  method ExecuteAndCall(
    codec: Codec, statusCode: GoInt, httpBody: Reader?, transport: Option<ResponseRuns.TransportError>,
    unmarshal: Option<seq<Byte> -> bool>, calls: seq<Call>)
    returns (err: Option<ResponseRuns.ExecuteError>, seen: seq<Seen>)
    modifies httpBody
    ensures var body := if httpBody == null then None else Some((old(httpBody.rest), httpBody.failure));
            var (arrival, buffered) := Arrived(statusCode, body, transport);
            && err == ResponseRuns.Failure(transport, body, unmarshal, statusCode)
            && seen == Answers(codec, arrival, Begin(buffered), calls)
  {
    ghost var body := if httpBody == null then None else Some((httpBody.rest, httpBody.failure));
    ghost var start := Arrived(statusCode, body, transport);
    var r;
    r, err := ResponseRuns.Execute(statusCode, httpBody, transport, unmarshal);
    assert Arrives(r, start.0, start.1);
    seen := RunFamily(codec, r, start.0, start.1, calls);
  }

  // ---------------------------------------------------------------------------
  // Laws of the replay
  // ---------------------------------------------------------------------------

  ghost predicate SomeHolds(f: Family) {
    exists k :: 0 <= k < |f.copies| && f.copies[k].holds
  }

  /** The bytes are in exactly one place: with the copies that share their reader, or in the cache. */
  ghost predicate KeptOnce(f: Family) {
    SomeHolds(f) <==> !(f.cache.Some? && f.cache.value.holds)
  }

  lemma {:induction false} StepKeepsOnce(f: Family, c: Call)
    requires f.copies != [] && KeptOnce(f)
    ensures KeptOnce(Step(f, c))
  {
    var f', i := Step(f, c), At(f, c);
    assert c.ParseError? || c.HijackBody? ==> f'.copies[i].holds == f.copies[i].holds;
    if k :| 0 <= k < |f.copies| && f.copies[k].holds {
      assert k < |f'.copies| && (f'.copies[k].holds || f.copies[i].holds);
    }
    if k :| 0 <= k < |f'.copies| && f'.copies[k].holds {
      assert k < |f.copies| ==> f.copies[k].holds;
    }
  }

  /** Over every sequence of calls the bytes are neither lost nor duplicated. */
  lemma {:induction false} BytesAreKeptOnce(buffered: bool, calls: seq<Call>)
    ensures KeptOnce(Replay(Begin(buffered), calls))
  {
    if calls == [] {
      assert Begin(buffered).copies[0].holds;
    } else {
      BytesAreKeptOnce(buffered, calls[..|calls| - 1]);
      StepKeepsOnce(Replay(Begin(buffered), calls[..|calls| - 1]), calls[|calls| - 1]);
    }
  }

  // ---------------------------------------------------------------------------
  // Renderings
  // ---------------------------------------------------------------------------

  lemma {:induction false} CacheIsFilledOnce(f: Family, calls: seq<Call>)
    requires f.copies != [] && f.cache.Some?
    ensures Replay(f, calls).cache == f.cache
    decreases |calls|
  {
    if calls != [] {
      CacheIsFilledOnce(f, calls[..|calls| - 1]);
    }
  }

  /** The first rendering of a copy without a buffer decides what every later rendering of any such copy
      shows, whatever is called in between. */
  lemma {:induction false} RenderingsAgree(
    codec: Codec, a: Arrival, f: Family, first: Call, between: seq<Call>, later: Call)
    requires f.copies != [] && first.String? && !f.copies[At(f, first)].buffered
    requires later.String?
    requires var g := Replay(Step(f, first), between); !g.copies[At(g, later)].buffered
    ensures Answer(codec, a, Replay(Step(f, first), between), later) == Answer(codec, a, f, first)
  {
    CacheIsFilledOnce(Step(f, first), between);
  }

  ghost predicate Unhijacked(calls: seq<Call>) {
    forall k :: 0 <= k < |calls| ==> !calls[k].HijackBody?
  }

  ghost predicate AllBuffered(f: Family) {
    f.copies != [] && forall k :: 0 <= k < |f.copies| ==> f.copies[k].buffered
  }

  lemma {:induction false} UnhijackedStayBuffered(f: Family, calls: seq<Call>)
    requires AllBuffered(f) && Unhijacked(calls)
    ensures AllBuffered(Replay(f, calls))
    decreases |calls|
  {
    if calls != [] {
      UnhijackedStayBuffered(f, calls[..|calls| - 1]);
    }
  }

  /** As long as nothing is hijacked, every copy of a buffered response shows the original text and gives
      the original bytes, whichever copies ParseError was called on. */
  lemma {:induction false} UnhijackedCopiesShowTheOriginal(codec: Codec, a: Arrival, calls: seq<Call>, c: Call)
    requires Unhijacked(calls)
    ensures var f := Replay(Begin(true), calls);
            && (c.RawBody? || c.HijackBody? ==> Answer(codec, a, f, c) == Gives(a.data))
            && (c.String? ==>
                  var text := if a.data.None? then StatusOnly(a.code) else WithBody(a.code, a.data.value);
                  Answer(codec, a, f, c) == Shows(text))
  {
    UnhijackedStayBuffered(Begin(true), calls);
  }

  // ---------------------------------------------------------------------------
  // Who finds the bytes
  // ---------------------------------------------------------------------------

  /** The copy that copy `k` is, or descends from, before the calls. */
  function Was(f: Family, calls: seq<Call>, k: nat): (j: nat)
    requires f.copies != [] && k < |Replay(f, calls).copies|
    ensures j < |f.copies|
    decreases |calls|
  {
    if calls == [] then k
    else
      var before, last := calls[..|calls| - 1], calls[|calls| - 1];
      var g := Replay(f, before);
      Was(f, before, if k < |g.copies| then k else At(g, last))
  }

  /** HijackBody was called on copy `k`, or before it was made on the copy it descends from. */
  predicate Hijacked(f: Family, calls: seq<Call>, k: nat)
    requires f.copies != [] && k < |Replay(f, calls).copies|
    decreases |calls|
  {
    calls != []
    && var before, last := calls[..|calls| - 1], calls[|calls| - 1];
       var g := Replay(f, before);
       || (last.HijackBody? && At(g, last) == k)
       || Hijacked(f, before, if k < |g.copies| then k else At(g, last))
  }

  lemma {:induction false} BufferedUnlessHijacked(calls: seq<Call>, k: nat)
    requires k < |Replay(Begin(true), calls).copies|
    ensures Replay(Begin(true), calls).copies[k].buffered <==> !Hijacked(Begin(true), calls, k)
    decreases |calls|
  {
    if calls != [] {
      var before, last := calls[..|calls| - 1], calls[|calls| - 1];
      var g := Replay(Begin(true), before);
      BufferedUnlessHijacked(before, if k < |g.copies| then k else At(g, last));
      assert Step(g, last).copies[k].buffered
        <==> g.copies[if k < |g.copies| then k else At(g, last)].buffered && !(last.HijackBody? && At(g, last) == k);
    }
  }

  /** Whatever happens to other copies, a copy of a buffered response gives its bytes and shows the original
      until it is hijacked itself or was made from a hijacked one; then it gives none. */
  lemma {:induction false} CopyKeepsItsBuffer(codec: Codec, a: Arrival, calls: seq<Call>, c: Call)
    ensures var f := Replay(Begin(true), calls);
            var hijacked := Hijacked(Begin(true), calls, At(f, c));
            && (c.RawBody? || c.HijackBody? ==> Answer(codec, a, f, c) == Gives(if hijacked then None else a.data))
            && (c.String? && !hijacked ==>
                  var text := if a.data.None? then StatusOnly(a.code) else WithBody(a.code, a.data.value);
                  Answer(codec, a, f, c) == Shows(text))
  {
    BufferedUnlessHijacked(calls, At(Replay(Begin(true), calls), c));
    if a.data.None? {
      assert forall copy :: TextOf(a, copy) == StatusOnly(a.code);
    }
  }

  ghost predicate NothingTaken(f: Family, calls: seq<Call>)
    requires f.copies != []
  {
    forall k :: 0 <= k < |calls| ==> !Takes(Replay(f, calls[..k]), calls[k])
  }

  lemma {:induction false} NothingTakenBefore(f: Family, calls: seq<Call>)
    requires f.copies != [] && calls != [] && NothingTaken(f, calls)
    ensures NothingTaken(f, calls[..|calls| - 1])
    ensures !Takes(Replay(f, calls[..|calls| - 1]), calls[|calls| - 1])
  {
    var before := calls[..|calls| - 1];
    forall k | 0 <= k < |before| ensures !Takes(Replay(f, before[..k]), before[k]) {
      assert before[..k] == calls[..k];
    }
  }

  lemma {:induction false} UntakenStep(f: Family, c: Call, k: nat)
    requires f.copies != [] && !Takes(f, c) && k < |Step(f, c).copies|
    ensures Step(f, c).copies[k].holds <==> f.copies[if k < |f.copies| then k else At(f, c)].holds
  {
  }

  lemma {:induction false} HoldersDescend(f: Family, calls: seq<Call>, k: nat)
    requires f.copies != [] && NothingTaken(f, calls) && k < |Replay(f, calls).copies|
    ensures Replay(f, calls).copies[k].holds <==> f.copies[Was(f, calls, k)].holds
    decreases |calls|
  {
    if calls != [] {
      var g, last := Replay(f, calls[..|calls| - 1]), calls[|calls| - 1];
      NothingTakenBefore(f, calls);
      UntakenStep(g, last, k);
      HoldersDescend(f, calls[..|calls| - 1], if k < |g.copies| then k else At(g, last));
    }
  }

  /** After a ParseError on copy `i` that found the bytes, and until they are taken again, they are found by
      exactly that copy and the copies made from it since. */
  lemma {:induction false} LastFinderHolds(f: Family, i: nat, calls: seq<Call>)
    requires i < |f.copies| && f.copies[i].holds && NothingTaken(AfterParse(f, i), calls)
    ensures var g := AfterParse(f, i);
            forall k: nat :: k < |Replay(g, calls).copies| ==>
              (Replay(g, calls).copies[k].holds <==> Was(g, calls, k) == i)
  {
    var g := AfterParse(f, i);
    forall k: nat | k < |Replay(g, calls).copies|
      ensures Replay(g, calls).copies[k].holds <==> Was(g, calls, k) == i
    {
      HoldersDescend(g, calls, k);
    }
  }

  lemma {:induction false} ReplayOfConcat(f: Family, a: seq<Call>, b: seq<Call>)
    requires f.copies != []
    ensures Replay(f, a + b) == Replay(Replay(f, a), b)
    decreases |b|
  {
    if b == [] {
      assert a + b == a;
    } else {
      assert (a + b)[..|a + b| - 1] == a + b[..|b| - 1];
      ReplayOfConcat(f, a, b[..|b| - 1]);
    }
  }

  /** Call `t` takes the bytes, and none after it does. */
  ghost predicate LastTaker(f: Family, calls: seq<Call>, t: nat)
    requires f.copies != []
  {
    && t < |calls| && Takes(Replay(f, calls[..t]), calls[t])
    && forall u :: t < u < |calls| ==> !Takes(Replay(f, calls[..u]), calls[u])
  }

  lemma {:induction false} SomeLastTaker(f: Family, calls: seq<Call>, n: nat) returns (t: nat)
    requires f.copies != [] && n <= |calls|
    requires forall u :: n <= u < |calls| ==> !Takes(Replay(f, calls[..u]), calls[u])
    requires !NothingTaken(f, calls)
    ensures LastTaker(f, calls, t)
    decreases n
  {
    if n > 0 && Takes(Replay(f, calls[..n - 1]), calls[n - 1]) {
      t := n - 1;
    } else {
      t := SomeLastTaker(f, calls, n - 1);
    }
  }

  /** Replaying up to the end of a prefix that reaches past call `t`. */
  lemma {:induction false} ReplayPast(f: Family, calls: seq<Call>, t: nat, u: nat)
    requires f.copies != [] && t < |calls| && t + 1 + u <= |calls|
    ensures Replay(f, calls[..t + 1 + u]) == Replay(Step(Replay(f, calls[..t]), calls[t]), calls[t + 1..][..u])
  {
    assert calls[..t + 1][..t] == calls[..t];
    assert calls[..t + 1 + u] == calls[..t + 1] + calls[t + 1..][..u];
    ReplayOfConcat(f, calls[..t + 1], calls[t + 1..][..u]);
  }

  lemma {:induction false} NotTakenAfter(f: Family, calls: seq<Call>, t: nat, u: nat)
    requires f.copies != [] && LastTaker(f, calls, t) && u < |calls| - t - 1
    ensures !Takes(Replay(Step(Replay(f, calls[..t]), calls[t]), calls[t + 1..][..u]), calls[t + 1..][u])
  {
    var v := t + 1 + u;
    assert !Takes(Replay(f, calls[..v]), calls[v]);
    ReplayPast(f, calls, t, u);
  }

  /** The run from after the last taker on. */
  lemma {:induction false} AfterLastTaker(f: Family, calls: seq<Call>, t: nat)
    requires f.copies != [] && LastTaker(f, calls, t)
    ensures var g := Step(Replay(f, calls[..t]), calls[t]);
            Replay(f, calls) == Replay(g, calls[t + 1..]) && NothingTaken(g, calls[t + 1..])
  {
    var g, after := Step(Replay(f, calls[..t]), calls[t]), calls[t + 1..];
    var n := |after|;
    assert calls[..t + 1 + n] == calls && after[..n] == after;
    ReplayPast(f, calls, t, n);
    forall u | 0 <= u < |after| ensures !Takes(Replay(g, after[..u]), after[u]) {
      NotTakenAfter(f, calls, t, u);
    }
  }

  /** Right after the bytes were taken they are with the copy ParseError was called on, or in the cache. */
  lemma {:induction false} TakerHolds(f: Family, c: Call, k: nat)
    requires f.copies != [] && Takes(f, c) && k < |Step(f, c).copies|
    ensures Step(f, c).copies[k].holds <==> c.ParseError? && k == At(f, c)
  {
  }

  /** The last call that took the bytes is a ParseError on the copy that copy `k` is or descends from. */
  ghost predicate TakenFor(f: Family, calls: seq<Call>, k: nat, t: nat)
    requires f.copies != []
  {
    && LastTaker(f, calls, t) && calls[t].ParseError?
    && var before := Replay(f, calls[..t]);
       var g := Step(before, calls[t]);
       k < |Replay(g, calls[t + 1..]).copies| && Was(g, calls[t + 1..], k) == At(before, calls[t])
  }

  lemma {:induction false} HoldsAfterTaker(f: Family, calls: seq<Call>, k: nat, t: nat)
    requires f.copies != [] && LastTaker(f, calls, t)
    ensures k < |Replay(f, calls).copies| ==> (Replay(f, calls).copies[k].holds <==> TakenFor(f, calls, k, t))
  {
    var before := Replay(f, calls[..t]);
    var g, after := Step(before, calls[t]), calls[t + 1..];
    AfterLastTaker(f, calls, t);
    if k < |Replay(f, calls).copies| {
      HoldersDescend(g, after, k);
      TakerHolds(before, calls[t], Was(g, after, k));
    }
  }

  /** The whole history: after any calls, a copy holds the bytes exactly when no call took them, or the last
      call that took them is a ParseError on that copy or on the copy it descends from. */
  lemma {:induction false} HoldersFromHistory(buffered: bool, calls: seq<Call>, k: nat)
    requires k < |Replay(Begin(buffered), calls).copies|
    ensures Replay(Begin(buffered), calls).copies[k].holds
       <==> NothingTaken(Begin(buffered), calls) || exists t: nat :: TakenFor(Begin(buffered), calls, k, t)
  {
    var f := Begin(buffered);
    if NothingTaken(f, calls) {
      HoldersDescend(f, calls, k);
    } else {
      var t := SomeLastTaker(f, calls, |calls|);
      HoldsAfterTaker(f, calls, k, t);
      if t': nat :| TakenFor(f, calls, k, t') {
        HoldsAfterTaker(f, calls, k, t');
      }
    }
  }

  /** ParseError on one copy of an unhijacked response finds the bytes every time, if it is called on no
      other copy; the copies may be rendered and copied in between. */
  lemma {:induction false} SoleParserFinds(f: Family, i: nat, calls: seq<Call>)
    requires AllBuffered(f) && Unhijacked(calls) && i < |f.copies| && f.copies[i].holds
    requires forall k :: 0 <= k < |calls| && calls[k].ParseError? ==> At(Replay(f, calls[..k]), calls[k]) == i
    ensures i < |Replay(f, calls).copies| && Replay(f, calls).copies[i].holds
    decreases |calls|
  {
    if calls != [] {
      var before := calls[..|calls| - 1];
      forall k | 0 <= k < |before| && before[k].ParseError? ensures At(Replay(f, before[..k]), before[k]) == i {
        assert before[..k] == calls[..k] && calls[k].ParseError?;
      }
      SoleParserFinds(f, i, before);
      UnhijackedStayBuffered(f, before);
      assert calls[..|before|] == before;
    }
  }

  /** On a copy taken before another copy's ParseError, ParseError finds an empty body. */
  lemma {:induction false} ParseErrorOnEarlierCopy(codec: Codec, a: Arrival, buffered: bool)
    requires a.data.Some? && a.failure.None?
    ensures var copied := Step(Begin(buffered), MakeCopy(0));
            && Answer(codec, a, copied, ParseError(0)) == Finds(ParseBytes(codec, a.code, a.data.value))
            && Answer(codec, a, Step(copied, ParseError(0)), ParseError(1)) == Finds(ParseBytes(codec, a.code, []))
  {
    var parsed := Step(Step(Begin(buffered), MakeCopy(0)), ParseError(0));
    assert parsed.copies[1] == Copy(buffered, false, true);
  }
}
