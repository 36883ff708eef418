/**
  Whole runs over one response: any sequence of calls on a response Execute returned without error, and any
  sequence of copies and String calls on a response built by hand. `ResponseFamily` has runs of all calls on
  all copies.
 */
module ResponseRuns {
  import opened Options
  import opened KeyBuilder
  import opened ErrorBody
  import opened Responses

  // ---------------------------------------------------------------------------
  // Execute
  // ---------------------------------------------------------------------------

  /** A response as Execute hands it over: buffered in rawBody and again readable, or without a body. */
  ghost predicate Buffered(r: Response, data: Option<seq<Byte>>)
    reads r, r.body, r.render
  {
    && r.render != null && !r.render.loaded
    && r.rawBody == data
    && (data.None? <==> r.body == null)
    && (data.Some? ==> r.body.rest == data.value && r.body.failure == None)
  }

  /** An error the transport returns beside a response. */
  datatype TransportError = ResponseBodyRead | OtherTransport

  datatype ExecuteError = ReadBody | Transport | UnmarshalBody

  /** How Execute fails: by what the transport reports, else by what reading the body reports, else by
      decoding a success response into the caller's target. */
  function Failure(
    transport: Option<TransportError>, body: Option<(seq<Byte>, Option<nat>)>, unmarshal: Option<seq<Byte> -> bool>,
    code: GoInt): Option<ExecuteError> {
    if transport.Some? then Some(if transport.value.ResponseBodyRead? then ReadBody else Transport)
    else if body.None? then None
    else if body.value.1.Some? then Some(ReadBody)
    else if unmarshal.Some? && code <= 299 && !unmarshal.value(body.value.0) then Some(UnmarshalBody)
    else None
  }

  /** The buffering part of Execute, from the HTTP response on; `unmarshal` is absent when the caller passes
      a nil target. A response that cannot be decoded is buffered all the same; beside a transport error the
      body is left unread, and after a failed read it is drained and not buffered. */
  method Execute(
    statusCode: GoInt, httpBody: Reader?, transport: Option<TransportError>, unmarshal: Option<seq<Byte> -> bool>)
    returns (r: Response, err: Option<ExecuteError>)
    modifies httpBody
    ensures r.statusCode == statusCode && fresh(r) && r.render != null && fresh(r.render)
    ensures err == Failure(
      transport, if httpBody == null then None else Some((old(httpBody.rest), httpBody.failure)), unmarshal, statusCode)
    ensures err == Some(Transport) <==> transport == Some(OtherTransport)
    ensures err == Some(ReadBody) <==>
      transport == Some(ResponseBodyRead) || (transport.None? && httpBody != null && httpBody.failure.Some?)
    ensures err == Some(UnmarshalBody) <==>
      && transport.None? && httpBody != null && httpBody.failure.None? && statusCode < 300
      && unmarshal.Some? && !unmarshal.value(old(httpBody.rest))
    ensures err.None? || err.value.UnmarshalBody? ==>
      && Buffered(r, if httpBody == null then None else Some(old(httpBody.rest)))
      && (r.body != null ==> fresh(r.body))
    ensures err.Some? && !err.value.UnmarshalBody? ==> r.body == httpBody && r.rawBody == None && !r.render.loaded
    ensures transport.Some? && httpBody != null ==> unchanged(httpBody)
    ensures transport.None? && httpBody != null ==> httpBody.rest == []
  {
    r := new Response(statusCode, httpBody);
    if transport.Some? {
      if transport.value == ResponseBodyRead {
        return r, Some(ReadBody);
      }
      return r, Some(Transport);
    }
    if httpBody != null {
      var data, rerr := httpBody.ReadAll();
      if rerr.Some? {
        return r, Some(ReadBody);
      }
      r.rawBody := Some(data);
      r.body := new Reader(data, None);
      if unmarshal.Some? && !(statusCode > 299) {
        if !unmarshal.value(data) {
          return r, Some(UnmarshalBody);
        }
      }
    }
    return r, None;
  }

  // ---------------------------------------------------------------------------
  // Any calls on a buffered response
  // ---------------------------------------------------------------------------

  datatype Call = String | StringOfCopy | RawBody | HijackBody | ParseError

  datatype Seen = Shows(text: Rendered) | Gives(bytes: Option<seq<Byte>>) | Finds(e: ParseResult)

  predicate Rendering(c: Call) {
    c.String? || c.StringOfCopy?
  }

  /** Some rendering came after a hijack: it had to read the body, and nothing puts the bytes back. */
  predicate Drained(history: seq<Call>) {
    if history == [] then false
    else
      var before, last := history[..|history| - 1], history[|history| - 1];
      Drained(before) || (HijackBody in before && Rendering(last))
  }

  lemma {:induction false} DrainedMeansRenderedAfterHijack(history: seq<Call>)
    ensures Drained(history)
       <==> exists i, j :: 0 <= i < j < |history| && history[i] == HijackBody && Rendering(history[j])
  {
    if history != [] {
      var last := |history| - 1;
      var before := history[..last];
      DrainedMeansRenderedAfterHijack(before);
      if HijackBody in before && Rendering(history[last]) {
        var i :| 0 <= i < |before| && before[i] == HijackBody;
        assert history[i] == HijackBody && Rendering(history[last]);
      }
      if Drained(before) {
        var i, j :| 0 <= i < j < |before| && before[i] == HijackBody && Rendering(before[j]);
        assert history[i] == HijackBody && Rendering(history[j]);
      }
      if i, j :| 0 <= i < j < |history| && history[i] == HijackBody && Rendering(history[j]) {
        if j < last {
          assert before[i] == HijackBody && Rendering(before[j]);
        } else {
          assert before[i] == HijackBody;
        }
      }
    }
  }

  /** What a call returns after the given history, for a response that arrived with `data`. */
  function Expected(codec: Codec, code: GoInt, data: Option<seq<Byte>>, history: seq<Call>, c: Call): Seen {
    match c
    case String => Shows(if data.None? then StatusOnly(code) else WithBody(code, data.value))
    case StringOfCopy => Shows(if data.None? then StatusOnly(code) else WithBody(code, data.value))
    case RawBody => Gives(if HijackBody in history then None else data)
    case HijackBody => Gives(if HijackBody in history then None else data)
    case ParseError =>
      Finds(if data.None? then EmptyBody(code)
            else ParseBytes(codec, code, if Drained(history) then [] else data.value))
  }

  ghost predicate After(r: Response, data: Option<seq<Byte>>, history: seq<Call>)
    reads r, r.body, r.render
  {
    && r.render != null
    && r.rawBody == (if HijackBody in history then None else data)
    && (data.None? <==> r.body == null)
    && (data.None? ==> !r.render.loaded)
    && (data.Some? ==>
          && r.body.failure == None
          && r.body.rest == (if Drained(history) then [] else data.value)
          && (r.render.loaded <==> Drained(history))
          && (r.render.loaded ==> r.render.buf == data.value && r.render.err == None))
  }

  lemma NextCall(history: seq<Call>, c: Call)
    ensures Drained(history + [c]) <==> Drained(history) || (HijackBody in history && Rendering(c))
    ensures HijackBody in history + [c] <==> HijackBody in history || c == HijackBody
  {
    assert (history + [c])[..|history|] == history;
  }

  method Do(codec: Codec, r: Response, ghost data: Option<seq<Byte>>, ghost history: seq<Call>, c: Call)
    returns (seen: Seen)
    requires After(r, data, history)
    modifies r, r.body, r.render
    ensures After(r, data, history + [c])
    ensures seen == Expected(codec, r.statusCode, data, history, c)
    ensures r.body == old(r.body) || fresh(r.body)
  {
    NextCall(history, c);
    if c == String {
      var s := r.String();
      seen := Shows(s);
    } else if c == StringOfCopy {
      var copy := new Response.Copy(r);
      var s := copy.String();
      seen := Shows(s);
    } else if c == RawBody {
      var b := r.RawBody();
      seen := Gives(b);
    } else if c == HijackBody {
      var b := r.HijackBody();
      seen := Gives(b);
    } else {
      var e := r.ParseError(codec);
      seen := Finds(e);
    }
  }

  /** Over every sequence of calls: String keeps showing the original text, RawBody and HijackBody give the
      original bytes until the first hijack and nothing afterwards, and ParseError gives the same result
      every time, unless the body was drained by a rendering after a hijack. */
  method RunBuffered(codec: Codec, r: Response, ghost data: Option<seq<Byte>>, calls: seq<Call>)
    returns (seen: seq<Seen>)
    requires Buffered(r, data)
    modifies r, r.body, r.render
    ensures |seen| == |calls|
    ensures forall k :: 0 <= k < |calls| ==>
      seen[k] == Expected(codec, r.statusCode, data, calls[..k], calls[k])
  {
    seen := [];
    assert calls[..0] == [];
    for k := 0 to |calls|
      invariant r.body == old(r.body) || fresh(r.body)
      invariant After(r, data, calls[..k])
      invariant |seen| == k
      invariant forall i :: 0 <= i < k ==> seen[i] == Expected(codec, r.statusCode, data, calls[..i], calls[i])
    {
      var s := Do(codec, r, data, calls[..k], calls[k]);
      assert calls[..k + 1] == calls[..k] + [calls[k]];
      seen := seen + [s];
    }
  }

  lemma {:induction false} NotDrainedWithoutHijack(history: seq<Call>)
    requires HijackBody !in history
    ensures !Drained(history)
  {
    DrainedMeansRenderedAfterHijack(history);
  }

  /** Without a hijack, what a call returns does not depend on the calls before it. */
  lemma UnhijackedCallsAreIndependent(
    codec: Codec, code: GoInt, data: Option<seq<Byte>>, h1: seq<Call>, h2: seq<Call>, c: Call)
    requires HijackBody !in h1 && HijackBody !in h2
    ensures Expected(codec, code, data, h1, c) == Expected(codec, code, data, h2, c)
  {
    NotDrainedWithoutHijack(h1);
    NotDrainedWithoutHijack(h2);
  }

  // ---------------------------------------------------------------------------
  // Copies of an unbuffered response
  // ---------------------------------------------------------------------------

  /** Copying the copy at an index, or rendering it; indices wrap around. */
  datatype CopyCall = MakeCopy(of: nat) | Show(of: nat)

  /** Over every sequence of copies and String calls, all calls show the same, and together they read the
      body at most once. */
  method RunCopies(r: Response, calls: seq<CopyCall>) returns (seen: seq<Rendered>)
    requires r.render != null
    modifies r.body, r.render
    ensures forall k :: 0 <= k < |seen| ==> seen[k] == old(r.Shown())
    ensures r.Shown() == old(r.Shown())
    ensures r.body != null ==> r.body.drains <= old(r.body.drains) + 1
  {
    var copies := [r];
    seen := [];
    for k := 0 to |calls|
      invariant |copies| > 0
      invariant forall i :: 0 <= i < |copies| ==>
        && copies[i].statusCode == r.statusCode && copies[i].rawBody == r.rawBody
        && copies[i].body == r.body && copies[i].render == r.render
      invariant r.Shown() == old(r.Shown())
      invariant forall i :: 0 <= i < |seen| ==> seen[i] == old(r.Shown())
      invariant r.body != null ==> r.body.drains <= old(r.body.drains) + if r.MustRead() then 0 else 1
    {
      var c := copies[calls[k].of % |copies|];
      if calls[k].MakeCopy? {
        var copy := new Response.Copy(c);
        copies := copies + [copy];
      } else {
        var s := c.String();
        seen := seen + [s];
      }
    }
  }
}
