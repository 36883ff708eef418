/**
  The response object: a body that can be read once, an optional buffer of its bytes, and a render cache
  that value copies share. String, RawBody, HijackBody and ParseError act on these in place.
 */
module Responses {
  import opened Options
  import opened KeyBuilder
  import opened ErrorBody

  /** A body stream. Reading it returns what is left, and the stream's own error if it has one. */
  class Reader {
    var rest: seq<Byte>
    const failure: Option<nat>
    ghost var drains: nat

    constructor (data: seq<Byte>, failure: Option<nat>)
      ensures rest == data && this.failure == failure && drains == 0
    {
      this.rest := data;
      this.failure := failure;
      this.drains := 0;
    }

    method ReadAll() returns (data: seq<Byte>, err: Option<nat>)
      modifies this
      ensures data == old(rest) && err == failure
      ensures rest == [] && drains == old(drains) + 1
    {
      data, err := rest, failure;
      rest, drains := [], drains + 1;
    }
  }

  class RenderCache {
    var buf: seq<Byte>
    var err: Option<nat>
    var loaded: bool

    constructor ()
      ensures !loaded
    {
      buf, err, loaded := [], None, false;
    }
  }

  /** What String prints: the status, then the body or the reason it could not be read. */
  datatype Rendered =
    | StatusOnly(code: GoInt)
    | WithBody(code: GoInt, body: seq<Byte>)
    | ReadFailed(code: GoInt, err: nat)

  function Render(code: GoInt, body: seq<Byte>, err: Option<nat>): Rendered {
    if err.Some? then ReadFailed(code, err.value) else WithBody(code, body)
  }

  datatype ParseResult =
    | EmptyBody(code: GoInt)
    | ReadBodyError(err: nat)
    | NotJson(code: GoInt, body: seq<Byte>)
    | Classified(o: Outcome)

  /** The JSON reader and the conversion of bytes to text, which are the standard library's. */
  datatype Codec = Codec(decode: seq<Byte> -> Option<Json>, text: seq<Byte> -> string)

  function ParseBytes(codec: Codec, code: GoInt, data: seq<Byte>): ParseResult {
    var j := codec.decode(data);
    if j.None? then NotJson(code, data) else Classified(Classify(j.value, codec.text(data), code))
  }

  class Response {
    const statusCode: GoInt
    var body: Reader?
    var rawBody: Option<seq<Byte>>
    const render: RenderCache?

    /** NewResponse: an unbuffered body and an empty cache. */
    constructor (statusCode: GoInt, body: Reader?)
      ensures this.statusCode == statusCode && this.body == body && rawBody == None
      ensures render != null && fresh(render) && !render.loaded
    {
      this.statusCode := statusCode;
      this.body := body;
      this.rawBody := None;
      this.render := new RenderCache();
    }

    /** A value copy: the fields are copied, the reader and the cache are shared. */
    constructor Copy(r: Response)
      ensures statusCode == r.statusCode && body == r.body && rawBody == r.rawBody && render == r.render
    {
      statusCode, body, rawBody, render := r.statusCode, r.body, r.rawBody, r.render;
    }

    method RawBody() returns (data: Option<seq<Byte>>)
      ensures data == rawBody
    {
      data := rawBody;
    }

    method HijackBody() returns (data: Option<seq<Byte>>)
      modifies this`rawBody
      ensures data == old(rawBody) && rawBody == None
    {
      data := rawBody;
      rawBody := None;
    }

    /** What String shows in this state: the buffer wins, then the cache, then the body. */
    ghost function Shown(): Rendered
      reads this, body, render
    {
      if rawBody.Some? then WithBody(statusCode, rawBody.value)
      else if render != null && render.loaded then Render(statusCode, render.buf, render.err)
      else if body == null then StatusOnly(statusCode)
      else Render(statusCode, body.rest, body.failure)
    }

    /** Rendering in this state has to read the body. */
    ghost predicate MustRead()
      reads this, render
    {
      rawBody.None? && !(render != null && render.loaded) && body != null
    }

    method RenderedBody() returns (data: seq<Byte>, err: Option<nat>, ok: bool)
      modifies body, render
      ensures old(Shown()) == if ok then Render(statusCode, data, err) else StatusOnly(statusCode)
      ensures old(MustRead()) ==>
        && body.rest == [] && body.drains == old(body.drains) + 1
        && (render != null ==> render.loaded && Render(statusCode, render.buf, render.err) == old(Shown()))
      ensures !old(MustRead()) ==> (body != null ==> unchanged(body)) && (render != null ==> unchanged(render))
    {
      if rawBody.Some? {
        return rawBody.value, None, true;
      }
      if render != null && render.loaded {
        return render.buf, render.err, true;
      }
      if body == null {
        return [], None, false;
      }
      data, err := body.ReadAll();
      if render != null {
        render.buf, render.err, render.loaded := data, err, true;
      }
      ok := true;
    }

    /** Shows the body, reading it at most once: with a cache, what is shown does not change. */
    method String() returns (s: Rendered)
      modifies body, render
      ensures s == old(Shown())
      ensures old(rawBody).Some? ==> s == WithBody(statusCode, rawBody.value)
      ensures old(rawBody).None? && old(render != null && render.loaded) ==>
        s == if old(render.err).Some? then ReadFailed(statusCode, old(render.err).value)
             else WithBody(statusCode, old(render.buf))
      ensures old(MustRead()) ==>
        s == if body.failure.Some? then ReadFailed(statusCode, body.failure.value)
             else WithBody(statusCode, old(body.rest))
      ensures rawBody.None? && body == null && !old(render != null && render.loaded) ==> s == StatusOnly(statusCode)
      ensures render != null ==> Shown() == s && !MustRead()
      ensures old(MustRead()) ==> body.rest == [] && body.drains == old(body.drains) + 1
      ensures !old(MustRead()) ==> (body != null ==> unchanged(body)) && (render != null ==> unchanged(render))
    {
      var data, err, ok := RenderedBody();
      if !ok {
        return StatusOnly(statusCode);
      }
      s := Render(statusCode, data, err);
    }

    /** Drains the body, puts a fresh reader over what was read in its place, and classifies it. */
    method ParseError(codec: Codec) returns (e: ParseResult)
      modifies this`body, body
      ensures old(body) == null ==> e == EmptyBody(statusCode) && body == null
      ensures old(body) != null ==>
        && body != null && fresh(body)
        && body.rest == old(body.rest) && body.failure == None
        && old(body).rest == []
        && e == if old(body).failure.Some? then ReadBodyError(old(body).failure.value)
                else ParseBytes(codec, statusCode, old(body.rest))
      ensures old(body) != null && old(body).failure.None? ==>
        var j := codec.decode(old(body.rest));
        e == if j.None? then NotJson(statusCode, old(body.rest))
             else Classified(Classify(j.value, codec.text(old(body.rest)), statusCode))
    {
      if body == null {
        return EmptyBody(statusCode);
      }
      var data, err := body.ReadAll();
      body := new Reader(data, None);
      if err.Some? {
        return ReadBodyError(err.value);
      }
      e := ParseBytes(codec, statusCode, data);
    }
  }
}
