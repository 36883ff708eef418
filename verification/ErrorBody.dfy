/**
  Error responses: the five shapes an error body can take, and the classification of a JSON body into
  them. JSON text is abstracted to a tree; `null` and a missing field decode alike, to the zero value.
 */
module ErrorBody {
  import opened Options

  datatype Json =
    | Null
    | Bool(b: bool)
    | Integer(n: int)               // a number literal with neither fraction nor exponent
    | Decimal(r: real)              // any other number literal
    | Text(s: string)
    | Array(items: seq<Json>)
    | Object(fields: map<string, Json>)

  type GoInt = i: int | -0x8000_0000_0000_0000 <= i < 0x8000_0000_0000_0000

  datatype CausedBy = CausedBy(kind: string, reason: string, causedBy: Option<CausedBy>)

  datatype RootCause = RootCause(kind: string, reason: string, index: string, indexUUID: string)

  datatype Cause = Cause(
    rootCause: Option<seq<RootCause>>,     // a nil slice is not an empty one
    kind: string,
    reason: string,
    causedBy: Option<CausedBy>,
    index: string,
    indexUUID: string)

  datatype ApiError =
    | PlainError(err: string)
    | StringError(err: string, status: GoInt)
    | ReasonError(reason: string, statusText: string)
    | MessageError(message: string, statusText: string)
    | StructError(cause: Cause, status: GoInt)

  // ---------------------------------------------------------------------------
  // Decoding; None is a type mismatch
  // ---------------------------------------------------------------------------

  function Field(m: map<string, Json>, name: string): Json {
    if name in m then m[name] else Null
  }

  function DecodeString(j: Json): Option<string> {
    match j
    case Null => Some("")
    case Text(s) => Some(s)
    case _ => None
  }

  function DecodeInt(j: Json): Option<GoInt> {
    match j
    case Null => Some(0)
    case Integer(n) => if -0x8000_0000_0000_0000 <= n < 0x8000_0000_0000_0000 then Some(n) else None
    case _ => None
  }

  function DecodeCausedBy(j: Json): Option<Option<CausedBy>> {
    match j
    case Null => Some(None)
    case Object(m) =>
      var kind :- DecodeString(Field(m, "type"));
      var reason :- DecodeString(Field(m, "reason"));
      var inner :- if "caused_by" in m then DecodeCausedBy(m["caused_by"]) else Some(None);
      Some(Some(CausedBy(kind, reason, inner)))
    case _ => None
  }

  function DecodeRootCause(j: Json): Option<RootCause> {
    match j
    case Null => Some(RootCause("", "", "", ""))
    case Object(m) =>
      var kind :- DecodeString(Field(m, "type"));
      var reason :- DecodeString(Field(m, "reason"));
      var index :- DecodeString(Field(m, "index"));
      var indexUUID :- DecodeString(Field(m, "index_uuid"));
      Some(RootCause(kind, reason, index, indexUUID))
    case _ => None
  }

  function DecodeRootCauses(items: seq<Json>): Option<seq<RootCause>> {
    if items == [] then Some([])
    else
      var first :- DecodeRootCause(items[0]);
      var rest :- DecodeRootCauses(items[1..]);
      Some([first] + rest)
  }

  function DecodeRootCauseList(j: Json): Option<Option<seq<RootCause>>> {
    match j
    case Null => Some(None)
    case Array(items) =>
      var causes :- DecodeRootCauses(items);
      Some(Some(causes))
    case _ => None
  }

  function DecodeCause(j: Json): Option<Cause> {
    match j
    case Null => Some(Cause(None, "", "", None, "", ""))
    case Object(m) =>
      var rootCause :- DecodeRootCauseList(Field(m, "root_cause"));
      var kind :- DecodeString(Field(m, "type"));
      var reason :- DecodeString(Field(m, "reason"));
      var causedBy :- DecodeCausedBy(Field(m, "caused_by"));
      var index :- DecodeString(Field(m, "index"));
      var indexUUID :- DecodeString(Field(m, "index_uuid"));
      Some(Cause(rootCause, kind, reason, causedBy, index, indexUUID))
    case _ => None
  }

  // ---------------------------------------------------------------------------
  // Classification
  // ---------------------------------------------------------------------------

  datatype Failure =
    | Mismatch                        // a field has the wrong type
    | RawError(raw: Json, status: GoInt)   // the error object does not decode; its text is kept
    | Unrecognised                    // an object without status, type and reason

  datatype Outcome =
    | Parsed(e: ApiError)
    | NotAnObject
    | Failed(f: Failure)

  /** The custom decoder of the structured shape. */
  function DecodeStructError(m: map<string, Json>): Outcome {
    match DecodeInt(Field(m, "status"))
    case None => Failed(Mismatch)
    case Some(status) =>
      match DecodeCause(Field(m, "error"))
      case None => Failed(RawError(Field(m, "error"), status))
      case Some(cause) =>
        if status == 0 || (cause.kind == "" && cause.reason == "") then Failed(Unrecognised)
        else Parsed(StructError(cause, status))
  }

  function DecodeStringError(m: map<string, Json>): Outcome {
    match (DecodeString(Field(m, "error")), DecodeInt(Field(m, "status")))
    case (Some(err), Some(status)) => Parsed(StringError(err, status))
    case _ => Failed(Mismatch)
  }

  function DecodeMessageError(m: map<string, Json>): Outcome {
    match (DecodeString(Field(m, "message")), DecodeString(Field(m, "status")))
    case (Some(message), Some(status)) => Parsed(MessageError(message, status))
    case _ => Failed(Mismatch)
  }

  function DecodeReasonError(m: map<string, Json>): Outcome {
    match (DecodeString(Field(m, "reason")), DecodeString(Field(m, "status")))
    case (Some(reason), Some(status)) => Parsed(ReasonError(reason, status))
    case _ => Failed(Mismatch)
  }

  function DecodePlainError(m: map<string, Json>): Outcome {
    match DecodeString(Field(m, "error"))
    case Some(err) => Parsed(PlainError(err))
    case None => Failed(Mismatch)
  }

  predicate IsNumber(j: Json) {
    j.Integer? || j.Decimal?
  }

  /** ParseError on a body that is valid JSON. `text` is the body itself and `code` the HTTP status. */
  function Classify(j: Json, text: string, code: GoInt): Outcome {
    if !j.Null? && !j.Object? then NotAnObject
    else
      var m := if j.Object? then j.fields else map[];
      var status, error := Field(m, "status"), Field(m, "error");
      var message, reason := Field(m, "message"), Field(m, "reason");
      if IsNumber(status) && error.Text? then DecodeStringError(m)
      else if IsNumber(status) && error.Object? then DecodeStructError(m)
      else if status.Text? && message.Text? then DecodeMessageError(m)
      else if status.Text? && reason.Text? then DecodeReasonError(m)
      else if status.Null? && message.Null? && reason.Null? && !error.Null? then DecodePlainError(m)
      else Parsed(StringError(text, code))
  }

  // ---------------------------------------------------------------------------
  // Encoding
  // ---------------------------------------------------------------------------

  /** An omitempty string field. */
  function With(m: map<string, Json>, name: string, s: string): map<string, Json> {
    if s == "" then m else m[name := Text(s)]
  }

  /** An omitempty pointer field. */
  function WithCause(m: map<string, Json>, c: Option<CausedBy>): map<string, Json> {
    if c.None? then m else m["caused_by" := EncodeCausedBy(c.value)]
  }

  function EncodeCausedBy(c: CausedBy): Json {
    var m := map["type" := Text(c.kind), "reason" := Text(c.reason)];
    Object(if c.causedBy.None? then m else m["caused_by" := EncodeCausedBy(c.causedBy.value)])
  }

  function EncodeRootCause(c: RootCause): Json {
    var required := map["type" := Text(c.kind), "reason" := Text(c.reason)];
    Object(With(With(required, "index", c.index), "index_uuid", c.indexUUID))
  }

  function EncodeRootCauses(cs: seq<RootCause>): seq<Json> {
    if cs == [] then [] else [EncodeRootCause(cs[0])] + EncodeRootCauses(cs[1..])
  }

  function EncodeCause(c: Cause): Json {
    var rootCause := if c.rootCause.None? then Null else Array(EncodeRootCauses(c.rootCause.value));
    var m := map["root_cause" := rootCause, "type" := Text(c.kind), "reason" := Text(c.reason)];
    Object(With(With(WithCause(m, c.causedBy), "index", c.index), "index_uuid", c.indexUUID))
  }

  function Encode(e: ApiError): Json {
    match e
    case PlainError(err) => Object(map["error" := Text(err)])
    case StringError(err, status) => Object(map["error" := Text(err), "status" := Integer(status)])
    case ReasonError(reason, status) => Object(map["reason" := Text(reason), "status" := Text(status)])
    case MessageError(message, status) => Object(map["message" := Text(message), "status" := Text(status)])
    case StructError(cause, status) => Object(map["error" := EncodeCause(cause), "status" := Integer(status)])
  }

  // ---------------------------------------------------------------------------
  // Round trip
  // ---------------------------------------------------------------------------

  lemma {:induction false} CausedByRoundTrip(c: CausedBy)
    ensures DecodeCausedBy(EncodeCausedBy(c)) == Some(Some(c))
  {
    var m := EncodeCausedBy(c).fields;
    assert Field(m, "type") == Text(c.kind);
    assert Field(m, "reason") == Text(c.reason);
    if c.causedBy.Some? {
      CausedByRoundTrip(c.causedBy.value);
      assert m["caused_by"] == EncodeCausedBy(c.causedBy.value);
    }
  }

  lemma {:induction false} RootCauseRoundTrip(c: RootCause)
    ensures DecodeRootCause(EncodeRootCause(c)) == Some(c)
  {
    var m := EncodeRootCause(c).fields;
    assert Field(m, "type") == Text(c.kind);
    assert Field(m, "reason") == Text(c.reason);
    assert Field(m, "index") == if c.index == "" then Null else Text(c.index);
    assert Field(m, "index_uuid") == if c.indexUUID == "" then Null else Text(c.indexUUID);
  }

  lemma {:induction false} RootCausesRoundTrip(cs: seq<RootCause>)
    ensures DecodeRootCauses(EncodeRootCauses(cs)) == Some(cs)
  {
    if cs != [] {
      RootCauseRoundTrip(cs[0]);
      RootCausesRoundTrip(cs[1..]);
      assert EncodeRootCauses(cs)[1..] == EncodeRootCauses(cs[1..]);
      assert cs == [cs[0]] + cs[1..];
    }
  }

  ghost predicate HasFields(m: map<string, Json>, c: Cause) {
    && Field(m, "root_cause") == (if c.rootCause.None? then Null else Array(EncodeRootCauses(c.rootCause.value)))
    && Field(m, "type") == Text(c.kind) && Field(m, "reason") == Text(c.reason)
    && Field(m, "caused_by") == (if c.causedBy.None? then Null else EncodeCausedBy(c.causedBy.value))
    && Field(m, "index") == (if c.index == "" then Null else Text(c.index))
    && Field(m, "index_uuid") == (if c.indexUUID == "" then Null else Text(c.indexUUID))
  }

  lemma {:induction false} CauseFields(c: Cause)
    ensures HasFields(EncodeCause(c).fields, c)
  {
  }

  lemma {:induction false} DecodeFromFields(m: map<string, Json>, c: Cause)
    requires HasFields(m, c)
    ensures DecodeCause(Object(m)) == Some(c)
  {
    if c.rootCause.Some? {
      RootCausesRoundTrip(c.rootCause.value);
    }
    if c.causedBy.Some? {
      CausedByRoundTrip(c.causedBy.value);
    }
  }

  lemma {:induction false} CauseRoundTrip(c: Cause)
    ensures DecodeCause(EncodeCause(c)) == Some(c)
  {
    CauseFields(c);
    DecodeFromFields(EncodeCause(c).fields, c);
  }

  /** What the server can mean: a structured error has a status, and a type or a reason. */
  predicate Meaningful(e: ApiError) {
    e.StructError? ==> e.status != 0 && (e.cause.kind != "" || e.cause.reason != "")
  }

  lemma TopFields(e: ApiError)
    ensures var m := Encode(e).fields;
            && Field(m, "status") == (match e
                                      case PlainError(_) => Null
                                      case StringError(_, n) => Integer(n)
                                      case StructError(_, n) => Integer(n)
                                      case ReasonError(_, s) => Text(s)
                                      case MessageError(_, s) => Text(s))
            && Field(m, "error") == (match e
                                     case PlainError(err) => Text(err)
                                     case StringError(err, _) => Text(err)
                                     case StructError(cause, _) => EncodeCause(cause)
                                     case _ => Null)
            && Field(m, "message") == (if e.MessageError? then Text(e.message) else Null)
            && Field(m, "reason") == (if e.ReasonError? then Text(e.reason) else Null)
  {
  }

  /** Encoding an error and classifying the result gives the same error back, with causes nested to any
      depth, exactly when it is meaningful. */
  lemma {:induction false} ClassifyOfEncode(e: ApiError, text: string, code: GoInt)
    ensures Classify(Encode(e), text, code) == Parsed(e) <==> Meaningful(e)
  {
    TopFields(e);
    if e.StructError? {
      CauseRoundTrip(e.cause);
    }
  }

  /** Whatever a body is classified as, the result is meaningful, and encoding it is classified as
      itself: classification is idempotent. */
  lemma {:induction false} ClassifyIsIdempotent(
    j: Json, text: string, code: GoInt, e: ApiError, text': string, code': GoInt)
    requires Classify(j, text, code) == Parsed(e)
    ensures Meaningful(e) && Classify(Encode(e), text', code') == Parsed(e)
  {
    ClassifyOfEncode(e, text', code');
  }

  /** No two meaningful errors have the same encoding, so the five shapes are told apart. */
  lemma EncodeIsInjective(e: ApiError, f: ApiError)
    requires Meaningful(e) && Meaningful(f) && Encode(e) == Encode(f)
    ensures e == f
  {
    ClassifyOfEncode(e, "", 0);
    ClassifyOfEncode(f, "", 0);
  }

  // ---------------------------------------------------------------------------
  // What decoding means
  // ---------------------------------------------------------------------------

  /** The tree is that string; an absent or null field is the empty one. */
  predicate StringIs(j: Json, s: string) {
    j == Text(s) || (j == Null && s == "")
  }

  predicate NumberIs(j: Json, n: int) {
    -0x8000_0000_0000_0000 <= n < 0x8000_0000_0000_0000 && (j == Integer(n) || (j == Null && n == 0))
  }

  /** The tree is that chain of causes, link by link; other fields do not matter. */
  predicate CausedByIs(j: Json, c: Option<CausedBy>)
    decreases c
  {
    match c
    case None => j == Null
    case Some(link) =>
      && j.Object?
      && StringIs(Field(j.fields, "type"), link.kind) && StringIs(Field(j.fields, "reason"), link.reason)
      && CausedByIs(Field(j.fields, "caused_by"), link.causedBy)
  }

  predicate RootCauseIs(j: Json, c: RootCause) {
    (j == Null || j.Object?)
    && var m := if j.Object? then j.fields else map[];
       && StringIs(Field(m, "type"), c.kind) && StringIs(Field(m, "reason"), c.reason)
       && StringIs(Field(m, "index"), c.index) && StringIs(Field(m, "index_uuid"), c.indexUUID)
  }

  predicate RootCausesIs(j: Json, cs: Option<seq<RootCause>>) {
    match cs
    case None => j == Null
    case Some(list) =>
      j.Array? && |j.items| == |list| && forall i :: 0 <= i < |list| ==> RootCauseIs(j.items[i], list[i])
  }

  predicate CauseIs(j: Json, c: Cause) {
    (j == Null || j.Object?)
    && var m := if j.Object? then j.fields else map[];
       && RootCausesIs(Field(m, "root_cause"), c.rootCause)
       && StringIs(Field(m, "type"), c.kind) && StringIs(Field(m, "reason"), c.reason)
       && CausedByIs(Field(m, "caused_by"), c.causedBy)
       && StringIs(Field(m, "index"), c.index) && StringIs(Field(m, "index_uuid"), c.indexUUID)
  }

  lemma {:induction false} StringMeans(j: Json, s: string)
    ensures DecodeString(j) == Some(s) <==> StringIs(j, s)
  {
  }

  lemma {:induction false} NumberMeans(j: Json, n: GoInt)
    ensures DecodeInt(j) == Some(n) <==> NumberIs(j, n)
  {
  }

  lemma {:induction false} CausedByMeans(j: Json, c: Option<CausedBy>)
    ensures DecodeCausedBy(j) == Some(c) <==> CausedByIs(j, c)
    decreases c
  {
    if j.Object? {
      var m := j.fields;
      if c.Some? {
        StringMeans(Field(m, "type"), c.value.kind);
        StringMeans(Field(m, "reason"), c.value.reason);
        CausedByMeans(Field(m, "caused_by"), c.value.causedBy);
      }
    }
  }

  lemma {:induction false} RootCauseMeans(j: Json, c: RootCause)
    ensures DecodeRootCause(j) == Some(c) <==> RootCauseIs(j, c)
  {
    var m := if j.Object? then j.fields else map[];
    StringMeans(Field(m, "type"), c.kind);
    StringMeans(Field(m, "reason"), c.reason);
    StringMeans(Field(m, "index"), c.index);
    StringMeans(Field(m, "index_uuid"), c.indexUUID);
  }

  lemma {:induction false} RootCausesMean(items: seq<Json>, list: seq<RootCause>)
    ensures DecodeRootCauses(items) == Some(list)
       <==> |items| == |list| && forall i :: 0 <= i < |list| ==> RootCauseIs(items[i], list[i])
  {
    if items != [] && list != [] {
      RootCauseMeans(items[0], list[0]);
      RootCausesMean(items[1..], list[1..]);
      assert list == [list[0]] + list[1..];
      assert forall i :: 0 < i < |list| && |items| == |list| ==>
        list[i] == list[1..][i - 1] && items[i] == items[1..][i - 1];
    }
  }

  /** The decoder accepts exactly the trees of a cause, and gives that cause: every field comes from the
      member of its name, and a value of another type is refused. */
  lemma {:induction false} CauseMeans(j: Json, c: Cause)
    ensures DecodeCause(j) == Some(c) <==> CauseIs(j, c)
  {
    var m := if j.Object? then j.fields else map[];
    var roots := Field(m, "root_cause");
    if roots.Array? && c.rootCause.Some? {
      RootCausesMean(roots.items, c.rootCause.value);
    }
    StringMeans(Field(m, "type"), c.kind);
    StringMeans(Field(m, "reason"), c.reason);
    CausedByMeans(Field(m, "caused_by"), c.causedBy);
    StringMeans(Field(m, "index"), c.index);
    StringMeans(Field(m, "index_uuid"), c.indexUUID);
  }

  // ---------------------------------------------------------------------------
  // Which outcome a body has
  // ---------------------------------------------------------------------------

  /** None of the shapes applies: the body is kept as text. */
  predicate Shapeless(m: map<string, Json>) {
    var status, error := Field(m, "status"), Field(m, "error");
    var message, reason := Field(m, "message"), Field(m, "reason");
    && !((status.Integer? || status.Decimal?) && (error.Text? || error.Object?))
    && !(status.Text? && (message.Text? || reason.Text?))
    && !(status == message == reason == Null && error != Null)
  }

  /** A body with no recognised shape comes back as its own text under the HTTP status. */
  lemma {:induction false} UnrecognisedKeepsItsText(m: map<string, Json>, text: string, code: GoInt)
    requires Shapeless(m)
    ensures Classify(Object(m), text, code) == Parsed(StringError(text, code))
  {
  }

  /** The outcomes other than the structured ones, each exactly when. */
  lemma {:induction false} OutcomesOf(m: map<string, Json>, text: string, code: GoInt, s: string, t: string, n: GoInt)
    ensures var status, error := Field(m, "status"), Field(m, "error");
            var message, reason := Field(m, "message"), Field(m, "reason");
            var o := Classify(Object(m), text, code);
            && (o == Parsed(MessageError(s, t)) <==> status == Text(t) && message == Text(s))
            && (o == Parsed(ReasonError(s, t)) <==> status == Text(t) && reason == Text(s) && !message.Text?)
            && (o == Parsed(PlainError(s)) <==> status == message == reason == Null && error == Text(s))
            && (o == Parsed(StringError(s, n)) <==>
                  || (status == Integer(n) && error == Text(s))
                  || (Shapeless(m) && s == text && n == code))
  {
  }

  /** The structured ones: a number as status and an object as error. */
  lemma {:induction false} StructuredOutcomes(m: map<string, Json>, text: string, code: GoInt, c: Cause, n: GoInt)
    requires Field(m, "status") == Integer(n) && Field(m, "error").Object?
    ensures var error, o := Field(m, "error"), Classify(Object(m), text, code);
            && (o == Parsed(StructError(c, n)) <==> CauseIs(error, c) && n != 0 && !(c.kind == c.reason == ""))
            && (o == Failed(RawError(error, n)) <==> forall d :: !CauseIs(error, d))
            && (CauseIs(error, c) && (n == 0 || c.kind == c.reason == "") ==> o == Failed(Unrecognised))
  {
    var error := Field(m, "error");
    CauseMeans(error, c);
    forall d ensures DecodeCause(error) == Some(d) <==> CauseIs(error, d) {
      CauseMeans(error, d);
    }
    if DecodeCause(error).Some? {
      assert CauseIs(error, DecodeCause(error).value);
    }
  }

  /** What is refused: a body that is no object, a status that is no 64-bit integer, a lone error that is no
      string. */
  lemma {:induction false} RefusedBodies(j: Json, text: string, code: GoInt)
    ensures Classify(j, text, code) == NotAnObject <==> !j.Object? && !j.Null?
    ensures j == Null ==> Classify(j, text, code) == Parsed(StringError(text, code))
    ensures j.Object? ==>
      var m := j.fields;
      var status, error := Field(m, "status"), Field(m, "error");
      (Classify(j, text, code) == Failed(Mismatch) <==>
         || ((status.Decimal? || (status.Integer? && !(-0x8000_0000_0000_0000 <= status.n < 0x8000_0000_0000_0000)))
             && (error.Text? || error.Object?))
         || (status == Field(m, "message") == Field(m, "reason") == Null && error != Null && !error.Text?))
  {
  }
}
