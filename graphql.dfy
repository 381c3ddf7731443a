/**
 * The glue between the `/graphql` endpoint and the GraphQL execution engine:
 * bearer-token extraction for the per-request context, the request handed
 * to the engine, and the translation of the engine's result into a response
 * (header merge, status choice, the 501 and 500 fallbacks). The engine
 * itself is a parameter, `execute`.
 */
module GraphQL {
  import opened Http

  /** The per-request context the resolvers receive. */
  datatype Context = Context(request: Request, authToken: Option<string>)

  /** What the engine is asked to execute. */
  datatype HttpGraphQLRequest = HttpGraphQLRequest(body: string, headers: map<string, string>, verb: string, search: string)

  /** The engine's response body: a complete string, or an incremental (chunked) stream. */
  datatype ResponseBody = Complete(text: string) | Chunked

  /** The engine's outcome: a response (status possibly unset), or a thrown error. */
  datatype ExecutionResult =
    | Executed(status: Option<int>, headers: seq<(string, string)>, body: ResponseBody)
    | Threw

  type Executor = (HttpGraphQLRequest, Context) -> ExecutionResult

  const BearerPrefix := "Bearer "
  const AuthorizationName := Lower("Authorization")

  /** Error envelope of the processing-error response. */
  const ProcessingErrorBody :=
    "{\"errors\":[{\"message\":\"Error processing GraphQL request\",\"code\":\"PROCESSING_ERROR\",\"statusCode\":500}]}"

  const ChunkedMessage := "Chunked response not supported in this simple handler yet"

  /** `sub` occurs in `s` at index `j`. */
  predicate OccursAt(s: string, sub: string, j: int)
  {
    0 <= j && j + |sub| <= |s| && s[j..j + |sub|] == sub
  }

  /** An occurrence in `s` after index 0 is an occurrence in `s[1..]`, one place earlier. */
  lemma OccursShift(s: string, sub: string)
    requires s != []
    ensures forall j :: 1 <= j ==> (OccursAt(s, sub, j) <==> OccursAt(s[1..], sub, j - 1))
  {
    forall j | 1 <= j
      ensures OccursAt(s, sub, j) <==> OccursAt(s[1..], sub, j - 1)
    {
      if j + |sub| <= |s| {
        assert s[1..][j - 1..j - 1 + |sub|] == s[j..j + |sub|];
      }
    }
  }

  /** `s.indexOf(sub)`: the first index at which `sub` occurs, or -1. */
  function IndexOf(s: string, sub: string): (r: int)
    requires sub != []
    ensures r == -1 || 0 <= r <= |s| - |sub|
    ensures r >= 0 ==> OccursAt(s, sub, r) && forall j :: 0 <= j < r ==> !OccursAt(s, sub, j)
    ensures r == -1 ==> forall j :: 0 <= j <= |s| - |sub| ==> !OccursAt(s, sub, j)
    decreases |s|
  {
    if |s| < |sub| then -1
    else if s[..|sub|] == sub then 0
    else
      var r := IndexOf(s[1..], sub);
      OccursShift(s, sub);
      assert !OccursAt(s, sub, 0) by { assert s[0..|sub|] == s[..|sub|]; }
      if r == -1 then -1 else r + 1
  }

  /**
   * The bearer token of an `Authorization` header value: the text after the
   * case-sensitive prefix "Bearer ", or `None` when the header is absent,
   * empty, or does not start with that prefix.
   */
  function BearerToken(auth: Option<string>): (token: Option<string>)
    ensures token.Some? <==> auth.Some? && |auth.value| >= |BearerPrefix| && auth.value[..|BearerPrefix|] == BearerPrefix
    ensures token.Some? ==> auth.value == BearerPrefix + token.value
  {
    if auth.Some? && auth.value != "" && IndexOf(auth.value, BearerPrefix) == 0
    then Some(auth.value[|BearerPrefix|..])
    else None
  }

  /** Extracting from "Bearer " followed by a token gives that token back. */
  lemma BearerRoundTrip(t: string)
    ensures BearerToken(Some(BearerPrefix + t)) == Some(t)
  {
    assert (BearerPrefix + t)[..|BearerPrefix|] == BearerPrefix;
  }

  /**
   * The context built for a request: the request itself, and a bearer token
   * exactly when an `Authorization` header starts with "Bearer ".
   */
  function ContextOf(req: Request): (ctx: Context)
    ensures ctx.request == req
    ensures ctx.authToken.Some? <==>
      AuthorizationName in req.headers && BearerPrefix <= req.headers[AuthorizationName]
    ensures ctx.authToken.Some? ==> req.headers[AuthorizationName] == BearerPrefix + ctx.authToken.value
  {
    Context(req, BearerToken(Header(req, "Authorization")))
  }

  /**
   * A token, when there is one, is never empty: the header list strips the
   * trailing space of a bare "Bearer ", which then no longer has the prefix.
   */
  lemma BearerTokenNonEmpty(req: Request)
    ensures ContextOf(req).authToken.Some? ==> ContextOf(req).authToken.value != ""
  {
  }

  /**
   * The request handed to the engine: the JSON body (an empty object when the
   * body is not JSON), the request's headers, its method and query string.
   */
  function GraphQLRequestOf(req: Request): (g: HttpGraphQLRequest)
    requires req.url.Some?
    ensures req.body.NotJson? ==> g.body == "{}"
    ensures req.body.Json? ==> g.body == req.body.text
    ensures g.headers == req.headers && g.verb == req.verb && g.search == req.url.value.search
  {
    HttpGraphQLRequest(
      match req.body
        case Json(text) => text
        case NotJson => "{}",
      req.headers, req.verb, req.url.value.search)
  }

  /** `status || 200`: the engine's status, or 200 when it is unset or 0. */
  function EffectiveStatus(status: Option<int>): (code: int)
    ensures code != 0
    ensures status.Some? && status.value != 0 ==> code == status.value
    ensures status.None? || status.value == 0 ==> code == 200
  {
    match status
      case Some(s) => if s != 0 then s else 200
      case None => 200
  }

  /**
   * The `status` option of the `Response` constructor is a WebIDL `unsigned
   * short`: an integer status is taken modulo 2^16 before it is checked.
   */
  function ToUint16(code: int): (s: int)
    ensures 0 <= s < 0x1_0000
    ensures (code - s) % 0x1_0000 == 0
    ensures 0 <= code < 0x1_0000 ==> s == code
  {
    code % 0x1_0000
  }

  /** The status the `Response` constructor sees for `status || 200`. */
  function SentStatus(status: Option<int>): int
  {
    ToUint16(EffectiveStatus(status))
  }

  /**
   * The statuses `new Response(body, {status})` accepts with a non-null body
   * (Fetch Standard, the `Response` constructor): 200 to 599, except the
   * null-body statuses 204, 205 and 304. For any other status, once
   * converted by `ToUint16`, the constructor throws.
   */
  predicate AcceptsWithBody(status: int)
  {
    200 <= status <= 599 && status != 204 && status != 205 && status != 304
  }

  /**
   * The engine's result ends in the processing-error response: the engine
   * threw, or the `Response` constructor rejects the status of a complete body.
   */
  predicate Fails(result: ExecutionResult)
  {
    result.Threw? || (result.body.Complete? && !AcceptsWithBody(SentStatus(result.status)))
  }

  /** The processing-error response: 500, the error envelope, CORS plus a JSON content type. */
  function ErrorResponse(cors: map<string, string>): (r: Response)
    ensures r.status == 500 && r.body == Text(ProcessingErrorBody)
    ensures r.headers.Keys == cors.Keys + {ContentTypeName}
    ensures r.headers[ContentTypeName] == "application/json"
    ensures forall k :: k in cors && k != ContentTypeName ==> r.headers[k] == cors[k]
  {
    Response(500, Text(ProcessingErrorBody), cors[ContentTypeName := "application/json"])
  }

  /**
   * The response the adapter gives for an engine result, given the CORS
   * headers. Every CORS name is on it, and its status is one the `Response`
   * constructor accepts with a body.
   */
  function GraphQLOutcome(cors: map<string, string>, result: ExecutionResult): (r: Response)
    ensures AcceptsWithBody(r.status)
    ensures r.body.Text?
    ensures cors.Keys <= r.headers.Keys
    ensures Fails(result) ==> r == ErrorResponse(cors)
    ensures !Fails(result) ==> r.headers == SetAll(cors, result.headers)
    ensures result.Executed? && result.body.Complete? && !Fails(result) ==> r.body == Text(result.body.text)
    ensures result.Executed? && result.body.Chunked? ==> r.body == Text(ChunkedMessage)
  {
    match result
      case Threw => ErrorResponse(cors)
      case Executed(status, headers, Complete(text)) =>
        if AcceptsWithBody(SentStatus(status))
        then Response(SentStatus(status), Text(text), SetAll(cors, headers))
        else ErrorResponse(cors)
      case Executed(_, headers, Chunked) => Response(501, Text(ChunkedMessage), SetAll(cors, headers))
  }

  /**
   * Runs the engine and translates its result: the CORS headers are copied,
   * every engine header is set over them in order, and the status is the
   * engine's (200 when unset) taken modulo 2^16, 501 for a chunked body. When the engine throws,
   * or the response cannot be built with the engine's status, the error
   * handler answers 500.
   */
  method RespondGraphQL(req: Request, cors: Headers, execute: Executor) returns (resp: Response)
    requires req.url.Some?
    requires cors.Valid()
    ensures resp == GraphQLOutcome(cors.entries, execute(GraphQLRequestOf(req), ContextOf(req)))
  {
    var result := execute(GraphQLRequestOf(req), ContextOf(req));
    if !result.Threw? {
      var responseHeaders := new Headers.Copy(cors);
      responseHeaders.SetEach(result.headers);
      if result.body.Complete? {
        var status := SentStatus(result.status);
        // The `Response` constructor throws for a status it does not accept.
        if AcceptsWithBody(status) {
          return Response(status, Text(result.body.text), responseHeaders.entries);
        }
      } else {
        return Response(501, Text(ChunkedMessage), responseHeaders.entries);
      }
    }
    var errorHeaders := new Headers.Copy(cors);
    errorHeaders.Set("Content-Type", "application/json");
    resp := Response(500, Text(ProcessingErrorBody), errorHeaders.entries);
  }

  /** On a response built from the engine's result, an engine header wins over a CORS header of the same name. */
  lemma {:induction false} EngineHeaderWins(cors: map<string, string>, result: ExecutionResult, j: nat)
    requires result.Executed? && j < |result.headers|
    requires forall j' :: j < j' < |result.headers| ==> Lower(result.headers[j'].0) != Lower(result.headers[j].0)
    ensures !Fails(result) ==> Lower(result.headers[j].0) in GraphQLOutcome(cors, result).headers
    ensures !Fails(result) ==> GraphQLOutcome(cors, result).headers[Lower(result.headers[j].0)] == result.headers[j].1
  {
    SetAllLastWins(cors, result.headers, j);
  }

  /** A CORS header that the engine does not set is passed through unchanged. */
  lemma {:induction false} CorsHeaderKept(cors: map<string, string>, result: ExecutionResult, k: string)
    requires k in cors
    requires result.Executed? ==> forall j :: 0 <= j < |result.headers| ==> Lower(result.headers[j].0) != k
    ensures k in GraphQLOutcome(cors, result).headers
    ensures !Fails(result) || k != ContentTypeName ==> GraphQLOutcome(cors, result).headers[k] == cors[k]
    ensures Fails(result) ==> GraphQLOutcome(cors, result).headers[ContentTypeName] == "application/json"
  {
    if result.Executed? {
      SetAllKeepsUnset(cors, result.headers, k);
    }
  }

  /** The status of the adapter's response, by kind of engine result. */
  lemma StatusChoice(cors: map<string, string>, result: ExecutionResult)
    ensures result.Threw? ==> GraphQLOutcome(cors, result).status == 500
    ensures result.Executed? && result.body.Chunked? ==> GraphQLOutcome(cors, result).status == 501
    ensures result.Executed? && result.body.Complete? ==>
      var code := (if result.status.Some? && result.status.value != 0 then result.status.value else 200) % 0x1_0000;
      GraphQLOutcome(cors, result).status == (if AcceptsWithBody(code) then code else 500)
  {
  }

  /**
   * A complete result with status 204 (or 600, or 65536, which converts to
   * 0) still carries a body, so it ends in the error response; 65736
   * converts to 200 and is sent as 200.
   */
  lemma RejectedStatus(cors: map<string, string>, text: string)
    ensures GraphQLOutcome(cors, Executed(Some(204), [], Complete(text))) == ErrorResponse(cors)
    ensures GraphQLOutcome(cors, Executed(Some(600), [], Complete(text))) == ErrorResponse(cors)
    ensures GraphQLOutcome(cors, Executed(Some(0x1_0000), [], Complete(text))) == ErrorResponse(cors)
    ensures GraphQLOutcome(cors, Executed(Some(65736), [], Complete(text))).status == 200
  {
  }
}
