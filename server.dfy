/**
 * The request handler: dispatch on the exact pathname (the query string is
 * ignored) and the method, with the CORS headers of the origin policy on
 * every response except the sitemap document and the last-resort error.
 */
module Server {
  import opened Http
  import opened Cors
  import opened GraphQL
  import Sitemap

  const RootMessage := "{\"message\":\"API is running. Use /graphql for queries.\"}"
  const HealthMessage := "OK"
  const NotFoundMessage := "Not Found"
  const MethodNotAllowedMessage := "Method Not Allowed"
  const InternalErrorMessage := "Internal Server Error"

  /** The request's URL parses and its pathname is exactly `path`. */
  predicate At(req: Request, path: string)
  {
    req.url.Some? && req.url.value.pathname == path
  }

  /** The CORS headers the origin policy computes for a request. */
  function CorsFor(req: Request): map<string, string>
  {
    CorsHeaders(req.verb, Header(req, "origin"), Header(req, "access-control-request-headers"))
  }

  /**
   * The sitemap response's headers. The source spreads a `Headers` object
   * into a plain object, which copies none of its entries, so only the
   * content type remains.
   */
  function SitemapHeaders(): (h: map<string, string>)
    ensures ContentTypeName in h && h[ContentTypeName] == "application/xml"
    ensures |h| == 1
  {
    map[ContentTypeName := "application/xml"]
  }

  /** The sitemap response carries none of the CORS headers. */
  lemma SitemapDropsCors(verb: string, origin: Option<string>, requested: Option<string>)
    ensures SitemapHeaders().Keys !! CorsHeaders(verb, origin, requested).Keys
  {
    var cors := CorsHeaders(verb, origin, requested);
    CorsHeaderNames(verb, origin, requested);
    ContentTypeNotCors();
    assert ContentTypeName !in cors.Keys;
    assert SitemapHeaders().Keys == {ContentTypeName};
  }

  lemma ContentTypeNotCors()
    ensures ContentTypeName !in {VaryName, AllowMethodsName, AllowHeadersName, ExposeHeadersName, MaxAgeName,
                                 AllowOriginName, AllowCredentialsName}
  {
    NameLengths();
    assert |ContentTypeName| == 12;
  }

  /**
   * `handler`'s routing table as a value: the response for a request, given
   * the GraphQL engine `execute` and the clock's ISO-8601 timestamp `now`. A
   * URL that does not parse makes the dispatch throw, which ends in a bare 500.
   */
  function Route(req: Request, execute: Executor, now: string): Response
  {
    if req.url.None? then Response(500, Text(InternalErrorMessage), map[])
    else if At(req, "/") then Response(200, Text(RootMessage), CorsFor(req))
    else if At(req, "/graphql") then
      if req.verb == "OPTIONS" then Response(204, Null, CorsFor(req))
      else if req.verb == "POST" then GraphQLOutcome(CorsFor(req), execute(GraphQLRequestOf(req), ContextOf(req)))
      else Response(405, Text(MethodNotAllowedMessage), CorsFor(req))
    else if At(req, "/sitemap") then
      if req.verb == "GET" then Response(200, Text(Sitemap.GenerateSitemap(Sitemap.FetchBlogPosts(), now)), SitemapHeaders())
      else Response(405, Text(MethodNotAllowedMessage), CorsFor(req))
    else if At(req, "/health") then Response(200, Text(HealthMessage), CorsFor(req))
    else Response(404, Text(NotFoundMessage), CorsFor(req))
  }

  /**
   * The routing table, row by row: dispatch is on the exact pathname and
   * then on the method; any other pathname is 404.
   */
  lemma RouteTable(req: Request, execute: Executor, now: string)
    ensures req.url.None? ==> Route(req, execute, now) == Response(500, Text(InternalErrorMessage), map[])
    ensures At(req, "/") ==> Route(req, execute, now) == Response(200, Text(RootMessage), CorsFor(req))
    ensures At(req, "/graphql") && req.verb == "OPTIONS" ==> Route(req, execute, now) == Response(204, Null, CorsFor(req))
    ensures At(req, "/graphql") && req.verb == "POST" ==>
      Route(req, execute, now) == GraphQLOutcome(CorsFor(req), execute(GraphQLRequestOf(req), ContextOf(req)))
    ensures At(req, "/graphql") && req.verb != "OPTIONS" && req.verb != "POST" ==>
      Route(req, execute, now) == Response(405, Text(MethodNotAllowedMessage), CorsFor(req))
    ensures At(req, "/sitemap") && req.verb == "GET" ==>
      Route(req, execute, now) == Response(200, Text(Sitemap.GenerateSitemap(Sitemap.FetchBlogPosts(), now)), SitemapHeaders())
    ensures At(req, "/sitemap") && req.verb != "GET" ==>
      Route(req, execute, now) == Response(405, Text(MethodNotAllowedMessage), CorsFor(req))
    ensures At(req, "/health") ==> Route(req, execute, now) == Response(200, Text(HealthMessage), CorsFor(req))
    ensures req.url.Some? && req.url.value.pathname !in {"/", "/graphql", "/sitemap", "/health"} ==>
      Route(req, execute, now) == Response(404, Text(NotFoundMessage), CorsFor(req))
  {
  }

  /**
   * Every CORS header is on every response but the sitemap document and the
   * bare 500.
   */
  lemma RouteKeepsCors(req: Request, execute: Executor, now: string)
    ensures req.url.Some? && !(At(req, "/sitemap") && req.verb == "GET") ==>
      CorsFor(req).Keys <= Route(req, execute, now).headers.Keys
  {
    RouteTable(req, execute, now);
    if req.url.Some? && At(req, "/graphql") && req.verb == "POST" {
      var outcome := GraphQLOutcome(CorsFor(req), execute(GraphQLRequestOf(req), ContextOf(req)));
      assert Route(req, execute, now) == outcome;
    }
  }

  /** Only the GraphQL engine's own headers can change the CORS values. */
  lemma RouteCorsExact(req: Request, execute: Executor, now: string)
    ensures req.url.Some? && !(At(req, "/sitemap") && req.verb == "GET") && !(At(req, "/graphql") && req.verb == "POST") ==>
      Route(req, execute, now).headers == CorsFor(req)
  {
    RouteTable(req, execute, now);
  }

  /**
   * `handler`: builds the response of `Route` with a fresh `Headers` list
   * from `handleCors` on each path that sends the CORS headers.
   */
  method Handle(req: Request, execute: Executor, now: string) returns (resp: Response)
    ensures resp == Route(req, execute, now)
  {
    if req.url.None? {
      return Response(500, Text(InternalErrorMessage), map[]);
    }
    var pathname := req.url.value.pathname;
    if pathname == "/" {
      var headers := HandleCors(req);
      return Response(200, Text(RootMessage), headers.entries);
    }
    if pathname == "/graphql" {
      var corsHeaders := HandleCors(req);
      if req.verb == "OPTIONS" {
        return Response(204, Null, corsHeaders.entries);
      }
      if req.verb == "POST" {
        resp := RespondGraphQL(req, corsHeaders, execute);
        return;
      }
      return Response(405, Text(MethodNotAllowedMessage), corsHeaders.entries);
    }
    if pathname == "/sitemap" {
      var corsHeaders := HandleCors(req);
      if req.verb == "GET" {
        var sitemap := Sitemap.GenerateSitemap(Sitemap.FetchBlogPosts(), now);
        return Response(200, Text(sitemap), SitemapHeaders());
      }
      return Response(405, Text(MethodNotAllowedMessage), corsHeaders.entries);
    }
    if pathname == "/health" {
      var headers := HandleCors(req);
      return Response(200, Text(HealthMessage), headers.entries);
    }
    var headers := HandleCors(req);
    return Response(404, Text(NotFoundMessage), headers.entries);
  }
}
