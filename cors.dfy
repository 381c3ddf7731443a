/**
 * The origin policy: which browser origins may call the API, and the CORS
 * response headers (Fetch Standard, section 3.2 "CORS protocol") computed
 * for every request.
 */
module Cors {
  import opened Http

  /** The fixed allow-list; membership is by exact string equality. */
  const AllowedOrigins: seq<string> := [
    "https://joshuasevy.com",
    "https://www.joshuasevy.com",
    "http://localhost:3000",
    "http://localhost:4000",
    "http://localhost:5173",
    "http://127.0.0.1:5173",
    "http://localhost:5174"
  ]

  // Header names as `Headers.Set` stores them: lower-cased.
  const VaryName := Lower("Vary")
  const AllowOriginName := Lower("Access-Control-Allow-Origin")
  const AllowCredentialsName := Lower("Access-Control-Allow-Credentials")
  const AllowMethodsName := Lower("Access-Control-Allow-Methods")
  const AllowHeadersName := Lower("Access-Control-Allow-Headers")
  const ExposeHeadersName := Lower("Access-Control-Expose-Headers")
  const MaxAgeName := Lower("Access-Control-Max-Age")

  // Header values.
  const PreflightVary := "Origin, Access-Control-Request-Method, Access-Control-Request-Headers"
  const SimpleVary := "Origin"
  const AllowedMethods := "GET, POST, OPTIONS"
  const DefaultAllowedHeaders := "Content-Type, Authorization"
  const ExposedHeaders := "Content-Type, Authorization"
  const MaxAgeSeconds := "86400"

  /** An origin is allowed when it is present, non-empty and listed verbatim. */
  predicate Allowed(origin: Option<string>)
  {
    origin.Some? && origin.value != "" && origin.value in AllowedOrigins
  }

  /** `isAllowedOrigin`: a linear scan of the allow-list with early return. */
  method IsAllowedOrigin(origin: Option<string>) returns (allowed: bool)
    ensures allowed <==> origin.Some? && origin.value != ""
                         && exists i :: 0 <= i < |AllowedOrigins| && AllowedOrigins[i] == origin.value
    ensures allowed <==> Allowed(origin)
  {
    if origin.None? || origin.value == "" {
      return false;
    }
    var i := 0;
    while i < |AllowedOrigins|
      invariant 0 <= i <= |AllowedOrigins|
      invariant forall j :: 0 <= j < i ==> AllowedOrigins[j] != origin.value
    {
      if AllowedOrigins[i] == origin.value {
        return true;
      }
      i := i + 1;
    }
    return false;
  }

  /**
   * The Allow-Headers value: the requested headers are echoed when present
   * and non-empty, and the default list is sent otherwise. It is never empty.
   */
  function AllowHeadersValue(requested: Option<string>): (v: string)
    ensures v != ""
    ensures requested.Some? && requested.value != "" ==> v == requested.value
    ensures requested.None? || requested.value == "" ==> v == DefaultAllowedHeaders
  {
    if requested.Some? && requested.value != "" then requested.value else DefaultAllowedHeaders
  }

  /** The lengths of the seven names, which tell most of them apart. */
  lemma NameLengths()
    ensures |VaryName| == 4 && |AllowOriginName| == 27 && |AllowCredentialsName| == 32
    ensures |AllowMethodsName| == 28 && |AllowHeadersName| == 28 && |ExposeHeadersName| == 29
    ensures |MaxAgeName| == 22
  {
  }

  /**
   * The seven names are canonical, and the two names of equal length
   * differ; with `NameLengths` the seven are pairwise distinct.
   */
  lemma NamesDistinct()
    ensures Lower(VaryName) == VaryName && Lower(AllowOriginName) == AllowOriginName
    ensures Lower(AllowCredentialsName) == AllowCredentialsName && Lower(AllowMethodsName) == AllowMethodsName
    ensures Lower(AllowHeadersName) == AllowHeadersName && Lower(ExposeHeadersName) == ExposeHeadersName
    ensures Lower(MaxAgeName) == MaxAgeName
    ensures AllowMethodsName != AllowHeadersName
  {
    LowerIdempotent("Vary");
    LowerIdempotent("Access-Control-Allow-Origin");
    LowerIdempotent("Access-Control-Allow-Credentials");
    LowerIdempotent("Access-Control-Allow-Methods");
    LowerIdempotent("Access-Control-Allow-Headers");
    LowerIdempotent("Access-Control-Expose-Headers");
    LowerIdempotent("Access-Control-Max-Age");
    assert AllowMethodsName[21] == 'm' && AllowHeadersName[21] == 'h';
  }

  /**
   * The CORS header set for a request with the given method (verb), `Origin`
   * header and `Access-Control-Request-Headers` header.
   */
  function CorsHeaders(verb: string, origin: Option<string>, requested: Option<string>): map<string, string>
  {
    var vary := map[VaryName := if verb == "OPTIONS" then PreflightVary else SimpleVary];
    var withOrigin := if Allowed(origin)
      then vary[AllowOriginName := origin.value][AllowCredentialsName := "true"]
      else vary;
    withOrigin[AllowMethodsName := AllowedMethods]
              [AllowHeadersName := AllowHeadersValue(requested)]
              [ExposeHeadersName := ExposedHeaders]
              [MaxAgeName := MaxAgeSeconds]
  }

  /** The CORS header set holds these names and no others. */
  lemma CorsHeaderNames(verb: string, origin: Option<string>, requested: Option<string>)
    ensures var h := CorsHeaders(verb, origin, requested);
      && h.Keys == {VaryName, AllowMethodsName, AllowHeadersName, ExposeHeadersName, MaxAgeName}
                   + (if Allowed(origin) then {AllowOriginName, AllowCredentialsName} else {})
  {
    NameLengths();
    var vary := map[VaryName := if verb == "OPTIONS" then PreflightVary else SimpleVary];
    var withOrigin := if Allowed(origin)
      then vary[AllowOriginName := origin.value][AllowCredentialsName := "true"]
      else vary;
    var originNames := if Allowed(origin) then {AllowOriginName, AllowCredentialsName} else {};
    assert withOrigin.Keys == {VaryName} + originNames;
    var h := CorsHeaders(verb, origin, requested);
    assert h.Keys == {VaryName, AllowMethodsName, AllowHeadersName, ExposeHeadersName, MaxAgeName} + originNames;
  }

  /** Every name in the CORS header set is lower-case already. */
  lemma CorsHeadersCanonical(verb: string, origin: Option<string>, requested: Option<string>)
    ensures CanonicalNames(CorsHeaders(verb, origin, requested))
  {
    CorsHeaderNames(verb, origin, requested);
    NamesDistinct();
  }

  /** The value of each CORS header, as the request determines it. */
  lemma CorsHeaderValues(verb: string, origin: Option<string>, requested: Option<string>)
    ensures var h := CorsHeaders(verb, origin, requested);
      && VaryName in h && h[VaryName] == (if verb == "OPTIONS" then PreflightVary else SimpleVary)
      && (AllowOriginName in h) == Allowed(origin)
      && (AllowCredentialsName in h) == Allowed(origin)
      && (Allowed(origin) ==> h[AllowOriginName] == origin.value && h[AllowCredentialsName] == "true")
      && AllowMethodsName in h && h[AllowMethodsName] == AllowedMethods
      && AllowHeadersName in h
      && (requested.Some? && requested.value != "" ==> h[AllowHeadersName] == requested.value)
      && (requested.None? || requested.value == "" ==> h[AllowHeadersName] == DefaultAllowedHeaders)
      && ExposeHeadersName in h && h[ExposeHeadersName] == ExposedHeaders
      && MaxAgeName in h && h[MaxAgeName] == MaxAgeSeconds
  {
    NameLengths();
    assert AllowMethodsName[21] == 'm' && AllowHeadersName[21] == 'h';
  }

  /**
   * `handleCors`: fills a fresh header list with successive `set` calls. The
   * result depends on the request's method, `Origin` header and
   * `Access-Control-Request-Headers` header only.
   */
  method HandleCors(req: Request) returns (h: Headers)
    ensures h.Valid()
    ensures h.entries == CorsHeaders(req.verb, Header(req, "origin"), Header(req, "access-control-request-headers"))
  {
    NameLengths();
    NamesDistinct();
    h := new Headers();
    var origin := Header(req, "origin");
    if req.verb == "OPTIONS" {
      h.Set("Vary", PreflightVary);
    } else {
      h.Set("Vary", SimpleVary);
    }
    var allowed := IsAllowedOrigin(origin);
    if allowed {
      h.Set("Access-Control-Allow-Origin", origin.value);
      h.Set("Access-Control-Allow-Credentials", "true");
    }
    h.Set("Access-Control-Allow-Methods", AllowedMethods);
    var requested := Header(req, "access-control-request-headers");
    h.Set("Access-Control-Allow-Headers",
      if requested.Some? && requested.value != "" then requested.value else DefaultAllowedHeaders);
    h.Set("Access-Control-Expose-Headers", ExposedHeaders);
    h.Set("Access-Control-Max-Age", MaxAgeSeconds);
  }
}
