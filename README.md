# Blog API request front-end, in Dafny

This project models the request front-end of a small blog back-end. The
back-end is a GraphQL API served over HTTP that sits in front of a managed
Postgres store. The front-end is everything the HTTP handler does before and
after the GraphQL engine runs:

- **Origin policy** (`cors.dfy`, module `Cors`). An exact-match allow-list of
  seven browser origins. The CORS response headers (Fetch Standard, section
  3.2 "CORS protocol") are built by successive `set` calls on a fresh header
  list.
- **Header list** (`http.dfy`, module `Http`). A `Headers` class whose names
  are stored lower-cased, so that `set` replaces any earlier value of the same
  name whatever its case. `SetAll` is the value of a sequence of `set` calls.
- **GraphQL adapter glue** (`graphql.dfy`, module `GraphQL`). It covers:
  - the bearer token taken from `Authorization` (`"Bearer "` prefix, as in
    section 2.1 of RFC 6750);
  - the context and request handed to the engine;
  - the engine's headers merged over the CORS headers;
  - the status choice (`status || 200`);
  - the 501 answer for a chunked result and the 500 processing-error envelope.

  The engine itself is the parameter `execute`.
- **Sitemap** (`sitemap.dfy`, module `Sitemap`). Five static pages plus one
  page per post, rendered as a sitemaps.org 0.9 `urlset` document. Today's
  date is the part of the clock's ISO-8601 timestamp `now` before the first
  `T`. The document is read back through `TagValues(s, tag)`: for each place
  where `tag` opens in `s`, the text after it up to the next `<`. The
  lemmas state the `<url>`, `<loc>`, `<lastmod>` and `<priority>` values of
  the generated text in document order.
- **Route dispatch** (`server.dfy`, module `Server`). `Route` chooses a
  response from the exact pathname and the method, and `Handle` builds it:

  | path | method | response |
  |---|---|---|
  | `/` | any | 200, JSON message |
  | `/graphql` | `OPTIONS` | 204, null body |
  | `/graphql` | `POST` | the adapter |
  | `/graphql` | other | 405 |
  | `/sitemap` | `GET` | 200, XML |
  | `/sitemap` | other | 405 |
  | `/health` | any | 200, `OK` |
  | any other | any | 404 |

  A URL that does not parse gives the last-resort bare 500.

A request's method is the field `verb`, because `method` is a Dafny keyword.

Some consequences of the code are easy to miss:

- **Header merge.** The CORS headers are copied first and every engine header
  is then set over them, so an engine header wins on a name clash
  (`GraphQL.EngineHeaderWins`). A CORS header the engine does not set is kept
  (`GraphQL.CorsHeaderKept`).
- **Authentication.** No modelled code checks the bearer token. It is only
  placed in the context handed to the engine (`GraphQL.ContextOf`).
- **Sitemap headers.** The sitemap document's response is built by spreading
  a `Headers` object into a plain object, which copies none of its entries.
  That response therefore carries only `content-type: application/xml` and
  none of the CORS headers (`Server.SitemapDropsCors`).
- **Bearer token.** Request header values arrive with surrounding whitespace
  removed, so an `Authorization` header of `"Bearer "` reads as `"Bearer"` and
  gives no token. A token, when there is one, is never empty
  (`GraphQL.BearerTokenNonEmpty`).
- **Rejected engine status.** The response for a complete engine result is
  built inside the `try` block. The `Response` constructor first converts the
  status to an unsigned 16-bit integer (modulo 65536, so 65736 becomes 200).
  It then throws for a converted status outside 200 to 599, and for 204, 205
  or 304 with a body. Such a status therefore ends in the 500
  processing-error response (`GraphQL.StatusChoice`, `GraphQL.RejectedStatus`).

## Model

| member | source | states |
|---|---|---|
| `Cors.IsAllowedOrigin` | personal_blog/server.ts:11-27 | The scan returns true exactly when the origin is present, non-empty and equal to one entry of the seven-entry allow-list. There is no prefix, case or wildcard matching. |
| `Cors.AllowHeadersValue` | personal_blog/server.ts:51-55 | Allow-Headers echoes the requested headers when present and non-empty, and is the default list otherwise. It is never empty. |
| `Cors.CorsHeaderValues` | personal_blog/server.ts:29-60 | In the CORS header set `CorsHeaders`, `vary` is the three-part value for `OPTIONS` and `Origin` otherwise. Allow-Origin (the request's origin) and Allow-Credentials (`true`) are present exactly when the origin is allowed. Allow-Methods, Expose-Headers and Max-Age have their fixed values. Allow-Headers echoes a non-empty `access-control-request-headers` and otherwise has its default. |
| `Cors.CorsHeaderNames` | personal_blog/server.ts:29-60 | The CORS header set holds the five unconditional names, plus Allow-Origin and Allow-Credentials when the origin is allowed, and no other name. |
| `Cors.CorsHeadersCanonical` | personal_blog/server.ts:29-60 | Every name in the CORS header set is lower-case, as `set` stores it. |
| `Cors.HandleCors` | personal_blog/server.ts:29-60 | The header list filled by the successive case-insensitive `set` calls equals `CorsHeaders` of the request's method, `Origin` header and `Access-Control-Request-Headers` header, and of nothing else in the request. |
| `Http.Lower` | personal_blog/server.ts:31 | Header names are compared lower-cased: each character is ASCII-lower-cased in place. The result has the input's length and no upper-case ASCII letter. |
| `Http.HeaderLookup` | personal_blog/server.ts:31 | `req.headers.get(name)` (`Header`) finds a header exactly when some name in the request equals `name` up to ASCII case, and gives that header's value. |
| `Http.SetAll` | personal_blog/server.ts:176-179 | After a sequence of `set` calls, the names present are the base names plus the lower-cased names of the pairs, and canonical names stay canonical. |
| `Http.SetAllKeepsUnset` | personal_blog/server.ts:176-179 | A name that no pair sets keeps its presence and its value from the base headers. |
| `Http.SetAllLastWins` | personal_blog/server.ts:176-179 | The last pair that sets a name decides that name's value. |
| `Http.Headers.Set` | personal_blog/server.ts:35-58 | `set` stores the value under the lower-cased name, replacing any earlier value, and keeps every name canonical. |
| `Http.Headers.SetEach` | personal_blog/server.ts:177-179 | The merge loop leaves exactly `SetAll` of the previous entries and the engine's pairs. |
| `Http.Headers.Copy` | personal_blog/server.ts:176 | `new Headers(corsHeaders)` starts with the same entries as its source. |
| `Http.Headers.constructor` | personal_blog/server.ts:30 | `new Headers()` starts empty. |
| `GraphQL.IndexOf` | personal_blog/server.ts:168 | `indexOf` gives the first index where the needle occurs, and no occurrence lies before it. It gives -1 exactly when there is no occurrence at all. |
| `GraphQL.BearerToken` | personal_blog/server.ts:167-171 | A token is extracted exactly when the header is present and starts with the case-sensitive `"Bearer "`. The header is then `"Bearer "` followed by the token. |
| `GraphQL.BearerRoundTrip` | personal_blog/server.ts:167-171 | Extracting from `"Bearer " + t` gives back `t`. |
| `GraphQL.ContextOf` | personal_blog/server.ts:165-172 | The context holds the request. It has a token exactly when an `Authorization` header starts with `"Bearer "`, and that header is then `"Bearer "` followed by the token. |
| `GraphQL.BearerTokenNonEmpty` | personal_blog/server.ts:167-171 | Because request header values hold no leading or trailing whitespace, a token extracted for the context is never the empty string. |
| `GraphQL.GraphQLRequestOf` | personal_blog/server.ts:148-164 | The engine receives the JSON body, or `{}` when the body is not JSON. It also receives the request's headers, method and query string. |
| `GraphQL.EffectiveStatus` | personal_blog/server.ts:183 | The status is never 0. It is the engine's status when that is set and non-zero, and 200 otherwise. |
| `GraphQL.ErrorResponse` | personal_blog/server.ts:195-211 | The error response has status 500 and the error envelope. Its names are the CORS names plus `content-type`, which is `application/json`. Every other CORS header keeps its value. |
| `GraphQL.GraphQLOutcome` | personal_blog/server.ts:176-211 | Every CORS name is on the adapter's response. Its status is always one the `Response` constructor accepts with a body. A failure (a thrown error, or a status the constructor rejects) gives the error response. Otherwise the headers are the CORS headers with the engine's headers set over them in order, and the body is the engine's complete text, or the "not supported" message for a chunked body. |
| `GraphQL.RespondGraphQL` | personal_blog/server.ts:145-212 | The adapter's response is `GraphQLOutcome` of the CORS headers and the engine's result for this request and its context. |
| `GraphQL.EngineHeaderWins` | personal_blog/server.ts:176-185 | On a response built from the engine's result (not the error response), a header the engine sets has the engine's last value, even when CORS set the same name. |
| `GraphQL.CorsHeaderKept` | personal_blog/server.ts:176-198 | A CORS header the engine does not set is on the response. It keeps its value, except `content-type` on the error response, which is `application/json`. |
| `GraphQL.StatusChoice` | personal_blog/server.ts:181-211 | The status is 500 for a thrown error and 501 for a chunked body. For a complete body it is the engine's status, or 200 when that is absent or 0, taken modulo 65536, provided the `Response` constructor accepts it with a body. Otherwise it is 500. |
| `GraphQL.ToUint16` | personal_blog/server.ts:183 | The status handed to the `Response` constructor is reduced to 0..65535, differs from the given status by a multiple of 65536, and is unchanged when already in that range. |
| `GraphQL.RejectedStatus` | personal_blog/server.ts:182-185 | A complete body with engine status 204, 600 or 65536 ends in the error response; one with status 65736 is sent with status 200. |
| `Sitemap.AllPages` | personal_blog/server.ts:73-88 | The pages are the five static pages in their listed order, then one page per post in input order. A post's page has path `/blog/` + id, priority `0.6` and the post's date as `lastmod`. |
| `Sitemap.FetchBlogPosts` | personal_blog/server.ts:63-69 | The post source gives two posts with different ids. Each has a publication date, and no id or date holds `<`. |
| `Sitemap.PostPage` | personal_blog/server.ts:82-86 | A post's page path is `/blog/` followed by the post's id, so the id can be read back from it. Its priority is `0.6` and its `lastmod` is the post's date. |
| `Sitemap.DatePart` | personal_blog/server.ts:97 | `split("T")[0]` is the longest prefix of the timestamp without a `T`. It is followed by a `T` unless it is the whole timestamp. |
| `Sitemap.DatePartOfTimestamp` | personal_blog/server.ts:97 | For a timestamp `date + "T" + time` whose date holds no `T`, the date part is `date`. |
| `Sitemap.Lastmod` | personal_blog/server.ts:97 | `lastmod` is the page's own date when non-empty, and today's date otherwise. |
| `Sitemap.LocLine` | personal_blog/server.ts:96 | The `<loc>` line starts with a tag. When the path holds no `<`, its only `<loc>` value is the base URL followed by the path, and it has no `<url>`, `<lastmod>` or `<priority>` value. |
| `Sitemap.LastmodLine` | personal_blog/server.ts:97 | The `<lastmod>` line starts with a tag. When the page's date holds no `<`, its only `<lastmod>` value is that date, and it has no value of the other three tags. |
| `Sitemap.PriorityLine` | personal_blog/server.ts:98 | The `<priority>` line starts with a tag. When the priority holds no `<`, its only `<priority>` value is the page's priority, and it has no value of the other three tags. |
| `Sitemap.UrlElement` | personal_blog/server.ts:94-100 | When no field holds `<`, one rendered entry has exactly one value of each tag: one `<url>`, a `<loc>` that is the base URL followed by the path, a `<lastmod>` that is the page's date (today's when it has none) and a `<priority>` that is the page's priority. It ends with a closing tag. |
| `Sitemap.ElementFields` | personal_blog/server.ts:94-100 | An entry made of an opening with one `<url>`, three lines that each hold one value of their own tag and none of the others, and a closing with none, has exactly those four values and ends with a closing tag. |
| `Sitemap.JoinEnds` | personal_blog/server.ts:101-102 | `join` (`Join`) of no parts is empty. Otherwise the result begins with the first part and ends with the last. |
| `Sitemap.JoinValues` | personal_blog/server.ts:92-102 | Joining entries with line breaks, when each entry holds one value of a tag and ends apart from it, lists those values in entry order. |
| `Sitemap.Urlset` | personal_blog/server.ts:90-103 | The document begins with the XML declaration and the `<urlset>` opening tag, and ends with `</urlset>`. |
| `Sitemap.GenerateSitemap` | personal_blog/server.ts:72-104 | The sitemap is a `urlset` document, framed by the XML declaration and the `<urlset>` tags. |
| `Sitemap.UrlsetTag` | personal_blog/server.ts:90-103 | When each entry holds one value of an element tag, the document's values of that tag are the entries' values in page order. The XML declaration, `<urlset ...>` and `</urlset>` add none. |
| `Sitemap.UrlsetCount` | personal_blog/server.ts:90-103 | The `urlset` document holds exactly one `<url>` tag per page. |
| `Sitemap.UrlsetLocs` | personal_blog/server.ts:90-103 | The document has one `<loc>` value per page, in page order: the base URL followed by the page's path. |
| `Sitemap.UrlsetLastmods` | personal_blog/server.ts:90-103 | The document has one `<lastmod>` value per page, in page order: the page's date, or today's date when it has none. |
| `Sitemap.UrlsetPriorities` | personal_blog/server.ts:90-103 | The document has one `<priority>` value per page, in page order: the page's priority. |
| `Sitemap.SitemapUrlCount` | personal_blog/server.ts:72-104 | The sitemap for any post list holds exactly 5 + (number of posts) `<url>` elements. |
| `Sitemap.SitemapLocs` | personal_blog/server.ts:72-104 | The sitemap's `<loc>` values, in document order, are the base URL followed by each static page's path in listed order, then by `/blog/` and each post's id in input order. |
| `Sitemap.SitemapLastmods` | personal_blog/server.ts:72-104 | The sitemap's `<lastmod>` values, in document order, are each page's date with today's date taken from `now`. That is today's date for every static page, and for a post its publication date, or today's date when it has none. |
| `Sitemap.SitemapPriorities` | personal_blog/server.ts:72-104 | The sitemap's `<priority>` values, in document order, are each static page's listed priority, then `0.6` for every post. |
| `Sitemap.ServedSitemapUrlCount` | personal_blog/server.ts:63-104 | The served sitemap, built from the two posts of `fetchBlogPosts`, holds exactly seven `<url>` elements. |
| `Server.SitemapHeaders` | personal_blog/server.ts:227-233 | The sitemap document's response has the single header `content-type: application/xml`. |
| `Server.SitemapDropsCors` | personal_blog/server.ts:227-233 | The sitemap document's headers share no name with any CORS header set. |
| `Server.RouteTable` | personal_blog/server.ts:119-253 | The routing table `Route`, row by row, on the exact pathname and then the method; any other pathname is 404. A URL that does not parse gives 500 `Internal Server Error` with no headers. |
| `Server.RouteKeepsCors` | personal_blog/server.ts:119-253 | Every CORS header is on every response except the sitemap document and the bare 500. |
| `Server.RouteCorsExact` | personal_blog/server.ts:119-253 | Apart from `POST /graphql` and the sitemap document, every response with a parsed URL carries exactly the CORS headers. |
| `Server.Handle` | personal_blog/server.ts:119-253 | The handler, building fresh header lists with `handleCors` and the adapter, returns the response `Route` gives for the request. |

## Left out

- Constructing and running the GraphQL engine (personal_blog/server.ts:108-116, 157-173) is not modelled. Its result is the parameter `execute`, and it receives the context `ContextOf` builds.
- The resolvers, the Supabase client, the seeding and test scripts, and the type and schema declarations are not part of this model. They only pass calls through to the data store or fetch over the network.
- Listening on a port, the `PORT` environment lookup and console logging (personal_blog/server.ts:121, 196, 250, 256-261) are left out because they are I/O.
- The clock is not modelled. `now` is the ISO-8601 timestamp it would give. The source reads the clock once per entry without a date, and the model uses one reading for the whole document.
- URL parsing is not modelled. `Request.url` holds the parsed pathname and query string, or `None` when the URL does not parse. That failure is the only way the model reaches the last-resort 500.
- JSON parsing of the request body is not modelled. `Payload` says whether the body parsed and holds its JSON text.
- `Headers` validation and normalisation are not modelled for the response headers: a value passed to `set` is not trimmed, and the `TypeError` for an invalid name or value is not raised. In the source, an engine header that `set` rejects would be caught and would give the 500 envelope.
- The `Content-Type: text/plain;charset=UTF-8` that a `Response` built from a string receives by default is not modelled. A response's headers are those the handler passes.
- A request header sent several times is read as one value. Combining repeated values with `, ` is not modelled.
- Sitemap.SitemapUrlCount: holds only for post ids, post dates and timestamps that contain no `<`. The source writes these values into the XML unescaped, so an id containing `<url>` would add a tag.
- Sitemap.SitemapLocs: holds only for post ids, post dates and timestamps that contain no `<`, for the same reason.
- Sitemap.SitemapLastmods: holds only for post ids, post dates and timestamps that contain no `<`, for the same reason.
- Sitemap.SitemapPriorities: holds only for post ids, post dates and timestamps that contain no `<`, for the same reason.
- Sitemap.UrlsetCount: holds only for page fields and a date that contain no `<`, for the same reason.
- Sitemap.UrlsetLocs: holds only for page fields and a date that contain no `<`.
- Sitemap.UrlsetLastmods: holds only for page fields and a date that contain no `<`.
- Sitemap.UrlsetPriorities: holds only for page fields and a date that contain no `<`.
- Sitemap.UrlElement: holds only when the page's path, priority and date contain no `<`.
- Sitemap.LocLine: reads back its `<loc>` value only when the path contains no `<`.
- Sitemap.LastmodLine: reads back its `<lastmod>` value only when the date contains no `<`.
- Sitemap.PriorityLine: reads back its `<priority>` value only when the priority contains no `<`.
- The document is read back by its tags' values only. Well-formedness as XML and the closing tags' names are not stated.
