/**
 * HTTP values shared by the request front-end of the blog API: the request
 * the handler receives, the response it returns, and the header list
 * (`Headers`) it fills in. Header names are compared case-insensitively, as
 * the Fetch Standard's header list does: every name is stored lower-cased.
 */
module Http {

  datatype Option<+T> = None | Some(value: T)

  /** ASCII lower-casing of one character; other characters are unchanged. */
  function LowerChar(c: char): char
  {
    if 'A' <= c <= 'Z' then (c as int + 32) as char else c
  }

  /** Byte-wise lower-casing of a header name. */
  function Lower(s: string): (r: string)
    ensures |r| == |s|
    ensures forall i :: 0 <= i < |s| ==> r[i] == LowerChar(s[i])
    ensures forall i :: 0 <= i < |r| ==> !('A' <= r[i] <= 'Z')
  {
    seq(|s|, i requires 0 <= i < |s| => LowerChar(s[i]))
  }

  lemma LowerIdempotent(s: string)
    ensures Lower(Lower(s)) == Lower(s)
  {
  }

  /** Every key of a header map is already in canonical (lower-case) form. */
  predicate CanonicalNames(m: map<string, string>)
  {
    forall k :: k in m ==> Lower(k) == k
  }

  const ContentTypeName := Lower("Content-Type")

  /** HTTP whitespace, as the Fetch Standard defines it: tab, line feed, carriage return and space. */
  predicate HttpWhitespace(c: char)
  {
    c == '\t' || c == '\n' || c == '\r' || c == ' '
  }

  /** A header value neither starts nor ends with HTTP whitespace. */
  predicate Trimmed(v: string)
  {
    v == [] || (!HttpWhitespace(v[0]) && !HttpWhitespace(v[|v| - 1]))
  }

  /**
   * A header map as a request's `Headers` object holds it: every name is
   * lower-cased, and every value has had its leading and trailing HTTP
   * whitespace removed (the Fetch Standard normalises values on the way in).
   */
  type HeaderMap = m: map<string, string> | CanonicalNames(m) && (forall k :: k in m ==> Trimmed(m[k])) witness map[]

  /** The part of the request URL the handler looks at. */
  datatype Url = Url(pathname: string, search: string)

  /** The request body: JSON text when it parses as JSON, otherwise `NotJson`. */
  datatype Payload = Json(text: string) | NotJson

  /**
   * An incoming request. `url` is `None` when the URL cannot be parsed;
   * `headers` is keyed by lower-cased header name, and holds trimmed values.
   */
  datatype Request = Request(verb: string, url: Option<Url>, headers: HeaderMap, body: Payload)

  /**
   * `req.headers.get(name)`: the value of the header whose name equals
   * `name` up to ASCII case, `None` when there is none.
   */
  function Header(req: Request, name: string): Option<string>
  {
    if Lower(name) in req.headers then Some(req.headers[Lower(name)]) else None
  }

  /**
   * The lookup is case-insensitive: a header is found exactly when some name
   * in the request equals `name` up to ASCII case, and that header's value
   * is the result.
   */
  lemma HeaderLookup(req: Request, name: string)
    ensures Header(req, name).Some? <==> exists k :: k in req.headers && Lower(k) == Lower(name)
    ensures forall k :: k in req.headers && Lower(k) == Lower(name) ==> Header(req, name) == Some(req.headers[k])
  {
    LowerIdempotent(name);
  }

  /** A response body: `Null` for `new Response(null, ...)`, otherwise text. */
  datatype Body = Null | Text(text: string)

  datatype Response = Response(status: int, body: Body, headers: map<string, string>)

  /**
   * The header map obtained by calling `set(name, value)` for each pair in
   * turn, starting from `base`: a later pair overwrites an earlier one and
   * any entry of `base` with the same (case-insensitive) name.
   */
  function SetAll(base: map<string, string>, pairs: seq<(string, string)>): (m: map<string, string>)
    ensures m.Keys == base.Keys + set j | 0 <= j < |pairs| :: Lower(pairs[j].0)
    ensures CanonicalNames(base) ==> CanonicalNames(m)
    decreases |pairs|
  {
    if pairs == [] then base
    else
      var last := pairs[|pairs| - 1];
      var m' := SetAll(base, pairs[..|pairs| - 1]);
      LowerIdempotent(last.0);
      assert forall j :: 0 <= j < |pairs| - 1 ==> pairs[..|pairs| - 1][j] == pairs[j];
      m'[Lower(last.0) := last.1]
  }

  /** A name that no pair sets keeps its value from `base`. */
  lemma {:induction false} SetAllKeepsUnset(base: map<string, string>, pairs: seq<(string, string)>, k: string)
    requires forall j :: 0 <= j < |pairs| ==> Lower(pairs[j].0) != k
    ensures (k in SetAll(base, pairs)) == (k in base)
    ensures k in base ==> SetAll(base, pairs)[k] == base[k]
    decreases |pairs|
  {
    if pairs != [] {
      var init := pairs[..|pairs| - 1];
      assert forall j :: 0 <= j < |init| ==> init[j] == pairs[j];
      SetAllKeepsUnset(base, init, k);
    }
  }

  /** The last pair that sets a name decides that name's value. */
  lemma {:induction false} SetAllLastWins(base: map<string, string>, pairs: seq<(string, string)>, j: nat)
    requires j < |pairs|
    requires forall j' :: j < j' < |pairs| ==> Lower(pairs[j'].0) != Lower(pairs[j].0)
    ensures Lower(pairs[j].0) in SetAll(base, pairs)
    ensures SetAll(base, pairs)[Lower(pairs[j].0)] == pairs[j].1
    decreases |pairs|
  {
    if j < |pairs| - 1 {
      var init := pairs[..|pairs| - 1];
      assert forall i :: 0 <= i < |init| ==> init[i] == pairs[i];
      SetAllLastWins(base, init, j);
    }
  }

  /**
   * A mutable header list, as the Fetch Standard's `Headers` object: names
   * are stored lower-cased and `Set` replaces any earlier value of the name.
   */
  class Headers {
    var entries: map<string, string>

    ghost predicate Valid()
      reads this
    {
      CanonicalNames(entries)
    }

    /** `new Headers()` */
    constructor ()
      ensures Valid() && entries == map[]
    {
      entries := map[];
    }

    /** `new Headers(other)`: a copy of another header list. */
    constructor Copy(other: Headers)
      requires other.Valid()
      ensures Valid() && entries == other.entries
    {
      entries := other.entries;
    }

    /** `headers.set(name, value)` */
    method Set(name: string, value: string)
      requires Valid()
      modifies this
      ensures Valid()
      ensures entries == old(entries)[Lower(name) := value]
    {
      LowerIdempotent(name);
      entries := entries[Lower(name) := value];
    }

    /** `for (const [name, value] of pairs) headers.set(name, value)` */
    method SetEach(pairs: seq<(string, string)>)
      requires Valid()
      modifies this
      ensures Valid()
      ensures entries == SetAll(old(entries), pairs)
    {
      var i := 0;
      while i < |pairs|
        invariant 0 <= i <= |pairs|
        invariant Valid()
        invariant entries == SetAll(old(entries), pairs[..i])
      {
        var (name, value) := pairs[i];
        Set(name, value);
        assert pairs[..i + 1][..i] == pairs[..i];
        i := i + 1;
      }
      assert pairs[..i] == pairs;
    }
  }
}
