/**
 * Generation of the site's sitemap as a sitemaps.org 0.9 `urlset` document:
 * the five static pages, then one page per blog post, each rendered as a
 * `<url>` element with `loc`, `lastmod` and `priority`.
 */
module Sitemap {

  const BaseUrl := "https://api.joshuasevy.com"

  /** A blog post as the post source returns it. */
  datatype Post = Post(id: string, title: string, publishDate: string)

  /** A sitemap entry; an empty `lastmod` means "use today's date". */
  datatype Page = Page(path: string, priority: string, lastmod: string)

  const StaticPages: seq<Page> := [
    Page("/", "1.0", ""),
    Page("/about", "0.8", ""),
    Page("/resume", "0.8", ""),
    Page("/contact", "0.6", ""),
    Page("/blog", "0.7", "")
  ]

  const PostPriority := "0.6"

  /**
   * `fetchBlogPosts`: the post source, a fixed list of two posts. Their ids
   * differ, each has a publication date, and no id or date holds '<'.
   */
  function FetchBlogPosts(): (posts: seq<Post>)
    ensures |posts| == 2 && posts[0].id != posts[1].id
    ensures forall i :: 0 <= i < |posts| ==> posts[i].publishDate != ""
    ensures forall i :: 0 <= i < |posts| ==> '<' !in posts[i].id && '<' !in posts[i].publishDate
  {
    [ Post("1", "Getting Started with Angular", "2025-02-08"),
      Post("2", "Improving App Performance", "2025-01-15") ]
  }

  /**
   * The sitemap entry of a post: its path is "/blog/" followed by the id (so
   * the id can be read back from it), with priority 0.6 and the post's date.
   */
  function PostPage(post: Post): (page: Page)
    ensures |page.path| >= 6 && page.path[..6] == "/blog/" && page.path[6..] == post.id
    ensures page.priority == PostPriority && page.lastmod == post.publishDate
  {
    Page("/blog/" + post.id, PostPriority, post.publishDate)
  }

  /** The static pages in their listed order, then one page per post in input order. */
  function AllPages(posts: seq<Post>): (pages: seq<Page>)
    ensures |pages| == |StaticPages| + |posts|
    ensures pages[..|StaticPages|] == StaticPages
    ensures forall i :: 0 <= i < |posts| ==>
      pages[|StaticPages| + i].path == "/blog/" + posts[i].id
      && pages[|StaticPages| + i].priority == "0.6"
      && pages[|StaticPages| + i].lastmod == posts[i].publishDate
  {
    var dynamic := seq(|posts|, i requires 0 <= i < |posts| => PostPage(posts[i]));
    assert forall i :: 0 <= i < |posts| ==> (StaticPages + dynamic)[|StaticPages| + i] == PostPage(posts[i]);
    StaticPages + dynamic
  }

  /**
   * `now.split("T")[0]`: the text of `now` before its first 'T' (all of it
   * when there is none). Applied to an ISO-8601 timestamp it gives the date.
   */
  function DatePart(now: string): (date: string)
    ensures |date| <= |now| && date == now[..|date|]
    ensures 'T' !in date
    ensures |date| < |now| ==> now[|date|] == 'T'
  {
    BeforeSpec(now, 'T');
    Before(now, 'T')
  }

  /** The text of `s` before its first `c`, all of `s` when `c` does not occur. */
  function Before(s: string, c: char): string
  {
    if s == [] || s[0] == c then []
    else [s[0]] + Before(s[1..], c)
  }

  /** `Before(s, c)` is the longest prefix of `s` without `c`. */
  lemma {:induction false} BeforeSpec(s: string, c: char)
    ensures |Before(s, c)| <= |s| && Before(s, c) == s[..|Before(s, c)|]
    ensures c !in Before(s, c)
    ensures |Before(s, c)| < |s| ==> s[|Before(s, c)|] == c
  {
    if s != [] && s[0] != c {
      BeforeSpec(s[1..], c);
    }
  }

  /** The date part of "date T time" is the date. */
  lemma {:induction false} DatePartOfTimestamp(date: string, time: string)
    requires 'T' !in date
    ensures DatePart(date + "T" + time) == date
  {
    var now := date + "T" + time;
    assert now[..|date|] == date;
    assert now[|date|] == 'T';
  }

  /** The date written for a page: its own `lastmod` when set, else today. */
  function Lastmod(page: Page, today: string): (date: string)
    ensures page.lastmod != "" ==> date == page.lastmod
    ensures page.lastmod == "" ==> date == today
  {
    if page.lastmod != "" then page.lastmod else today
  }

  const XmlDeclaration := "<?xml version=\"1.0\" encoding=\"UTF-8\"?>\n"
  const SitemapNamespace := "http://www.sitemaps.org/schemas/sitemap/0.9"
  const UrlsetOpenTag := "<urlset xmlns=\""
  const UrlsetOpen := UrlsetOpenTag + SitemapNamespace + "\">\n  "
  const UrlsetEndTag := "</urlset>"
  const UrlsetClose := "\n" + UrlsetEndTag

  /** The opening tags of a `<url>` element and of its three children. */
  const UrlTag := "<url>"
  const LocTag := "<loc>"
  const LastmodTag := "<lastmod>"
  const PriorityTag := "<priority>"

  /** The text before and after the lines of one `<url>` element. */
  const UrlIndent := "\n    "
  const UrlOpen := "\n  " + UrlTag + UrlIndent
  const UrlClose := "</url>\n  "

  /** The closing tags of the three children, with the line break and indentation after each. */
  const LocClose := "</loc>\n    "
  const LastmodClose := "</lastmod>\n    "
  const PriorityClose := "</priority>\n  "

  /** The fields of a page, and the date written for it, hold no '<'. */
  predicate SafePage(page: Page, today: string)
  {
    '<' !in page.path && '<' !in page.priority && '<' !in Lastmod(page, today)
  }

  /**
   * One `<url>` element, with the indentation and line breaks of the
   * template. When no field holds '<', it reads back as one `<url>` whose
   * `<loc>` is the base URL followed by the page's path, whose `<lastmod>`
   * is the page's date (today's when it has none) and whose `<priority>` is
   * the page's priority.
   */
  function UrlElement(page: Page, today: string): (e: string)
    ensures SafePage(page, today) ==>
      && TagValues(e, UrlTag) == [UrlIndent]
      && TagValues(e, LocTag) == [BaseUrl + page.path]
      && TagValues(e, LastmodTag) == [Lastmod(page, today)]
      && TagValues(e, PriorityTag) == [page.priority]
      && EndsClosed(e)
  {
    var loc, lastmod, priority := LocLine(page), LastmodLine(page, today), PriorityLine(page);
    var e := UrlOpen + loc + lastmod + priority + UrlClose;
    assert SafePage(page, today) ==>
      && TagValues(e, UrlTag) == [UrlIndent]
      && TagValues(e, LocTag) == [BaseUrl + page.path]
      && TagValues(e, LastmodTag) == [Lastmod(page, today)]
      && TagValues(e, PriorityTag) == [page.priority]
      && EndsClosed(e) by {
      if SafePage(page, today) {
        UrlOpenValues();
        UrlCloseValues();
        ElementFields(UrlOpen, loc, lastmod, priority, UrlClose, BaseUrl + page.path, Lastmod(page, today), page.priority);
      }
    }
    e
  }

  /**
   * The `<loc>` line. When the path holds no '<', its one `<loc>` value is
   * the base URL followed by the path, and it holds no other element tag.
   */
  function LocLine(page: Page): (line: string)
    ensures line != [] && line[0] == '<'
    ensures '<' !in page.path ==>
      && TagValues(line, LocTag) == [BaseUrl + page.path]
      && TagValues(line, UrlTag) == [] && TagValues(line, LastmodTag) == [] && TagValues(line, PriorityTag) == []
  {
    var line := LocTag + (BaseUrl + page.path) + LocClose;
    assert '<' !in page.path ==>
      && TagValues(line, LocTag) == [BaseUrl + page.path]
      && TagValues(line, UrlTag) == [] && TagValues(line, LastmodTag) == [] && TagValues(line, PriorityTag) == [] by {
      if '<' !in page.path {
        CloseTokens();
        NoLtAppend(BaseUrl, page.path);
        ChildLine(LocTag, BaseUrl + page.path, LocClose);
      }
    }
    line
  }

  /**
   * The `<lastmod>` line. When its date holds no '<', its one `<lastmod>`
   * value is that date, and it holds no other element tag.
   */
  function LastmodLine(page: Page, today: string): (line: string)
    ensures line != [] && line[0] == '<'
    ensures '<' !in Lastmod(page, today) ==>
      && TagValues(line, LastmodTag) == [Lastmod(page, today)]
      && TagValues(line, UrlTag) == [] && TagValues(line, LocTag) == [] && TagValues(line, PriorityTag) == []
  {
    var line := LastmodTag + Lastmod(page, today) + LastmodClose;
    assert '<' !in Lastmod(page, today) ==>
      && TagValues(line, LastmodTag) == [Lastmod(page, today)]
      && TagValues(line, UrlTag) == [] && TagValues(line, LocTag) == [] && TagValues(line, PriorityTag) == [] by {
      if '<' !in Lastmod(page, today) {
        CloseTokens();
        ChildLine(LastmodTag, Lastmod(page, today), LastmodClose);
      }
    }
    line
  }

  /**
   * The `<priority>` line. When the priority holds no '<', its one
   * `<priority>` value is the page's priority, and it holds no other element tag.
   */
  function PriorityLine(page: Page): (line: string)
    ensures line != [] && line[0] == '<'
    ensures '<' !in page.priority ==>
      && TagValues(line, PriorityTag) == [page.priority]
      && TagValues(line, UrlTag) == [] && TagValues(line, LocTag) == [] && TagValues(line, LastmodTag) == []
  {
    var line := PriorityTag + page.priority + PriorityClose;
    assert '<' !in page.priority ==>
      && TagValues(line, PriorityTag) == [page.priority]
      && TagValues(line, UrlTag) == [] && TagValues(line, LocTag) == [] && TagValues(line, LastmodTag) == [] by {
      if '<' !in page.priority {
        CloseTokens();
        ChildLine(PriorityTag, page.priority, PriorityClose);
      }
    }
    line
  }

  /** `parts.join(sep)`: the parts in order, with `sep` between neighbours. */
  function Join(parts: seq<string>, sep: string): string
  {
    if |parts| == 0 then ""
    else if |parts| == 1 then parts[0]
    else parts[0] + sep + Join(parts[1..], sep)
  }

  /** A join is empty for no parts; otherwise it begins with the first part and ends with the last. */
  lemma {:induction false} JoinEnds(parts: seq<string>, sep: string)
    ensures |parts| == 0 ==> Join(parts, sep) == []
    ensures |parts| > 0 ==> parts[0] <= Join(parts, sep)
    ensures |parts| > 0 ==> var s := Join(parts, sep);
      |parts[|parts| - 1]| <= |s| && s[|s| - |parts[|parts| - 1]|..] == parts[|parts| - 1]
  {
    if |parts| > 1 {
      JoinEnds(parts[1..], sep);
      var rest := Join(parts[1..], sep);
      assert parts[1..][|parts[1..]| - 1] == parts[|parts| - 1];
      var s := parts[0] + sep + rest;
      assert s[|s| - |rest|..] == rest;
    }
  }

  /** The rendered `<url>` elements of the pages, in page order. */
  function Elements(pages: seq<Page>, today: string): (es: seq<string>)
    ensures |es| == |pages|
    ensures forall i :: 0 <= i < |pages| ==> es[i] == UrlElement(pages[i], today)
  {
    seq(|pages|, i requires 0 <= i < |pages| => UrlElement(pages[i], today))
  }

  /** `p + b + c` begins with `p` and ends with `c`. */
  lemma {:induction false} Framed(p: string, b: string, c: string)
    ensures p <= p + b + c
    ensures |c| <= |p + b + c| && (p + b + c)[|p + b + c| - |c|..] == c
  {
    assert (p + b + c)[..|p|] == p;
  }

  /**
   * The `urlset` document listing the given pages: it begins with the XML
   * declaration and the `<urlset>` opening tag and ends with `</urlset>`.
   */
  function Urlset(pages: seq<Page>, today: string): (xml: string)
    ensures XmlDeclaration + UrlsetOpen <= xml
    ensures |UrlsetClose| <= |xml| && xml[|xml| - |UrlsetClose|..] == UrlsetClose
  {
    var body := Join(Elements(pages, today), "\n");
    Framed(XmlDeclaration + UrlsetOpen, body, UrlsetClose);
    XmlDeclaration + UrlsetOpen + body + UrlsetClose
  }

  /**
   * `generateSitemap`, with the clock's ISO-8601 timestamp `now` as a
   * parameter: a `urlset` document framed by the XML declaration and the
   * `<urlset>` tags.
   */
  function GenerateSitemap(posts: seq<Post>, now: string): (xml: string)
    ensures XmlDeclaration + UrlsetOpen <= xml
    ensures |UrlsetClose| <= |xml| && xml[|xml| - |UrlsetClose|..] == UrlsetClose
  {
    Urlset(AllPages(posts), DatePart(now))
  }

  // ---------------------------------------------------------------------
  // Reading a document back: its markup tokens and the values of its tags.

  /**
   * The markup tokens of `s`: for each '<' in `s`, in order, the text from
   * that '<' up to the next one (or to the end of `s`).
   */
  function Tokens(s: string): seq<string>
    decreases |s|
  {
    if s == [] then []
    else if s[0] == '<' then [['<'] + Before(s[1..], '<')] + Tokens(s[1..])
    else Tokens(s[1..])
  }

  /** The values of the tokens that open with `tag`: the text after the tag, in order. */
  function Values(ts: seq<string>, tag: string): seq<string>
    decreases |ts|
  {
    if ts == [] then []
    else (if tag <= ts[0] then [ts[0][|tag|..]] else []) + Values(ts[1..], tag)
  }

  /**
   * The values of the `tag` elements of `s`, in document order: for each
   * place where `tag` opens, the text after it up to the next '<'.
   */
  function TagValues(s: string, tag: string): seq<string>
  {
    Values(Tokens(s), tag)
  }

  /** The tokens with the last one lengthened by `more`. */
  function Extend(ts: seq<string>, more: string): seq<string>
  {
    if ts == [] then [] else ts[..|ts| - 1] + [ts[|ts| - 1] + more]
  }

  /** `t` is one token: it starts with '<' and holds no other. */
  predicate Token(t: string)
  {
    t != [] && t[0] == '<' && forall i :: 0 < i < |t| ==> t[i] != '<'
  }

  /** Neither of `t` and `tag` begins the other, so no lengthening of `t` opens with `tag`. */
  predicate Apart(t: string, tag: string)
  {
    !(tag <= t) && !(t <= tag)
  }

  /** A token of a closing tag: "</...". */
  predicate Closing(t: string)
  {
    |t| >= 2 && t[1] == '/'
  }

  /** The last token of `s`, if any, is apart from `tag`. */
  predicate EndsApart(s: string, tag: string)
  {
    var ts := Tokens(s);
    ts == [] || Apart(ts[|ts| - 1], tag)
  }

  /** `s` has a token and its last one is a closing tag. */
  predicate EndsClosed(s: string)
  {
    var ts := Tokens(s);
    ts != [] && Closing(ts[|ts| - 1])
  }

  /** The four element tags a `<url>` element is read back by. */
  predicate ElementTag(tag: string)
  {
    tag == UrlTag || tag == LocTag || tag == LastmodTag || tag == PriorityTag
  }

  lemma {:induction false} BeforeConcat(a: string, b: string, c: char)
    requires c in a
    ensures Before(a + b, c) == Before(a, c)
    decreases |a|
  {
    if a[0] != c {
      assert (a + b)[1..] == a[1..] + b;
      BeforeConcat(a[1..], b, c);
    }
  }

  lemma {:induction false} BeforeAppend(a: string, b: string, c: char)
    requires c !in a
    ensures Before(a + b, c) == a + Before(b, c)
    decreases |a|
  {
    if a == [] {
      assert a + b == b;
    } else {
      assert (a + b)[1..] == a[1..] + b;
      assert a[0] in a;
      BeforeAppend(a[1..], b, c);
    }
  }

  lemma {:induction false} BeforeAll(s: string, c: char)
    requires c !in s
    ensures Before(s, c) == s
  {
    BeforeSpec(s, c);
  }

  lemma NoLtAppend(a: string, b: string)
    requires '<' !in a && '<' !in b
    ensures '<' !in a + b
  {
  }

  /** A string has no token exactly when it holds no '<'. */
  lemma {:induction false} TokensNone(s: string)
    ensures (Tokens(s) == []) == ('<' !in s)
    decreases |s|
  {
    if s != [] {
      assert s == [s[0]] + s[1..];
      TokensNone(s[1..]);
    }
  }

  /** A token is its own only token. */
  lemma {:induction false} TokensOne(t: string)
    requires Token(t)
    ensures Tokens(t) == [t]
  {
    var rest := t[1..];
    assert '<' !in rest by {
      forall i | 0 <= i < |rest|
        ensures rest[i] != '<'
      {
        assert rest[i] == t[i + 1];
      }
    }
    BeforeAll(rest, '<');
    TokensNone(rest);
    assert ['<'] + rest == t;
  }

  /** Appending text without '<' to a token gives a token. */
  lemma {:induction false} TokenAppend(t: string, v: string)
    requires Token(t) && '<' !in v
    ensures Token(t + v)
  {
    forall i | 0 < i < |t + v|
      ensures (t + v)[i] != '<'
    {
      if i >= |t| {
        assert (t + v)[i] == v[i - |t|];
      }
    }
  }

  /**
   * The tokens of `a + b`: those of `a`, the last lengthened by the text of
   * `b` before its first '<', then those of `b`.
   */
  lemma {:induction false} TokensConcat(a: string, b: string)
    ensures Tokens(a + b) == Extend(Tokens(a), Before(b, '<')) + Tokens(b)
    decreases |a|
  {
    if a == [] {
      assert a + b == b;
    } else {
      assert (a + b)[1..] == a[1..] + b;
      TokensConcat(a[1..], b);
      if a[0] == '<' {
        TokensConcatOpen(a, b);
      }
    }
  }

  /** The step of `TokensConcat` where `a` opens with '<', and so with a token. */
  lemma {:induction false} TokensConcatOpen(a: string, b: string)
    requires a != [] && a[0] == '<'
    requires Tokens(a[1..] + b) == Extend(Tokens(a[1..]), Before(b, '<')) + Tokens(b)
    ensures Tokens(a + b) == Extend(Tokens(a), Before(b, '<')) + Tokens(b)
  {
    var r := a[1..];
    assert a == ['<'] + r;
    assert (a + b)[0] == '<' && (a + b)[1..] == r + b;
    var ts, more := Tokens(r), Before(b, '<');
    assert Tokens(a + b) == [['<'] + Before(r + b, '<')] + Tokens(r + b);
    assert Tokens(a) == [['<'] + Before(r, '<')] + ts;
    if '<' in r {
      TokensInner(r, b);
    } else {
      TokensLast(r, b);
    }
  }

  /** When `r` holds a '<', text appended to it lengthens its last token, not the first. */
  lemma {:induction false} TokensInner(r: string, b: string)
    requires '<' in r
    requires Tokens(r + b) == Extend(Tokens(r), Before(b, '<')) + Tokens(b)
    ensures [['<'] + Before(r + b, '<')] + Tokens(r + b) ==
      Extend([['<'] + Before(r, '<')] + Tokens(r), Before(b, '<')) + Tokens(b)
  {
    BeforeConcat(r, b, '<');
    TokensNone(r);
    var head, ts, more := ['<'] + Before(r, '<'), Tokens(r), Before(b, '<');
    assert ([head] + ts)[..|ts|] == [head] + ts[..|ts| - 1];
    assert Extend([head] + ts, more) == [head] + Extend(ts, more);
  }

  /** When `r` holds no '<', the token '<' + `r` is lengthened by the text of `b` before its first '<'. */
  lemma {:induction false} TokensLast(r: string, b: string)
    requires '<' !in r
    requires Tokens(r + b) == Extend(Tokens(r), Before(b, '<')) + Tokens(b)
    ensures [['<'] + Before(r + b, '<')] + Tokens(r + b) ==
      Extend([['<'] + Before(r, '<')] + Tokens(r), Before(b, '<')) + Tokens(b)
  {
    BeforeAppend(r, b, '<');
    BeforeAll(r, '<');
    TokensNone(r);
    var more := Before(b, '<');
    assert Tokens(r) == [] && Tokens(r + b) == Tokens(b);
    assert [['<'] + Before(r, '<')] + Tokens(r) == [['<'] + r];
    assert ['<'] + (r + more) == ['<'] + r + more;
    assert Extend([['<'] + r], more) == [['<'] + r + more];
  }

  lemma {:induction false} ValuesConcat(x: seq<string>, y: seq<string>, tag: string)
    ensures Values(x + y, tag) == Values(x, tag) + Values(y, tag)
    decreases |x|
  {
    if x != [] {
      assert (x + y)[0] == x[0];
      assert (x + y)[1..] == x[1..] + y;
      ValuesConcat(x[1..], y, tag);
      var h := if tag <= x[0] then [x[0][|tag|..]] else [];
      assert Values(x + y, tag) == h + Values(x[1..] + y, tag);
      assert Values(x, tag) == h + Values(x[1..], tag);
    } else {
      assert x + y == y;
    }
  }

  /** The value a single token gives `tag`: the text after the tag, when it opens with it. */
  lemma ValuesOne(t: string, tag: string)
    ensures Values([t], tag) == if tag <= t then [t[|tag|..]] else []
  {
    assert [t][1..] == [];
  }

  /** The values two tokens give `tag`. */
  lemma ValuesTwo(t: string, u: string, tag: string)
    ensures Values([t, u], tag) == Values([t], tag) + Values([u], tag)
  {
    assert [t, u] == [t] + [u];
    ValuesConcat([t], [u], tag);
  }

  /** Lengthening a token apart from `tag` keeps it apart. */
  lemma ApartExtend(t: string, more: string, tag: string)
    requires Apart(t, tag)
    ensures Apart(t + more, tag)
  {
  }

  /** Two strings that differ at an index both reach are apart. */
  lemma ApartAt(t: string, tag: string, j: nat)
    requires j < |t| && j < |tag| && t[j] != tag[j]
    ensures Apart(t, tag)
  {
  }

  /** A closing tag is apart from any tag whose second character is not '/'. */
  lemma ClosingApart(t: string, tag: string)
    requires Closing(t) && |tag| >= 2 && tag[1] != '/'
    ensures Apart(t, tag)
  {
    ApartAt(t, tag, 1);
  }

  /** Lengthening a last token apart from `tag` adds no value of `tag`. */
  lemma {:induction false} ExtendValues(ts: seq<string>, more: string, tag: string)
    requires ts == [] || Apart(ts[|ts| - 1], tag)
    ensures Values(Extend(ts, more), tag) == Values(ts, tag)
  {
    if ts != [] {
      var init, last := ts[..|ts| - 1], ts[|ts| - 1];
      assert ts == init + [last];
      ValuesConcat(init, [last], tag);
      ValuesConcat(init, [last + more], tag);
      ApartExtend(last, more, tag);
    }
  }

  /**
   * The values of `tag` in `a + b` are those of `a` then those of `b`, when
   * `b` starts with a tag or the last token of `a` cannot open with `tag`.
   */
  lemma {:induction false} TagConcat(a: string, b: string, tag: string)
    requires EndsApart(a, tag) || b == [] || b[0] == '<'
    ensures TagValues(a + b, tag) == TagValues(a, tag) + TagValues(b, tag)
  {
    TokensConcat(a, b);
    var ts, more := Tokens(a), Before(b, '<');
    if b == [] || b[0] == '<' {
      assert more == [];
      if ts != [] {
        assert ts[|ts| - 1] + more == ts[|ts| - 1];
        assert Extend(ts, more) == ts;
      }
    } else {
      ExtendValues(ts, more, tag);
    }
    ValuesConcat(Extend(ts, more), Tokens(b), tag);
  }

  /** `a + b` ends apart from `tag` when `b` does, and, should `b` have no token, `a` does. */
  lemma {:induction false} EndsConcat(a: string, b: string, tag: string)
    requires EndsApart(b, tag)
    requires Tokens(b) != [] || EndsApart(a, tag)
    ensures EndsApart(a + b, tag)
  {
    TokensConcat(a, b);
    var ts, more := Tokens(a), Before(b, '<');
    if Tokens(b) == [] && ts != [] {
      ApartExtend(ts[|ts| - 1], more, tag);
      assert Tokens(a + b) == Extend(ts, more);
    }
  }

  /** `a + b` ends with a closing tag when `b` does. */
  lemma {:induction false} EndsClosedConcat(a: string, b: string)
    requires EndsClosed(b)
    ensures EndsClosed(a + b)
  {
    TokensConcat(a, b);
    var tb := Tokens(b);
    var all := Extend(Tokens(a), Before(b, '<')) + tb;
    assert all[|all| - 1] == tb[|tb| - 1];
  }

  /** Ending with a closing tag is ending apart from any tag whose second character is not '/'. */
  lemma ClosedApart(s: string, tag: string)
    requires EndsClosed(s) && |tag| >= 2 && tag[1] != '/'
    ensures EndsApart(s, tag)
  {
    var ts := Tokens(s);
    ClosingApart(ts[|ts| - 1], tag);
  }

  /** A token apart from `tag` has no value of `tag`. */
  lemma {:induction false} ForeignToken(t: string, tag: string)
    requires Token(t) && Apart(t, tag)
    ensures TagValues(t, tag) == [] && EndsApart(t, tag)
  {
    TokensOne(t);
    ValuesOne(t, tag);
  }

  /** The four element tags: each is a token, no two begin one another, none is a closing tag. */
  lemma TagFacts()
    ensures Token(UrlTag) && Token(LocTag) && Token(LastmodTag) && Token(PriorityTag)
    ensures UrlTag[1] == 'u' && LocTag[1] == 'l' && LastmodTag[1] == 'l' && PriorityTag[1] == 'p'
    ensures Apart(UrlTag, LocTag) && Apart(UrlTag, LastmodTag) && Apart(UrlTag, PriorityTag)
    ensures Apart(LocTag, LastmodTag) && Apart(LocTag, PriorityTag) && Apart(LastmodTag, PriorityTag)
  {
    ApartAt(UrlTag, LocTag, 1);
    ApartAt(UrlTag, LastmodTag, 1);
    ApartAt(UrlTag, PriorityTag, 1);
    ApartAt(LocTag, LastmodTag, 2);
    ApartAt(LocTag, PriorityTag, 1);
    ApartAt(LastmodTag, PriorityTag, 1);
  }

  /** The closing pieces of the template are closing-tag tokens, and the base URL holds no '<'. */
  lemma CloseTokens()
    ensures Token(LocClose) && Closing(LocClose)
    ensures Token(LastmodClose) && Closing(LastmodClose)
    ensures Token(PriorityClose) && Closing(PriorityClose)
    ensures Token(UrlClose) && Closing(UrlClose)
    ensures Token(UrlsetEndTag) && Closing(UrlsetEndTag)
    ensures '<' !in BaseUrl
  {
  }

  /** The tokens of a child element `open value close`: the tag with its value, then the closing tag. */
  lemma {:induction false} FieldTokens(open: string, v: string, close: string)
    requires Token(open) && '<' !in v && Token(close)
    ensures Tokens(open + v + close) == [open + v, close]
  {
    TokenAppend(open, v);
    TokensOne(open + v);
    TokensOne(close);
    TokensConcat(open + v, close);
    assert Before(close, '<') == [];
    assert (open + v) + [] == open + v;
  }

  /**
   * A child element `open value close`, for an element tag `open`, a value
   * without '<' and a closing tag: `open` has that one value, and every
   * other element tag none.
   */
  lemma {:induction false} ChildLine(open: string, v: string, close: string)
    requires ElementTag(open) && '<' !in v && Token(close) && Closing(close)
    ensures forall tag | ElementTag(tag) :: TagValues(open + v + close, tag) == (if tag == open then [v] else [])
  {
    TagFacts();
    FieldTokens(open, v, close);
    forall tag | ElementTag(tag)
      ensures TagValues(open + v + close, tag) == (if tag == open then [v] else [])
    {
      ClosingApart(close, tag);
      ValuesTwo(open + v, close, tag);
      ValuesOne(open + v, tag);
      ValuesOne(close, tag);
      if tag == open {
        assert (open + v)[..|open|] == open;
        assert (open + v)[|open|..] == v;
      } else {
        ApartExtend(open, v, tag);
      }
    }
  }

  /** The text opening an element has one value, of `<url>`: the indentation before the first child. */
  lemma UrlOpenValues()
    ensures TagValues(UrlOpen, UrlTag) == [UrlIndent]
    ensures TagValues(UrlOpen, LocTag) == [] && TagValues(UrlOpen, LastmodTag) == [] && TagValues(UrlOpen, PriorityTag) == []
  {
    TagFacts();
    var head := UrlTag + UrlIndent;
    assert '<' !in UrlIndent && '<' !in "\n  ";
    TokenAppend(UrlTag, UrlIndent);
    TokensOne(head);
    TokensNone("\n  ");
    TokensConcat("\n  ", head);
    assert UrlOpen == "\n  " + head;
    assert Tokens(UrlOpen) == [head];
    forall tag | ElementTag(tag)
      ensures TagValues(UrlOpen, tag) == (if tag == UrlTag then [UrlIndent] else [])
    {
      ValuesOne(head, tag);
      if tag == UrlTag {
        assert head[..|UrlTag|] == UrlTag;
        assert head[|UrlTag|..] == UrlIndent;
      } else {
        ApartExtend(UrlTag, UrlIndent, tag);
      }
    }
  }

  /** The text closing an element has no value of an element tag, and ends with a closing tag. */
  lemma UrlCloseValues()
    ensures TagValues(UrlClose, UrlTag) == [] && TagValues(UrlClose, LocTag) == []
    ensures TagValues(UrlClose, LastmodTag) == [] && TagValues(UrlClose, PriorityTag) == []
    ensures EndsClosed(UrlClose) && UrlClose[0] == '<'
  {
    TagFacts();
    CloseTokens();
    TokensOne(UrlClose);
    forall tag | ElementTag(tag)
      ensures TagValues(UrlClose, tag) == []
    {
      ClosingApart(UrlClose, tag);
    }
  }

  /** The values of an element `open loc lastmod priority close` whose lines each start with a tag. */
  lemma {:induction false} ElementValues(open: string, loc: string, lastmod: string, priority: string, close: string, tag: string)
    requires loc != [] && loc[0] == '<' && lastmod != [] && lastmod[0] == '<'
    requires priority != [] && priority[0] == '<' && close != [] && close[0] == '<'
    ensures TagValues(open + loc + lastmod + priority + close, tag) ==
      TagValues(open, tag) + TagValues(loc, tag) + TagValues(lastmod, tag) + TagValues(priority, tag) + TagValues(close, tag)
  {
    TagConcat(open, loc, tag);
    TagConcat(open + loc, lastmod, tag);
    TagConcat(open + loc + lastmod, priority, tag);
    TagConcat(open + loc + lastmod + priority, close, tag);
  }

  /**
   * An element `open loc lastmod priority close` whose opening has one
   * value of `<url>`, whose three lines each have one value of their own
   * tag and none of the others, and whose closing has none, has one value
   * of each element tag and ends with a closing tag.
   */
  lemma {:induction false} ElementFields(open: string, loc: string, lastmod: string, priority: string, close: string,
                                         url: string, date: string, prio: string)
    requires TagValues(open, UrlTag) == [UrlIndent]
    requires TagValues(open, LocTag) == [] && TagValues(open, LastmodTag) == [] && TagValues(open, PriorityTag) == []
    requires loc != [] && loc[0] == '<' && lastmod != [] && lastmod[0] == '<' && priority != [] && priority[0] == '<'
    requires TagValues(loc, LocTag) == [url]
    requires TagValues(loc, UrlTag) == [] && TagValues(loc, LastmodTag) == [] && TagValues(loc, PriorityTag) == []
    requires TagValues(lastmod, LastmodTag) == [date]
    requires TagValues(lastmod, UrlTag) == [] && TagValues(lastmod, LocTag) == [] && TagValues(lastmod, PriorityTag) == []
    requires TagValues(priority, PriorityTag) == [prio]
    requires TagValues(priority, UrlTag) == [] && TagValues(priority, LocTag) == [] && TagValues(priority, LastmodTag) == []
    requires close != [] && close[0] == '<' && EndsClosed(close)
    requires TagValues(close, UrlTag) == [] && TagValues(close, LocTag) == []
    requires TagValues(close, LastmodTag) == [] && TagValues(close, PriorityTag) == []
    ensures var e := open + loc + lastmod + priority + close;
      && TagValues(e, UrlTag) == [UrlIndent]
      && TagValues(e, LocTag) == [url]
      && TagValues(e, LastmodTag) == [date]
      && TagValues(e, PriorityTag) == [prio]
      && EndsClosed(e)
  {
    ElementValues(open, loc, lastmod, priority, close, UrlTag);
    ElementValues(open, loc, lastmod, priority, close, LocTag);
    ElementValues(open, loc, lastmod, priority, close, LastmodTag);
    ElementValues(open, loc, lastmod, priority, close, PriorityTag);
    EndsClosedConcat(open + loc + lastmod + priority, close);
  }

  /** Joining elements with line breaks lists their values of `tag` in element order. */
  lemma {:induction false} JoinValues(parts: seq<string>, values: seq<string>, tag: string)
    requires |values| == |parts|
    requires forall i :: 0 <= i < |parts| ==> TagValues(parts[i], tag) == [values[i]] && EndsApart(parts[i], tag)
    ensures TagValues(Join(parts, "\n"), tag) == values
    ensures EndsApart(Join(parts, "\n"), tag)
  {
    if |parts| == 0 {
      assert Tokens("") == [];
    } else if |parts| == 1 {
      assert [values[0]] == values;
    } else {
      var rest := Join(parts[1..], "\n");
      assert Join(parts, "\n") == parts[0] + "\n" + rest;
      forall i | 0 <= i < |parts| - 1
        ensures TagValues(parts[1..][i], tag) == [values[1..][i]] && EndsApart(parts[1..][i], tag)
      {
        assert parts[1..][i] == parts[i + 1] && values[1..][i] == values[i + 1];
      }
      JoinValues(parts[1..], values[1..], tag);
      assert TagValues(parts[0], tag) == [values[0]] && EndsApart(parts[0], tag);
      TokensNone("\n");
      TagConcat(parts[0], "\n", tag);
      EndsConcat(parts[0], "\n", tag);
      TagConcat(parts[0] + "\n", rest, tag);
      EndsConcat(parts[0] + "\n", rest, tag);
      assert [values[0]] + values[1..] == values;
    }
  }

  /** The XML declaration and the `<urlset>` opening tag are tokens that no element tag opens. */
  lemma PrologueTokens()
    ensures Token(XmlDeclaration) && XmlDeclaration[1] == '?'
    ensures Token(UrlsetOpen) && UrlsetOpen[1] == 'u' && UrlsetOpen[4] == 's'
  {
    DeclarationToken();
    UrlsetOpenTagToken();
    TokenAppend(UrlsetOpenTag, SitemapNamespace);
    TokenAppend(UrlsetOpenTag + SitemapNamespace, "\">\n  ");
  }

  lemma DeclarationToken()
    ensures Token(XmlDeclaration)
  {
  }

  lemma UrlsetOpenTagToken()
    ensures Token(UrlsetOpenTag) && '<' !in SitemapNamespace && '<' !in "\">\n  "
  {
  }

  /** The document's opening, up to the first element, has no value of an element tag. */
  lemma PrologueValues(tag: string)
    requires ElementTag(tag)
    ensures TagValues(XmlDeclaration + UrlsetOpen, tag) == []
    ensures EndsApart(XmlDeclaration + UrlsetOpen, tag)
  {
    TagFacts();
    PrologueTokens();
    ApartAt(XmlDeclaration, tag, 1);
    if tag == UrlTag {
      ApartAt(UrlsetOpen, tag, 4);
    } else {
      ApartAt(UrlsetOpen, tag, 1);
    }
    ForeignToken(XmlDeclaration, tag);
    ForeignToken(UrlsetOpen, tag);
    TokensOne(UrlsetOpen);
    TagConcat(XmlDeclaration, UrlsetOpen, tag);
    EndsConcat(XmlDeclaration, UrlsetOpen, tag);
  }

  /** The closing `</urlset>` has no value of an element tag. */
  lemma EpilogueValues(tag: string)
    requires ElementTag(tag)
    ensures TagValues(UrlsetClose, tag) == []
  {
    TagFacts();
    CloseTokens();
    TokensNone("\n");
    ClosingApart(UrlsetEndTag, tag);
    ForeignToken(UrlsetEndTag, tag);
    TagConcat("\n", UrlsetEndTag, tag);
  }

  /** The declaration and `urlset` tags around a body add no value of an element tag. */
  lemma {:induction false} DocumentValues(body: string, tag: string)
    requires ElementTag(tag) && EndsApart(body, tag)
    ensures TagValues(XmlDeclaration + UrlsetOpen + body + UrlsetClose, tag) == TagValues(body, tag)
  {
    var prologue := XmlDeclaration + UrlsetOpen;
    PrologueValues(tag);
    EpilogueValues(tag);
    TagConcat(prologue, body, tag);
    EndsConcat(prologue, body, tag);
    TagConcat(prologue + body, UrlsetClose, tag);
  }

  /** A `urlset` document lists the values of an element tag of its elements, in page order. */
  lemma {:induction false} UrlsetTag(pages: seq<Page>, today: string, tag: string, values: seq<string>)
    requires ElementTag(tag) && |values| == |pages|
    requires forall i :: 0 <= i < |pages| ==> SafePage(pages[i], today)
    requires forall i :: 0 <= i < |pages| ==> TagValues(UrlElement(pages[i], today), tag) == [values[i]]
    ensures TagValues(Urlset(pages, today), tag) == values
  {
    TagFacts();
    var es := Elements(pages, today);
    forall i | 0 <= i < |pages|
      ensures TagValues(es[i], tag) == [values[i]] && EndsApart(es[i], tag)
    {
      ClosedApart(es[i], tag);
    }
    JoinValues(es, values, tag);
    DocumentValues(Join(es, "\n"), tag);
  }

  /** The pages' fields, and the date, hold no '<'. */
  predicate SafeFields(pages: seq<Page>, today: string)
  {
    '<' !in today &&
    forall i :: 0 <= i < |pages| ==> '<' !in pages[i].path && '<' !in pages[i].priority && '<' !in pages[i].lastmod
  }

  lemma {:induction false} SafeFieldsPages(pages: seq<Page>, today: string)
    requires SafeFields(pages, today)
    ensures forall i :: 0 <= i < |pages| ==> SafePage(pages[i], today)
  {
  }

  /** A `urlset` document, when no field holds '<', holds one `<url>` per page. */
  lemma {:induction false} UrlsetCount(pages: seq<Page>, today: string)
    requires SafeFields(pages, today)
    ensures |TagValues(Urlset(pages, today), UrlTag)| == |pages|
  {
    SafeFieldsPages(pages, today);
    UrlsetTag(pages, today, UrlTag, seq(|pages|, i => UrlIndent));
  }

  /**
   * A `urlset` document, when no field holds '<', lists one `<loc>` per
   * page in page order: the base URL followed by the page's path.
   */
  lemma {:induction false} UrlsetLocs(pages: seq<Page>, today: string)
    requires SafeFields(pages, today)
    ensures |TagValues(Urlset(pages, today), LocTag)| == |pages|
    ensures forall i :: 0 <= i < |pages| ==> TagValues(Urlset(pages, today), LocTag)[i] == BaseUrl + pages[i].path
  {
    SafeFieldsPages(pages, today);
    UrlsetTag(pages, today, LocTag, seq(|pages|, i requires 0 <= i < |pages| => BaseUrl + pages[i].path));
  }

  /**
   * A `urlset` document, when no field holds '<', lists one `<lastmod>` per
   * page in page order: the page's date, or `today` when it has none.
   */
  lemma {:induction false} UrlsetLastmods(pages: seq<Page>, today: string)
    requires SafeFields(pages, today)
    ensures |TagValues(Urlset(pages, today), LastmodTag)| == |pages|
    ensures forall i :: 0 <= i < |pages| ==> TagValues(Urlset(pages, today), LastmodTag)[i] == Lastmod(pages[i], today)
  {
    SafeFieldsPages(pages, today);
    UrlsetTag(pages, today, LastmodTag, seq(|pages|, i requires 0 <= i < |pages| => Lastmod(pages[i], today)));
  }

  /**
   * A `urlset` document, when no field holds '<', lists one `<priority>`
   * per page in page order: the page's priority.
   */
  lemma {:induction false} UrlsetPriorities(pages: seq<Page>, today: string)
    requires SafeFields(pages, today)
    ensures |TagValues(Urlset(pages, today), PriorityTag)| == |pages|
    ensures forall i :: 0 <= i < |pages| ==> TagValues(Urlset(pages, today), PriorityTag)[i] == pages[i].priority
  {
    SafeFieldsPages(pages, today);
    UrlsetTag(pages, today, PriorityTag, seq(|pages|, i requires 0 <= i < |pages| => pages[i].priority));
  }

  /** No field of a static page holds '<'. */
  lemma {:induction false} StaticPagesSafe()
    ensures forall i :: 0 <= i < |StaticPages| ==>
      '<' !in StaticPages[i].path && '<' !in StaticPages[i].priority && '<' !in StaticPages[i].lastmod
  {
  }

  /** No page of the sitemap has a field holding '<' when no post id or date holds one. */
  lemma {:induction false} SafePages(posts: seq<Post>)
    requires forall i :: 0 <= i < |posts| ==> '<' !in posts[i].id && '<' !in posts[i].publishDate
    ensures forall i :: 0 <= i < |AllPages(posts)| ==>
      '<' !in AllPages(posts)[i].path && '<' !in AllPages(posts)[i].priority && '<' !in AllPages(posts)[i].lastmod
  {
    var pages := AllPages(posts);
    StaticPagesSafe();
    assert '<' !in "/blog/" && '<' !in PostPriority;
    forall i | 0 <= i < |pages|
      ensures '<' !in pages[i].path && '<' !in pages[i].priority && '<' !in pages[i].lastmod
    {
      if i < |StaticPages| {
        assert pages[i] == StaticPages[i] by { assert pages[..|StaticPages|][i] == pages[i]; }
      } else {
        var p := posts[i - |StaticPages|];
        assert pages[i].path == "/blog/" + p.id;
      }
    }
  }

  /** The sitemap's pages in order: the static pages, then the posts' pages. */
  lemma {:induction false} PagesInOrder(posts: seq<Post>)
    ensures forall i :: 0 <= i < |StaticPages| ==> AllPages(posts)[i] == StaticPages[i]
  {
    var pages := AllPages(posts);
    forall i | 0 <= i < |StaticPages|
      ensures pages[i] == StaticPages[i]
    {
      assert pages[..|StaticPages|][i] == pages[i];
    }
  }

  /** Each page's date, read in sitemap page order: today's date, then the posts' dates. */
  lemma {:induction false} PageLastmods(posts: seq<Post>, today: string, values: seq<string>)
    requires |values| == |AllPages(posts)|
    requires forall i :: 0 <= i < |values| ==> values[i] == Lastmod(AllPages(posts)[i], today)
    ensures forall i :: 0 <= i < |StaticPages| ==> values[i] == today
    ensures forall i :: 0 <= i < |posts| ==>
      values[|StaticPages| + i] == (if posts[i].publishDate != "" then posts[i].publishDate else today)
  {
    var pages := AllPages(posts);
    forall i | 0 <= i < |StaticPages|
      ensures values[i] == today
    {
      assert pages[i] == pages[..|StaticPages|][i] == StaticPages[i];
    }
  }

  /** Each page's priority, read in sitemap page order: after the static pages, "0.6". */
  lemma {:induction false} PagePriorities(posts: seq<Post>, values: seq<string>)
    requires |values| == |AllPages(posts)|
    requires forall i :: 0 <= i < |values| ==> values[i] == AllPages(posts)[i].priority
    ensures forall i :: |StaticPages| <= i < |values| ==> values[i] == PostPriority
  {
    forall i | |StaticPages| <= i < |values|
      ensures values[i] == PostPriority
    {
      assert AllPages(posts)[|StaticPages| + (i - |StaticPages|)].priority == PostPriority;
    }
  }

  /**
   * The sitemap holds exactly one `<url>` element per static page plus one
   * per post, provided no post id or date and no timestamp holds '<'.
   */
  lemma {:induction false} SitemapUrlCount(posts: seq<Post>, now: string)
    requires '<' !in now
    requires forall i :: 0 <= i < |posts| ==> '<' !in posts[i].id && '<' !in posts[i].publishDate
    ensures |TagValues(GenerateSitemap(posts, now), UrlTag)| == |StaticPages| + |posts|
  {
    assert '<' !in DatePart(now);
    SafePages(posts);
    assert SafeFields(AllPages(posts), DatePart(now));
    UrlsetCount(AllPages(posts), DatePart(now));
  }

  /**
   * The sitemap's `<loc>` values, in document order, are the base URL
   * followed by the path of each static page in listed order, then by
   * "/blog/" and the id of each post in input order.
   */
  lemma {:induction false} SitemapLocs(posts: seq<Post>, now: string)
    requires '<' !in now
    requires forall i :: 0 <= i < |posts| ==> '<' !in posts[i].id && '<' !in posts[i].publishDate
    ensures |TagValues(GenerateSitemap(posts, now), LocTag)| == |StaticPages| + |posts|
    ensures forall i :: 0 <= i < |StaticPages| ==>
      TagValues(GenerateSitemap(posts, now), LocTag)[i] == BaseUrl + StaticPages[i].path
    ensures forall i :: 0 <= i < |posts| ==>
      TagValues(GenerateSitemap(posts, now), LocTag)[|StaticPages| + i] == BaseUrl + ("/blog/" + posts[i].id)
  {
    var today, pages := DatePart(now), AllPages(posts);
    assert '<' !in today;
    SafePages(posts);
    PagesInOrder(posts);
    assert SafeFields(pages, today);
    UrlsetLocs(pages, today);
    var values := TagValues(GenerateSitemap(posts, now), LocTag);
    assert |values| == |pages| && forall i :: 0 <= i < |pages| ==> values[i] == BaseUrl + pages[i].path;
  }

  /**
   * The sitemap's `<lastmod>` values, in document order, are each page's
   * `Lastmod` with today's date taken from the timestamp: today's date for
   * every static page, and for a post its publication date, or today's
   * date when it has none.
   */
  lemma {:induction false} SitemapLastmods(posts: seq<Post>, now: string)
    requires '<' !in now
    requires forall i :: 0 <= i < |posts| ==> '<' !in posts[i].id && '<' !in posts[i].publishDate
    ensures |TagValues(GenerateSitemap(posts, now), LastmodTag)| == |AllPages(posts)|
    ensures forall i :: 0 <= i < |AllPages(posts)| ==>
      TagValues(GenerateSitemap(posts, now), LastmodTag)[i] == Lastmod(AllPages(posts)[i], DatePart(now))
    ensures forall i :: 0 <= i < |StaticPages| ==> TagValues(GenerateSitemap(posts, now), LastmodTag)[i] == DatePart(now)
    ensures forall i :: 0 <= i < |posts| ==>
      TagValues(GenerateSitemap(posts, now), LastmodTag)[|StaticPages| + i] ==
        (if posts[i].publishDate != "" then posts[i].publishDate else DatePart(now))
  {
    var today, pages := DatePart(now), AllPages(posts);
    assert '<' !in today;
    SafePages(posts);
    PagesInOrder(posts);
    assert SafeFields(pages, today);
    UrlsetLastmods(pages, today);
    PageLastmods(posts, today, TagValues(GenerateSitemap(posts, now), LastmodTag));
  }

  /**
   * The sitemap's `<priority>` values, in document order, are each static
   * page's listed priority, then "0.6" for every post.
   */
  lemma {:induction false} SitemapPriorities(posts: seq<Post>, now: string)
    requires '<' !in now
    requires forall i :: 0 <= i < |posts| ==> '<' !in posts[i].id && '<' !in posts[i].publishDate
    ensures |TagValues(GenerateSitemap(posts, now), PriorityTag)| == |AllPages(posts)|
    ensures forall i :: 0 <= i < |AllPages(posts)| ==>
      TagValues(GenerateSitemap(posts, now), PriorityTag)[i] == AllPages(posts)[i].priority
    ensures forall i :: 0 <= i < |StaticPages| ==>
      TagValues(GenerateSitemap(posts, now), PriorityTag)[i] == StaticPages[i].priority
    ensures forall i :: |StaticPages| <= i < |AllPages(posts)| ==>
      TagValues(GenerateSitemap(posts, now), PriorityTag)[i] == PostPriority
  {
    var today, pages := DatePart(now), AllPages(posts);
    assert '<' !in today;
    SafePages(posts);
    PagesInOrder(posts);
    assert SafeFields(pages, today);
    UrlsetPriorities(pages, today);
    PagePriorities(posts, TagValues(GenerateSitemap(posts, now), PriorityTag));
  }

  /** The served sitemap lists seven pages: five static pages and the two posts. */
  lemma {:induction false} ServedSitemapUrlCount(now: string)
    requires '<' !in now
    ensures |TagValues(GenerateSitemap(FetchBlogPosts(), now), UrlTag)| == 7
  {
    SitemapUrlCount(FetchBlogPosts(), now);
  }
}
