/**
 * What both versions of the sitemap parser share: the sitemaps.org 0.9
 * namespace, `fetch_sitemap` (a query string is split into a parameter dict;
 * only a 200 answer yields content) and the segment blocklist of the newer
 * parser.
 */
module Sitemaps {
  import opened Wrappers
  import opened Strings
  import opened Net

  const SitemapNamespace: string := "http://www.sitemaps.org/schemas/sitemap/0.9"

  /** The tag ElementTree gives a namespaced element: `{namespace}local`. */
  function Tag(local: string): string {
    "{" + SitemapNamespace + "}" + local
  }

  /** Python's truth test on the bytes `fetch_sitemap` returns: present and non-empty. */
  predicate HasContent(content: Option<string>) {
    content.Some? && content.value != ""
  }

  /** `dict(param.split('=') for param in pieces)`; None stands for the ValueError. */
  function PairsToDict(pieces: seq<string>, acc: map<string, string>): Option<map<string, string>>
    decreases |pieces|
  {
    if pieces == [] then Some(acc)
    else
      var kv := Split(pieces[0], '=');
      if |kv| != 2 then None else PairsToDict(pieces[1..], acc[kv[0] := kv[1]])
  }

  predicate IsKeyValue(piece: string) {
    |Split(piece, '=')| == 2
  }

  /** The dict is built exactly when every `&`-separated piece holds a single `=`. */
  lemma {:induction false} PairsToDictFails(pieces: seq<string>, acc: map<string, string>)
    ensures PairsToDict(pieces, acc).None? <==> exists k :: 0 <= k < |pieces| && !IsKeyValue(pieces[k])
    decreases |pieces|
  {
    if pieces != [] {
      var kv := Split(pieces[0], '=');
      if |kv| == 2 {
        PairsToDictFails(pieces[1..], acc[kv[0] := kv[1]]);
        if exists k :: 0 <= k < |pieces| && !IsKeyValue(pieces[k]) {
          var k :| 0 <= k < |pieces| && !IsKeyValue(pieces[k]);
          assert k > 0 && pieces[1..][k - 1] == pieces[k];
        }
        if exists k :: 0 <= k < |pieces[1..]| && !IsKeyValue(pieces[1..][k]) {
          var k :| 0 <= k < |pieces[1..]| && !IsKeyValue(pieces[1..][k]);
          assert pieces[k + 1] == pieces[1..][k];
        }
      } else {
        assert !IsKeyValue(pieces[0]);
      }
    }
  }

  /**
   * The request `fetch_sitemap` sends: the URL as it is when it has no
   * query, else `urljoin(url, path)` with the query as a parameter dict.
   * None stands for the ValueError of a query that is not a list of
   * `key=value` pairs.
   */
  function SitemapRequest(lib: UrlLib, url: string): Option<Request> {
    var p := lib.parse(url);
    if p.query == "" then Some(Request(url, map[]))
    else match PairsToDict(Split(p.query, '&'), map[])
      case None => None
      case Some(params) => Some(Request(lib.join(url, p.path), params))
  }

  /** `fetch_sitemap(url)`: the body of a 200 answer; None for any other status or an exception. */
  function FetchSitemap(lib: UrlLib, web: Web, url: string): Option<string> {
    match SitemapRequest(lib, url)
    case None => None
    case Some(request) =>
      match web.get(request)
      case None => None
      case Some(response) => if response.status == 200 then Some(response.body) else None
  }

  /** Content comes back exactly for a 200 answer, and it is that answer's body. */
  lemma FetchSitemapOnlyOk(lib: UrlLib, web: Web, url: string)
    ensures var fetched := FetchSitemap(lib, web, url);
      fetched.Some? <==>
        (SitemapRequest(lib, url).Some? && web.get(SitemapRequest(lib, url).value).Some?
         && web.get(SitemapRequest(lib, url).value).value.status == 200)
    ensures FetchSitemap(lib, web, url).Some? ==>
      FetchSitemap(lib, web, url).value == web.get(SitemapRequest(lib, url).value).value.body
  {
  }

  /** A query that is not made of `key=value` pieces makes the fetch give up without a request. */
  lemma MalformedQueryGivesNone(lib: UrlLib, web: Web, url: string)
    requires lib.parse(url).query != ""
    requires exists k :: 0 <= k < |Split(lib.parse(url).query, '&')| && !IsKeyValue(Split(lib.parse(url).query, '&')[k])
    ensures SitemapRequest(lib, url).None? && FetchSitemap(lib, web, url).None?
  {
    PairsToDictFails(Split(lib.parse(url).query, '&'), map[]);
  }

  /** A URL with a query is fetched from `urljoin(url, path)` with the parsed parameters. */
  lemma QueryBecomesParams(lib: UrlLib, url: string)
    requires lib.parse(url).query != ""
    requires forall k :: 0 <= k < |Split(lib.parse(url).query, '&')| ==> IsKeyValue(Split(lib.parse(url).query, '&')[k])
    ensures SitemapRequest(lib, url).Some?
    ensures SitemapRequest(lib, url).value.url == lib.join(url, lib.parse(url).path)
  {
    PairsToDictFails(Split(lib.parse(url).query, '&'), map[]);
  }

  /**
   * What one `sitemap` child of an index contributes: the URLs that
   * `urlset` (the version's `parse_sitemap`) reads from its fetched
   * content, or nothing when the fetch fails.
   */
  function ChildSitemapAdds(lib: UrlLib, web: Web, urlset: XmlDoc -> set<string>, child: XmlChild): set<string> {
    if child.tag == Tag("sitemap") && child.loc.Some? then
      var content := FetchSitemap(lib, web, child.loc.value);
      if HasContent(content) then urlset(web.parseXml(content.value)) else {}
    else {}
  }

  /** The loop of `parse_sitemap_index` over the `sitemap` children, in document order. */
  function ChildSitemapsAdds(lib: UrlLib, web: Web, urlset: XmlDoc -> set<string>, children: seq<XmlChild>): set<string>
    decreases |children|
  {
    if children == [] then {}
    else ChildSitemapsAdds(lib, web, urlset, children[..|children| - 1]) + ChildSitemapAdds(lib, web, urlset, children[|children| - 1])
  }

  /** An index contributes the union of its children's urlsets; a child whose fetch fails adds nothing and stops nothing. */
  lemma {:induction false} ChildSitemapsAddsExactly(lib: UrlLib, web: Web, urlset: XmlDoc -> set<string>, children: seq<XmlChild>, u: string)
    ensures u in ChildSitemapsAdds(lib, web, urlset, children) <==>
      exists k :: 0 <= k < |children| && children[k].tag == Tag("sitemap") && children[k].loc.Some?
        && HasContent(FetchSitemap(lib, web, children[k].loc.value))
        && u in urlset(web.parseXml(FetchSitemap(lib, web, children[k].loc.value).value))
    decreases |children|
  {
    if children != [] {
      var front := children[..|children| - 1];
      ChildSitemapsAddsExactly(lib, web, urlset, front, u);
      forall k | 0 <= k < |front| ensures front[k] == children[k] { }
    }
  }

  /** `IGNORED_SEGMENTS` of util/sitemap_parser.py. */
  const IgnoredSegments: seq<string> := [
    "elementor-hf", "wp-content", "wp-includes", "wp-admin", "feed", "elementor",
    "components", "templates", "plugins", "node", "user", "catalog", "author",
    "checkout", "customer", "collections", "products", "app", "site"
  ]

  /** Some `/`-separated piece of the lower-cased URL equals a blocklisted segment. */
  predicate Blocked(url: string) {
    var segments := Split(Lower(url), '/');
    exists k :: 0 <= k < |segments| && segments[k] in IgnoredSegments
  }
}
