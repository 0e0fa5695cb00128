/**
 * The sitemap parser of util/sitemap_parser.py (sitemaps.org protocol 0.9):
 * a `Sitemap: ` directive of robots.txt is tried first, then the probes
 * `sitemap_index.xml` and `sitemap.xml`; a document is parsed as an index
 * or a urlset by its root tag, an index is expanded one level, and loc
 * values with a blocklisted path segment are dropped.  Found URLs
 * accumulate in the `sitemapUrls` field.
 */
module Sitemap {
  import opened Wrappers
  import opened Strings
  import opened Net
  import opened Sitemaps

  const SitemapPrefix: string := "Sitemap: "
  const IndexMarker: string := "<sitemapindex"
  const FallbackSitemaps: seq<string> := ["sitemap_index.xml", "sitemap.xml"]

  /** `line.split('Sitemap: ')[1].strip()` for a line that starts with the prefix. */
  function DirectiveValue(line: string): string
    requires StartsWith(line, SitemapPrefix)
  {
    StripSpace(TextUntil(line[|SitemapPrefix|..], SitemapPrefix))
  }

  /** The value of the first line that starts with `Sitemap: `. */
  function FirstSitemapDirective(lines: seq<string>): Option<string>
    decreases |lines|
  {
    if lines == [] then None
    else if StartsWith(lines[0], SitemapPrefix) then Some(DirectiveValue(lines[0]))
    else FirstSitemapDirective(lines[1..])
  }

  ghost predicate FirstDirectiveAt(lines: seq<string>, k: int) {
    0 <= k < |lines| && StartsWith(lines[k], SitemapPrefix)
    && forall j :: 0 <= j < k ==> !StartsWith(lines[j], SitemapPrefix)
  }

  /** None exactly when no line carries the directive; otherwise the first such line's value. */
  lemma {:induction false} FirstSitemapDirectiveIsFirst(lines: seq<string>)
    ensures FirstSitemapDirective(lines).None? <==>
      forall k :: 0 <= k < |lines| ==> !StartsWith(lines[k], SitemapPrefix)
    ensures FirstSitemapDirective(lines).Some? ==>
      exists k :: FirstDirectiveAt(lines, k) && FirstSitemapDirective(lines).value == DirectiveValue(lines[k])
    decreases |lines|
  {
    if lines != [] && !StartsWith(lines[0], SitemapPrefix) {
      FirstSitemapDirectiveIsFirst(lines[1..]);
      forall k | 1 <= k < |lines| ensures lines[k] == lines[1..][k - 1] { }
      if FirstSitemapDirective(lines).Some? {
        var k :| FirstDirectiveAt(lines[1..], k) && FirstSitemapDirective(lines[1..]).value == DirectiveValue(lines[1..][k]);
        assert FirstDirectiveAt(lines, k + 1);
      }
    } else if lines != [] {
      assert FirstDirectiveAt(lines, 0);
    }
  }

  /** `fetch_sitemap_from_robots`: the directive of a 200 robots.txt; None otherwise. */
  function RobotsSitemap(lib: UrlLib, web: Web, baseUrl: string): Option<string> {
    match Get(web, lib.join(baseUrl, "robots.txt"))
    case None => None
    case Some(response) =>
      if response.status == 200 then FirstSitemapDirective(Split(response.body, '\n')) else None
  }

  /** The URL a `url` element contributes: its loc, unless a path segment is blocklisted. */
  function AcceptedLoc(child: XmlChild): set<string> {
    if child.tag == Tag("url") && child.loc.Some? && !Blocked(child.loc.value) then {child.loc.value} else {}
  }

  function AcceptedLocs(children: seq<XmlChild>): set<string>
    decreases |children|
  {
    if children == [] then {}
    else AcceptedLocs(children[..|children| - 1]) + AcceptedLoc(children[|children| - 1])
  }

  /** Exactly the loc values of `url` children that are not blocklisted. */
  lemma {:induction false} AcceptedLocsExactly(children: seq<XmlChild>, u: string)
    ensures u in AcceptedLocs(children) <==>
      exists k :: 0 <= k < |children| && children[k].tag == Tag("url") && children[k].loc == Some(u) && !Blocked(u)
    decreases |children|
  {
    if children != [] {
      var front := children[..|children| - 1];
      AcceptedLocsExactly(front, u);
      forall k | 0 <= k < |front| ensures front[k] == children[k] { }
    }
  }

  /** What `parse_sitemap` adds: nothing unless the document is a well-formed urlset. */
  function UrlsetAdds(doc: XmlDoc): set<string> {
    match doc
    case Malformed => {}
    case Doc(root, children) => if root != Tag("urlset") then {} else AcceptedLocs(children)
  }

  /** What `parse_sitemap_index` adds: nothing unless the document is a well-formed sitemap index. */
  function IndexAdds(lib: UrlLib, web: Web, content: string): set<string> {
    match web.parseXml(content)
    case Malformed => {}
    case Doc(root, children) => if root != Tag("sitemapindex") then {} else ChildSitemapsAdds(lib, web, UrlsetAdds, children)
  }

  /** The document kind is chosen by the substring `<sitemapindex`, not by the root tag. */
  function ContentAdds(lib: UrlLib, web: Web, content: string): set<string> {
    if Contains(content, IndexMarker) then IndexAdds(lib, web, content) else UrlsetAdds(web.parseXml(content))
  }

  /** The fallback probes in order: the first whose content leaves the set non-empty answers true. */
  function ProbeFallbacks(lib: UrlLib, web: Web, baseUrl: string, paths: seq<string>, urls: set<string>): (bool, set<string>)
    decreases |paths|
  {
    if paths == [] then (false, urls)
    else
      var content := FetchSitemap(lib, web, lib.join(baseUrl, paths[0]));
      var urls' := if HasContent(content) then urls + ContentAdds(lib, web, content.value) else urls;
      if HasContent(content) && urls' != {} then (true, urls')
      else ProbeFallbacks(lib, web, baseUrl, paths[1..], urls')
  }

  /** `has_sitemap`: its answer and the new set, starting from the set `urls`. */
  function HasSitemapOutcome(lib: UrlLib, web: Web, baseUrl: string, urls: set<string>): (bool, set<string>) {
    var fromRobots := RobotsSitemap(lib, web, baseUrl);
    if fromRobots.Some? && fromRobots.value != "" && HasContent(FetchSitemap(lib, web, fromRobots.value)) then
      var urls' := urls + ContentAdds(lib, web, FetchSitemap(lib, web, fromRobots.value).value);
      (urls' != {}, urls')
    else ProbeFallbacks(lib, web, baseUrl, FallbackSitemaps, urls)
  }

  class SitemapParser {
    const baseUrl: string
    var sitemapUrls: set<string>

    constructor (baseUrl: string)
      ensures this.baseUrl == baseUrl && sitemapUrls == {}
    {
      this.baseUrl := baseUrl;
      sitemapUrls := {};
    }

    method FetchSitemapFromRobots(lib: UrlLib, web: Web) returns (sitemapUrl: Option<string>)
      ensures sitemapUrl == RobotsSitemap(lib, web, baseUrl)
    {
      var response := Get(web, lib.join(baseUrl, "robots.txt"));
      if response.Some? && response.value.status == 200 {
        var lines := Split(response.value.body, '\n');
        var i := 0;
        while i < |lines|
          invariant 0 <= i <= |lines|
          invariant FirstSitemapDirective(lines[i..]) == FirstSitemapDirective(lines)
        {
          if StartsWith(lines[i], SitemapPrefix) {
            return Some(DirectiveValue(lines[i]));
          }
          assert lines[i..][1..] == lines[i + 1..];
          i := i + 1;
        }
      }
      return None;
    }

    method ParseSitemap(web: Web, content: string)
      modifies this
      ensures sitemapUrls == old(sitemapUrls) + UrlsetAdds(web.parseXml(content))
    {
      var doc := web.parseXml(content);
      if doc.Malformed? || doc.rootTag != Tag("urlset") {
        return;
      }
      var i := 0;
      while i < |doc.children|
        invariant 0 <= i <= |doc.children|
        invariant sitemapUrls == old(sitemapUrls) + AcceptedLocs(doc.children[..i])
      {
        var child := doc.children[i];
        if child.tag == Tag("url") && child.loc.Some? && !Blocked(child.loc.value) {
          sitemapUrls := sitemapUrls + {child.loc.value};
        }
        assert doc.children[..i + 1][..i] == doc.children[..i];
        i := i + 1;
      }
      assert doc.children[..i] == doc.children;
    }

    method ParseSitemapIndex(lib: UrlLib, web: Web, content: string)
      modifies this
      ensures sitemapUrls == old(sitemapUrls) + IndexAdds(lib, web, content)
    {
      var doc := web.parseXml(content);
      if doc.Malformed? || doc.rootTag != Tag("sitemapindex") {
        return;
      }
      var i := 0;
      while i < |doc.children|
        invariant 0 <= i <= |doc.children|
        invariant sitemapUrls == old(sitemapUrls) + ChildSitemapsAdds(lib, web, UrlsetAdds, doc.children[..i])
      {
        var child := doc.children[i];
        if child.tag == Tag("sitemap") && child.loc.Some? {
          var sitemapContent := FetchSitemap(lib, web, child.loc.value);
          if HasContent(sitemapContent) {
            ParseSitemap(web, sitemapContent.value);
          }
        }
        assert doc.children[..i + 1][..i] == doc.children[..i];
        i := i + 1;
      }
      assert doc.children[..i] == doc.children;
    }

    method HasSitemap(lib: UrlLib, web: Web) returns (found: bool)
      modifies this
      ensures (found, sitemapUrls) == HasSitemapOutcome(lib, web, baseUrl, old(sitemapUrls))
    {
      var fromRobots := FetchSitemapFromRobots(lib, web);
      if fromRobots.Some? && fromRobots.value != "" {
        var content := FetchSitemap(lib, web, fromRobots.value);
        if HasContent(content) {
          if Contains(content.value, IndexMarker) {
            ParseSitemapIndex(lib, web, content.value);
          } else {
            ParseSitemap(web, content.value);
          }
          return sitemapUrls != {};
        }
      }
      var paths := FallbackSitemaps;
      var i := 0;
      while i < |paths|
        invariant 0 <= i <= |paths|
        invariant HasSitemapOutcome(lib, web, baseUrl, old(sitemapUrls))
          == ProbeFallbacks(lib, web, baseUrl, paths[i..], sitemapUrls)
      {
        var content := FetchSitemap(lib, web, lib.join(baseUrl, paths[i]));
        if HasContent(content) {
          if Contains(content.value, IndexMarker) {
            ParseSitemapIndex(lib, web, content.value);
          } else {
            ParseSitemap(web, content.value);
          }
          if sitemapUrls != {} {
            return true;
          }
        }
        assert paths[i..][1..] == paths[i + 1..];
        i := i + 1;
      }
      return false;
    }

    function GetSitemapUrls(): set<string>
      reads this
    {
      sitemapUrls
    }
  }

  /** The fallback probes never remove a URL; a false answer leaves the set as it was; a true one means it is non-empty. */
  lemma {:induction false} ProbeFallbacksVerdict(lib: UrlLib, web: Web, baseUrl: string, paths: seq<string>, urls: set<string>)
    ensures var r := ProbeFallbacks(lib, web, baseUrl, paths, urls);
      urls <= r.1 && (r.0 ==> r.1 != {}) && (!r.0 ==> r.1 == urls)
    decreases |paths|
  {
    if paths != [] {
      var content := FetchSitemap(lib, web, lib.join(baseUrl, paths[0]));
      var urls' := if HasContent(content) then urls + ContentAdds(lib, web, content.value) else urls;
      if !(HasContent(content) && urls' != {}) {
        ProbeFallbacksVerdict(lib, web, baseUrl, paths[1..], urls');
      }
    }
  }

  /** `sitemap_urls` only grows; `has_sitemap` is false only when it added nothing, and true only with a non-empty set. */
  lemma HasSitemapVerdict(lib: UrlLib, web: Web, baseUrl: string, urls: set<string>)
    ensures var r := HasSitemapOutcome(lib, web, baseUrl, urls);
      urls <= r.1 && (r.0 ==> r.1 != {}) && (!r.0 ==> r.1 == urls)
  {
    ProbeFallbacksVerdict(lib, web, baseUrl, FallbackSitemaps, urls);
  }

  /** On a fresh parser the answer is exactly whether some URL was collected. */
  lemma FreshHasSitemapIffUrls(lib: UrlLib, web: Web, baseUrl: string)
    ensures var r := HasSitemapOutcome(lib, web, baseUrl, {}); r.0 <==> r.1 != {}
  {
    HasSitemapVerdict(lib, web, baseUrl, {});
  }

  /** When the robots-declared sitemap yields content, its parse alone decides; no fallback is probed. */
  lemma RobotsSitemapFirst(lib: UrlLib, web: Web, baseUrl: string, urls: set<string>)
    requires RobotsSitemap(lib, web, baseUrl).Some? && RobotsSitemap(lib, web, baseUrl).value != ""
    requires HasContent(FetchSitemap(lib, web, RobotsSitemap(lib, web, baseUrl).value))
    ensures var added := ContentAdds(lib, web, FetchSitemap(lib, web, RobotsSitemap(lib, web, baseUrl).value).value);
      HasSitemapOutcome(lib, web, baseUrl, urls) == (urls + added != {}, urls + added)
  {
  }

  /** Without robots content, `sitemap_index.xml` is probed first and wins as soon as it leaves the set non-empty. */
  lemma IndexProbedFirst(lib: UrlLib, web: Web, baseUrl: string, urls: set<string>)
    requires var fromRobots := RobotsSitemap(lib, web, baseUrl);
      !(fromRobots.Some? && fromRobots.value != "" && HasContent(FetchSitemap(lib, web, fromRobots.value)))
    requires HasContent(FetchSitemap(lib, web, lib.join(baseUrl, "sitemap_index.xml")))
    requires urls + ContentAdds(lib, web, FetchSitemap(lib, web, lib.join(baseUrl, "sitemap_index.xml")).value) != {}
    ensures HasSitemapOutcome(lib, web, baseUrl, urls)
      == (true, urls + ContentAdds(lib, web, FetchSitemap(lib, web, lib.join(baseUrl, "sitemap_index.xml")).value))
  {
  }

  /** Otherwise `sitemap.xml` decides, from the set the first probe left. */
  lemma SitemapProbedSecond(lib: UrlLib, web: Web, baseUrl: string, urls: set<string>)
    requires var fromRobots := RobotsSitemap(lib, web, baseUrl);
      !(fromRobots.Some? && fromRobots.value != "" && HasContent(FetchSitemap(lib, web, fromRobots.value)))
    requires var index := FetchSitemap(lib, web, lib.join(baseUrl, "sitemap_index.xml"));
      !(HasContent(index) && urls + ContentAdds(lib, web, index.value) != {})
    ensures var index := FetchSitemap(lib, web, lib.join(baseUrl, "sitemap_index.xml"));
      var afterIndex := if HasContent(index) then urls + ContentAdds(lib, web, index.value) else urls;
      var sitemap := FetchSitemap(lib, web, lib.join(baseUrl, "sitemap.xml"));
      var afterSitemap := if HasContent(sitemap) then afterIndex + ContentAdds(lib, web, sitemap.value) else afterIndex;
      HasSitemapOutcome(lib, web, baseUrl, urls) == (HasContent(sitemap) && afterSitemap != {}, afterSitemap)
  {
  }

  lemma {:induction false} ProbeFallbacksIdempotent(lib: UrlLib, web: Web, baseUrl: string, paths: seq<string>, urls: set<string>)
    ensures var r := ProbeFallbacks(lib, web, baseUrl, paths, urls);
      ProbeFallbacks(lib, web, baseUrl, paths, r.1) == r
    decreases |paths|
  {
    if paths != [] {
      var content := FetchSitemap(lib, web, lib.join(baseUrl, paths[0]));
      var urls' := if HasContent(content) then urls + ContentAdds(lib, web, content.value) else urls;
      if !(HasContent(content) && urls' != {}) {
        ProbeFallbacksIdempotent(lib, web, baseUrl, paths[1..], urls');
        ProbeFallbacksVerdict(lib, web, baseUrl, paths[1..], urls');
        var r := ProbeFallbacks(lib, web, baseUrl, paths[1..], urls');
        if HasContent(content) {
          assert urls == {} && ContentAdds(lib, web, content.value) == {};
          assert r.1 + ContentAdds(lib, web, content.value) == r.1;
        }
      }
    }
  }

  /** Running `has_sitemap` a second time on the same site changes nothing and gives the same answer. */
  lemma HasSitemapIdempotent(lib: UrlLib, web: Web, baseUrl: string, urls: set<string>)
    ensures var r := HasSitemapOutcome(lib, web, baseUrl, urls);
      HasSitemapOutcome(lib, web, baseUrl, r.1) == r
  {
    ProbeFallbacksIdempotent(lib, web, baseUrl, FallbackSitemaps, urls);
  }

  /** A document that mentions `<sitemapindex` but whose root is a urlset contributes nothing. */
  lemma MarkerWithUrlsetRootAddsNothing(lib: UrlLib, web: Web, content: string)
    requires Contains(content, IndexMarker)
    requires web.parseXml(content).Doc? && web.parseXml(content).rootTag == Tag("urlset")
    ensures ContentAdds(lib, web, content) == {}
  {
  }
}
