/**
 * The older sitemap parser of accessibility_tool/util/sitemap_parser.py:
 * no robots.txt lookup, no root-tag check and no blocklist, and a
 * `has_sitemap` whose answer depends on what was fetched, not on what was
 * collected.
 */
module LegacySitemap {
  import opened Wrappers
  import opened Strings
  import opened Net
  import opened Sitemaps
  import Sitemap

  const IndexMarker: string := "<sitemapindex"

  /** Every `url` child with a loc contributes it. */
  function LocOf(child: XmlChild): set<string> {
    if child.tag == Tag("url") && child.loc.Some? then {child.loc.value} else {}
  }

  function Locs(children: seq<XmlChild>): set<string>
    decreases |children|
  {
    if children == [] then {}
    else Locs(children[..|children| - 1]) + LocOf(children[|children| - 1])
  }

  lemma {:induction false} LocsExactly(children: seq<XmlChild>, u: string)
    ensures u in Locs(children) <==>
      exists k :: 0 <= k < |children| && children[k].tag == Tag("url") && children[k].loc == Some(u)
    decreases |children|
  {
    if children != [] {
      var front := children[..|children| - 1];
      LocsExactly(front, u);
      forall k | 0 <= k < |front| ensures front[k] == children[k] { }
    }
  }

  /** What `parse_sitemap` adds: every url/loc of a well-formed document, whatever its root. */
  function UrlsetAdds(doc: XmlDoc): set<string> {
    match doc
    case Malformed => {}
    case Doc(_, children) => Locs(children)
  }

  /** What `parse_sitemap_index` adds: the urlsets of the `sitemap` children of any well-formed document. */
  function IndexAdds(lib: UrlLib, web: Web, content: string): set<string> {
    match web.parseXml(content)
    case Malformed => {}
    case Doc(_, children) => ChildSitemapsAdds(lib, web, UrlsetAdds, children)
  }

  /** `has_sitemap`: its answer and the new set, starting from the set `urls`. */
  function HasSitemapOutcome(lib: UrlLib, web: Web, baseUrl: string, urls: set<string>): (bool, set<string>) {
    var index := FetchSitemap(lib, web, lib.join(baseUrl, "sitemap_index.xml"));
    if HasContent(index) && Contains(index.value, IndexMarker) then
      (true, urls + IndexAdds(lib, web, index.value))
    else
      var sitemap := FetchSitemap(lib, web, lib.join(baseUrl, "sitemap.xml"));
      if HasContent(sitemap) then (true, urls + UrlsetAdds(web.parseXml(sitemap.value)))
      else (false, urls)
  }

  class SitemapParser {
    const baseUrl: string
    var sitemapUrls: set<string>

    constructor (baseUrl: string)
      ensures this.baseUrl == baseUrl && sitemapUrls == {}
    {
      this.baseUrl := baseUrl;
      sitemapUrls := {};
    }

    method ParseSitemap(web: Web, content: string)
      modifies this
      ensures sitemapUrls == old(sitemapUrls) + UrlsetAdds(web.parseXml(content))
    {
      var doc := web.parseXml(content);
      if doc.Malformed? {
        return;
      }
      var i := 0;
      while i < |doc.children|
        invariant 0 <= i <= |doc.children|
        invariant sitemapUrls == old(sitemapUrls) + Locs(doc.children[..i])
      {
        var child := doc.children[i];
        if child.tag == Tag("url") && child.loc.Some? {
          sitemapUrls := sitemapUrls + {child.loc.value};
        }
        assert doc.children[..i + 1][..i] == doc.children[..i];
        i := i + 1;
      }
      assert doc.children[..i] == doc.children;
    }

    method ParseSitemapIndex(lib: UrlLib, web: Web, content: string)
      modifies this
      ensures sitemapUrls == old(sitemapUrls) + IndexAdds(lib, web, content)
    {
      var doc := web.parseXml(content);
      if doc.Malformed? {
        return;
      }
      var i := 0;
      while i < |doc.children|
        invariant 0 <= i <= |doc.children|
        invariant sitemapUrls == old(sitemapUrls) + ChildSitemapsAdds(lib, web, UrlsetAdds, doc.children[..i])
      {
        var child := doc.children[i];
        if child.tag == Tag("sitemap") && child.loc.Some? {
          var sitemapContent := FetchSitemap(lib, web, child.loc.value);
          if HasContent(sitemapContent) {
            ParseSitemap(web, sitemapContent.value);
          }
        }
        assert doc.children[..i + 1][..i] == doc.children[..i];
        i := i + 1;
      }
      assert doc.children[..i] == doc.children;
    }

    method HasSitemap(lib: UrlLib, web: Web) returns (found: bool)
      modifies this
      ensures (found, sitemapUrls) == HasSitemapOutcome(lib, web, baseUrl, old(sitemapUrls))
    {
      var content := FetchSitemap(lib, web, lib.join(baseUrl, "sitemap_index.xml"));
      if HasContent(content) && Contains(content.value, IndexMarker) {
        ParseSitemapIndex(lib, web, content.value);
        return true;
      }
      content := FetchSitemap(lib, web, lib.join(baseUrl, "sitemap.xml"));
      if HasContent(content) {
        ParseSitemap(web, content.value);
        return true;
      }
      return false;
    }

    function GetSitemapUrls(): set<string>
      reads this
    {
      sitemapUrls
    }
  }

  /** The answer is decided by what the probes fetched alone; the set only grows, and is untouched on false. */
  lemma HasSitemapVerdict(lib: UrlLib, web: Web, baseUrl: string, urls: set<string>)
    ensures var r := HasSitemapOutcome(lib, web, baseUrl, urls);
      var index := FetchSitemap(lib, web, lib.join(baseUrl, "sitemap_index.xml"));
      (r.0 <==> (HasContent(index) && Contains(index.value, IndexMarker))
                || HasContent(FetchSitemap(lib, web, lib.join(baseUrl, "sitemap.xml"))))
      && urls <= r.1 && (!r.0 ==> r.1 == urls)
  {
  }

  /** A fetched index answers true even when nothing could be collected from it. */
  lemma IndexAnswersTrueWithoutUrls(lib: UrlLib, web: Web, baseUrl: string)
    requires var index := FetchSitemap(lib, web, lib.join(baseUrl, "sitemap_index.xml"));
      HasContent(index) && Contains(index.value, IndexMarker) && web.parseXml(index.value).Malformed?
    ensures HasSitemapOutcome(lib, web, baseUrl, {}) == (true, {})
  {
    var index := FetchSitemap(lib, web, lib.join(baseUrl, "sitemap_index.xml"));
    assert IndexAdds(lib, web, index.value) == {};
    var r := HasSitemapOutcome(lib, web, baseUrl, {});
    assert r.0 && r.1 == {};
  }

  /** Fetched `sitemap.xml` content answers true even when it is not a sitemap at all. */
  lemma SitemapAnswersTrueWithoutUrls(lib: UrlLib, web: Web, baseUrl: string)
    requires var index := FetchSitemap(lib, web, lib.join(baseUrl, "sitemap_index.xml"));
      !(HasContent(index) && Contains(index.value, IndexMarker))
    requires var sitemap := FetchSitemap(lib, web, lib.join(baseUrl, "sitemap.xml"));
      HasContent(sitemap) && web.parseXml(sitemap.value).Malformed?
    ensures HasSitemapOutcome(lib, web, baseUrl, {}) == (true, {})
  {
    var sitemap := FetchSitemap(lib, web, lib.join(baseUrl, "sitemap.xml"));
    assert UrlsetAdds(web.parseXml(sitemap.value)) == {};
    var r := HasSitemapOutcome(lib, web, baseUrl, {});
    assert r.0 && r.1 == {};
  }

  /** The newer parser keeps a subset of what the older one collects from the same document. */
  lemma {:induction false} NewerKeepsSubset(doc: XmlDoc)
    ensures Sitemap.UrlsetAdds(doc) <= UrlsetAdds(doc)
  {
    if doc.Doc? && doc.rootTag == Tag("urlset") {
      forall u | u in Sitemap.UrlsetAdds(doc) ensures u in UrlsetAdds(doc) {
        Sitemap.AcceptedLocsExactly(doc.children, u);
        LocsExactly(doc.children, u);
      }
    }
  }
}
