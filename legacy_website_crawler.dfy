/**
 * The older crawler of accessibility_tool/util/website_crawler.py.  It
 * checks scheme, root prefix, fragment and query before any request, and
 * records the defragmented URL only after a 200 answer, when it is new and
 * passes a two-argument `is_valid_url`, whose definition is not part of
 * this model (`isValid`).
 */
module LegacyCrawler {
  import opened Wrappers
  import opened Strings
  import opened Net
  import opened UrlFilter
  import opened Crawler

  datatype LegacySite = LegacySite(
    lib: UrlLib, web: Web, rootUrl: string, hostname: Option<string>, isValid: (string, string) -> bool)

  /** The checks made before any request. */
  predicate PassesInlineChecks(site: LegacySite, url: string) {
    var p := site.lib.parse(url);
    IsHttpScheme(p.scheme) && StartsWith(url, site.rootUrl) && p.fragment == "" && p.query == ""
  }

  /** A page the crawler records: it passes the inline checks, answers 200, and its clean form passes `isValid`. */
  predicate Recordable(site: LegacySite, url: string) {
    PassesInlineChecks(site, url) && Page(site.web, url).Some?
    && site.isValid(Defragment(site.lib, url), site.rootUrl)
  }

  /** `crawl(url, max_depth, depth)` applied to the set `crawled`. */
  function LegacyCrawlSpec(site: LegacySite, url: string, maxDepth: int, depth: int, crawled: set<string>): set<string>
    decreases Budget(maxDepth, depth), 1, 0
  {
    if depth > maxDepth || !Recordable(site, url) || Defragment(site.lib, url) in crawled then crawled
    else LegacyCrawlLinks(site, site.web.anchors(Page(site.web, url).value), maxDepth, depth, crawled + {Defragment(site.lib, url)})
  }

  function LegacyCrawlLinks(site: LegacySite, links: seq<Link>, maxDepth: int, depth: int, crawled: set<string>): set<string>
    requires depth <= maxDepth
    decreases Budget(maxDepth, depth), 0, |links|
  {
    if links == [] then crawled
    else
      var next := LegacyNext(site, links[0].href);
      var crawled' := if Follows(links[0]) && next !in crawled then LegacyCrawlSpec(site, next, maxDepth, depth + 1, crawled) else crawled;
      LegacyCrawlLinks(site, links[1..], maxDepth, depth, crawled')
  }

  /** `u` is the clean form of some recordable page. */
  ghost predicate RecordedFrom(site: LegacySite, u: string) {
    exists v :: Recordable(site, v) && u == Defragment(site.lib, v)
  }

  /** The URL an anchor of the older crawler leads to. */
  function LegacyNext(site: LegacySite, href: string): string {
    NextUrl(site.lib, site.rootUrl, site.hostname, href)
  }

  /** One followed link: `from` is recordable, and one of its followed anchors leads to `to`. */
  ghost predicate LegacyStep(site: LegacySite, from: string, to: string) {
    Recordable(site, from) &&
    var links := site.web.anchors(Page(site.web, from).value);
    exists k :: 0 <= k < |links| && Follows(links[k]) && LegacyNext(site, links[k].href) == to
  }

  /** `to` is at most `n` followed links away from `from`. */
  ghost predicate LegacyReach(site: LegacySite, from: string, to: string, n: nat)
    decreases n
  {
    from == to || (n > 0 && exists mid :: LegacyStep(site, from, mid) && LegacyReach(site, mid, to, n - 1))
  }

  /** `u` is the clean form of a recordable page at most `n` followed links from `start`. */
  ghost predicate LegacyAddedWithin(site: LegacySite, start: string, u: string, n: nat) {
    exists v :: LegacyReach(site, start, v, n) && Recordable(site, v) && u == Defragment(site.lib, v)
  }

  lemma {:induction false} LegacyCrawlSound(site: LegacySite, url: string, maxDepth: int, depth: int, crawled: set<string>, u: string)
    ensures crawled <= LegacyCrawlSpec(site, url, maxDepth, depth, crawled)
    ensures u in LegacyCrawlSpec(site, url, maxDepth, depth, crawled) ==>
      u in crawled || (depth <= maxDepth && LegacyAddedWithin(site, url, u, maxDepth - depth))
    ensures u in LegacyCrawlSpec(site, url, maxDepth, depth, crawled) - crawled ==> RecordedFrom(site, u)
    decreases Budget(maxDepth, depth), 1, 0
  {
    if depth <= maxDepth && Recordable(site, url) && Defragment(site.lib, url) !in crawled {
      var links := site.web.anchors(Page(site.web, url).value);
      var n: nat := maxDepth - depth;
      LegacyCrawlLinksSound(site, links, maxDepth, depth, crawled + {Defragment(site.lib, url)}, u);
      if u in LegacyCrawlSpec(site, url, maxDepth, depth, crawled) && u !in crawled {
        if u == Defragment(site.lib, url) {
          assert LegacyReach(site, url, url, n);
        } else {
          var k :| 0 <= k < |links| && Follows(links[k]) && LegacyAddedWithin(site, LegacyNext(site, links[k].href), u, n - 1);
          var next := LegacyNext(site, links[k].href);
          var v :| LegacyReach(site, next, v, n - 1) && Recordable(site, v) && u == Defragment(site.lib, v);
          assert LegacyStep(site, url, next);
          assert LegacyReach(site, url, v, n);
        }
        var v :| LegacyReach(site, url, v, n) && Recordable(site, v) && u == Defragment(site.lib, v);
        assert RecordedFrom(site, u);
      }
    }
  }

  lemma {:induction false} LegacyCrawlLinksSound(site: LegacySite, links: seq<Link>, maxDepth: int, depth: int, crawled: set<string>, u: string)
    requires depth <= maxDepth
    ensures crawled <= LegacyCrawlLinks(site, links, maxDepth, depth, crawled)
    ensures u in LegacyCrawlLinks(site, links, maxDepth, depth, crawled) ==>
      u in crawled || (depth < maxDepth &&
        exists k :: 0 <= k < |links| && Follows(links[k]) && LegacyAddedWithin(site, LegacyNext(site, links[k].href), u, maxDepth - depth - 1))
    ensures u in LegacyCrawlLinks(site, links, maxDepth, depth, crawled) - crawled ==> RecordedFrom(site, u)
    decreases Budget(maxDepth, depth), 0, |links|
  {
    if links != [] {
      var next := LegacyNext(site, links[0].href);
      var followed := Follows(links[0]) && next !in crawled;
      var crawled' := if followed then LegacyCrawlSpec(site, next, maxDepth, depth + 1, crawled) else crawled;
      if followed {
        LegacyCrawlSound(site, next, maxDepth, depth + 1, crawled, u);
      }
      LegacyCrawlLinksSound(site, links[1..], maxDepth, depth, crawled', u);
      if u in LegacyCrawlLinks(site, links, maxDepth, depth, crawled) && u !in crawled {
        if u in crawled' {
          assert depth < maxDepth && Follows(links[0]) && LegacyAddedWithin(site, next, u, maxDepth - depth - 1);
        } else {
          var k :| 0 <= k < |links[1..]| && Follows(links[1..][k])
            && LegacyAddedWithin(site, LegacyNext(site, links[1..][k].href), u, maxDepth - depth - 1);
          assert links[k + 1] == links[1..][k];
        }
      }
    }
  }

  /** The older crawl only adds, and adds only recordable pages no more than `crawl_depth` followed links from the seed. */
  lemma LegacyCrawledWithinDepth(site: LegacySite, seed: string, crawlDepth: int, crawled: set<string>, u: string)
    requires u in LegacyCrawlSpec(site, seed, crawlDepth, 0, crawled) - crawled
    ensures crawlDepth >= 0 && LegacyAddedWithin(site, seed, u, crawlDepth)
  {
    LegacyCrawlSound(site, seed, crawlDepth, 0, crawled, u);
  }

  /** Links that are `nofollow` or lead to a URL already recorded change nothing. */
  lemma {:induction false} LegacyNothingNewToFollow(site: LegacySite, links: seq<Link>, maxDepth: int, depth: int, crawled: set<string>)
    requires depth <= maxDepth
    requires forall k :: 0 <= k < |links| ==> !Follows(links[k]) || LegacyNext(site, links[k].href) in crawled
    ensures LegacyCrawlLinks(site, links, maxDepth, depth, crawled) == crawled
    decreases |links|
  {
    if links != [] {
      forall k | 0 <= k < |links[1..]| ensures !Follows(links[1..][k]) || LegacyNext(site, links[1..][k].href) in crawled {
        assert links[1..][k] == links[k + 1];
      }
      LegacyNothingNewToFollow(site, links[1..], maxDepth, depth, crawled);
    }
  }

  /** A new recordable page whose every link is `nofollow` adds its clean form and nothing else. */
  lemma LegacyNofollowPageAddsOnlyItself(site: LegacySite, url: string, maxDepth: int, depth: int, crawled: set<string>)
    requires depth <= maxDepth && Recordable(site, url) && Defragment(site.lib, url) !in crawled
    requires var links := site.web.anchors(Page(site.web, url).value);
      forall k :: 0 <= k < |links| ==> !Follows(links[k])
    ensures LegacyCrawlSpec(site, url, maxDepth, depth, crawled) == crawled + {Defragment(site.lib, url)}
  {
    LegacyNothingNewToFollow(site, site.web.anchors(Page(site.web, url).value), maxDepth, depth, crawled + {Defragment(site.lib, url)});
  }

  /**
   * Every recorded URL passes `isValid` against the root; if the URL library
   * gives back the string it parsed, it also starts with the root URL and has
   * an http(s) scheme and no query or fragment.
   */
  lemma LegacyCrawledUrlsShape(site: LegacySite, seed: string, crawlDepth: int, u: string)
    requires u in LegacyCrawlSpec(site, seed, crawlDepth, 0, {})
    ensures site.isValid(u, site.rootUrl)
    ensures GetUrlRoundTrips(site.lib) ==>
      StartsWith(u, site.rootUrl) && IsHttpScheme(site.lib.parse(u).scheme)
      && site.lib.parse(u).query == "" && site.lib.parse(u).fragment == ""
  {
    LegacyCrawlSound(site, seed, crawlDepth, 0, {}, u);
    var v :| Recordable(site, v) && u == Defragment(site.lib, v);
    if GetUrlRoundTrips(site.lib) {
      assert site.lib.parse(v).fragment == "";
      assert u == v;
    }
  }

  /** A URL failing the inline checks is dropped without a request: the outcome is the same in every web. */
  lemma NoRequestBeforeInlineChecks(site: LegacySite, web2: Web, url: string, maxDepth: int, depth: int, crawled: set<string>)
    requires !PassesInlineChecks(site, url)
    ensures LegacyCrawlSpec(site, url, maxDepth, depth, crawled) == crawled
    ensures LegacyCrawlSpec(site.(web := web2), url, maxDepth, depth, crawled) == crawled
  {
  }

  /** A seed that cannot be fetched, or lies outside the root, yields an empty result. */
  lemma UnreachableSeedYieldsNothing(site: LegacySite, seed: string, crawlDepth: int)
    requires Page(site.web, seed).None? || !StartsWith(seed, site.rootUrl)
    ensures LegacyCrawlSpec(site, seed, crawlDepth, 0, {}) == {}
  {
  }

  lemma LegacyBeyondMaxDepthNoEffect(site: LegacySite, url: string, maxDepth: int, depth: int, crawled: set<string>)
    requires depth > maxDepth
    ensures LegacyCrawlSpec(site, url, maxDepth, depth, crawled) == crawled
  {
  }

  /** A page whose clean form is already recorded is not expanded again. */
  lemma RecordedPageNotExpanded(site: LegacySite, url: string, maxDepth: int, depth: int, crawled: set<string>)
    requires Defragment(site.lib, url) in crawled
    ensures LegacyCrawlSpec(site, url, maxDepth, depth, crawled) == crawled
  {
  }

  class WebsiteCrawler {
    const rootUrl: string
    const hostname: Option<string>
    var crawledUrls: set<string>

    constructor (lib: UrlLib, rootUrl: string)
      ensures this.rootUrl == rootUrl && hostname == lib.parse(rootUrl).hostname && crawledUrls == {}
    {
      this.rootUrl := rootUrl;
      hostname := lib.parse(rootUrl).hostname;
      crawledUrls := {};
    }

    function SiteOf(lib: UrlLib, web: Web, isValid: (string, string) -> bool): LegacySite {
      LegacySite(lib, web, rootUrl, hostname, isValid)
    }

    method Crawl(lib: UrlLib, web: Web, isValid: (string, string) -> bool, url: string, maxDepth: int, currentDepth: int)
      modifies this`crawledUrls
      ensures crawledUrls == LegacyCrawlSpec(SiteOf(lib, web, isValid), url, maxDepth, currentDepth, old(crawledUrls))
      decreases Budget(maxDepth, currentDepth)
    {
      var site := SiteOf(lib, web, isValid);
      if currentDepth > maxDepth {
        return;
      }
      var parsedUrl := lib.parse(url);
      if !IsHttpScheme(parsedUrl.scheme) {
        return;
      }
      if !StartsWith(url, rootUrl) {
        return;
      }
      if parsedUrl.fragment != "" || parsedUrl.query != "" {
        return;
      }
      var response := Get(web, url);
      if response.Some? && response.value.status == 200 {
        var cleanUrl := Defragment(lib, url);
        if cleanUrl !in crawledUrls && isValid(cleanUrl, rootUrl) {
          crawledUrls := crawledUrls + {cleanUrl};
          var links := web.anchors(response.value.body);
          var i := 0;
          while i < |links|
            invariant 0 <= i <= |links|
            invariant LegacyCrawlLinks(site, links[i..], maxDepth, currentDepth, crawledUrls)
              == LegacyCrawlSpec(site, url, maxDepth, currentDepth, old(crawledUrls))
          {
            var link := links[i];
            assert links[i..][1..] == links[i + 1..];
            if link.rel != Some(["nofollow"]) {
              var newUrl := NextUrl(lib, rootUrl, hostname, link.href);
              if newUrl !in crawledUrls {
                Crawl(lib, web, isValid, newUrl, maxDepth, currentDepth + 1);
              }
            }
            i := i + 1;
          }
        }
      }
    }

    function GetCrawledUrls(): set<string>
      reads this
    {
      crawledUrls
    }

    method CrawlUrlsToTest(lib: UrlLib, web: Web, isValid: (string, string) -> bool, url: string, crawlDepth: int)
      returns (urls: set<string>)
      modifies this`crawledUrls
      ensures urls == crawledUrls == LegacyCrawlSpec(SiteOf(lib, web, isValid), url, crawlDepth, 0, old(crawledUrls))
    {
      Crawl(lib, web, isValid, url, crawlDepth, 0);
      return crawledUrls;
    }
  }
}
