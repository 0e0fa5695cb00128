/**
 * The recursive crawler of util/website_crawler.py.  From a seed it
 * follows links depth-first up to `max_depth` levels; a page is recorded,
 * with its fragment dropped, when it is admitted (`is_valid_url` and
 * `can_fetch`) and answers 200.  Links with `rel == ['nofollow']` are not
 * followed, off-host links are resolved against the root URL, and a URL
 * already recorded is not visited again.
 */
module Crawler {
  import opened Wrappers
  import opened Strings
  import opened Net
  import opened UrlFilter

  /** What the crawler works with: the URL library, the web, and the crawler's own settings. */
  datatype Site = Site(lib: UrlLib, web: Web, rootUrl: string, hostname: Option<string>, userAgent: string)

  /** The levels still allowed below `depth`; the recursion's measure. */
  function Budget(maxDepth: int, depth: int): nat {
    if depth <= maxDepth then maxDepth - depth + 1 else 0
  }

  predicate Admitted(site: Site, url: string) {
    IsValidUrl(site.lib, site.web, url, site.rootUrl) && CanFetch(site.lib, site.web, url, site.userAgent)
  }

  /** The body of a 200 answer to the session's GET; None for another status or a RequestException. */
  function Page(web: Web, url: string): Option<string> {
    match Get(web, url)
    case None => None
    case Some(response) => if response.status == 200 then Some(response.body) else None
  }

  /** A page the crawler records: admitted, and answered with 200. */
  predicate Fetched(site: Site, url: string) {
    Admitted(site, url) && Page(site.web, url).Some?
  }

  predicate Follows(link: Link) {
    link.rel != Some(["nofollow"])
  }

  /** An href on the root's host is kept verbatim; any other, relative ones included, is joined to the root URL. */
  function NextUrl(lib: UrlLib, rootUrl: string, hostname: Option<string>, href: string): string {
    if lib.parse(href).hostname == hostname then href else lib.join(rootUrl, href)
  }

  function Next(site: Site, href: string): string {
    NextUrl(site.lib, site.rootUrl, site.hostname, href)
  }

  /** `crawl(url, max_depth, depth)` applied to the set `crawled`. */
  function CrawlSpec(site: Site, url: string, maxDepth: int, depth: int, crawled: set<string>): set<string>
    decreases Budget(maxDepth, depth), 1, 0
  {
    if depth > maxDepth || !Fetched(site, url) then crawled
    else CrawlLinks(site, site.web.anchors(Page(site.web, url).value), maxDepth, depth, crawled + {Defragment(site.lib, url)})
  }

  /** The loop over the anchors of a page crawled at `depth`. */
  function CrawlLinks(site: Site, links: seq<Link>, maxDepth: int, depth: int, crawled: set<string>): set<string>
    requires depth <= maxDepth
    decreases Budget(maxDepth, depth), 0, |links|
  {
    if links == [] then crawled
    else
      var next := Next(site, links[0].href);
      var crawled' := if Follows(links[0]) && next !in crawled then CrawlSpec(site, next, maxDepth, depth + 1, crawled) else crawled;
      CrawlLinks(site, links[1..], maxDepth, depth, crawled')
  }

  /** One followed link: `from` is a recorded page, and one of its followed anchors leads to `to`. */
  ghost predicate Step(site: Site, from: string, to: string) {
    Fetched(site, from) &&
    var links := site.web.anchors(Page(site.web, from).value);
    exists k :: 0 <= k < |links| && Follows(links[k]) && Next(site, links[k].href) == to
  }

  /** `to` is at most `n` followed links away from `from`. */
  ghost predicate Reach(site: Site, from: string, to: string, n: nat)
    decreases n
  {
    from == to || (n > 0 && exists mid :: Step(site, from, mid) && Reach(site, mid, to, n - 1))
  }

  /** `u` is the defragmented form of a recorded page at most `n` followed links from `start`. */
  ghost predicate AddedWithin(site: Site, start: string, u: string, n: nat) {
    exists v :: Reach(site, start, v, n) && Fetched(site, v) && u == Defragment(site.lib, v)
  }

  lemma {:induction false} CrawlSound(site: Site, url: string, maxDepth: int, depth: int, crawled: set<string>, u: string)
    ensures crawled <= CrawlSpec(site, url, maxDepth, depth, crawled)
    ensures u in CrawlSpec(site, url, maxDepth, depth, crawled) ==>
      u in crawled || (depth <= maxDepth && AddedWithin(site, url, u, maxDepth - depth))
    decreases Budget(maxDepth, depth), 1, 0
  {
    if depth <= maxDepth && Fetched(site, url) {
      var links := site.web.anchors(Page(site.web, url).value);
      var start := crawled + {Defragment(site.lib, url)};
      var n: nat := maxDepth - depth;
      CrawlLinksSound(site, links, maxDepth, depth, start, u);
      if u in CrawlSpec(site, url, maxDepth, depth, crawled) && u !in crawled {
        if u == Defragment(site.lib, url) {
          assert Reach(site, url, url, n);
        } else {
          var k :| 0 <= k < |links| && Follows(links[k]) && AddedWithin(site, Next(site, links[k].href), u, n - 1);
          var next := Next(site, links[k].href);
          var v :| Reach(site, next, v, n - 1) && Fetched(site, v) && u == Defragment(site.lib, v);
          assert Step(site, url, next);
          assert Reach(site, url, v, n);
        }
      }
    }
  }

  lemma {:induction false} CrawlLinksSound(site: Site, links: seq<Link>, maxDepth: int, depth: int, crawled: set<string>, u: string)
    requires depth <= maxDepth
    ensures crawled <= CrawlLinks(site, links, maxDepth, depth, crawled)
    ensures u in CrawlLinks(site, links, maxDepth, depth, crawled) ==>
      u in crawled || (depth < maxDepth &&
        exists k :: 0 <= k < |links| && Follows(links[k]) && AddedWithin(site, Next(site, links[k].href), u, maxDepth - depth - 1))
    decreases Budget(maxDepth, depth), 0, |links|
  {
    if links != [] {
      var next := Next(site, links[0].href);
      var followed := Follows(links[0]) && next !in crawled;
      var crawled' := if followed then CrawlSpec(site, next, maxDepth, depth + 1, crawled) else crawled;
      if followed {
        CrawlSound(site, next, maxDepth, depth + 1, crawled, u);
      }
      CrawlLinksSound(site, links[1..], maxDepth, depth, crawled', u);
      if u in CrawlLinks(site, links, maxDepth, depth, crawled) && u !in crawled {
        if u in crawled' {
          assert depth < maxDepth && Follows(links[0]) && AddedWithin(site, next, u, maxDepth - depth - 1);
        } else {
          var k :| 0 <= k < |links[1..]| && Follows(links[1..][k])
            && AddedWithin(site, Next(site, links[1..][k].href), u, maxDepth - depth - 1);
          assert links[k + 1] == links[1..][k];
        }
      }
    }
  }

  /** The crawl only adds, and adds only recorded pages no more than `crawl_depth` followed links from the seed. */
  lemma CrawledWithinDepth(site: Site, seed: string, crawlDepth: int, crawled: set<string>, u: string)
    requires u in CrawlSpec(site, seed, crawlDepth, 0, crawled) - crawled
    ensures crawlDepth >= 0 && AddedWithin(site, seed, u, crawlDepth)
  {
    CrawlSound(site, seed, crawlDepth, 0, crawled, u);
  }

  lemma CrawlGrows(site: Site, seed: string, crawlDepth: int, crawled: set<string>)
    ensures crawled <= CrawlSpec(site, seed, crawlDepth, 0, crawled)
  {
    CrawlSound(site, seed, crawlDepth, 0, crawled, "");
  }

  /**
   * Whatever the URL library does, every recorded URL is the defragmented
   * form of a URL that starts with the root URL, has an http(s) scheme and
   * has no query or fragment.
   */
  lemma CrawledFromAdmittedUrl(site: Site, seed: string, crawlDepth: int, u: string)
    requires u in CrawlSpec(site, seed, crawlDepth, 0, {})
    ensures exists v ::
      && u == Defragment(site.lib, v) && StartsWith(v, site.rootUrl)
      && IsHttpScheme(site.lib.parse(v).scheme) && site.lib.parse(v).query == "" && site.lib.parse(v).fragment == ""
  {
    CrawledWithinDepth(site, seed, crawlDepth, {}, u);
    var v :| Reach(site, seed, v, crawlDepth) && Fetched(site, v) && u == Defragment(site.lib, v);
    IsValidUrlExactly(site.lib, site.web, v, site.rootUrl);
  }

  /**
   * If the URL library gives back the string it parsed, every recorded URL
   * starts with the root URL, has an http(s) scheme and no query or fragment.
   */
  lemma CrawledUrlsShape(site: Site, seed: string, crawlDepth: int, u: string)
    requires GetUrlRoundTrips(site.lib)
    requires u in CrawlSpec(site, seed, crawlDepth, 0, {})
    ensures StartsWith(u, site.rootUrl)
    ensures IsHttpScheme(site.lib.parse(u).scheme)
    ensures site.lib.parse(u).query == "" && site.lib.parse(u).fragment == ""
  {
    CrawledWithinDepth(site, seed, crawlDepth, {}, u);
    var v :| Reach(site, seed, v, crawlDepth) && Fetched(site, v) && u == Defragment(site.lib, v);
    IsValidUrlExactly(site.lib, site.web, v, site.rootUrl);
    assert site.lib.parse(v).fragment == "";
    assert u == v;
  }

  /** Beyond `max_depth` the crawl has no effect. */
  lemma BeyondMaxDepthNoEffect(site: Site, url: string, maxDepth: int, depth: int, crawled: set<string>)
    requires depth > maxDepth
    ensures CrawlSpec(site, url, maxDepth, depth, crawled) == crawled
  {
  }

  /** Links that are `nofollow` or lead to a URL already recorded change nothing. */
  lemma {:induction false} NothingNewToFollow(site: Site, links: seq<Link>, maxDepth: int, depth: int, crawled: set<string>)
    requires depth <= maxDepth
    requires forall k :: 0 <= k < |links| ==> !Follows(links[k]) || Next(site, links[k].href) in crawled
    ensures CrawlLinks(site, links, maxDepth, depth, crawled) == crawled
    decreases |links|
  {
    if links != [] {
      forall k | 0 <= k < |links[1..]| ensures !Follows(links[1..][k]) || Next(site, links[1..][k].href) in crawled {
        assert links[1..][k] == links[k + 1];
      }
      NothingNewToFollow(site, links[1..], maxDepth, depth, crawled);
    }
  }

  /** A page whose every link is `nofollow` adds itself and nothing else. */
  lemma NofollowPageAddsOnlyItself(site: Site, url: string, maxDepth: int, depth: int, crawled: set<string>)
    requires depth <= maxDepth && Fetched(site, url)
    requires var links := site.web.anchors(Page(site.web, url).value);
      forall k :: 0 <= k < |links| ==> !Follows(links[k])
    ensures CrawlSpec(site, url, maxDepth, depth, crawled) == crawled + {Defragment(site.lib, url)}
  {
    NothingNewToFollow(site, site.web.anchors(Page(site.web, url).value), maxDepth, depth, crawled + {Defragment(site.lib, url)});
  }

  lemma {:induction false} LinksAtMaxDepthAddNothing(site: Site, links: seq<Link>, maxDepth: int, crawled: set<string>)
    ensures CrawlLinks(site, links, maxDepth, maxDepth, crawled) == crawled
    decreases |links|
  {
    if links != [] {
      LinksAtMaxDepthAddNothing(site, links[1..], maxDepth, crawled);
    }
  }

  /** A page at exactly `max_depth` is recorded, but none of its links is visited. */
  lemma PageAtMaxDepthAddsOnlyItself(site: Site, url: string, maxDepth: int, crawled: set<string>)
    ensures CrawlSpec(site, url, maxDepth, maxDepth, crawled)
      == if Fetched(site, url) then crawled + {Defragment(site.lib, url)} else crawled
  {
    if Fetched(site, url) {
      LinksAtMaxDepthAddNothing(site, site.web.anchors(Page(site.web, url).value), maxDepth, crawled + {Defragment(site.lib, url)});
    }
  }

  class WebsiteCrawler {
    const rootUrl: string
    const hostname: Option<string>
    const userAgent: string
    var crawledUrls: set<string>
    var sessionOpen: bool

    constructor (lib: UrlLib, rootUrl: string, userAgent: string)
      ensures this.rootUrl == rootUrl && hostname == lib.parse(rootUrl).hostname && this.userAgent == userAgent
      ensures crawledUrls == {} && sessionOpen
    {
      this.rootUrl := rootUrl;
      hostname := lib.parse(rootUrl).hostname;
      this.userAgent := userAgent;
      crawledUrls := {};
      sessionOpen := true;
    }

    function SiteOf(lib: UrlLib, web: Web): Site {
      Site(lib, web, rootUrl, hostname, userAgent)
    }

    method Crawl(lib: UrlLib, web: Web, url: string, maxDepth: int, currentDepth: int)
      modifies this`crawledUrls
      ensures crawledUrls == CrawlSpec(SiteOf(lib, web), url, maxDepth, currentDepth, old(crawledUrls))
      decreases Budget(maxDepth, currentDepth)
    {
      var site := SiteOf(lib, web);
      if currentDepth > maxDepth {
        return;
      }
      if IsValidUrl(lib, web, url, rootUrl) && CanFetch(lib, web, url, userAgent) {
        var response := Get(web, url);
        if response.Some? && response.value.status == 200 {
          var cleanUrl := Defragment(lib, url);
          crawledUrls := crawledUrls + {cleanUrl};
          var links := web.anchors(response.value.body);
          var i := 0;
          while i < |links|
            invariant 0 <= i <= |links|
            invariant CrawlLinks(site, links[i..], maxDepth, currentDepth, crawledUrls)
              == CrawlSpec(site, url, maxDepth, currentDepth, old(crawledUrls))
          {
            var link := links[i];
            assert links[i..][1..] == links[i + 1..];
            if link.rel != Some(["nofollow"]) {
              var newUrl := NextUrl(lib, rootUrl, hostname, link.href);
              if newUrl !in crawledUrls {
                Crawl(lib, web, newUrl, maxDepth, currentDepth + 1);
              }
            }
            i := i + 1;
          }
        }
      }
    }

    function GetCrawledUrls(): set<string>
      reads this
    {
      crawledUrls
    }

    /** Crawls from `url`, then closes the session whatever happened, and returns the set. */
    method CrawlUrlsToTest(lib: UrlLib, web: Web, url: string, crawlDepth: int) returns (urls: set<string>)
      modifies this
      ensures urls == crawledUrls == CrawlSpec(SiteOf(lib, web), url, crawlDepth, 0, old(crawledUrls))
      ensures !sessionOpen
    {
      Crawl(lib, web, url, crawlDepth, 0);
      sessionOpen := false;
      return crawledUrls;
    }
  }
}
