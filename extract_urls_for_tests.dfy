/**
 * `extract_all_urls` of accessibility_tool/util/extract_urls_for_tests.py:
 * a worklist over a frontier set, starting from the seed alone, that
 * records every valid page it pops and queues its valid links not yet
 * recorded.  A page whose link extraction raises stays recorded and adds
 * no links.
 */
module ExtractUrls {
  import opened LinkGraph

  method ExtractAllUrls(g: Graph, url: string) returns (accessibleUrls: set<string>)
    ensures forall u :: u in accessibleUrls <==> Reachable(g, Base(g, url), url, u)
    ensures forall u :: u in accessibleUrls ==> g.valid(u, Base(g, url))
  {
    var base := Base(g, url);
    ghost var universe := Universe(g, base, url);
    accessibleUrls := {};
    var urlsToExtract := {url};
    ExploredStart(g, base, url);
    while urlsToExtract != {}
      invariant urlsToExtract <= universe && accessibleUrls <= universe
      invariant urlsToExtract !! accessibleUrls
      invariant Explored(g, base, url, accessibleUrls, urlsToExtract)
      decreases |universe - accessibleUrls|, |urlsToExtract|
    {
      var currentUrl :| currentUrl in urlsToExtract;
      if currentUrl in accessibleUrls || !g.valid(currentUrl, base) {
        ExploredSkip(g, base, url, accessibleUrls, urlsToExtract, currentUrl);
        urlsToExtract := urlsToExtract - {currentUrl};
        continue;
      }
      ghost var frontier, accessible := urlsToExtract, accessibleUrls;
      urlsToExtract := urlsToExtract - {currentUrl};
      RemoveOne(universe, accessibleUrls, currentUrl);
      accessibleUrls := accessibleUrls + {currentUrl};
      if currentUrl in g.extract {
        urlsToExtract := QueueLinks(g, base, currentUrl, accessibleUrls, urlsToExtract);
        forall u | u in urlsToExtract - (frontier - {currentUrl}) ensures u in universe {
          LinkedInUniverse(g, base, url, currentUrl, u);
        }
      }
      ExploredVisit(g, base, url, accessible, frontier, currentUrl, urlsToExtract);
    }
    ExploredDone(g, base, url, accessibleUrls);
    forall u | u in accessibleUrls ensures g.valid(u, base) {
      ReachableIsValid(g, base, url, u);
    }
  }
}
