/**
 * `extract_and_test_urls` of accessibility_tool/util/url_tester.py: the
 * worklist of `extract_all_urls` with an accessibility test run on each
 * valid page it pops.  A page is marked tested only when its test raises
 * nothing; its links are queued either way; a page whose link extraction
 * raises aborts the whole run.
 *
 * As written, a page whose test raises stays untested and can be queued
 * again, so the loop need not end: the model runs on a budget of `fuel`
 * iterations.  The defect is latent: `run_accessibility_tests` catches every
 * exception and returns an empty result, so it raises only when the `print`
 * in its own handler fails.  The test outcome `testOk` is left free so that
 * the model covers that case too.  `ExtractAndTestUrlsVisited` is the loop with
 * every popped page marked visited, which always ends; when every test
 * passes, as with the real callee, the tested set is the visited set
 * (`PassingTestsMarkEveryVisit`), so that loop is the one the program runs.
 */
module UrlTester {
  import opened LinkGraph

  /** How a run ends: with the tested set, with a link extraction that raised, or out of budget. */
  datatype TestRun = Completed(testedUrls: set<string>) | ExtractionFailed(page: string) | OutOfFuel

  /** `tested` holds exactly the pages of `visited` whose test passes. */
  predicate TestedAmong(testOk: string -> bool, visited: set<string>, tested: set<string>) {
    forall u :: u in visited ==> (u in tested <==> testOk(u))
  }

  /**
   * The loop as written.  When it completes, the tested pages are exactly
   * the reachable ones whose test passes, and no reachable page that fails
   * its test links to itself.
   */
  method ExtractAndTestUrls(g: Graph, testOk: string -> bool, url: string, fuel: nat) returns (result: TestRun)
    ensures result.Completed? ==>
      forall u :: u in result.testedUrls <==> Reachable(g, Base(g, url), url, u) && testOk(u)
    ensures result.Completed? ==>
      forall u :: Reachable(g, Base(g, url), url, u) && !testOk(u) ==> !Linked(g, Base(g, url), u, u)
    ensures result.ExtractionFailed? ==>
      Reachable(g, Base(g, url), url, result.page) && result.page !in g.extract
  {
    var base := Base(g, url);
    var testedUrls: set<string> := {};
    var urlsToTest := {url};
    ghost var processed: set<string> := {};
    var fuelLeft := fuel;
    ExploredStart(g, base, url);
    while urlsToTest != {}
      invariant testedUrls <= processed
      invariant forall u :: u in processed ==> (u in testedUrls <==> testOk(u))
      invariant Explored(g, base, url, processed, urlsToTest)
      invariant forall f :: f in processed && !testOk(f) && Linked(g, base, f, f) ==> f in urlsToTest
      decreases fuelLeft
    {
      if fuelLeft == 0 {
        return OutOfFuel;
      }
      fuelLeft := fuelLeft - 1;
      var currentUrl :| currentUrl in urlsToTest;
      if currentUrl in testedUrls || !g.valid(currentUrl, base) {
        ExploredSkip(g, base, url, processed, urlsToTest, currentUrl);
        urlsToTest := urlsToTest - {currentUrl};
        continue;
      }
      ghost var frontier, before := urlsToTest, processed;
      urlsToTest := urlsToTest - {currentUrl};
      if testOk(currentUrl) {
        testedUrls := testedUrls + {currentUrl};
      }
      processed := processed + {currentUrl};
      if currentUrl !in g.extract {
        ExploredVisit(g, base, url, before, frontier, currentUrl, urlsToTest);
        return ExtractionFailed(currentUrl);
      }
      urlsToTest := QueueLinks(g, base, currentUrl, testedUrls, urlsToTest);
      ExploredVisit(g, base, url, before, frontier, currentUrl, urlsToTest);
    }
    ExploredDone(g, base, url, processed);
    return Completed(testedUrls);
  }

  /** What the corrected loop keeps between iterations. */
  ghost predicate VisitState(g: Graph, base: string, seed: string, universe: set<string>, testOk: string -> bool,
                             visited: set<string>, tested: set<string>, frontier: set<string>) {
    && frontier <= universe && visited <= universe
    && frontier !! visited
    && tested <= visited && TestedAmong(testOk, visited, tested)
    && Explored(g, base, seed, visited, frontier)
  }

  /**
   * One visit of the corrected loop: mark the page visited, test it, and
   * queue its links; `extractionFailed` when its link extraction raises.
   */
  method VisitPage(g: Graph, base: string, seed: string, ghost universe: set<string>, testOk: string -> bool,
                   currentUrl: string, visited: set<string>, testedUrls: set<string>, urlsToTest: set<string>)
    returns (visited': set<string>, testedUrls': set<string>, urlsToTest': set<string>, extractionFailed: bool)
    requires universe == Universe(g, base, seed)
    requires VisitState(g, base, seed, universe, testOk, visited, testedUrls, urlsToTest)
    requires currentUrl in urlsToTest && currentUrl !in visited && g.valid(currentUrl, base)
    ensures visited' == visited + {currentUrl}
    ensures testedUrls' == if testOk(currentUrl) then testedUrls + {currentUrl} else testedUrls
    ensures |universe - visited'| < |universe - visited|
    ensures extractionFailed <==> currentUrl !in g.extract
    ensures extractionFailed ==> Reachable(g, base, seed, currentUrl)
    ensures !extractionFailed ==> VisitState(g, base, seed, universe, testOk, visited', testedUrls', urlsToTest')
  {
    var frontier := urlsToTest - {currentUrl};
    RemoveOne(universe, visited, currentUrl);
    visited' := visited + {currentUrl};
    testedUrls' := if testOk(currentUrl) then testedUrls + {currentUrl} else testedUrls;
    if currentUrl !in g.extract {
      ExploredVisit(g, base, seed, visited, urlsToTest, currentUrl, frontier);
      return visited', testedUrls', frontier, true;
    }
    urlsToTest' := QueueLinks(g, base, currentUrl, visited', frontier);
    forall u | u in urlsToTest' - frontier ensures u in universe {
      LinkedInUniverse(g, base, seed, currentUrl, u);
    }
    ExploredVisit(g, base, seed, visited, urlsToTest, currentUrl, urlsToTest');
    extractionFailed := false;
  }

  /**
   * When every test passes, the pages tested are exactly the pages visited:
   * adding to `tested_urls` then marks a page visited, as the corrected loop does.
   */
  lemma PassingTestsMarkEveryVisit(testOk: string -> bool, visited: set<string>, tested: set<string>)
    requires forall u :: testOk(u)
    requires tested <= visited && TestedAmong(testOk, visited, tested)
    ensures tested == visited
  {
    assert forall u :: u in visited ==> u in tested;
  }

  /**
   * The loop with each popped page marked visited whether or not its test
   * passed.  It always ends, and a completed run has tested exactly the
   * reachable pages whose test passes, each once.
   */
  method ExtractAndTestUrlsVisited(g: Graph, testOk: string -> bool, url: string) returns (result: TestRun)
    ensures !result.OutOfFuel?
    ensures result.Completed? ==>
      forall u :: u in result.testedUrls <==> Reachable(g, Base(g, url), url, u) && testOk(u)
    ensures result.ExtractionFailed? ==>
      Reachable(g, Base(g, url), url, result.page) && result.page !in g.extract
  {
    var base := Base(g, url);
    ghost var universe := Universe(g, base, url);
    var testedUrls: set<string> := {};
    var visited: set<string> := {};
    var urlsToTest := {url};
    ExploredStart(g, base, url);
    while urlsToTest != {}
      invariant VisitState(g, base, url, universe, testOk, visited, testedUrls, urlsToTest)
      decreases |universe - visited|, |urlsToTest|
    {
      var currentUrl :| currentUrl in urlsToTest;
      if currentUrl in visited || !g.valid(currentUrl, base) {
        ExploredSkip(g, base, url, visited, urlsToTest, currentUrl);
        urlsToTest := urlsToTest - {currentUrl};
        continue;
      }
      var extractionFailed;
      visited, testedUrls, urlsToTest, extractionFailed :=
        VisitPage(g, base, url, universe, testOk, currentUrl, visited, testedUrls, urlsToTest);
      if extractionFailed {
        return ExtractionFailed(currentUrl);
      }
    }
    ExploredDone(g, base, url, visited);
    return Completed(testedUrls);
  }

  const ExampleRoot: string := "https://example.com/"

  /** A one-page site whose only link leads back to itself. */
  function SelfLinkedSite(): Graph {
    Graph((base: string, link: string) => ExampleRoot, (u: string, base: string) => true, map[ExampleRoot := ["/"]])
  }

  lemma OnlyRootReachable(u: string)
    requires Reachable(SelfLinkedSite(), Base(SelfLinkedSite(), ExampleRoot), ExampleRoot, u)
    ensures u == ExampleRoot
  {
    var g := SelfLinkedSite();
    var base := Base(g, ExampleRoot);
    var p :| IsPath(g, base, ExampleRoot, p) && p[|p| - 1] == u;
    if |p| > 1 {
      assert Linked(g, base, p[|p| - 2], p[|p| - 1]);
    }
  }

  /** On the self-linked page whose test fails, the loop as written never completes, whatever the budget. */
  method SelfLinkedFailingPageNeverCompletes(fuel: nat) returns (result: TestRun)
    ensures result == OutOfFuel
  {
    var g := SelfLinkedSite();
    var base := Base(g, ExampleRoot);
    result := ExtractAndTestUrls(g, (u: string) => false, ExampleRoot, fuel);
    SeedReachable(g, base, ExampleRoot);
    assert g.join(base, g.extract[ExampleRoot][0]) == ExampleRoot;
    assert Linked(g, base, ExampleRoot, ExampleRoot);
    if result.ExtractionFailed? {
      OnlyRootReachable(result.page);
    }
  }

  /** The same site with visited marking: the run completes with nothing tested. */
  method SelfLinkedFailingPageCompletesWhenVisited() returns (result: TestRun)
    ensures result == Completed({})
  {
    var g := SelfLinkedSite();
    result := ExtractAndTestUrlsVisited(g, (u: string) => false, ExampleRoot);
    if result.ExtractionFailed? {
      OnlyRootReachable(result.page);
    }
    if result.Completed? {
      assert result.testedUrls == {};
    }
  }
}
