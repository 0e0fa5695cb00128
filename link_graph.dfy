/**
 * The link structure the two worklist loops explore.  A page's links are
 * what `extract_urls` returns for it, resolved with `urljoin(base, link)`
 * against the origin root `base = urljoin(seed, '/')`, and kept only when
 * the two-argument `is_valid_url(link, base)` holds.  A page missing from
 * the map is one whose link extraction raises.
 */
module LinkGraph {

  datatype Graph = Graph(
    join: (string, string) -> string,     // urljoin
    valid: (string, string) -> bool,      // is_valid_url(url, base_url)
    extract: map<string, seq<string>>)    // extract_urls; a missing page raises

  /** `urljoin(url, '/')`: the root the links are resolved against. */
  function Base(g: Graph, seed: string): string {
    g.join(seed, "/")
  }

  /** `b` is a valid resolved link of page `a`. */
  ghost predicate Linked(g: Graph, base: string, a: string, b: string) {
    a in g.extract && g.valid(b, base)
    && exists i :: 0 <= i < |g.extract[a]| && g.join(base, g.extract[a][i]) == b
  }

  /** A chain of valid pages from the seed, each a valid link of the one before. */
  ghost predicate IsPath(g: Graph, base: string, seed: string, p: seq<string>) {
    |p| >= 1 && p[0] == seed
    && (forall k :: 0 <= k < |p| ==> g.valid(p[k], base))
    && (forall k :: 0 <= k < |p| - 1 ==> Linked(g, base, p[k], p[k + 1]))
  }

  /** `u` can be discovered from the seed: the last page of some path. */
  ghost predicate Reachable(g: Graph, base: string, seed: string, u: string) {
    exists p :: IsPath(g, base, seed, p) && p[|p| - 1] == u
  }

  /** Every URL a worklist can ever hold: the seed and every resolved link. */
  function Universe(g: Graph, base: string, seed: string): set<string> {
    {seed} + set a, i | a in g.extract && 0 <= i < |g.extract[a]| :: g.join(base, g.extract[a][i])
  }

  lemma LinkedInUniverse(g: Graph, base: string, seed: string, a: string, b: string)
    requires Linked(g, base, a, b)
    ensures b in Universe(g, base, seed)
  {
    var i :| 0 <= i < |g.extract[a]| && g.join(base, g.extract[a][i]) == b;
  }

  lemma ReachableIsValid(g: Graph, base: string, seed: string, u: string)
    requires Reachable(g, base, seed, u)
    ensures g.valid(u, base)
  {
    var p :| IsPath(g, base, seed, p) && p[|p| - 1] == u;
  }

  lemma SeedReachable(g: Graph, base: string, seed: string)
    requires g.valid(seed, base)
    ensures Reachable(g, base, seed, seed)
  {
    assert IsPath(g, base, seed, [seed]);
  }

  lemma ExtendReachable(g: Graph, base: string, seed: string, a: string, b: string)
    requires Reachable(g, base, seed, a) && Linked(g, base, a, b)
    ensures Reachable(g, base, seed, b)
  {
    var p :| IsPath(g, base, seed, p) && p[|p| - 1] == a;
    var q := p + [b];
    assert forall k :: 0 <= k < |p| ==> q[k] == p[k];
    assert IsPath(g, base, seed, q);
  }

  /** A set holding the seed (when valid) and closed under valid links holds every reachable URL. */
  lemma {:induction false} ClosedContainsReachable(g: Graph, base: string, seed: string, s: set<string>, u: string)
    requires g.valid(seed, base) ==> seed in s
    requires forall a, b :: a in s && Linked(g, base, a, b) ==> b in s
    requires Reachable(g, base, seed, u)
    ensures u in s
  {
    var p :| IsPath(g, base, seed, p) && p[|p| - 1] == u;
    PathInClosedSet(g, base, seed, s, p);
  }

  lemma {:induction false} PathInClosedSet(g: Graph, base: string, seed: string, s: set<string>, p: seq<string>)
    requires g.valid(seed, base) ==> seed in s
    requires forall a, b :: a in s && Linked(g, base, a, b) ==> b in s
    requires IsPath(g, base, seed, p)
    ensures p[|p| - 1] in s
    decreases |p|
  {
    if |p| > 1 {
      var front := p[..|p| - 1];
      assert IsPath(g, base, seed, front) by {
        forall k | 0 <= k < |front| - 1 ensures Linked(g, base, front[k], front[k + 1]) {
          assert front[k] == p[k] && front[k + 1] == p[k + 1];
        }
      }
      PathInClosedSet(g, base, seed, s, front);
      assert Linked(g, base, p[|p| - 2], p[|p| - 1]);
    }
  }

  lemma RemoveOne(u: set<string>, done: set<string>, x: string)
    requires x in u && x !in done
    ensures |u - (done + {x})| < |u - done|
  {
    assert u - (done + {x}) == (u - done) - {x};
    assert (u - done) == ((u - done) - {x}) + {x};
  }

  /**
   * The inner loop of both worklists: every valid link of `currentUrl` not in `recorded` is
   * added to the frontier, and nothing else is.
   */
  method QueueLinks(g: Graph, base: string, currentUrl: string, recorded: set<string>, frontier: set<string>)
    returns (frontier': set<string>)
    requires currentUrl in g.extract
    ensures frontier <= frontier'
    ensures forall u :: u in frontier' - frontier ==> Linked(g, base, currentUrl, u) && u !in recorded
    ensures forall b :: Linked(g, base, currentUrl, b) ==> b in recorded || b in frontier'
  {
    var extractedUrls := g.extract[currentUrl];
    frontier' := frontier;
    var j := 0;
    while j < |extractedUrls|
      invariant 0 <= j <= |extractedUrls|
      invariant frontier <= frontier'
      invariant forall u :: u in frontier' - frontier ==> Linked(g, base, currentUrl, u) && u !in recorded
      invariant forall i :: 0 <= i < j && g.valid(g.join(base, extractedUrls[i]), base) ==>
        g.join(base, extractedUrls[i]) in recorded || g.join(base, extractedUrls[i]) in frontier'
    {
      var fullUrl := g.join(base, extractedUrls[j]);
      if fullUrl !in recorded && g.valid(fullUrl, base) {
        assert Linked(g, base, currentUrl, fullUrl);
        frontier' := frontier' + {fullUrl};
      }
      j := j + 1;
    }
  }

  /**
   * What both worklists keep: everything visited is reachable, so is
   * everything queued but the seed, the seed is visited or queued when it is
   * valid, and every valid link of a visited page is visited or queued.
   */
  ghost predicate Explored(g: Graph, base: string, seed: string, visited: set<string>, frontier: set<string>) {
    && (forall u :: u in visited ==> Reachable(g, base, seed, u))
    && (forall u :: u in frontier && u != seed ==> Reachable(g, base, seed, u))
    && (g.valid(seed, base) ==> seed in visited || seed in frontier)
    && (forall a, b :: a in visited && Linked(g, base, a, b) ==> b in visited || b in frontier)
  }

  lemma ExploredStart(g: Graph, base: string, seed: string)
    ensures Explored(g, base, seed, {}, {seed})
  {
  }

  /** Dropping a popped URL that is already visited or invalid keeps the invariant. */
  lemma ExploredSkip(g: Graph, base: string, seed: string, visited: set<string>, frontier: set<string>, current: string)
    requires Explored(g, base, seed, visited, frontier)
    requires current in visited || !g.valid(current, base)
    ensures Explored(g, base, seed, visited, frontier - {current})
  {
  }

  /** Visiting a valid popped URL and queueing its new links keeps the invariant. */
  lemma ExploredVisit(g: Graph, base: string, seed: string, visited: set<string>, frontier: set<string>,
                      current: string, frontier': set<string>)
    requires Explored(g, base, seed, visited, frontier)
    requires current in frontier && g.valid(current, base)
    requires frontier - {current} <= frontier'
    requires forall u :: u in frontier' - (frontier - {current}) ==> Linked(g, base, current, u)
    requires forall b :: Linked(g, base, current, b) ==> b in visited || b == current || b in frontier'
    ensures Explored(g, base, seed, visited + {current}, frontier')
  {
    if current == seed {
      SeedReachable(g, base, seed);
    }
    forall u | u in frontier' - (frontier - {current}) ensures Reachable(g, base, seed, u) {
      ExtendReachable(g, base, seed, current, u);
    }
  }

  /** With nothing left to queue, the visited set is exactly the reachable one. */
  lemma ExploredDone(g: Graph, base: string, seed: string, visited: set<string>)
    requires Explored(g, base, seed, visited, {})
    ensures forall u :: u in visited <==> Reachable(g, base, seed, u)
  {
    forall u | Reachable(g, base, seed, u) ensures u in visited {
      ClosedContainsReachable(g, base, seed, visited, u);
    }
  }
}
