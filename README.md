# URL discovery in the accessibility tool, modelled in Dafny

The accessibility tool audits the pages of one web site. Before any audit it has to
decide which pages of the site to test. This project models that URL discovery part
and proves what it promises. The model covers:

- the URL admission predicate `is_valid_url`, in its newer form
  (`util/helpers.py`, `util/helper_functions.py`) and its older form
  (`accessibility_tool/util/helpers.py`), together with `is_url_accessible` and the
  fail-open robots.txt wrapper `can_fetch`;
- the sitemap parsers, newer (`util/sitemap_parser.py`) and older
  (`accessibility_tool/util/sitemap_parser.py`), as classes with a `sitemapUrls` field
  that only grows;
- the depth-bounded recursive crawlers, newer (`util/website_crawler.py`) and older
  (`accessibility_tool/util/website_crawler.py`), as classes with a `crawledUrls` field;
- the two worklist explorations `extract_all_urls` and `extract_and_test_urls`, as
  `while` loops over a frontier set and a visited set;
- the naming helpers: result directories, page identifiers, result file names, the
  domain/page display string and the base-URL normalisation;
- the selection of the latest timestamped results directory;
- the rows of the CSV report, with one row per (violation, node) pair.

Everything the code asks of the outside world is a parameter:

- `urlparse`, `urlunparse`/`geturl`, `urljoin` and `validators.url` are the fields of
  `Net.UrlLib`;
- HTTP GET and HEAD, the `RobotFileParser` verdict, the ElementTree parse and the
  BeautifulSoup anchor scan are the fields of `Net.Web`;
- `datetime.strptime` and the directory listing are inputs of `LatestResults`;
- the Selenium/axe test run is the predicate `testOk` of `UrlTester`.

The web seen by the worklists is a finite map from a page to its extracted hrefs, so
their termination can be argued over a finite URL universe. The proofs show the
following:

- Every path to `True` in `is_valid_url` passes every string check, and the HEAD
  request is reached only after all of them.
- `can_fetch` allows everything when robots.txt cannot be read.
- The sitemap parsers only add URLs. The newer one keeps only `loc`s that no
  ignored segment blocks, and the probes run in the order robots.txt, then
  `sitemap_index.xml`, then `sitemap.xml`.
- Every URL the crawlers add lies within `max_depth` followed links of the seed and
  passed the admission checks.
- `extract_all_urls` returns exactly the valid URLs reachable from the seed.
- The CSV rows are exactly one 11-field row per (violation, node) pair, in input
  order, after the three header rows.

The model follows the code on three points that are easy to misread:

- The ignored sitemap segments are the 19 entries of `IGNORED_SEGMENTS`
  (util/sitemap_parser.py:19-23). They are matched by equality with a lower-cased
  path segment.
- The older `is_valid_url` passes the parsed record, not a string, to the validator.
  This is modelled as a separate validator oracle on the parsed record.
- The older crawler and both worklists call `is_valid_url` with two arguments,
  although its definition takes three. There the check is an opaque two-argument
  predicate.

## Model

| member | source | states |
|---|---|---|
| UrlFilter.IsValidUrlExactly | util/helpers.py:68-101 | `is_valid_url` is true exactly when the validator accepts the cleaned URL, every string check passes and the HEAD `Content-Type` contains `text/html` |
| UrlFilter.IsValidUrlRejects | util/helper_functions.py:337-352 | a non-http(s) scheme, a fragment or query, an ignored suffix of the lower-cased path, or a missing raw `base_url` prefix each make the URL invalid |
| UrlFilter.ValidatorRunsFirst | util/helpers.py:68-73 | a cleaned URL the validator rejects is invalid whatever the other checks say |
| UrlFilter.HeadOnlyAfterStringChecks | util/helper_functions.py:330-352 | when a check before the HEAD request fails, the answer is false for every web, so the HEAD response cannot matter |
| UrlFilter.HeadDecidesLast | util/helpers.py:92-101 | once the string checks pass, a failed HEAD request gives false, and otherwise the answer is whether `Content-Type` contains `text/html` |
| UrlFilter.BareSuffixesRejected | util/helpers.py:83-86 | `jpeg` and `webp` match without a dot (so `/blog/webp` and `/Recipes/NOJPEG` are rejected), while `/blog/jpg` is not |
| UrlFilter.IsValidUrlLegacyExactly | accessibility_tool/util/helpers.py:77-110 | the older `is_valid_url` is true exactly when the validator accepts the parsed record, every string check passes and HEAD on the cleaned URL reports `text/html` |
| UrlFilter.LegacyAgreesWhenValidatorsAgree | accessibility_tool/util/helpers.py:77-110 | the two versions of `is_valid_url` differ only in what the validator is given |
| UrlFilter.AccessibleNeedsHttpPrefix | util/helpers.py:22-23 | a URL without an `http://` or `https://` prefix is inaccessible for every web, so no request is made |
| UrlFilter.IsUrlAccessibleExactly | util/helper_functions.py:279-293 | `is_url_accessible` is true exactly when the prefix is http(s) and the GET succeeds with status 200 |
| UrlFilter.RobotsTxtUrl | util/helpers.py:115-116 | the robots.txt location is `{scheme}://{netloc}/robots.txt` of the page URL, so it ends with `/robots.txt` |
| UrlFilter.CanFetchFailsOpen | util/helper_functions.py:400-420 | a robots.txt request that fails or does not return 200 allows the URL, and a 200 response gives the robots parser's verdict |
| UrlFilter.RobotsNotFoundAllowsAll | util/helpers.py:120-138 | on a site whose robots.txt is missing (404), `can_fetch` allows every URL |
| Naming.PathJoinPlain | util/helpers.py:50 | `os.path.join` of a name without a trailing slash and a relative one puts exactly one `/` between them |
| Naming.DomainDropsWww | util/helpers.py:46 | a leading `www.` is dropped, a `www.` after a part in which no match starts is dropped with that part kept, and a host without `www.` is kept as it is |
| Naming.ReplaceCanLeaveWww | util/helpers.py:46 | the single left-to-right replace can leave a `www.` behind: `wwwwww..` becomes `www.` |
| Strings.ReplaceAllAfterPrefix | util/helpers.py:46 | when no match of the pattern starts inside a prefix, `str.replace` keeps that prefix and replaces in the rest |
| Naming.TestDirectoryLayout | util/helper_functions.py:307-312 | the test directory is `results/domain/timestamp` |
| Naming.FlatPathHasNoSlash | accessibility_tool/util/helpers.py:51 | the flattened page path contains no `/`, and it is empty exactly when the path is only slashes |
| Naming.TestDirectoryLegacyLayout | accessibility_tool/util/helpers.py:47-57 | the older test directory is `results/domain/page/timestamp`, where the page component is non-empty, has no `/`, and is `homepage` for the root path |
| Naming.PageIdentifierShape | util/results_processor.py:37-40 | the page identifier has no `/`; it is the flattened path, or, when the path is only slashes, exactly the netloc with `www.` removed and then `.` replaced by `_`, so with no `.` |
| Naming.ResultFileNames | util/results_processor.py:46-47 | the JSON and CSV files are `{dir}/{id}_accessibility_test.json` and `.csv` |
| Naming.DomainAndPageShape | util/helper_functions.py:74-77 | the display string starts with the netloc, and anything after it is one `/` and a path that neither starts nor ends with a slash |
| Naming.BaseUrlShape | util/helper_functions.py:196-198 | the normalised base URL is `scheme://netloc` plus the path without trailing slashes, ending in exactly one `/` |
| LatestResults.Subdirectories | util/helpers.py:150 | every name kept is the name of a directory entry of the listing |
| LatestResults.SubdirectoriesComplete | util/helpers.py:150 | every directory entry of the listing has its name kept |
| LatestResults.SubdirectoriesInOrder | util/helpers.py:150 | the directory names come out in listing order: the names of two listings one after the other are the names of the first followed by those of the second |
| LatestResults.SubdirectoriesOfOne | util/helpers.py:150 | a one-entry listing gives its name exactly when it is a directory |
| LatestResults.LatestResultsDirectory | util/helper_functions.py:437-453 | the nested loops compute the latest directory of the selection function |
| LatestResults.ScanDomainsIsPick | util/helpers.py:146-160 | scanning domains and their timestamp directories equals picking over all candidates in listing order |
| LatestResults.PickIsFirstGreatest | util/helpers.py:151-157 | the pick keeps the start value, or is the first candidate strictly later than all before it and no earlier than all after it |
| LatestResults.LatestDirectoryIsFirstGreatest | util/helpers.py:141-162 | the result is the first directory with the greatest parseable time; unparseable names are skipped, ties keep the first, and None means no time beats `datetime.min` |
| Sitemaps.PairsToDictFails | accessibility_tool/util/sitemap_parser.py:33-34 | turning a query into a parameter dict fails exactly when some `&`-piece is not a `key=value` pair |
| Sitemaps.FetchSitemapOnlyOk | util/sitemap_parser.py:29-50 | `fetch_sitemap` returns content exactly when the request can be formed and the GET answers 200, and that content is the response body |
| Sitemaps.MalformedQueryGivesNone | accessibility_tool/util/sitemap_parser.py:26-45 | a query with a piece that is not a pair gives None, with no content |
| Sitemaps.QueryBecomesParams | util/sitemap_parser.py:36-42 | a query made of `key=value` pieces gives a request, sent to the URL joined with its own path |
| Sitemaps.ChildSitemapsAddsExactly | util/sitemap_parser.py:77-87 | for both versions of `parse_sitemap_index`, a URL comes from the index's children exactly when some `sitemap` child's `loc` was fetched and that version's `parse_sitemap` reads the URL from it; a failed fetch skips only that child |
| Sitemap.FirstSitemapDirectiveIsFirst | util/sitemap_parser.py:56-62 | the value comes from the first line starting with `Sitemap: `, and None means no line does |
| Sitemap.SitemapParser.FetchSitemapFromRobots | util/sitemap_parser.py:52-66 | the loop over robots.txt lines computes the robots sitemap: None on a failed fetch or when no directive is found |
| Sitemap.AcceptedLocsExactly | util/sitemap_parser.py:19-23 | a URL is accepted exactly when it is the `loc` of some `url` child and no ignored segment blocks it |
| Sitemap.SitemapParser.ParseSitemap | util/sitemap_parser.py:91-108 | `sitemapUrls` grows by exactly the accepted `loc`s of a `urlset` document, and by nothing for another root or malformed content |
| Sitemap.SitemapParser.ParseSitemapIndex | util/sitemap_parser.py:68-89 | `sitemapUrls` grows by exactly the index's additions, and a child that is not fetched adds nothing |
| Sitemap.SitemapParser.constructor | util/sitemap_parser.py:25-27 | a new parser stores its base URL and starts with no sitemap URLs |
| Sitemap.SitemapParser.HasSitemap | util/sitemap_parser.py:110-139 | the probe loop computes the `has_sitemap` outcome: the answer and the new sitemap set |
| Sitemap.ProbeFallbacksVerdict | util/sitemap_parser.py:129-139 | the fallback probes only add URLs, a true answer means the set is non-empty, and a false one means the set is unchanged |
| Sitemap.HasSitemapVerdict | util/sitemap_parser.py:110-139 | `has_sitemap` only adds URLs, answers true only with a non-empty set, and leaves the set unchanged when it answers false |
| Sitemap.FreshHasSitemapIffUrls | util/sitemap_parser.py:110-139 | on a fresh parser, `has_sitemap` is true exactly when URLs were collected |
| Sitemap.RobotsSitemapFirst | util/sitemap_parser.py:119-127 | when the robots sitemap is fetched, its content decides the answer and no fallback is probed |
| Sitemap.IndexProbedFirst | util/sitemap_parser.py:129-136 | without a robots sitemap, a `sitemap_index.xml` that yields URLs answers true before `sitemap.xml` is probed |
| Sitemap.SitemapProbedSecond | util/sitemap_parser.py:129-139 | otherwise `sitemap.xml` is probed next, and the answer is whether it was fetched and the set is then non-empty |
| Sitemap.ProbeFallbacksIdempotent | util/sitemap_parser.py:129-139 | probing again from the resulting set gives the same outcome |
| Sitemap.HasSitemapIdempotent | util/sitemap_parser.py:110-139 | calling `has_sitemap` twice on an unchanged web gives the same answer and set as once |
| Sitemap.MarkerWithUrlsetRootAddsNothing | util/sitemap_parser.py:123-126 | content containing `<sitemapindex` is parsed as an index, so a `urlset` root then adds nothing |
| LegacySitemap.LocsExactly | accessibility_tool/util/sitemap_parser.py:91-100 | the older parser collects exactly the `loc`s of the `url` children, with no root check and no blocklist |
| LegacySitemap.SitemapParser.ParseSitemap | accessibility_tool/util/sitemap_parser.py:91-102 | `sitemapUrls` grows by exactly those `loc`s, and malformed content leaves it unchanged |
| LegacySitemap.SitemapParser.ParseSitemapIndex | accessibility_tool/util/sitemap_parser.py:64-88 | `sitemapUrls` grows by exactly the index's additions |
| LegacySitemap.SitemapParser.constructor | accessibility_tool/util/sitemap_parser.py:11-14 | a new older parser stores its base URL and starts with no sitemap URLs |
| LegacySitemap.SitemapParser.HasSitemap | accessibility_tool/util/sitemap_parser.py:104-117 | the method computes the older `has_sitemap` outcome |
| LegacySitemap.HasSitemapVerdict | accessibility_tool/util/sitemap_parser.py:104-117 | the older `has_sitemap` is true exactly when the index content contains `<sitemapindex` or `sitemap.xml` was fetched; the set only grows, and it is unchanged on false |
| LegacySitemap.IndexAnswersTrueWithoutUrls | accessibility_tool/util/sitemap_parser.py:105-109 | a malformed index that contains `<sitemapindex` answers true with no URLs |
| LegacySitemap.SitemapAnswersTrueWithoutUrls | accessibility_tool/util/sitemap_parser.py:111-115 | a fetched but malformed `sitemap.xml` answers true with no URLs |
| LegacySitemap.NewerKeepsSubset | util/sitemap_parser.py:91-108 | on any document, the newer parser keeps a subset of the URLs the older one keeps |
| Crawler.WebsiteCrawler.constructor | util/website_crawler.py:28-42 | a new crawler has its root URL and host, no crawled URLs, and an open session |
| Crawler.WebsiteCrawler.Crawl | util/website_crawler.py:45-81 | the recursive crawl leaves `crawledUrls` equal to the crawl specification applied to its old value |
| Crawler.CrawlSound | util/website_crawler.py:58-79 | a crawl only adds URLs, and each added URL lies within the remaining depth of followed links and passed the admission checks |
| Crawler.CrawlLinksSound | util/website_crawler.py:70-79 | the anchor loop only adds URLs that some followed link of the page leads to, within one less depth |
| Crawler.CrawledWithinDepth | util/website_crawler.py:58-79 | every URL a crawl from depth 0 adds lies within `max_depth` followed links of the seed |
| Crawler.CrawlGrows | util/website_crawler.py:67-68 | `crawled_urls` only grows |
| Crawler.CrawledFromAdmittedUrl | util/website_crawler.py:61-68 | every crawled URL is the defragmented form of a URL that starts with the root URL, has an http(s) scheme, and has no query or fragment |
| Crawler.CrawledUrlsShape | util/website_crawler.py:61-68 | with a round-tripping URL library, every crawled URL starts with the root URL, has an http(s) scheme, and has no query or fragment |
| Crawler.BeyondMaxDepthNoEffect | util/website_crawler.py:58-59 | past `max_depth` a crawl changes nothing |
| Crawler.NothingNewToFollow | util/website_crawler.py:72-79 | when every link is `nofollow` or leads to a crawled URL, the anchor loop changes nothing |
| Crawler.NofollowPageAddsOnlyItself | util/website_crawler.py:72-73 | a fetched page whose links are all `nofollow` adds only its own defragmented URL |
| Crawler.LinksAtMaxDepthAddNothing | util/website_crawler.py:78-79 | at `max_depth` the recursive calls for the links return at once |
| Crawler.PageAtMaxDepthAddsOnlyItself | util/website_crawler.py:58-79 | a page at exactly `max_depth` is added when fetched, but its children are not |
| Crawler.WebsiteCrawler.CrawlUrlsToTest | util/website_crawler.py:92-113 | the result is the crawl from depth 0, and the session is closed afterwards |
| LegacyCrawler.LegacyCrawlSound | accessibility_tool/util/website_crawler.py:41-79 | an older crawl only adds URLs; each added URL is the clean form of a page that passed the inline checks, the GET and the validity check, and lies within the remaining depth of followed links |
| LegacyCrawler.LegacyCrawlLinksSound | accessibility_tool/util/website_crawler.py:69-77 | the older anchor loop only adds recordable URLs, each reached through a followed (not `nofollow`) link of the page, joined to the root unless it names the root's host, within one less depth |
| LegacyCrawler.LegacyCrawledWithinDepth | accessibility_tool/util/website_crawler.py:42-77 | every URL an older crawl from depth 0 adds lies within `max_depth` followed links of the seed |
| LegacyCrawler.LegacyNothingNewToFollow | accessibility_tool/util/website_crawler.py:69-77 | when every link is `nofollow` or leads to a crawled URL, the older anchor loop changes nothing |
| LegacyCrawler.LegacyNofollowPageAddsOnlyItself | accessibility_tool/util/website_crawler.py:64-71 | a new recordable page whose links are all `nofollow` adds only its own clean URL |
| LegacyCrawler.LegacyCrawledUrlsShape | accessibility_tool/util/website_crawler.py:61-67 | every URL the older crawler keeps passes the two-argument validity check, and with a round-tripping URL library it also has the root prefix, an http(s) scheme, and no query or fragment |
| LegacyCrawler.NoRequestBeforeInlineChecks | accessibility_tool/util/website_crawler.py:45-58 | a URL failing the inline scheme, prefix, fragment or query checks changes nothing, whatever the web answers |
| LegacyCrawler.UnreachableSeedYieldsNothing | tests/test_website_crawler.py:24-31 | a seed that cannot be fetched, or that lacks the root prefix, yields an empty result |
| LegacyCrawler.LegacyBeyondMaxDepthNoEffect | accessibility_tool/util/website_crawler.py:42-43 | past `max_depth` an older crawl changes nothing |
| LegacyCrawler.RecordedPageNotExpanded | accessibility_tool/util/website_crawler.py:64-67 | a page whose clean form is already crawled is neither recorded again nor expanded |
| LegacyCrawler.WebsiteCrawler.constructor | accessibility_tool/util/website_crawler.py:24-27 | a new older crawler has its root URL and host, and no crawled URLs |
| LegacyCrawler.WebsiteCrawler.Crawl | accessibility_tool/util/website_crawler.py:29-79 | the older recursive crawl leaves `crawledUrls` equal to its specification applied to the old value |
| LegacyCrawler.WebsiteCrawler.CrawlUrlsToTest | accessibility_tool/util/website_crawler.py:90-104 | the result is the older crawl from depth 0 |
| LinkGraph.ReachableIsValid | accessibility_tool/util/extract_urls_for_tests.py:38-42 | every reachable URL passes the validity check |
| LinkGraph.SeedReachable | accessibility_tool/util/extract_urls_for_tests.py:34 | a valid seed is reachable |
| LinkGraph.ExtendReachable | accessibility_tool/util/extract_urls_for_tests.py:52-55 | a valid link out of a reachable page leads to a reachable page |
| LinkGraph.LinkedInUniverse | accessibility_tool/util/extract_urls_for_tests.py:46-55 | every link target lies in the finite universe of the extracted hrefs |
| LinkGraph.ClosedContainsReachable | accessibility_tool/util/extract_urls_for_tests.py:35-57 | a set that holds the valid seed and is closed under valid links contains every reachable URL |
| LinkGraph.PathInClosedSet | accessibility_tool/util/extract_urls_for_tests.py:35-57 | such a closed set contains the end of every link path from the seed |
| LinkGraph.RemoveOne | accessibility_tool/util/extract_urls_for_tests.py:42 | recording a URL that was not yet recorded shrinks the unexplored part of the universe |
| LinkGraph.QueueLinks | accessibility_tool/util/extract_urls_for_tests.py:52-55 | the frontier only grows, it gains only valid links of the page that are not recorded, and every such link ends up recorded or queued |
| LinkGraph.ExploredStart | accessibility_tool/util/extract_urls_for_tests.py:34-35 | the start state, with the seed as the only frontier entry and nothing visited, satisfies the loop invariant |
| LinkGraph.ExploredSkip | accessibility_tool/util/extract_urls_for_tests.py:36-40 | dropping an already visited or invalid URL from the frontier keeps the loop invariant |
| LinkGraph.ExploredVisit | accessibility_tool/util/extract_urls_for_tests.py:41-55 | visiting a valid frontier URL and queueing its links keeps the loop invariant |
| LinkGraph.ExploredDone | accessibility_tool/util/extract_urls_for_tests.py:35-61 | when the frontier is empty, the visited set is exactly the set of URLs reachable from the seed |
| ExtractUrls.ExtractAllUrls | accessibility_tool/util/extract_urls_for_tests.py:24-61 | the result is exactly the valid URLs reachable from the seed through valid links resolved against the site root, so each is valid |
| UrlTester.ExtractAndTestUrls | accessibility_tool/util/url_tester.py:24-70 | a completed run reports exactly the reachable URLs whose test passed, and no failing reachable page links to itself; a failed extraction names a reachable page whose links could not be extracted |
| UrlTester.VisitPage | accessibility_tool/util/url_tester.py:43-64 | one corrected step marks the page visited, records it as tested exactly when its test passes, and keeps the loop invariant |
| UrlTester.PassingTestsMarkEveryVisit | accessibility_tool/util/url_tester.py:51-53 | when every test passes, the set of tested pages is exactly the set of visited pages, so marking pages tested marks them visited |
| UrlTester.ExtractAndTestUrlsVisited | accessibility_tool/util/url_tester.py:43-64 | with every popped page marked visited, the run always ends, and a completed run reports exactly the reachable URLs whose test passed |
| UrlTester.OnlyRootReachable | accessibility_tool/util/url_tester.py:25-28 | on the site whose root only links to itself, the root is the only reachable URL |
| UrlTester.SelfLinkedFailingPageNeverCompletes | accessibility_tool/util/url_tester.py:51-64 | as written, a self-linked root whose test fails exhausts every fuel bound |
| UrlTester.SelfLinkedFailingPageCompletesWhenVisited | accessibility_tool/util/url_tester.py:43-64 | with the correction, the same site completes with no tested URLs |
| ResultsCsv.ItemsDataAppend | util/results_processor.py:87-89 | the data of concatenated check items is the concatenation of their data |
| ResultsCsv.AppendItemsData | util/results_processor.py:75-84 | the loop appends each item's contribution: its id without data, the list's elements, the dict's `k: v` pairs joined with ` | `, the string, or nothing |
| ResultsCsv.CollectData | util/results_processor.py:72-89 | the collected data is the node's data |
| ResultsCsv.NodeDataInOrder | util/results_processor.py:87-89 | a node's data takes its items in the order `any`, `all`, `none` |
| ResultsCsv.EmptyDataPlaceholder | util/results_processor.py:91-96 | a node whose items contribute no data shows `No data available` |
| ResultsCsv.OtherItemsContributeNothing | util/results_processor.py:75-84 | items whose data has another type, or is an empty list, contribute nothing |
| ResultsCsv.FlattenTargetsMembers | util/results_processor.py:99-100 | a string is among the flattened targets exactly when it is a target or an element of a nested target list |
| ResultsCsv.NodeRows | util/results_processor.py:70-114 | a violation produces one row per node |
| ResultsCsv.Blocks | util/results_processor.py:67-114 | the violations produce one block of rows each |
| ResultsCsv.FlattenAppend | util/results_processor.py:67-114 | the rows of two lists of violations, one after the other, are the rows of the first followed by those of the second |
| ResultsCsv.FlattenIndex | util/results_processor.py:67-114 | row `j` of block `i` sits at the size of the blocks before it, plus `j` |
| ResultsCsv.FlattenMember | util/results_processor.py:67-114 | every flattened row is a row of some block |
| ResultsCsv.BlocksPrefix | util/results_processor.py:67-70 | the blocks of a prefix of the violations are a prefix of the blocks |
| ResultsCsv.TableRowsCount | util/results_processor.py:67-114 | there is exactly one data row per (violation, node) pair |
| ResultsCsv.TableRowAt | util/results_processor.py:67-114 | the row of node `j` of violation `i` comes after the rows of all earlier pairs, in input order |
| ResultsCsv.CsvTableShape | util/results_processor.py:64-114 | the CSV has three header rows and then one row per pair, and every row has the 11 fields of the column header |
| ResultsCsv.CsvRowOfPair | util/results_processor.py:64-114 | the row of node `j` of violation `i` sits at 3 + the number of earlier pairs + `j` |
| ResultsCsv.RowIsNodeRow | util/results_processor.py:67-114 | every data row is the row of one (violation, node) pair |
| ResultsCsv.NodeRowOf | util/results_processor.py:102-114 | the row holds the violation's id, description, impact and help, the node's HTML, the flattened targets, the help URL, the comma-joined tags, the failure summary, the flattened data and the page URL |
| ResultsCsv.AppendNodeRows | util/results_processor.py:70-114 | the node loop appends the violation's rows |
| ResultsCsv.AppendTableRows | util/results_processor.py:67-114 | the violation loop appends the table rows |
| ResultsCsv.CsvRows | util/results_processor.py:64-114 | the rows written are the CSV table: the header rows and then one row per pair |

## Left out

- The Streamlit UI, its session state and the sitemap-then-crawl fallback of `handle_url_extraction`: they are UI orchestration. Only the base-URL normalisation at util/helper_functions.py:196-198 is modelled.
- The Selenium/axe audit engine: the outcome of a page test is the predicate `testOk`.
- The scoring of the report viewer: it is floating-point arithmetic over loaded JSON.
- `urllib.parse`, `validators`, `requests`, `ElementTree`, `BeautifulSoup` and `RobotFileParser`: they are oracles. URL parsing per RFC 3986 and robots matching per RFC 9309 are not re-implemented.
- The `ValueError` that `urlparse` can raise: the parse oracle is total.
- Request headers, the User-Agent header, timeouts, redirects and `stream=True`: a request is a URL, plus a parameter map where the source passes one, and the response is a status and a body.
- The order of the `params` dict of `fetch_sitemap`: it is a map.
- Decoding of sitemap bytes: content is already-decoded text, so a UTF-8 decode error is not modelled.
- Python's `str.lower` and `str.strip`: they are modelled on ASCII letters and ASCII whitespace only.
- A `<loc/>` with no text: the model's `loc` is absent there. The older parser then adds `None`. The newer one raises `AttributeError` inside the loop (util/sitemap_parser.py:95-108); its handler catches only `ET.ParseError`, so the error escapes `parse_sitemap`, `parse_sitemap_index` and `has_sitemap` to their callers.
- Crawler.CrawledUrlsShape and LegacyCrawler.LegacyCrawledUrlsShape (its second part): they assume `GetUrlRoundTrips`, that rebuilding a parsed URL without a fragment gives back the same string. Python's `urlunparse` breaks this: it lower-cases the scheme (`HTTP://a/` becomes `http://a/`) and drops an empty `?` or `#` (`http://a/?` becomes `http://a/`). Crawler.CrawledFromAdmittedUrl states the shape without that assumption, on the URL before defragmenting.
- `str(target)` for a non-string target, and a non-string item id: targets and ids are strings.
- Writing files, `os.makedirs`, the JSON dump, and CSV quoting: only the path strings and the CSV rows are modelled.
- The clock: `datetime.now()` is the `timestamp` argument.
- The `can_fetch` wrapper of accessibility_tool/util/helpers.py:113-130: it only reads robots.txt and asks the parser.
- Generic exceptions around a crawl: the modelled request oracle does not raise. A failed request is an absent response.
- The pop order of the worklists' `set.pop()`: each loop picks an arbitrary frontier element, so the proofs hold for every order.
- The two-argument `is_valid_url` of the older crawler and the worklists: in Python this call raises `TypeError`. The model treats it as an opaque predicate of the URL and base URL.
- UrlTester.ExtractAndTestUrls: takes a `fuel` bound on loop iterations and answers `OutOfFuel` when it runs out. The loop as written need not terminate when `run_accessibility_tests` raises out on a self-linked page, and that happens only when the `print` in its catch-all handler fails (accessibility_tool/util/accessibility_tester.py:45-47). The test outcome `testOk` is left unconstrained, so the model also covers that case. With the real callee every test counts as passed, so `tested_urls` grows with every visit. UrlTester.PassingTestsMarkEveryVisit shows that the tested set is then the visited set, which makes UrlTester.ExtractAndTestUrlsVisited the loop the program runs, and its `!result.OutOfFuel?` the termination result for it. Its result holds the tested URLs as a set, where the source returns a list.
- UrlTester.ExtractAndTestUrls: an exception from link extraction aborts the source's run. Here it ends the run with `ExtractionFailed`, naming the page.
- LatestResults.LatestResultsDirectory: times are natural numbers counted from `datetime.min`, which is 0.

## Findings

| source | as written | input that shows it | evidently intended | confidence | as-written member | corrected member |
|---|---|---|---|---|---|---|
| accessibility_tool/util/url_tester.py:51-64 | latent: a page whose `run_accessibility_tests` call raises is never added to `tested_urls`, but its links are still queued, so such a page that links to itself is re-queued forever | a site with the single page `https://example.com/`, linking to `/`, on which `run_accessibility_tests` raises. That function catches every `Exception` and returns `{}` (accessibility_tool/util/accessibility_tester.py:19-47), so it raises only when the `print` in its own handler fails | mark every popped page as visited, whatever its test outcome, so the loop ends | not executed; latent, since an ordinary test failure does not raise | UrlTester.SelfLinkedFailingPageNeverCompletes | UrlTester.ExtractAndTestUrlsVisited |
