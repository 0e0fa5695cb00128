/**
 * The URL admission predicate `is_valid_url`, the fail-open robots.txt check
 * `can_fetch` and the reachability probe `is_url_accessible`.
 *
 * util/helper_functions.py and util/helpers.py hold line-for-line the same
 * `is_valid_url`, `can_fetch` and `is_url_accessible`; each is modelled once.
 * accessibility_tool/util/helpers.py holds an older `is_valid_url` that hands
 * the parsed record, not the cleaned string, to the validator.
 */
module UrlFilter {
  import opened Wrappers
  import opened Strings
  import opened Net

  /** Matched with `endswith` on the lower-cased path; `jpeg` and `webp` carry no dot. */
  const IgnoredExtensions: seq<string> := [".pdf", ".jpg", "jpeg", "webp", ".png", ".svg", ".css", ".js", ".xml"]

  predicate HasIgnoredExtension(path: string) {
    exists i :: 0 <= i < |IgnoredExtensions| && EndsWith(Lower(path), IgnoredExtensions[i])
  }

  predicate IsHttpScheme(scheme: string) {
    scheme == "http" || scheme == "https"
  }

  /** The HEAD request: `'text/html' in Content-Type`; an exception rejects. */
  predicate HeadReportsHtml(web: Web, url: string) {
    match web.head(url)
    case None => false
    case Some(contentType) => Contains(contentType, "text/html")
  }

  /** The checks of `is_valid_url` that look only at the strings, after the validator. */
  predicate PassesStringChecks(lib: UrlLib, url: string, base: string) {
    var p := lib.parse(url);
    && IsHttpScheme(p.scheme)
    && p.fragment == "" && p.query == ""
    && !HasIgnoredExtension(p.path)
    && StartsWith(url, base)
  }

  /** `is_valid_url(url, base_url, session)`: the early-return chain, HEAD last. */
  predicate IsValidUrl(lib: UrlLib, web: Web, url: string, base: string) {
    var p := lib.parse(url);
    var cleaned := Cleaned(lib, url);
    if !lib.validates(cleaned) then false
    else if !IsHttpScheme(p.scheme) then false
    else if p.fragment != "" || p.query != "" then false
    else if HasIgnoredExtension(p.path) then false
    else if !StartsWith(url, base) then false
    else HeadReportsHtml(web, cleaned)
  }

  /** A URL is admitted exactly when every check passes. */
  lemma IsValidUrlExactly(lib: UrlLib, web: Web, url: string, base: string)
    ensures IsValidUrl(lib, web, url, base) <==>
      lib.validates(Cleaned(lib, url)) && PassesStringChecks(lib, url, base) && HeadReportsHtml(web, Cleaned(lib, url))
  {
  }

  /** Each string check on its own rejects. */
  lemma IsValidUrlRejects(lib: UrlLib, web: Web, url: string, base: string)
    ensures !IsHttpScheme(lib.parse(url).scheme) ==> !IsValidUrl(lib, web, url, base)
    ensures lib.parse(url).fragment != "" || lib.parse(url).query != "" ==> !IsValidUrl(lib, web, url, base)
    ensures HasIgnoredExtension(lib.parse(url).path) ==> !IsValidUrl(lib, web, url, base)
    ensures !StartsWith(url, base) ==> !IsValidUrl(lib, web, url, base)
  {
  }

  /** The validator sees the URL with params, query and fragment dropped, and runs first. */
  lemma ValidatorRunsFirst(lib: UrlLib, web: Web, url: string, base: string)
    requires !lib.validates(Cleaned(lib, url))
    ensures !IsValidUrl(lib, web, url, base)
  {
  }

  /**
   * No HEAD request is made before every string check passes: until then the
   * verdict is false whatever the network would answer.
   */
  lemma HeadOnlyAfterStringChecks(lib: UrlLib, web1: Web, web2: Web, url: string, base: string)
    requires !(lib.validates(Cleaned(lib, url)) && PassesStringChecks(lib, url, base))
    ensures !IsValidUrl(lib, web1, url, base) && !IsValidUrl(lib, web2, url, base)
  {
  }

  /** Past the string checks, the verdict is the HEAD answer; a failed request rejects. */
  lemma HeadDecidesLast(lib: UrlLib, web: Web, url: string, base: string)
    requires lib.validates(Cleaned(lib, url)) && PassesStringChecks(lib, url, base)
    ensures web.head(Cleaned(lib, url)).None? ==> !IsValidUrl(lib, web, url, base)
    ensures web.head(Cleaned(lib, url)).Some? ==>
      (IsValidUrl(lib, web, url, base) <==> Contains(web.head(Cleaned(lib, url)).value, "text/html"))
  {
  }

  /** `jpeg` and `webp` are matched as bare suffixes, so a path merely ending in those letters is refused. */
  lemma BareSuffixesRejected()
    ensures HasIgnoredExtension("/blog/webp")
    ensures HasIgnoredExtension("/Recipes/NOJPEG")
    ensures !HasIgnoredExtension("/blog/jpg")
  {
    assert Lower("/blog/webp") == "/blog/webp";
    assert EndsWith(Lower("/blog/webp"), IgnoredExtensions[3]);
    assert Lower("/Recipes/NOJPEG") == "/recipes/nojpeg";
    assert EndsWith(Lower("/Recipes/NOJPEG"), IgnoredExtensions[2]);
    assert Lower("/blog/jpg") == "/blog/jpg";
  }

  /**
   * The older `is_valid_url` of accessibility_tool/util/helpers.py: the
   * validator gets the parsed record (`validatesParsed`), the other checks are
   * the same, and the HEAD request is made last on the cleaned URL.
   */
  predicate IsValidUrlLegacy(lib: UrlLib, validatesParsed: UrlParts -> bool, web: Web, url: string, base: string) {
    var p := lib.parse(url);
    if !validatesParsed(p) then false
    else if !IsHttpScheme(p.scheme) then false
    else if p.fragment != "" || p.query != "" then false
    else if HasIgnoredExtension(p.path) then false
    else if !StartsWith(url, base) then false
    else HeadReportsHtml(web, Cleaned(lib, url))
  }

  lemma IsValidUrlLegacyExactly(lib: UrlLib, validatesParsed: UrlParts -> bool, web: Web, url: string, base: string)
    ensures IsValidUrlLegacy(lib, validatesParsed, web, url, base) <==>
      validatesParsed(lib.parse(url)) && PassesStringChecks(lib, url, base) && HeadReportsHtml(web, Cleaned(lib, url))
  {
  }

  /** The two versions differ only in what the validator is shown. */
  lemma LegacyAgreesWhenValidatorsAgree(lib: UrlLib, validatesParsed: UrlParts -> bool, web: Web, url: string, base: string)
    requires validatesParsed(lib.parse(url)) == lib.validates(Cleaned(lib, url))
    ensures IsValidUrlLegacy(lib, validatesParsed, web, url, base) == IsValidUrl(lib, web, url, base)
  {
  }

  predicate HasHttpPrefix(url: string) {
    StartsWith(url, "http://") || StartsWith(url, "https://")
  }

  /** `is_url_accessible(url)`: a GET answered with status 200. */
  predicate IsUrlAccessible(web: Web, url: string) {
    if !HasHttpPrefix(url) then false
    else match Get(web, url)
      case None => false
      case Some(response) => response.status == 200
  }

  /** Without an http(s) prefix no request is made: the answer is false in every world. */
  lemma AccessibleNeedsHttpPrefix(web1: Web, web2: Web, url: string)
    requires !HasHttpPrefix(url)
    ensures !IsUrlAccessible(web1, url) && !IsUrlAccessible(web2, url)
  {
  }

  lemma IsUrlAccessibleExactly(web: Web, url: string)
    ensures IsUrlAccessible(web, url) <==> HasHttpPrefix(url) && Get(web, url).Some? && Get(web, url).value.status == 200
  {
  }

  /** `{scheme}://{netloc}/robots.txt`. */
  function RobotsTxtUrl(lib: UrlLib, url: string): (r: string)
    ensures r == lib.parse(url).scheme + "://" + lib.parse(url).netloc + "/robots.txt"
    ensures EndsWith(r, "/robots.txt")
  {
    var p := lib.parse(url);
    p.scheme + "://" + p.netloc + "/robots.txt"
  }

  /** `can_fetch(url, user_agent)`: the robots.txt verdict, allowing when the file cannot be had. */
  predicate CanFetch(lib: UrlLib, web: Web, url: string, userAgent: string) {
    match Get(web, RobotsTxtUrl(lib, url))
    case None => true
    case Some(response) =>
      if response.status != 200 then true
      else web.robots(response.body, userAgent, url)
  }

  /** Fail open: an error or a non-200 answer for robots.txt allows; otherwise the rules decide. */
  lemma CanFetchFailsOpen(lib: UrlLib, web: Web, url: string, userAgent: string)
    ensures var response := Get(web, RobotsTxtUrl(lib, url));
      (response.None? || response.value.status != 200) ==> CanFetch(lib, web, url, userAgent)
    ensures var response := Get(web, RobotsTxtUrl(lib, url));
      (response.Some? && response.value.status == 200) ==>
        (CanFetch(lib, web, url, userAgent) <==> web.robots(response.value.body, userAgent, url))
  {
  }

  /** Fail open against fail closed: a robots.txt answered with 404 never blocks. */
  lemma RobotsNotFoundAllowsAll(lib: UrlLib, web: Web, userAgent: string)
    requires forall url :: Get(web, RobotsTxtUrl(lib, url)).Some? && Get(web, RobotsTxtUrl(lib, url)).value.status == 404
    ensures forall url :: CanFetch(lib, web, url, userAgent)
  {
  }
}
