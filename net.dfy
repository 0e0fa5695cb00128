/**
 * The outside world as the URL discovery code sees it. The URL library
 * (`urlparse`, `urlunparse`, `urljoin`, the `validators` package) and the
 * network (GET and HEAD over HTTP, the robots.txt rule evaluator, the XML
 * and HTML parsers) are not re-implemented: each is an oracle, a total
 * function handed in with the inputs. The world does not change while a
 * discovery run is in progress, so asking twice gives the same answer.
 */
module Net {
  import opened Wrappers

  /** The six fields of `urllib.parse.urlparse`, plus the derived `hostname`. */
  datatype UrlParts = UrlParts(
    scheme: string,
    netloc: string,
    path: string,
    params: string,
    query: string,
    fragment: string,
    hostname: Option<string>)

  datatype UrlLib = UrlLib(
    parse: string -> UrlParts,            // urlparse
    unparse: UrlParts -> string,          // urlunparse, ParseResult.geturl
    join: (string, string) -> string,     // urljoin(base, reference), section 5.2 of RFC 3986
    validates: string -> bool)            // validators.url

  /** A GET request: the URL and the query parameters handed to `requests.get(params=...)`. */
  datatype Request = Request(url: string, params: map<string, string>)

  datatype Response = Response(status: int, body: string)

  /** An `<a href=...>` element: its `href` and its `rel` attribute, a list of tokens when present. */
  datatype Link = Link(href: string, rel: Option<seq<string>>)

  /** An XML child element: its namespaced tag and the text of its first `sitemap:loc` child. */
  datatype XmlChild = XmlChild(tag: string, loc: Option<string>)

  /** The result of `ElementTree.fromstring`: a parse error, or the root's tag and its children. */
  datatype XmlDoc = Malformed | Doc(rootTag: string, children: seq<XmlChild>)

  datatype Web = Web(
    get: Request -> Option<Response>,           // None: requests raised a RequestException
    head: string -> Option<string>,             // Content-Type after a HEAD (missing header: ""); None: exception
    robots: (string, string, string) -> bool,   // RobotFileParser.parse(text) then can_fetch(agent, url)
    anchors: string -> seq<Link>,               // BeautifulSoup: the <a> elements that carry an href
    parseXml: string -> XmlDoc)                 // ElementTree.fromstring

  /** A GET without query parameters. */
  function Get(web: Web, url: string): Option<Response> {
    web.get(Request(url, map[]))
  }

  /** `urlparse(url)._replace(fragment='').geturl()`. */
  function Defragment(lib: UrlLib, url: string): string {
    lib.unparse(lib.parse(url).(fragment := ""))
  }

  /** `urlunparse((scheme, netloc, path, '', '', ''))`. */
  function Cleaned(lib: UrlLib, url: string): string {
    var p := lib.parse(url);
    lib.unparse(p.(params := "", query := "", fragment := ""))
  }

  /**
   * The one assumption some lemmas make about the URL library: rebuilding a
   * URL that has no fragment gives back the string that was parsed.
   */
  ghost predicate GetUrlRoundTrips(lib: UrlLib) {
    forall s :: lib.parse(s).fragment == "" ==> lib.unparse(lib.parse(s).(fragment := "")) == s
  }
}
