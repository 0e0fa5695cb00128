/**
 * The names the tool derives from a URL: results directories, page
 * identifiers and file names, display strings, and the base URL a discovery
 * run is started from. Creating directories and reading the clock are not
 * part of the model: the timestamp is an input.
 */
module Naming {
  import opened Strings
  import opened Net

  /** `os.path.join("data", "accessibility_results")`, the results root in both config packages. */
  const ResultsDirectory: string := "data/accessibility_results"

  /** `posixpath.join(a, b)`. */
  function PathJoin(a: string, b: string): string {
    if StartsWith(b, "/") then b
    else if a == "" || EndsWith(a, "/") then a + b
    else a + "/" + b
  }

  lemma PathJoinPlain(a: string, b: string)
    requires a != [] && a[|a| - 1] != '/' && (b == [] || b[0] != '/')
    ensures PathJoin(a, b) == a + "/" + b
  {
  }

  /** The netloc with every `www.` removed. */
  function DomainOf(lib: UrlLib, url: string): string {
    ReplaceAll(lib.parse(url).netloc, "www.", "")
  }

  /**
   * A leading `www.` goes; a `www.` after a part in which no match starts
   * goes too; a netloc without any `www.` stays as it is.
   */
  lemma DomainDropsWww(front: string, host: string)
    ensures ReplaceAll("www." + host, "www.", "") == ReplaceAll(host, "www.", "")
    ensures (forall i :: 0 <= i < |front| ==> !StartsWith((front + "www." + host)[i..], "www."))
      ==> ReplaceAll(front + "www." + host, "www.", "") == front + ReplaceAll(host, "www.", "")
    ensures !Contains(host, "www.") ==> ReplaceAll(host, "www.", "") == host
  {
    var s := "www." + host;
    assert s[..4] == "www." && s[4..] == host;
    if forall i :: 0 <= i < |front| ==> !StartsWith((front + "www." + host)[i..], "www.") {
      assert front + "www." + host == front + s;
      ReplaceAllAfterPrefix(front, s, "www.", "");
    }
    if !Contains(host, "www.") {
      ReplaceAllAbsent(host, "www.", "");
    }
  }

  /** `replace` scans once, left to right, so it can leave a `www.` behind. */
  lemma ReplaceCanLeaveWww()
    ensures ReplaceAll("wwwwww..", "www.", "") == "www."
  {
    assert ReplaceAll(".", "www.", "") == ".";
    assert ReplaceAll("www..", "www.", "") == ".";
    assert ReplaceAll("wwww..", "www.", "") == "w.";
    assert ReplaceAll("wwwww..", "www.", "") == "ww.";
  }

  /** `create_test_directory(url)` of util/helpers.py: `results/domain/timestamp`. */
  function TestDirectory(lib: UrlLib, url: string, timestamp: string): string {
    PathJoin(PathJoin(ResultsDirectory, DomainOf(lib, url)), timestamp)
  }

  lemma TestDirectoryLayout(lib: UrlLib, url: string, timestamp: string)
    requires DomainOf(lib, url) != [] && '/' !in DomainOf(lib, url)
    requires timestamp == [] || timestamp[0] != '/'
    ensures TestDirectory(lib, url, timestamp) == ResultsDirectory + "/" + DomainOf(lib, url) + "/" + timestamp
  {
    var d := DomainOf(lib, url);
    assert d[0] in d && d[|d| - 1] in d;
    PathJoinPlain(ResultsDirectory, d);
    PathJoinPlain(ResultsDirectory + "/" + d, timestamp);
  }

  /** The path with its slashes stripped and the inner ones turned into `_`. */
  function FlatPath(path: string): string {
    ReplaceAll(Strip(path, '/'), "/", "_")
  }

  lemma FlatPathHasNoSlash(path: string)
    ensures '/' !in FlatPath(path)
    ensures FlatPath(path) == [] <==> Strip(path, '/') == []
  {
    ReplaceCharAt(Strip(path, '/'), '/', '_');
  }

  /** The page component of the older `create_test_directory`: `homepage` for an empty path. */
  function PageComponent(lib: UrlLib, url: string): string {
    var page := FlatPath(lib.parse(url).path);
    if page == [] then "homepage" else page
  }

  /** `create_test_directory(url)` of accessibility_tool/util/helpers.py: `results/domain/page/timestamp`. */
  function TestDirectoryLegacy(lib: UrlLib, url: string, timestamp: string): string {
    PathJoin(PathJoin(PathJoin(ResultsDirectory, DomainOf(lib, url)), PageComponent(lib, url)), timestamp)
  }

  lemma TestDirectoryLegacyLayout(lib: UrlLib, url: string, timestamp: string)
    requires DomainOf(lib, url) != [] && '/' !in DomainOf(lib, url)
    requires timestamp == [] || timestamp[0] != '/'
    ensures var page := PageComponent(lib, url);
      && page != [] && '/' !in page
      && (Strip(lib.parse(url).path, '/') == [] ==> page == "homepage")
      && TestDirectoryLegacy(lib, url, timestamp) == ResultsDirectory + "/" + DomainOf(lib, url) + "/" + page + "/" + timestamp
  {
    var d := DomainOf(lib, url);
    var page := PageComponent(lib, url);
    FlatPathHasNoSlash(lib.parse(url).path);
    assert '/' !in page;
    assert d[0] in d && d[|d| - 1] in d;
    assert page[0] in page && page[|page| - 1] in page;
    PathJoinPlain(ResultsDirectory, d);
    PathJoinPlain(ResultsDirectory + "/" + d, page);
    PathJoinPlain(ResultsDirectory + "/" + d + "/" + page, timestamp);
  }

  /** `ResultsProcessor._get_page_identifier`. */
  function PageIdentifier(lib: UrlLib, url: string): string {
    var domainName := ReplaceAll(DomainOf(lib, url), ".", "_");
    var page := FlatPath(lib.parse(url).path);
    if page == [] then domainName else page
  }

  /**
   * The identifier never holds a `/` (so the result files land directly in
   * the test directory), and the homepage is named after its domain with the
   * dots turned into underscores.
   */
  lemma PageIdentifierShape(lib: UrlLib, url: string)
    requires '/' !in lib.parse(url).netloc
    ensures '/' !in PageIdentifier(lib, url)
    ensures Strip(lib.parse(url).path, '/') == [] ==> PageIdentifier(lib, url) == ReplaceAll(DomainOf(lib, url), ".", "_")
    ensures Strip(lib.parse(url).path, '/') == [] ==> '.' !in PageIdentifier(lib, url)
    ensures Strip(lib.parse(url).path, '/') != [] ==> PageIdentifier(lib, url) == FlatPath(lib.parse(url).path)
  {
    var netloc := lib.parse(url).netloc;
    var d := DomainOf(lib, url);
    ReplaceAllChars(netloc, "www.", "");
    assert '/' !in d;
    ReplaceCharAt(d, '.', '_');
    FlatPathHasNoSlash(lib.parse(url).path);
  }

  function JsonFileName(testDirectory: string, identifier: string): string {
    PathJoin(testDirectory, identifier + "_accessibility_test.json")
  }

  function CsvFileName(testDirectory: string, identifier: string): string {
    PathJoin(testDirectory, identifier + "_accessibility_test.csv")
  }

  /**
   * Both result files are named after the page and, with an identifier free
   * of `/` (as PageIdentifierShape gives), sit directly inside the test directory.
   */
  lemma ResultFileNames(testDirectory: string, identifier: string)
    requires '/' !in identifier
    requires testDirectory != [] && testDirectory[|testDirectory| - 1] != '/'
    ensures JsonFileName(testDirectory, identifier) == testDirectory + "/" + identifier + "_accessibility_test.json"
    ensures CsvFileName(testDirectory, identifier) == testDirectory + "/" + identifier + "_accessibility_test.csv"
  {
    var json := identifier + "_accessibility_test.json";
    var csv := identifier + "_accessibility_test.csv";
    assert json[0] != '/' by {
      if identifier != [] { assert json[0] == identifier[0] && identifier[0] in identifier; }
    }
    assert csv[0] != '/' by {
      if identifier != [] { assert csv[0] == identifier[0] && identifier[0] in identifier; }
    }
    PathJoinPlain(testDirectory, json);
    PathJoinPlain(testDirectory, csv);
  }

  /** The string part of `extract_domain_and_page_from_json`: `domain/path`, or the domain alone. */
  function DomainAndPage(lib: UrlLib, url: string): string {
    var p := lib.parse(url);
    var path := LStrip(RStrip(p.path, '/'), '/');
    if path != [] then p.netloc + "/" + path else p.netloc
  }

  /**
   * The display string starts with the netloc; anything after it is one `/`
   * and a page path that neither starts nor ends with a slash.
   */
  lemma DomainAndPageShape(lib: UrlLib, url: string)
    ensures var netloc := lib.parse(url).netloc;
      var d := DomainAndPage(lib, url);
      && StartsWith(d, netloc)
      && (d == netloc || (|d| > |netloc| + 1 && d[|netloc|] == '/' && d[|netloc| + 1] != '/' && d[|d| - 1] != '/'))
  {
    var p := lib.parse(url);
    var path := LStrip(RStrip(p.path, '/'), '/');
    StrippedEnds(p.path);
    if path != [] {
      SlashJoinShape(p.netloc, path);
    } else {
      assert p.netloc[..|p.netloc|] == p.netloc;
    }
  }

  lemma StrippedEnds(s: string)
    ensures var q := LStrip(RStrip(s, '/'), '/');
      q == [] || (q[0] != '/' && q[|q| - 1] != '/')
  {
    var r := RStrip(s, '/');
    var q := LStrip(r, '/');
    if q != [] {
      assert q[|q| - 1] == r[|r| - 1];
    }
  }

  lemma SlashJoinShape(n: string, q: string)
    requires q != [] && q[0] != '/' && q[|q| - 1] != '/'
    ensures var d := n + "/" + q;
      && StartsWith(d, n) && |d| > |n| + 1 && d[|n|] == '/' && d[|n| + 1] != '/' && d[|d| - 1] != '/'
  {
    var d := n + "/" + q;
    assert d[..|n|] == n;
    assert d[|n| + 1] == q[0] && d[|d| - 1] == q[|q| - 1];
  }

  /** The base URL of util/helper_functions.py:196-198: origin, path without trailing slashes, one `/`. */
  function BaseUrl(lib: UrlLib, url: string): string {
    var p := lib.parse(url);
    var basePath := RStrip(p.path, '/');
    if basePath != [] then p.scheme + "://" + p.netloc + basePath + "/"
    else p.scheme + "://" + p.netloc + "/"
  }

  /**
   * The base URL is the origin followed by the path with its trailing slashes
   * replaced by exactly one; with a non-empty host it never ends in `//`.
   */
  lemma BaseUrlShape(lib: UrlLib, url: string)
    ensures var p := lib.parse(url);
      && BaseUrl(lib, url) == p.scheme + "://" + p.netloc + RStrip(p.path, '/') + "/"
      && StartsWith(BaseUrl(lib, url), p.scheme + "://" + p.netloc)
      && EndsWith(BaseUrl(lib, url), "/")
      && (p.netloc != [] && p.netloc[|p.netloc| - 1] != '/' ==> !EndsWith(BaseUrl(lib, url), "//"))
  {
    var p := lib.parse(url);
    var origin := p.scheme + "://" + p.netloc;
    var b := BaseUrl(lib, url);
    assert b == origin + RStrip(p.path, '/') + "/";
    assert b[..|origin|] == origin;
    if p.netloc != [] && p.netloc[|p.netloc| - 1] != '/' {
      var bp := RStrip(p.path, '/');
      assert b[|b| - 2] == if bp != [] then bp[|bp| - 1] else p.netloc[|p.netloc| - 1];
    }
  }
}
