/**
 * `get_latest_results_directory`: the newest timestamped results directory
 * under a results root. The directory listing and `datetime.strptime` are
 * inputs: a listing of domain directories with their own listings, and a
 * parser that gives the time of a directory name or nothing when the name is
 * not a timestamp. Times count from `datetime.min`, which is 0.
 */
module LatestResults {
  import opened Wrappers
  import opened Naming

  /** An entry of `os.listdir`, with what `os.path.isdir` says of it. */
  datatype Entry = Entry(name: string, isDir: bool)

  /** An entry of the results root, with the listing of its own contents. */
  datatype DomainEntry = DomainEntry(name: string, isDir: bool, contents: seq<Entry>)

  /** `datetime.strptime(name, "%Y-%m-%d_%H-%M-%S")`; None stands for the ValueError. */
  type TimestampParser = string -> Option<nat>

  /** The loop variables `latest_time` and `latest_directory`. */
  datatype Latest = Latest(time: nat, directory: Option<string>)

  /** A timestamped directory: its full path and its time. */
  datatype Candidate = Candidate(path: string, time: nat)

  ghost predicate IsSubdirectory(contents: seq<Entry>, name: string) {
    exists j :: 0 <= j < |contents| && contents[j].isDir && contents[j].name == name
  }

  /**
   * The list comprehension keeping the entries that are directories: it keeps
   * only directory names (`SubdirectoriesComplete` gives every one of them,
   * `SubdirectoriesInOrder` the order).
   */
  function Subdirectories(contents: seq<Entry>): (r: seq<string>)
    ensures forall k :: 0 <= k < |r| ==> IsSubdirectory(contents, r[k])
  {
    if contents == [] then []
    else
      var rest := Subdirectories(contents[1..]);
      assert forall n :: IsSubdirectory(contents[1..], n) ==> IsSubdirectory(contents, n) by {
        forall n | IsSubdirectory(contents[1..], n) ensures IsSubdirectory(contents, n) {
          var j :| 0 <= j < |contents[1..]| && contents[1..][j].isDir && contents[1..][j].name == n;
          assert contents[j + 1] == contents[1..][j];
        }
      }
      if contents[0].isDir then
        assert IsSubdirectory(contents, contents[0].name);
        assert forall k :: 0 < k < |rest| + 1 ==> ([contents[0].name] + rest)[k] == rest[k - 1];
        [contents[0].name] + rest
      else rest
  }

  /** Every directory of the listing is kept. */
  lemma {:induction false} SubdirectoriesComplete(contents: seq<Entry>, k: int)
    requires 0 <= k < |contents| && contents[k].isDir
    ensures contents[k].name in Subdirectories(contents)
    decreases k
  {
    if k > 0 {
      assert contents[k] == contents[1..][k - 1];
      SubdirectoriesComplete(contents[1..], k - 1);
    }
  }

  /**
   * The names come out in listing order: the names of a concatenated listing
   * are the names of its first part followed by those of the second.
   */
  lemma {:induction false} SubdirectoriesInOrder(a: seq<Entry>, b: seq<Entry>)
    ensures Subdirectories(a + b) == Subdirectories(a) + Subdirectories(b)
    decreases |a|
  {
    if a == [] {
      assert a + b == b;
    } else {
      var ab := a + b;
      assert ab[0] == a[0] && ab[1..] == a[1..] + b;
      SubdirectoriesInOrder(a[1..], b);
      var front := if a[0].isDir then [a[0].name] else [];
      assert Subdirectories(ab) == front + Subdirectories(ab[1..]);
      assert Subdirectories(a) == front + Subdirectories(a[1..]);
      assert front + (Subdirectories(a[1..]) + Subdirectories(b)) == (front + Subdirectories(a[1..])) + Subdirectories(b);
    }
  }

  /** A one-entry listing gives its name exactly when that entry is a directory. */
  lemma SubdirectoriesOfOne(e: Entry)
    ensures Subdirectories([e]) == if e.isDir then [e.name] else []
  {
    assert [e][1..] == [];
  }

  /** One step of the inner loop. */
  function Consider(acc: Latest, domainPath: string, name: string, parse: TimestampParser): Latest {
    match parse(name)
    case None => acc
    case Some(t) => if t > acc.time then Latest(t, Some(PathJoin(domainPath, name))) else acc
  }

  /** The inner loop over the timestamp directories of one domain. */
  function ScanTimestamps(acc: Latest, domainPath: string, names: seq<string>, parse: TimestampParser): Latest
    decreases |names|
  {
    if names == [] then acc
    else ScanTimestamps(Consider(acc, domainPath, names[0], parse), domainPath, names[1..], parse)
  }

  function ScanDomain(acc: Latest, base: string, d: DomainEntry, parse: TimestampParser): Latest {
    if d.isDir then ScanTimestamps(acc, PathJoin(base, d.name), Subdirectories(d.contents), parse) else acc
  }

  /** The outer loop over the domain directories. */
  function ScanDomains(acc: Latest, base: string, domains: seq<DomainEntry>, parse: TimestampParser): Latest
    decreases |domains|
  {
    if domains == [] then acc
    else ScanDomains(ScanDomain(acc, base, domains[0], parse), base, domains[1..], parse)
  }

  function LatestDirectory(base: string, domains: seq<DomainEntry>, parse: TimestampParser): Option<string> {
    ScanDomains(Latest(0, None), base, domains, parse).directory
  }

  /** The nested loops of the source. */
  method LatestResultsDirectory(base: string, domains: seq<DomainEntry>, parse: TimestampParser)
    returns (latest: Option<string>)
    ensures latest == LatestDirectory(base, domains, parse)
  {
    var latestTime: nat := 0;
    latest := None;
    var i := 0;
    while i < |domains|
      invariant 0 <= i <= |domains|
      invariant ScanDomains(Latest(latestTime, latest), base, domains[i..], parse) == ScanDomains(Latest(0, None), base, domains, parse)
    {
      var d := domains[i];
      assert domains[i..][1..] == domains[i + 1..];
      var fullDomainPath := PathJoin(base, d.name);
      if d.isDir {
        var timestamps := Subdirectories(d.contents);
        var j := 0;
        while j < |timestamps|
          invariant 0 <= j <= |timestamps|
          invariant ScanDomains(ScanTimestamps(Latest(latestTime, latest), fullDomainPath, timestamps[j..], parse), base, domains[i + 1..], parse)
                 == ScanDomains(Latest(0, None), base, domains, parse)
        {
          var ts := timestamps[j];
          assert timestamps[j..][1..] == timestamps[j + 1..];
          match parse(ts) {
            case Some(t) =>
              if t > latestTime {
                latestTime := t;
                latest := Some(PathJoin(fullDomainPath, ts));
              }
            case None =>
          }
          j := j + 1;
        }
      }
      i := i + 1;
    }
  }

  /** `c` is the full path and parsed time of one of `names`. */
  ghost predicate ParsedFrom(domainPath: string, names: seq<string>, parse: TimestampParser, c: Candidate) {
    exists j :: 0 <= j < |names| && parse(names[j]) == Some(c.time) && c.path == PathJoin(domainPath, names[j])
  }

  /** The timestamp directories of one domain whose names parse, in listing order. */
  function TimestampCandidates(domainPath: string, names: seq<string>, parse: TimestampParser): (r: seq<Candidate>)
    ensures forall k :: 0 <= k < |r| ==> ParsedFrom(domainPath, names, parse, r[k])
    decreases |names|
  {
    if names == [] then []
    else
      var rest := TimestampCandidates(domainPath, names[1..], parse);
      assert forall c :: ParsedFrom(domainPath, names[1..], parse, c) ==> ParsedFrom(domainPath, names, parse, c) by {
        forall c | ParsedFrom(domainPath, names[1..], parse, c) ensures ParsedFrom(domainPath, names, parse, c) {
          var j :| 0 <= j < |names[1..]| && parse(names[1..][j]) == Some(c.time) && c.path == PathJoin(domainPath, names[1..][j]);
          assert names[j + 1] == names[1..][j];
        }
      }
      match parse(names[0])
      case None => rest
      case Some(t) =>
        var c := Candidate(PathJoin(domainPath, names[0]), t);
        assert ParsedFrom(domainPath, names, parse, c);
        assert forall k :: 0 < k < |rest| + 1 ==> ([c] + rest)[k] == rest[k - 1];
        [c] + rest
  }

  /** Every parseable timestamp directory of every domain directory, in listing order. */
  function Candidates(base: string, domains: seq<DomainEntry>, parse: TimestampParser): seq<Candidate>
    decreases |domains|
  {
    if domains == [] then []
    else
      var d := domains[0];
      (if d.isDir then TimestampCandidates(PathJoin(base, d.name), Subdirectories(d.contents), parse) else [])
      + Candidates(base, domains[1..], parse)
  }

  /** Keeping the first candidate that is strictly later than everything before it. */
  function Pick(acc: Latest, cs: seq<Candidate>): Latest
    decreases |cs|
  {
    if cs == [] then acc
    else Pick(if cs[0].time > acc.time then Latest(cs[0].time, Some(cs[0].path)) else acc, cs[1..])
  }

  lemma {:induction false} PickAppend(acc: Latest, a: seq<Candidate>, b: seq<Candidate>)
    ensures Pick(acc, a + b) == Pick(Pick(acc, a), b)
    decreases |a|
  {
    if a == [] {
      assert a + b == b;
    } else {
      var next := if a[0].time > acc.time then Latest(a[0].time, Some(a[0].path)) else acc;
      assert (a + b)[0] == a[0] && (a + b)[1..] == a[1..] + b;
      assert Pick(acc, a + b) == Pick(next, a[1..] + b);
      assert Pick(acc, a) == Pick(next, a[1..]);
      PickAppend(next, a[1..], b);
    }
  }

  lemma {:induction false} ScanTimestampsIsPick(acc: Latest, domainPath: string, names: seq<string>, parse: TimestampParser)
    ensures ScanTimestamps(acc, domainPath, names, parse) == Pick(acc, TimestampCandidates(domainPath, names, parse))
    decreases |names|
  {
    if names != [] {
      ScanTimestampsIsPick(Consider(acc, domainPath, names[0], parse), domainPath, names[1..], parse);
    }
  }

  /** The nested scan is the single scan over the flattened candidates. */
  lemma {:induction false} ScanDomainsIsPick(acc: Latest, base: string, domains: seq<DomainEntry>, parse: TimestampParser)
    ensures ScanDomains(acc, base, domains, parse) == Pick(acc, Candidates(base, domains, parse))
    decreases |domains|
  {
    if domains != [] {
      var d := domains[0];
      var first := if d.isDir then TimestampCandidates(PathJoin(base, d.name), Subdirectories(d.contents), parse) else [];
      if d.isDir {
        ScanTimestampsIsPick(acc, PathJoin(base, d.name), Subdirectories(d.contents), parse);
      }
      assert ScanDomain(acc, base, d, parse) == Pick(acc, first);
      ScanDomainsIsPick(ScanDomain(acc, base, d, parse), base, domains[1..], parse);
      PickAppend(acc, first, Candidates(base, domains[1..], parse));
    }
  }

  /**
   * Either nothing beats the starting value, or the result is the first
   * candidate that is strictly later than everything before it and no earlier
   * than anything after it.
   */
  lemma {:induction false} PickIsFirstGreatest(acc: Latest, cs: seq<Candidate>)
    ensures var r := Pick(acc, cs);
      || (r == acc && forall j :: 0 <= j < |cs| ==> cs[j].time <= acc.time)
      || exists k :: 0 <= k < |cs| && r == Latest(cs[k].time, Some(cs[k].path)) && acc.time < cs[k].time
           && (forall j :: 0 <= j < k ==> cs[j].time < cs[k].time)
           && (forall j :: k < j < |cs| ==> cs[j].time <= cs[k].time)
    decreases |cs|
  {
    if cs != [] {
      var next := if cs[0].time > acc.time then Latest(cs[0].time, Some(cs[0].path)) else acc;
      PickIsFirstGreatest(next, cs[1..]);
      var r := Pick(acc, cs);
      assert r == Pick(next, cs[1..]);
      if r == next && forall j :: 0 <= j < |cs[1..]| ==> cs[1..][j].time <= next.time {
        if cs[0].time > acc.time {
          assert forall j :: 0 < j < |cs| ==> cs[j].time <= cs[0].time by {
            forall j | 0 < j < |cs| ensures cs[j].time <= cs[0].time {
              assert cs[j] == cs[1..][j - 1];
            }
          }
        } else {
          assert forall j :: 0 <= j < |cs| ==> cs[j].time <= acc.time by {
            forall j | 0 < j < |cs| ensures cs[j].time <= acc.time {
              assert cs[j] == cs[1..][j - 1];
            }
          }
        }
      } else {
        var k' :| 0 <= k' < |cs[1..]| && r == Latest(cs[1..][k'].time, Some(cs[1..][k'].path)) && next.time < cs[1..][k'].time
           && (forall j :: 0 <= j < k' ==> cs[1..][j].time < cs[1..][k'].time)
           && (forall j :: k' < j < |cs[1..]| ==> cs[1..][j].time <= cs[1..][k'].time);
        var k := k' + 1;
        assert cs[k] == cs[1..][k'];
        forall j | 0 <= j < k ensures cs[j].time < cs[k].time {
          if j > 0 { assert cs[j] == cs[1..][j - 1]; }
        }
        forall j | k < j < |cs| ensures cs[j].time <= cs[k].time {
          assert cs[j] == cs[1..][j - 1];
        }
      }
    }
  }

  /**
   * The directory returned is the first timestamp directory with the strictly
   * greatest time; names that do not parse are skipped, ties keep the earlier
   * one, and the answer is None exactly when no directory is later than
   * `datetime.min`.
   */
  lemma LatestDirectoryIsFirstGreatest(base: string, domains: seq<DomainEntry>, parse: TimestampParser)
    ensures var cs := Candidates(base, domains, parse);
      && (LatestDirectory(base, domains, parse).None? <==> forall j :: 0 <= j < |cs| ==> cs[j].time == 0)
      && (LatestDirectory(base, domains, parse).Some? ==>
           exists k :: 0 <= k < |cs| && LatestDirectory(base, domains, parse) == Some(cs[k].path) && cs[k].time > 0
             && (forall j :: 0 <= j < k ==> cs[j].time < cs[k].time)
             && (forall j :: 0 <= j < |cs| ==> cs[j].time <= cs[k].time))
  {
    var cs := Candidates(base, domains, parse);
    ScanDomainsIsPick(Latest(0, None), base, domains, parse);
    PickIsFirstGreatest(Latest(0, None), cs);
    assert LatestDirectory(base, domains, parse) == Pick(Latest(0, None), cs).directory;
  }
}
