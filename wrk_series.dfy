/**
 * `load_series` and the chart decision of `main` in benchmarks/plot_wrk.py:
 * the reports of one server are the files `<prefix>_c*.txt` of the results
 * directory, each parsed in turn, the first failure aborting the load, and
 * the records ordered by connection count.
 *
 * The directory listing is a parameter (its order is the order in which the
 * files are visited), and each entry carries the text that `read()` returns
 * for the file: decoded, and with `\r\n` and a lone `\r` already turned into
 * `\n` by Python's text mode.
 */
module WrkSeries {
  import opened Wrappers
  import opened TextScan
  import opened WrkReport

  /** A directory entry: its name and the text `read()` returns for it. */
  datatype File = File(name: string, text: string)

  /** `RuntimeError("Failed parsing <path>: <cause>")`. */
  datatype LoadError = ParseFailed(path: string, cause: ParseError)

  /** `os.path.join(dir, name)` for a name without `/`. */
  function Join(dir: string, name: string): (path: string)
    ensures EndsWith(path, name)
  {
    if dir == [] || dir[|dir| - 1] == '/' then dir + name else dir + "/" + name
  }

  /** The glob pattern `<prefix>_c*.txt` (with `prefix` free of glob metacharacters) accepts `name`. */
  predicate GlobMatches(prefix: string, name: string) {
    |name| >= |prefix| + 6 && name[..|prefix| + 2] == prefix + "_c" && name[|name| - 4..] == ".txt"
  }

  /** `glob.glob`: the entries whose names the pattern accepts, in listing order. */
  function Glob(listing: seq<File>, prefix: string): (r: seq<File>)
    ensures forall f :: f in r <==> f in listing && GlobMatches(prefix, f.name)
    ensures |r| <= |listing|
  {
    if listing == [] then []
    else
      var rest := Glob(listing[1..], prefix);
      if GlobMatches(prefix, listing[0].name) then [listing[0]] + rest else rest
  }

  /** How one report is parsed: `parse_wrk_output` in `load_series`, any parser in the lemmas below. */
  type Parser = (string, string) -> Result<WrkResult, ParseError>

  /**
   * The records of `files` in order, or the failure of the first file that
   * does not parse. This is the reference the loop of `LoadSeries` is proved
   * against.
   */
  function ParseAll(parse: Parser, dir: string, files: seq<File>): (r: Result<seq<WrkResult>, LoadError>)
    ensures r.Ok? ==> |r.value| == |files|
  {
    if files == [] then Ok([])
    else
      var path := Join(dir, files[0].name);
      match parse(path, files[0].text)
      case Err(e) => Err(ParseFailed(path, e))
      case Ok(w) =>
        var rest :- ParseAll(parse, dir, files[1..]);
        Ok([w] + rest)
  }

  /** `ParseAll` succeeds exactly when every file parses, and then lists their records in file order. */
  lemma {:induction false} ParseAllOk(parse: Parser, dir: string, files: seq<File>)
    ensures ParseAll(parse, dir, files).Ok? <==>
            forall i :: 0 <= i < |files| ==> parse(Join(dir, files[i].name), files[i].text).Ok?
    ensures ParseAll(parse, dir, files).Ok? ==>
            forall i :: 0 <= i < |files| ==>
              ParseAll(parse, dir, files).value[i] == parse(Join(dir, files[i].name), files[i].text).value
  {
    if files != [] {
      ParseAllOk(parse, dir, files[1..]);
      assert forall i :: 1 <= i < |files| ==> files[i] == files[1..][i - 1];
    }
  }

  /** A failure names the first file that does not parse, with that file's own error. */
  lemma {:induction false} ParseAllFirstFailure(parse: Parser, dir: string, files: seq<File>)
    requires ParseAll(parse, dir, files).Err?
    ensures exists k :: 0 <= k < |files| &&
              (forall i :: 0 <= i < k ==> parse(Join(dir, files[i].name), files[i].text).Ok?) &&
              parse(Join(dir, files[k].name), files[k].text).Err? &&
              ParseAll(parse, dir, files).error ==
                ParseFailed(Join(dir, files[k].name), parse(Join(dir, files[k].name), files[k].text).error)
  {
    var path := Join(dir, files[0].name);
    if parse(path, files[0].text).Ok? {
      var tail := files[1..];
      ParseAllFirstFailure(parse, dir, tail);
      var k :| 0 <= k < |tail| &&
              (forall i :: 0 <= i < k ==> parse(Join(dir, tail[i].name), tail[i].text).Ok?) &&
              parse(Join(dir, tail[k].name), tail[k].text).Err? &&
              ParseAll(parse, dir, tail).error ==
                ParseFailed(Join(dir, tail[k].name), parse(Join(dir, tail[k].name), tail[k].text).error);
      assert tail[k] == files[k + 1];
      forall i | 0 <= i < k + 1 ensures parse(Join(dir, files[i].name), files[i].text).Ok? {
        if i > 0 {
          assert files[i] == tail[i - 1];
        }
      }
    }
  }

  /** Appending a file that parses appends its record. */
  lemma {:induction false} ParseAllSnoc(parse: Parser, dir: string, files: seq<File>, f: File)
    requires ParseAll(parse, dir, files).Ok?
    requires parse(Join(dir, f.name), f.text).Ok?
    ensures ParseAll(parse, dir, files + [f]) ==
            Ok(ParseAll(parse, dir, files).value + [parse(Join(dir, f.name), f.text).value])
  {
    if files == [] {
      var w := parse(Join(dir, f.name), f.text).value;
      assert files + [f] == [f] && [f][1..] == [] && [f][0] == f;
      assert ParseAll(parse, dir, [f][1..]) == Ok([]);
      assert ParseAll(parse, dir, [f]) == Ok([w] + []);
      assert ParseAll(parse, dir, files).value + [w] == [w] + [];
    } else {
      assert (files + [f])[0] == files[0] && (files + [f])[1..] == files[1..] + [f];
      var w0 := parse(Join(dir, files[0].name), files[0].text).value;
      var rest := ParseAll(parse, dir, files[1..]).value;
      assert ParseAll(parse, dir, files).value == [w0] + rest;
      ParseAllSnoc(parse, dir, files[1..], f);
      var w := parse(Join(dir, f.name), f.text).value;
      assert [w0] + (rest + [w]) == [w0] + rest + [w];
    }
  }

  /** A file that does not parse, after files that all do, is the failure the whole sequence reports. */
  lemma ParseAllFailsAt(parse: Parser, dir: string, files: seq<File>, f: File, rest: seq<File>)
    requires ParseAll(parse, dir, files).Ok?
    requires parse(Join(dir, f.name), f.text).Err?
    ensures ParseAll(parse, dir, files + [f] + rest) ==
            Err(ParseFailed(Join(dir, f.name), parse(Join(dir, f.name), f.text).error))
  {
    if files == [] {
      assert ([f] + rest)[0] == f;
    } else {
      assert (files + [f] + rest)[1..] == files[1..] + [f] + rest;
      ParseAllFailsAt(parse, dir, files[1..], f, rest);
    }
  }

  /** Ordered by connection count, as `sorted(rows, key=lambda r: r.connections)` leaves them. */
  predicate SortedByConnections(rows: seq<WrkResult>) {
    forall i, j :: 0 <= i < j < |rows| ==> rows[i].connections <= rows[j].connections
  }

  /** A record with at most the connection count of every sorted record stays sorted in front of them. */
  lemma SortedCons(x: WrkResult, rows: seq<WrkResult>)
    requires SortedByConnections(rows)
    requires forall y :: y in rows ==> x.connections <= y.connections
    ensures SortedByConnections([x] + rows)
  {
    var r := [x] + rows;
    forall i, j | 0 <= i < j < |r| ensures r[i].connections <= r[j].connections {
      assert r[j] == rows[j - 1];
      if i > 0 {
        assert r[i] == rows[i - 1];
      }
    }
  }

  /** The record kept in front when `w` goes further in: it stays in front of the rest with `w` inserted. */
  lemma InsertBehind(head: WrkResult, w: WrkResult, tail: seq<WrkResult>, rest: seq<WrkResult>)
    requires SortedByConnections([head] + tail) && head.connections <= w.connections
    requires SortedByConnections(rest) && multiset(rest) == multiset(tail) + multiset{w}
    ensures SortedByConnections([head] + rest)
  {
    forall y | y in rest ensures head.connections <= y.connections {
      assert y in multiset(rest);
      if y != w {
        var k :| 0 <= k < |tail| && tail[k] == y;
        assert ([head] + tail)[0] == head && ([head] + tail)[k + 1] == y;
      }
    }
    SortedCons(head, rest);
  }

  /** `w` placed into sorted `rows` after every record with at most its connection count. */
  function Insert(w: WrkResult, rows: seq<WrkResult>): (r: seq<WrkResult>)
    requires SortedByConnections(rows)
    ensures SortedByConnections(r)
    ensures multiset(r) == multiset(rows) + multiset{w}
  {
    if rows == [] then [w]
    else if w.connections < rows[0].connections then
      SortedCons(w, rows);
      [w] + rows
    else
      var rest := Insert(w, rows[1..]);
      assert rows == [rows[0]] + rows[1..];
      InsertBehind(rows[0], w, rows[1..], rest);
      [rows[0]] + rest
  }

  /** `sorted` by connection count: an ordered permutation of `rows`. */
  function SortByConnections(rows: seq<WrkResult>): (r: seq<WrkResult>)
    ensures SortedByConnections(r)
    ensures multiset(r) == multiset(rows)
  {
    if rows == [] then []
    else
      assert rows == rows[..|rows| - 1] + [rows[|rows| - 1]];
      Insert(rows[|rows| - 1], SortByConnections(rows[..|rows| - 1]))
  }

  /**
   * `load_series`: parse every report the glob finds, in listing order; the
   * first failure aborts the load with that file's path; otherwise the
   * records, ordered by connection count.
   */
  method LoadSeries(dir: string, prefix: string, listing: seq<File>) returns (r: Result<seq<WrkResult>, LoadError>)
    ensures r.Err? <==> ParseAll(ParseWrkOutput, dir, Glob(listing, prefix)).Err?
    ensures r.Err? ==> r.error == ParseAll(ParseWrkOutput, dir, Glob(listing, prefix)).error
    ensures r.Ok? ==> SortedByConnections(r.value) &&
                      multiset(r.value) == multiset(ParseAll(ParseWrkOutput, dir, Glob(listing, prefix)).value)
  {
    var parse: Parser := ParseWrkOutput;
    var paths := Glob(listing, prefix);
    var rows: seq<WrkResult> := [];
    var i := 0;
    while i < |paths|
      invariant 0 <= i <= |paths|
      invariant ParseAll(parse, dir, paths[..i]) == Ok(rows)
    {
      var path := Join(dir, paths[i].name);
      var parsed := parse(path, paths[i].text);
      if parsed.Err? {
        r := Err(ParseFailed(path, parsed.error));
        ParseAllFailsAt(parse, dir, paths[..i], paths[i], paths[i + 1..]);
        SplitAt(paths, i);
        return;
      }
      ParseAllSnoc(parse, dir, paths[..i], paths[i]);
      SplitAt(paths, i);
      rows := rows + [parsed.value];
      i := i + 1;
    }
    assert paths[..i] == paths;
    r := Ok(SortByConnections(rows));
  }

  /** `s` cut around its element `i`. */
  lemma SplitAt<T>(s: seq<T>, i: nat)
    requires i < |s|
    ensures s == s[..i] + [s[i]] + s[i + 1..]
    ensures s[..i + 1] == s[..i] + [s[i]]
  {
  }

  /**
   * A name the glob accepts but whose `.txt` is not preceded by a digit
   * (`bun_c.txt`, `bun_cfoo.txt`) makes the whole load fail.
   */
  lemma GlobbedNameWithoutCount(dir: string, prefix: string, middle: string)
    requires middle == [] || !IsDigit(middle[|middle| - 1])
    ensures GlobMatches(prefix, prefix + "_c" + middle + ".txt")
    ensures ExtractConnections(Join(dir, prefix + "_c" + middle + ".txt")).Err?
  {
    GlobAccepts(prefix, middle);
    var stem := prefix + "_c" + middle;
    StemEndsWithoutDigit(prefix, middle);
    JoinTxt(dir, stem);
    JoinLast(dir, stem);
    NoDigitBeforeTxt(Join(dir, stem));
  }

  /** The pattern accepts every name `<prefix>_c<middle>.txt`. */
  lemma GlobAccepts(prefix: string, middle: string)
    ensures GlobMatches(prefix, prefix + "_c" + middle + ".txt")
  {
    var name := prefix + "_c" + middle + ".txt";
    assert name[..|prefix| + 2] == prefix + "_c";
    assert name[|name| - 4..] == ".txt";
  }

  /** `<prefix>_c<middle>` ends with `c` or with the last character of `middle`. */
  lemma StemEndsWithoutDigit(prefix: string, middle: string)
    requires middle == [] || !IsDigit(middle[|middle| - 1])
    ensures var stem := prefix + "_c" + middle; |stem| > 0 && !IsDigit(stem[|stem| - 1])
  {
    var stem := prefix + "_c" + middle;
    assert stem[|stem| - 1] == if middle == [] then 'c' else middle[|middle| - 1];
  }

  /** Joining a name with `.txt` appended appends `.txt` to the joined path. */
  lemma JoinTxt(dir: string, stem: string)
    ensures Join(dir, stem + ".txt") == Join(dir, stem) + ".txt"
  {
  }

  /** The joined path ends with the name's last character. */
  lemma JoinLast(dir: string, name: string)
    requires |name| > 0
    ensures var path := Join(dir, name); |path| > 0 && path[|path| - 1] == name[|name| - 1]
  {
  }

  /** The charts `main` draws. */
  datatype Chart = ThroughputChart | P99LatencyChart | ConnectErrorsChart

  /** `main` exits when neither series has a result. */
  datatype RunError = NoResults(resultsDir: string, bunPrefix: string)

  /** `any(r.connect_errors for r in rows)`: some record saw a connect error. */
  function AnyConnectErrors(rows: seq<WrkResult>): (b: bool)
    ensures b <==> exists i :: 0 <= i < |rows| && rows[i].connectErrors != 0
  {
    if rows == [] then false
    else
      assert forall i :: 1 <= i < |rows| ==> rows[i] == rows[1..][i - 1];
      rows[0].connectErrors != 0 || AnyConnectErrors(rows[1..])
  }

  /**
   * The decision of `main`: no results at all is an error; otherwise the
   * throughput and p99 charts, and the connect-errors chart only when some
   * run of either server saw a connect error.
   */
  function ChartsToDraw(resultsDir: string, bunPrefix: string, bun: seq<WrkResult>, node: seq<WrkResult>)
    : (r: Result<seq<Chart>, RunError>)
    ensures r.Err? <==> bun == [] && node == []
    ensures r.Err? ==> r.error == NoResults(resultsDir, bunPrefix)
    ensures r.Ok? ==> |r.value| >= 2 && r.value[..2] == [ThroughputChart, P99LatencyChart]
    ensures r.Ok? ==> (ConnectErrorsChart in r.value <==>
                       exists w :: (w in bun || w in node) && w.connectErrors != 0)
    ensures r.Ok? ==> r.value[2..] == if exists w :: (w in bun || w in node) && w.connectErrors != 0
                                      then [ConnectErrorsChart] else []
  {
    if bun == [] && node == [] then Err(NoResults(resultsDir, bunPrefix))
    else if AnyConnectErrors(bun) || AnyConnectErrors(node) then
      Ok([ThroughputChart, P99LatencyChart, ConnectErrorsChart])
    else
      Ok([ThroughputChart, P99LatencyChart])
  }
}
