/**
 * The `wrk --latency` report parser of benchmarks/plot_wrk.py: duration
 * normalisation, the connection count encoded in a file name, and the
 * extraction of the six fields of a `WrkResult` from a report's text.
 *
 * Every regular expression of the source is a matcher `(text, p)` that gives
 * the captured group of a match starting at index `p`; `TextScan.Find` turns
 * a matcher into `re.search(...).group(1)`. The text is the whole report, so
 * `^` and `$` (the `re.M` anchors) and `\s` spanning line breaks behave as in
 * Python.
 */
module WrkReport {
  import opened Wrappers
  import opened TextScan

  /** One parsed report. `None` in a latency field stands for NaN. */
  datatype WrkResult = WrkResult(
    connections: nat,
    requestsPerSec: real,
    avgLatencyMs: Option<real>,
    p50LatencyMs: Option<real>,
    p99LatencyMs: Option<real>,
    connectErrors: nat)

  /** Why a report cannot be parsed (the source raises `ValueError` in each case). */
  datatype ParseError =
    | MalformedFilename(path: string)
    | MissingThroughput(path: string)
    | MissingLatencyRow(path: string)
    | InvalidFloat(token: string)

  /** The units a duration token can carry. */
  datatype Unit = Us | Ms | S

  function UnitText(u: Unit): string {
    match u
    case Us => "us"
    case Ms => "ms"
    case S => "s"
  }

  /** `value` units of `u`, expressed in milliseconds. */
  function InMs(value: real, u: Unit): (r: real)
    ensures u == Us ==> r * 1000.0 == value
    ensures u == Ms ==> r == value
    ensures u == S ==> r == value * 1000.0
    ensures r >= 0.0 <==> value >= 0.0
  {
    match u
    case Us => value / 1000.0
    case Ms => value
    case S => value * 1000.0
  }

  /**
   * A full match of `^([0-9.]+)(us|ms|s)$` on `s`: the number text and the
   * unit, or None when `s` has another shape.
   */
  function SplitUnit(s: string): (r: Option<(string, Unit)>)
    ensures r.Some? ==> |r.value.0| > 0 && All(r.value.0, IsNumChar)
    ensures r.Some? ==> s == r.value.0 + UnitText(r.value.1)
  {
    if |s| < 2 || s[|s| - 1] != 's' then None
    else
      var u := if s[|s| - 2] == 'u' then Us else if s[|s| - 2] == 'm' then Ms else S;
      var num := s[..|s| - |UnitText(u)|];
      if |num| > 0 && All(num, IsNumChar) then
        assert s == num + UnitText(u);
        Some((num, u))
      else None
  }

  /** A number followed by a unit is split back into that number and unit. */
  lemma SplitUnitOf(num: string, u: Unit)
    requires |num| > 0 && All(num, IsNumChar)
    ensures SplitUnit(num + UnitText(u)) == Some((num, u))
  {
    var s := num + UnitText(u);
    var c := s[|s| - 2];
    assert s[|s| - 1] == 's';
    assert c == (if u == S then num[|num| - 1] else UnitText(u)[0]) by {
      if u == S { assert s[|s| - 2] == num[|num| - 1]; } else { assert s[|s| - 2] == UnitText(u)[0]; }
    }
    assert u == S ==> IsNumChar(c);
    assert s[..|s| - |UnitText(u)|] == num;
  }

  /** A latency that is NaN or not below zero. */
  predicate NonNegative(ms: Option<real>) {
    ms.None? || ms.value >= 0.0
  }

  /**
   * `_to_ms`: the stripped duration in milliseconds; NaN (None) when it is not
   * a number directly followed by `us`, `ms` or `s`; an error when the number
   * text is one that `float()` rejects (such as `1.2.3`).
   */
  function ToMs(duration: string): (r: Result<Option<real>, ParseError>)
    ensures r.Ok? && r.value.Some? ==> SplitUnit(Strip(duration)).Some?
    ensures SplitUnit(Strip(duration)).None? ==> r == Ok(None)
    ensures r.Ok? ==> NonNegative(r.value)
    ensures r.Err? ==> r.error.InvalidFloat?
    ensures r.Err? <==> SplitUnit(Strip(duration)).Some? && ParseDecimal(SplitUnit(Strip(duration)).value.0).None?
  {
    match SplitUnit(Strip(duration))
    case None => Ok(None)
    case Some((num, unit)) =>
      match ParseDecimal(num)
      case None => Err(InvalidFloat(num))
      case Some(v) => Ok(Some(InMs(v, unit)))
  }

  /** A well-formed duration converts by its unit: `us` divides by 1000, `ms` keeps, `s` multiplies by 1000. */
  lemma ToMsConverts(num: string, u: Unit)
    requires ParseDecimal(num).Some?
    ensures ToMs(num + UnitText(u)) == Ok(Some(InMs(ParseDecimal(num).value, u)))
  {
    ParseDecimalShape(num);
    var s := num + UnitText(u);
    assert s[0] == num[0] && IsNumChar(num[0]);
    StripTrimmed(s);
    SplitUnitOf(num, u);
  }

  /** `_to_ms` strips first: whitespace around a well-formed duration does not change its value. */
  lemma ToMsPadded(pre: string, num: string, u: Unit, post: string)
    requires All(pre, IsSpace) && All(post, IsSpace)
    requires ParseDecimal(num).Some?
    ensures ToMs(pre + num + UnitText(u) + post) == Ok(Some(InMs(ParseDecimal(num).value, u)))
  {
    var s := num + UnitText(u);
    DurationTrimmed(num, u);
    assert pre + num + UnitText(u) + post == pre + s + post;
    StripPadded(pre, s, post);
    ToMsOfStripped(pre + s + post);
    ToMsConverts(num, u);
  }

  /** A well-formed duration neither starts nor ends with whitespace. */
  lemma DurationTrimmed(num: string, u: Unit)
    requires ParseDecimal(num).Some?
    ensures var s := num + UnitText(u); |s| > 0 && !IsSpace(s[0]) && !IsSpace(s[|s| - 1])
  {
    ParseDecimalShape(num);
    var s := num + UnitText(u);
    assert s[0] == num[0] && IsNumChar(num[0]);
    assert s[|s| - 1] == 's';
  }

  /** `_to_ms` of any text is `_to_ms` of its stripped form. */
  lemma ToMsOfStripped(d: string)
    ensures ToMs(d) == ToMs(Strip(d))
  {
    if |Strip(d)| > 0 {
      StripTrimmed(Strip(d));
    }
  }

  lemma ParseDecimalExample()
    ensures ParseDecimal("1.62") == Some(1.62)
  {
    ParseDecimalPoint("1", "62");
    assert "1" + "." + "62" == "1.62";
    assert PointValue("1", "62") == 1.62 by {
      assert "62"[..1] == "6" && DigitsValue("62") == 62;
      assert DigitsValue("1") == 1 && Pow10(2) == 100;
    }
  }

  lemma ParseWholeExample()
    ensures ParseDecimal("500") == Some(500.0)
  {
    ParseDecimalShowNat(500);
    assert ShowNat(500) == "500";
  }

  /** `_to_ms` on the average of the wrk latency row `Latency 1.62ms 81.75us 5.61ms 92.17%`. */
  lemma ToMsMilliseconds()
    ensures ToMs("1.62ms") == Ok(Some(1.62))
  {
    ParseDecimalExample();
    ToMsConverts("1.62", Ms);
    assert "1.62" + UnitText(Ms) == "1.62ms";
  }

  /** Microseconds are divided by 1000. */
  lemma ToMsMicroseconds()
    ensures ToMs("500us") == Ok(Some(0.5))
  {
    ParseWholeExample();
    ToMsConverts("500", Us);
    assert "500" + UnitText(Us) == "500us";
  }

  /** The percentage column of that row is not a duration: NaN. */
  lemma ToMsPercentage()
    ensures ToMs("92.17%") == Ok(None)
  {
    StripTrimmed("92.17%");
  }

  /** `_to_ms` strips surrounding whitespace before it converts. */
  lemma ToMsStrips()
    ensures ToMs(" 2s\n") == Ok(Some(2000.0))
  {
    var s := " 2s\n";
    assert Span(s, 0, IsSpace) == 1;
    assert SpanBack(s, 4, IsSpace) == 3;
    assert Strip(s) == "2s";
    ParseDecimalShowNat(2);
    assert ShowNat(2) == "2";
    ToMsConverts("2", S);
    assert "2" + UnitText(S) == "2s";
    StripTrimmed("2s");
  }

  /** A unit other than `us`, `ms` or `s`, or no token at all, gives NaN. */
  lemma ToMsNaN()
    ensures ToMs("1.5ns") == Ok(None)
    ensures ToMs("") == Ok(None)
  {
    StripTrimmed("1.5ns");
    assert !IsNumChar('n');
    assert Strip("") == "";
  }

  /** A number that `float()` rejects makes `_to_ms` raise instead of giving NaN. */
  lemma ToMsRaises()
    ensures ToMs("1.2.3ms") == Err(InvalidFloat("1.2.3"))
  {
    StripTrimmed("1.2.3ms");
    SplitUnitOf("1.2.3", Ms);
    assert "1.2.3" + UnitText(Ms) == "1.2.3ms";
    ParseDecimalTwoDots("1.2.3", 1, 3);
  }

  predicate IsNotSlash(c: char) {
    c != '/'
  }

  /** `os.path.basename`: the part of the path after its last `/`. */
  function Basename(path: string): (b: string)
    ensures '/' !in b
    ensures |b| <= |path| && b == path[|path| - |b|..]
    ensures |b| < |path| ==> path[|path| - |b| - 1] == '/'
  {
    var i := SpanBack(path, |path|, IsNotSlash);
    assert forall k :: 0 <= k < |path| - i ==> path[i..][k] == path[i + k];
    path[i..]
  }

  /** `$` without `re.M`: the end of `s`, or just before a final newline. */
  predicate AtEnd(s: string, k: nat) {
    k == |s| || (k + 1 == |s| && s[k] == '\n')
  }

  /** The pattern `_c(\d+)\.txt$` started at `i`: the captured digits. */
  function ConnectionsAt(s: string, i: nat): (r: Option<string>)
    ensures r.Some? ==> |r.value| > 0 && All(r.value, IsDigit)
  {
    if !StartsAt(s, i, "_c") then None
    else
      var e := Span(s, i + 2, IsDigit);
      SpanAll(s, i + 2, IsDigit);
      if e > i + 2 && StartsAt(s, e, ".txt") && AtEnd(s, e + 4) then Some(s[i + 2..e]) else None
  }

  /**
   * `_extract_connections`: the integer value of the digits of a trailing
   * `_c<digits>.txt` in the base name of `path`; MalformedFilename when no
   * such suffix exists.
   */
  function ExtractConnections(path: string): (r: Result<nat, ParseError>)
    ensures r.Err? <==> Search(Basename(path), ConnectionsAt).None?
    ensures r.Err? ==> r.error == MalformedFilename(path)
  {
    var name := Basename(path);
    match Search(name, ConnectionsAt)
    case None => Err(MalformedFilename(path))
    case Some(p) =>
      var d := ConnectionsAt(name, p).value;
      Ok(DigitsValue(d))
  }

  /** A suffix without `/` survives into the base name. */
  lemma BasenameKeepsSuffix(stem: string, suffix: string)
    requires '/' !in suffix
    ensures EndsWith(Basename(stem + suffix), suffix)
  {
    var path := stem + suffix;
    var name := Basename(path);
    forall k | |stem| <= k < |path| ensures path[k] != '/' {
      assert path[k] == suffix[k - |stem|];
    }
    assert |name| >= |suffix|;
    forall k | 0 <= k < |suffix| ensures name[|name| - |suffix| + k] == suffix[k] {
      assert name[|name| - |suffix| + k] == path[|stem| + k];
    }
  }

  /** In a name ending in `_c<digits>.txt`, the pattern matches at that suffix and nowhere before. */
  lemma ConnectionsAtSuffix(name: string, digits: string)
    requires |digits| > 0 && All(digits, IsDigit)
    requires EndsWith(name, "_c" + digits + ".txt")
    ensures Search(name, ConnectionsAt) == Some(|name| - |digits| - 6)
    ensures ConnectionsAt(name, |name| - |digits| - 6) == Some(digits)
  {
    SuffixMatches(name, digits);
    NoMatchBeforeSuffix(name, digits);
    SearchFirst(name, ConnectionsAt, |name| - |digits| - 6);
  }

  lemma SuffixMatches(name: string, digits: string)
    requires |digits| > 0 && All(digits, IsDigit)
    requires EndsWith(name, "_c" + digits + ".txt")
    ensures ConnectionsAt(name, |name| - |digits| - 6) == Some(digits)
  {
    var i0 := |name| - |digits| - 6;
    var e := i0 + 2 + |digits|;
    assert name[i0..] == "_c" + digits + ".txt";
    assert name[e] == '.';
    forall k | i0 + 2 <= k < e ensures IsDigit(name[k]) {
      assert name[k] == digits[k - i0 - 2];
    }
    SpanExact(name, i0 + 2, e, IsDigit);
    assert name[i0..i0 + 2] == "_c";
    assert name[e..e + 4] == ".txt";
    assert name[i0 + 2..e] == digits;
  }

  lemma NoMatchBeforeSuffix(name: string, digits: string)
    requires |digits| > 0 && All(digits, IsDigit)
    requires EndsWith(name, "_c" + digits + ".txt")
    ensures forall q :: 0 <= q < |name| - |digits| - 6 ==> ConnectionsAt(name, q).None?
  {
    var i0 := |name| - |digits| - 6;
    assert name[i0..] == "_c" + digits + ".txt";
    assert name[i0] == '_' && name[i0 + 1] == 'c';
    forall q | 0 <= q < i0 ensures ConnectionsAt(name, q).None? {
      var f := Span(name, q + 2, IsDigit);
      SpanAll(name, q + 2, IsDigit);
      assert f <= i0 + 1;
    }
  }

  /** The suffix `_c<digits>.txt` holds no `/`. */
  lemma SuffixWithoutSlash(digits: string)
    requires All(digits, IsDigit)
    ensures '/' !in "_c" + digits + ".txt"
  {
    var suffix := "_c" + digits + ".txt";
    forall k | 0 <= k < |suffix| ensures suffix[k] != '/' {
      assert k < 2 || k >= 2 + |digits| || IsDigit(digits[k - 2]);
    }
  }

  /** A path whose base name ends in `_c<digits>.txt` yields the value of those digits, leading zeros and all. */
  lemma ExtractConnectionsOf(stem: string, digits: string)
    requires |digits| > 0 && All(digits, IsDigit)
    ensures ExtractConnections(stem + "_c" + digits + ".txt") == Ok(DigitsValue(digits))
  {
    var suffix := "_c" + digits + ".txt";
    assert stem + "_c" + digits + ".txt" == stem + suffix by {
      assert stem + "_c" + digits + ".txt" == stem + ("_c" + digits + ".txt");
    }
    SuffixWithoutSlash(digits);
    BasenameKeepsSuffix(stem, suffix);
    ConnectionsAtSuffix(Basename(stem + suffix), digits);
  }

  /**
   * The converse: a file name that yields a count ends in `_c<digits>.txt`
   * (or in that followed by one newline, which `$` also admits), and the
   * count is the value of those digits.
   */
  lemma ExtractConnectionsShape(path: string)
    requires ExtractConnections(path).Ok?
    ensures exists digits :: |digits| > 0 && All(digits, IsDigit) &&
                             DigitsValue(digits) == ExtractConnections(path).value &&
                             (EndsWith(Basename(path), "_c" + digits + ".txt") ||
                              EndsWith(Basename(path), "_c" + digits + ".txt\n"))
  {
    var name := Basename(path);
    var p := Search(name, ConnectionsAt).value;
    var digits := ConnectionsAt(name, p).value;
    ConnectionsMatchShape(name, p);
  }

  /** Where `ConnectionsAt` matches, the rest of the name is `_c<digits>.txt`, possibly with one newline after it. */
  lemma ConnectionsMatchShape(name: string, p: nat)
    requires ConnectionsAt(name, p).Some?
    ensures var digits := ConnectionsAt(name, p).value;
            name[p..] == "_c" + digits + ".txt" || name[p..] == "_c" + digits + ".txt\n"
  {
    var e := Span(name, p + 2, IsDigit);
    var digits := name[p + 2..e];
    assert name[p..p + 2] == "_c" && name[e..e + 4] == ".txt";
    assert name[p..e + 4] == name[p..p + 2] + name[p + 2..e] + name[e..e + 4];
    if e + 4 < |name| {
      assert name[p..] == name[p..e + 4] + name[e + 4..];
    }
  }

  /**
   * A base name whose `.txt` is not preceded by a digit (such as `bun_c.txt`
   * or `bun_cfoo.txt`) has no connection count.
   */
  lemma NoDigitBeforeTxt(stem: string)
    requires stem == [] || !IsDigit(stem[|stem| - 1])
    ensures ExtractConnections(stem + ".txt").Err?
  {
    var path := stem + ".txt";
    BasenameKeepsSuffix(stem, ".txt");
    var name := Basename(path);
    if |name| > 4 {
      assert name[|name| - 5] == path[|path| - 5] == stem[|stem| - 1];
    }
    NoConnectionsAfterNonDigit(name);
  }

  /** The pattern needs a digit right before `.txt`. */
  lemma NoConnectionsAfterNonDigit(name: string)
    requires EndsWith(name, ".txt")
    requires |name| == 4 || !IsDigit(name[|name| - 5])
    ensures Search(name, ConnectionsAt).None?
  {
    assert name[|name| - 1] == 't';
    forall q | 0 <= q <= |name| ensures ConnectionsAt(name, q).None? {
      if StartsAt(name, q, "_c") {
        var e := Span(name, q + 2, IsDigit);
        SpanAll(name, q + 2, IsDigit);
        assert e == q + 2 || e != |name| - 4;
      }
    }
  }

  /**
   * A leading `[0-9.]+(?:us|ms|s)` at `i`: where the number ends and which
   * unit follows it.
   */
  function DurationAt(t: string, i: nat): (r: Option<(nat, Unit)>)
    ensures r.Some? ==> i < r.value.0 <= |t| && All(t[i..r.value.0], IsNumChar)
    ensures r.Some? ==> StartsAt(t, r.value.0, UnitText(r.value.1))
  {
    if i > |t| then None
    else
      var e := Span(t, i, IsNumChar);
      SpanAll(t, i, IsNumChar);
      if e == i then None
      else if StartsAt(t, e, "us") then Some((e, Us))
      else if StartsAt(t, e, "ms") then Some((e, Ms))
      else if StartsAt(t, e, "s") then Some((e, S))
      else None
  }

  /** The token that `DurationAt` recognises is one that `_to_ms` accepts. */
  lemma DurationToken(t: string, i: nat, e: nat, u: Unit)
    requires i < e <= |t| && All(t[i..e], IsNumChar)
    requires StartsAt(t, e, UnitText(u))
    ensures SplitUnit(t[i..e + |UnitText(u)|]) == Some((t[i..e], u))
  {
    assert t[i..e + |UnitText(u)|] == t[i..e] + UnitText(u);
    SplitUnitOf(t[i..e], u);
  }

  /** `^` with `re.M`: the start of the text or of a line. */
  predicate AtLineStart(t: string, p: nat) {
    p == 0 || (p <= |t| && t[p - 1] == '\n')
  }

  const THROUGHPUT_LABEL := "Requests/sec:"

  /** `Requests/sec:\s+([0-9.]+)` started at `p`. */
  function ThroughputAt(t: string, p: nat): (r: Option<string>)
    ensures r.Some? ==> |r.value| > 0 && All(r.value, IsNumChar)
    ensures r.Some? ==> p < |t| && t[p] == 'R'
  {
    if !StartsAt(t, p, THROUGHPUT_LABEL) then None
    else
      assert t[p] == t[p..p + |THROUGHPUT_LABEL|][0];
      var a := p + |THROUGHPUT_LABEL|;
      var b := Span(t, a, IsSpace);
      var e := Span(t, b, IsNumChar);
      SpanAll(t, b, IsNumChar);
      if b > a && e > b then Some(t[b..e]) else None
  }

  /** A duration token at `c` that ends at a word boundary (`...(?:us|ms|s))\b`). */
  function BoundedDurationAt(t: string, c: nat): (r: Option<string>)
    ensures r.Some? ==> c + |r.value| <= |t| && t[c..c + |r.value|] == r.value
    ensures r.Some? ==> c + |r.value| == |t| || !IsWordChar(t[c + |r.value|])
  {
    match DurationAt(t, c)
    case None => None
    case Some((n, u)) =>
      var e := n + |UnitText(u)|;
      if e == |t| || !IsWordChar(t[e]) then Some(t[c..e]) else None
  }

  /** A duration token at `c` that only whitespace separates from a line end (`...(?:us|ms|s))\s*$`). */
  function LastDurationAt(t: string, c: nat): (r: Option<string>)
    ensures r.Some? ==> c + |r.value| <= |t| && t[c..c + |r.value|] == r.value
  {
    match DurationAt(t, c)
    case None => None
    case Some((n, u)) =>
      var e := n + |UnitText(u)|;
      var f := Span(t, e, IsSpace);
      if f == |t| || '\n' in t[e..f] then Some(t[c..e]) else None
  }

  /** `^\s*<head>\s+` started at `p`: where the value after the row head begins. */
  function RowValueStart(t: string, p: nat, head: string): (r: Option<nat>)
    ensures r.Some? ==> p < r.value <= |t| && AtLineStart(t, p)
    ensures r.Some? && |head| > 0 ==> IsSpace(t[p]) || t[p] == head[0]
  {
    if p > |t| || !AtLineStart(t, p) then None
    else
      var a := Span(t, p, IsSpace);
      if !StartsAt(t, a, head) then None
      else
        assert |head| > 0 ==> t[a] == t[a..a + |head|][0];
        var b := a + |head|;
        var c := Span(t, b, IsSpace);
        if c > b then Some(c) else None
  }

  /** `^\s*Latency\s+([0-9.]+(?:us|ms|s))\b` started at `p`. */
  function LatencyRowAt(t: string, p: nat): (r: Option<string>)
    ensures r.Some? ==> p < |t| && AtLineStart(t, p) && (IsSpace(t[p]) || t[p] == 'L')
  {
    match RowValueStart(t, p, "Latency")
    case None => None
    case Some(c) => BoundedDurationAt(t, c)
  }

  /** `^\s*<percent>%\s+([0-9.]+(?:us|ms|s))\s*$` started at `p`. */
  function PercentileAt(t: string, p: nat, percent: nat): (r: Option<string>)
    ensures r.Some? ==> p < |t| && AtLineStart(t, p) && (IsSpace(t[p]) || t[p] == ShowNat(percent)[0])
  {
    match RowValueStart(t, p, ShowNat(percent) + "%")
    case None => None
    case Some(c) => LastDurationAt(t, c)
  }

  /** What `BoundedDurationAt` captures is the token `DurationAt` finds. */
  lemma BoundedDurationSpan(t: string, c: nat)
    requires BoundedDurationAt(t, c).Some?
    ensures DurationAt(t, c).Some? &&
            BoundedDurationAt(t, c).value == t[c..DurationAt(t, c).value.0 + |UnitText(DurationAt(t, c).value.1)|]
  {
  }

  /** What `LastDurationAt` captures is the token `DurationAt` finds. */
  lemma LastDurationSpan(t: string, c: nat)
    requires LastDurationAt(t, c).Some?
    ensures DurationAt(t, c).Some? &&
            LastDurationAt(t, c).value == t[c..DurationAt(t, c).value.0 + |UnitText(DurationAt(t, c).value.1)|]
  {
  }

  /** Only whitespace lies between what `LastDurationAt` captures and the end of a line (`\s*$` with `re.M`). */
  lemma LastDurationEndsLine(t: string, c: nat)
    requires LastDurationAt(t, c).Some?
    ensures var e := c + |LastDurationAt(t, c).value|;
            exists k :: e <= k <= |t| && All(t[e..k], IsSpace) && (k == |t| || t[k] == '\n')
  {
    LastDurationSpan(t, c);
    var (n, u) := DurationAt(t, c).value;
    SpaceToLineEnd(t, n + |UnitText(u)|);
  }

  /** Whitespace up to the end of the text, or whitespace holding a newline, reaches a line end. */
  lemma SpaceToLineEnd(t: string, e: nat)
    requires e <= |t|
    requires var f := Span(t, e, IsSpace); f == |t| || '\n' in t[e..f]
    ensures exists k :: e <= k <= |t| && All(t[e..k], IsSpace) && (k == |t| || t[k] == '\n')
  {
    var f := Span(t, e, IsSpace);
    SpanAll(t, e, IsSpace);
    if f < |t| {
      var j := IndexOf(t[e..f], '\n').value;
      assert e + j < f <= |t|;
      assert t[e + j] == t[e..f][j] == '\n';
      var w := t[e..e + j];
      forall i | 0 <= i < j ensures IsSpace(w[i]) {
        assert w[i] == t[e + i];
      }
    } else {
      var w := t[e..f];
      forall i | 0 <= i < f - e ensures IsSpace(w[i]) {
        assert w[i] == t[e + i];
      }
    }
  }

  /** The token that `BoundedDurationAt` captures is one that `_to_ms` splits into a number and a unit. */
  lemma BoundedToken(t: string, c: nat)
    requires BoundedDurationAt(t, c).Some?
    ensures SplitUnit(BoundedDurationAt(t, c).value).Some?
  {
    BoundedDurationSpan(t, c);
    var (n, u) := DurationAt(t, c).value;
    DurationToken(t, c, n, u);
  }

  /** So is the token that `LastDurationAt` captures. */
  lemma LastToken(t: string, c: nat)
    requires LastDurationAt(t, c).Some?
    ensures SplitUnit(LastDurationAt(t, c).value).Some?
  {
    LastDurationSpan(t, c);
    var (n, u) := DurationAt(t, c).value;
    DurationToken(t, c, n, u);
  }

  /** The average that the `Latency` row captures is a token `_to_ms` splits into a number and a unit. */
  lemma LatencyRowToken(t: string, p: nat)
    requires LatencyRowAt(t, p).Some?
    ensures SplitUnit(LatencyRowAt(t, p).value).Some?
  {
    BoundedToken(t, RowValueStart(t, p, "Latency").value);
  }

  /** So is the duration that a `<percent>%` row captures. */
  lemma PercentileToken(t: string, p: nat, percent: nat)
    requires PercentileAt(t, p, percent).Some?
    ensures SplitUnit(PercentileAt(t, p, percent).value).Some?
  {
    LastToken(t, RowValueStart(t, p, ShowNat(percent) + "%").value);
  }

  /** `\s+<word>\s+(\d+)` started at `i`: the bounds of the digits. */
  function CountField(t: string, i: nat, word: string): (r: Option<(nat, nat)>)
    ensures r.Some? ==> i < r.value.0 < r.value.1 <= |t|
  {
    if i > |t| then None
    else
      var j := Span(t, i, IsSpace);
      if j == i || !StartsAt(t, j, word) then None
      else
        var k := j + |word|;
        var d := Span(t, k, IsSpace);
        var e := Span(t, d, IsDigit);
        if d > k && e > d then Some((d, e)) else None
  }

  const SOCKET_LABEL := "Socket errors:"

  /** What `CountField` captures is digits. */
  lemma CountFieldDigits(t: string, i: nat, word: string)
    requires CountField(t, i, word).Some?
    ensures All(t[CountField(t, i, word).value.0..CountField(t, i, word).value.1], IsDigit)
  {
    var d := Span(t, Span(t, i, IsSpace) + |word|, IsSpace);
    SpanAll(t, d, IsDigit);
  }

  /** `,\s+<word>\s+(\d+)` started at `i`: where the digits end. */
  function NextCount(t: string, i: nat, word: string): (r: Option<nat>)
    ensures r.Some? ==> i < r.value <= |t|
  {
    if !StartsAt(t, i, ",") then None
    else
      match CountField(t, i + 1, word)
      case None => None
      case Some((_, e)) => Some(e)
  }

  /** `,\s+<word>\s+(\d+)` for each of `words` in turn, starting at `i`. */
  predicate MoreCounts(t: string, i: nat, words: seq<string>)
    decreases |words|
  {
    if words == [] then true
    else
      match NextCount(t, i, words[0])
      case None => false
      case Some(e) => MoreCounts(t, e, words[1..])
  }

  /**
   * `<head>\s+<first>\s+(\d+)` and then `,\s+<word>\s+(\d+)` for each of
   * `more`, started at `p`, capturing the first count.
   */
  function CountsAt(t: string, p: nat, head: string, first: string, more: seq<string>): (r: Option<string>)
    ensures r.Some? ==> |r.value| > 0 && All(r.value, IsDigit)
    ensures r.Some? ==> StartsAt(t, p, head)
  {
    if !StartsAt(t, p, head) then None
    else
      match CountField(t, p + |head|, first)
      case None => None
      case Some((d, e)) =>
        CountFieldDigits(t, p + |head|, first);
        if MoreCounts(t, e, more) then Some(t[d..e]) else None
  }

  /** `Socket errors:\s+connect\s+(\d+),\s+read\s+(\d+),\s+write\s+(\d+),\s+timeout\s+(\d+)` started at `p`. */
  function SocketErrorsAt(t: string, p: nat): (r: Option<string>)
    ensures r.Some? ==> |r.value| > 0 && All(r.value, IsDigit)
    ensures r.Some? ==> p < |t| && t[p] == 'S'
  {
    var r := CountsAt(t, p, SOCKET_LABEL, "connect", ["read", "write", "timeout"]);
    if r.Some? then CharAt(t, p, SOCKET_LABEL, 0); r else r
  }

  /** The matcher for the `<percent>%` row of the latency distribution. */
  function PercentileRow(percent: nat): (string, nat) -> Option<string> {
    (t: string, p: nat) => PercentileAt(t, p, percent)
  }

  /**
   * The nested `dist`: the row's duration in ms, NaN (None) when the row is
   * absent. A row that is present never gives NaN, as its token always
   * carries a unit.
   */
  function Dist(text: string, percent: nat): (r: Result<Option<real>, ParseError>)
    ensures Search(text, PercentileRow(percent)).None? <==> r == Ok(None)
    ensures r.Ok? ==> NonNegative(r.value)
  {
    match Find(text, PercentileRow(percent))
    case None => Ok(None)
    case Some(token) =>
      PercentileToken(text, Search(text, PercentileRow(percent)).value, percent);
      ToMsOfToken(token);
      ToMs(token)
  }

  /** The connect count of the socket-errors line, 0 when there is none. */
  function ConnectErrors(text: string): (r: nat)
    ensures Search(text, SocketErrorsAt).None? ==> r == 0
    ensures r > 0 ==> exists p :: 0 <= p <= |text| && SocketErrorsAt(text, p).Some?
  {
    match Search(text, SocketErrorsAt)
    case None => 0
    case Some(p) => DigitsValue(SocketErrorsAt(text, p).value)
  }

  /**
   * `parse_wrk_output` on the text of the file at `path`. The throughput and
   * the `Latency` row are mandatory; missing percentile rows give NaN and a
   * missing socket-errors line gives 0 connect errors. The average latency is
   * never NaN, and no value it reports is negative.
   */
  function ParseWrkOutput(path: string, text: string): (r: Result<WrkResult, ParseError>)
    ensures ExtractConnections(path).Err? ==> r == Err(MalformedFilename(path))
    ensures ExtractConnections(path).Ok? && Search(text, ThroughputAt).None?
            ==> r == Err(MissingThroughput(path))
    ensures ExtractConnections(path).Ok? && Throughput(path, text).Ok? && Search(text, LatencyRowAt).None?
            ==> r == Err(MissingLatencyRow(path))
    ensures r.Ok? ==> r.value.requestsPerSec >= 0.0 && r.value.avgLatencyMs.Some? &&
                      NonNegative(r.value.avgLatencyMs) &&
                      NonNegative(r.value.p50LatencyMs) && NonNegative(r.value.p99LatencyMs)
  {
    var connections :- ExtractConnections(path);
    var rps :- Throughput(path, text);
    var avg :- AverageLatency(path, text);
    var p50 :- Dist(text, 50);
    var p99 :- Dist(text, 99);
    Ok(WrkResult(connections, rps, avg, p50, p99, ConnectErrors(text)))
  }

  /** The mandatory `Requests/sec:` value, read with `float()`. */
  function Throughput(path: string, text: string): (r: Result<real, ParseError>)
    ensures Search(text, ThroughputAt).None? ==> r == Err(MissingThroughput(path))
    ensures r.Ok? ==> r.value >= 0.0
  {
    var token :- Required(Find(text, ThroughputAt), MissingThroughput(path));
    FloatOf(token)
  }

  /**
   * The mandatory average of the `Latency` row in ms. The row's token always
   * carries a unit, so the result is an error or a number, never NaN.
   */
  function AverageLatency(path: string, text: string): (r: Result<Option<real>, ParseError>)
    ensures Search(text, LatencyRowAt).None? ==> r == Err(MissingLatencyRow(path))
    ensures r.Ok? ==> r.value.Some? && r.value.value >= 0.0
  {
    var token :- Required(Find(text, LatencyRowAt), MissingLatencyRow(path));
    LatencyRowToken(text, Search(text, LatencyRowAt).value);
    ToMsOfToken(token);
    ToMs(token)
  }

  /** A token of the shape `[0-9.]+(?:us|ms|s)` never converts to NaN: it either raises or gives a value. */
  lemma ToMsOfToken(token: string)
    requires SplitUnit(token).Some?
    ensures ToMs(token).Err? || ToMs(token).value.Some?
  {
    var num := SplitUnit(token).value.0;
    assert token[0] == num[0] && IsNumChar(num[0]);
    assert token[|token| - 1] == 's';
    StripTrimmed(token);
  }

  /** A missing mandatory match raises with `error`. */
  function Required(found: Option<string>, error: ParseError): (r: Result<string, ParseError>)
    ensures r.Ok? <==> found.Some?
  {
    match found
    case None => Err(error)
    case Some(s) => Ok(s)
  }

  /** `float()` on a captured token. */
  function FloatOf(token: string): (r: Result<real, ParseError>)
    ensures r.Ok? <==> ParseDecimal(token).Some?
    ensures r.Ok? ==> r.value >= 0.0
  {
    match ParseDecimal(token)
    case None => Err(InvalidFloat(token))
    case Some(v) => Ok(v)
  }
}
