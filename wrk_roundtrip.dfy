/**
 * A whole rendered `wrk --latency` report and its round trip through
 * `parse_wrk_output`: the report parses back to the record it was rendered
 * from, with every optional line present or absent.
 *
 * The rendered report holds, in wrk's order and each at column 0, the
 * `Latency` row of the thread statistics, the `50%` and `99%` rows of the
 * latency distribution (each optional), the socket-errors line (optional)
 * and the throughput line.
 */
module WrkRoundTrip {
  import opened Wrappers
  import opened TextScan
  import opened WrkReport
  import opened WrkRender

  /** The `Latency` row of the thread statistics: average, deviation, maximum and the share within one deviation. */
  datatype LatencyStats = LatencyStats(avg: Duration, stdev: Duration, max: Duration, withinStdev: Decimal)

  /** What a report prints: the lines the parser reads, each optional one as an `Option`. */
  datatype Report = Report(
    latency: LatencyStats,
    p50: Option<Duration>,
    p99: Option<Duration>,
    socket: Option<SocketErrors>,
    requestsPerSec: Decimal)

  predicate ReportWellFormed(r: Report) {
    WellFormed(r.latency.avg.amount) && WellFormed(r.latency.stdev.amount) &&
    WellFormed(r.latency.max.amount) && WellFormed(r.latency.withinStdev) &&
    (r.p50.Some? ==> WellFormed(r.p50.value.amount)) &&
    (r.p99.Some? ==> WellFormed(r.p99.value.amount)) &&
    WellFormed(r.requestsPerSec)
  }

  function LatencyLine(s: LatencyStats): string {
    "Latency" + " " + DurationText(s.avg) + " " + DurationText(s.stdev) + " " +
    DurationText(s.max) + " " + DecimalText(s.withinStdev) + "%" + "\n"
  }

  function PercentileLines(percent: nat, d: Option<Duration>): string {
    match d
    case None => ""
    case Some(d) => PercentileLine(percent, d)
  }

  function SocketLines(e: Option<SocketErrors>): string {
    match e
    case None => ""
    case Some(e) => SocketLine(e)
  }

  function Render(r: Report): string {
    LatencyLine(r.latency) + PercentileLines(50, r.p50) + PercentileLines(99, r.p99) +
    SocketLines(r.socket) + ThroughputLine(r.requestsPerSec)
  }

  function DurationMsOf(d: Option<Duration>): Option<real>
    requires d.Some? ==> WellFormed(d.value.amount)
  {
    match d
    case None => None
    case Some(d) => Some(DurationMs(d))
  }

  /** The record a file named `..._c<connections>.txt` holding `Render(r)` should parse to. */
  function Expected(connections: nat, r: Report): WrkResult
    requires ReportWellFormed(r)
  {
    WrkResult(
      connections,
      DecimalValue(r.requestsPerSec),
      Some(DurationMs(r.latency.avg)),
      DurationMsOf(r.p50),
      DurationMsOf(r.p99),
      if r.socket.Some? then r.socket.value.connect else 0)
  }

  /** Neither a line break nor a character that can start a throughput or socket-errors match. */
  predicate Plain(c: char) {
    c != '\n' && c != 'R' && c != 'S'
  }

  predicate NotR(c: char) {
    c != 'R'
  }

  predicate NotS(c: char) {
    c != 'S'
  }

  /** Every line of `s` starts with a character that is neither white space nor `c`. */
  predicate LineHeads(s: string, c: char) {
    forall q :: 0 <= q < |s| && AtLineStart(s, q) ==> !IsSpace(s[q]) && s[q] != c
  }

  /** One line: a first character that is not white space, plain characters, a line break. */
  predicate GoodLine(line: string) {
    |line| >= 2 && !IsSpace(line[0]) && line[|line| - 1] == '\n' && All(line[1..|line| - 1], Plain)
  }

  lemma AllConcat(a: string, b: string, p: char -> bool)
    requires All(a, p) && All(b, p)
    ensures All(a + b, p)
  {
    forall k | 0 <= k < |a + b| ensures p((a + b)[k]) {
      if k >= |a| {
        assert (a + b)[k] == b[k - |a|];
      }
    }
  }

  /** A good line has one line start, its first character, and holds `R` or `S` only there. */
  lemma GoodLineFacts(line: string, c: char)
    requires GoodLine(line)
    ensures line[0] != c ==> LineHeads(line, c)
    ensures line[0] != 'R' ==> All(line, NotR)
    ensures line[0] != 'S' ==> All(line, NotS)
  {
    forall k | 1 <= k < |line| - 1 ensures Plain(line[k]) {
      assert line[1..|line| - 1][k - 1] == line[k];
    }
  }

  lemma LineHeadsConcat(a: string, b: string, c: char)
    requires LineHeads(a, c) && LineHeads(b, c)
    ensures LineHeads(a + b, c)
  {
    var s := a + b;
    forall q | 0 <= q < |s| && AtLineStart(s, q) ensures !IsSpace(s[q]) && s[q] != c {
      if q < |a| {
        assert s[q] == a[q];
        assert q == 0 || a[q - 1] == s[q - 1];
        assert AtLineStart(a, q);
      } else {
        var r := q - |a|;
        assert s[q] == b[r];
        assert r == 0 || b[r - 1] == s[q - 1];
        assert AtLineStart(b, r);
      }
    }
  }

  lemma NumPlain(s: string)
    requires All(s, IsNumChar)
    ensures All(s, Plain)
  {
  }

  lemma DurationPlain(d: Duration)
    requires WellFormed(d.amount)
    ensures All(DurationText(d), Plain)
  {
    NumPlain(DecimalText(d.amount));
    AllConcat(DecimalText(d.amount), UnitText(d.unit), Plain);
  }

  lemma FieldPlain(word: string, n: nat)
    requires All(word, Plain)
    ensures All(Field(word, n), Plain)
  {
    AllConcat(" ", word, Plain);
    AllConcat(" " + word, " ", Plain);
    NumPlain(ShowNat(n));
    AllConcat(" " + word + " ", ShowNat(n), Plain);
  }

  /** Every word of `fields` is plain. */
  predicate WordsPlain(fields: seq<(string, nat)>)
    decreases |fields|
  {
    fields == [] || (All(fields[0].0, Plain) && WordsPlain(fields[1..]))
  }

  lemma {:induction false} MoreFieldsPlain(fields: seq<(string, nat)>)
    requires WordsPlain(fields)
    ensures All(MoreFields(fields), Plain)
    decreases |fields|
  {
    if fields != [] {
      MoreFieldsPlain(fields[1..]);
      FieldPlain(fields[0].0, fields[0].1);
      AllConcat(Field(fields[0].0, fields[0].1), MoreFields(fields[1..]), Plain);
      AllConcat(",", Field(fields[0].0, fields[0].1) + MoreFields(fields[1..]), Plain);
    }
  }

  /** A line being built: a first character that is not white space, then plain characters. */
  predicate LineSoFar(s: string) {
    |s| >= 1 && !IsSpace(s[0]) && forall k :: 1 <= k < |s| ==> Plain(s[k])
  }

  lemma LineSoFarConcat(a: string, b: string)
    requires LineSoFar(a) && All(b, Plain)
    ensures LineSoFar(a + b)
  {
    forall k | 1 <= k < |a + b| ensures Plain((a + b)[k]) {
      if k >= |a| {
        assert (a + b)[k] == b[k - |a|];
      }
    }
  }

  lemma LineSoFarEnd(a: string)
    requires LineSoFar(a)
    ensures GoodLine(a + "\n")
  {
    var line := a + "\n";
    var body := line[1..|line| - 1];
    forall k | 0 <= k < |body| ensures Plain(body[k]) {
      assert body[k] == a[k + 1];
    }
  }

  lemma LatencyLineGood(s: LatencyStats)
    requires WellFormed(s.avg.amount) && WellFormed(s.stdev.amount) && WellFormed(s.max.amount)
    requires WellFormed(s.withinStdev)
    ensures GoodLine(LatencyLine(s)) && LatencyLine(s)[0] == 'L'
  {
    var a, b, c := DurationText(s.avg), DurationText(s.stdev), DurationText(s.max);
    var x := DecimalText(s.withinStdev);
    DurationPlain(s.avg);
    DurationPlain(s.stdev);
    DurationPlain(s.max);
    NumPlain(x);
    assert LineSoFar("Latency");
    LineSoFarConcat("Latency", " ");
    LineSoFarConcat("Latency" + " ", a);
    LineSoFarConcat("Latency" + " " + a, " ");
    LineSoFarConcat("Latency" + " " + a + " ", b);
    LineSoFarConcat("Latency" + " " + a + " " + b, " ");
    LineSoFarConcat("Latency" + " " + a + " " + b + " ", c);
    LineSoFarConcat("Latency" + " " + a + " " + b + " " + c, " ");
    LineSoFarConcat("Latency" + " " + a + " " + b + " " + c + " ", x);
    LineSoFarConcat("Latency" + " " + a + " " + b + " " + c + " " + x, "%");
    LineSoFarEnd("Latency" + " " + a + " " + b + " " + c + " " + x + "%");
  }

  lemma PercentileLineGood(percent: nat, d: Duration)
    requires WellFormed(d.amount)
    ensures GoodLine(PercentileLine(percent, d)) && PercentileLine(percent, d)[0] == ShowNat(percent)[0]
  {
    var n := ShowNat(percent);
    NumPlain(n);
    DurationPlain(d);
    assert LineSoFar(n);
    LineSoFarConcat(n, "%");
    LineSoFarConcat(n + "%", " ");
    LineSoFarConcat(n + "%" + " ", DurationText(d));
    LineSoFarEnd(n + "%" + " " + DurationText(d));
  }

  /** The words of the socket-errors counts are plain. */
  lemma SocketWordsPlain(e: SocketErrors)
    ensures WordsPlain([("read", e.read), ("write", e.write), ("timeout", e.timeout)])
  {
    var last: seq<(string, nat)> := [("timeout", e.timeout)];
    assert last[1..] == [];
    assert WordsPlain(last);
    var two := [("write", e.write)] + last;
    assert two[1..] == last;
    assert WordsPlain(two);
    var three := [("read", e.read)] + two;
    assert three[1..] == two;
    assert WordsPlain(three);
    assert three == [("read", e.read), ("write", e.write), ("timeout", e.timeout)];
  }

  lemma SocketLineGood(e: SocketErrors)
    ensures GoodLine(SocketLine(e)) && SocketLine(e)[0] == 'S'
  {
    var more: seq<(string, nat)> := [("read", e.read), ("write", e.write), ("timeout", e.timeout)];
    SocketWordsPlain(e);
    MoreFieldsPlain(more);
    FieldPlain("connect", e.connect);
    var f := Field("connect", e.connect);
    assert LineSoFar(SOCKET_LABEL);
    LineSoFarConcat(SOCKET_LABEL, f);
    LineSoFarConcat(SOCKET_LABEL + f, MoreFields(more));
    LineSoFarEnd(SOCKET_LABEL + f + MoreFields(more));
  }

  lemma ThroughputLineGood(x: Decimal)
    requires WellFormed(x)
    ensures GoodLine(ThroughputLine(x)) && ThroughputLine(x)[0] == 'R'
  {
    NumPlain(DecimalText(x));
    assert LineSoFar(THROUGHPUT_LABEL);
    LineSoFarConcat(THROUGHPUT_LABEL, " ");
    LineSoFarConcat(THROUGHPUT_LABEL + " ", DecimalText(x));
    LineSoFarEnd(THROUGHPUT_LABEL + " " + DecimalText(x));
  }

  /** `s` is empty or ends with a line break, so whatever follows starts a line. */
  predicate EndsLine(s: string) {
    |s| == 0 || s[|s| - 1] == '\n'
  }

  /** `s` is empty or one good line whose first character is `h`. */
  predicate OptLine(s: string, h: char) {
    s == [] || (GoodLine(s) && s[0] == h)
  }

  /** What an optional line starting with `h` tells the three matchers that care about line heads. */
  lemma OptLineFacts(s: string, h: char)
    requires OptLine(s, h)
    ensures EndsLine(s)
    ensures h != '5' ==> LineHeads(s, '5')
    ensures h != '9' ==> LineHeads(s, '9')
    ensures h != 'R' ==> All(s, NotR)
    ensures h != 'S' ==> All(s, NotS)
  {
    if s != [] {
      GoodLineFacts(s, '5');
      GoodLineFacts(s, '9');
    }
  }

  lemma PrefixGrow(a: string, b: string)
    ensures a <= a + b
  {
    forall k | 0 <= k < |a| ensures (a + b)[k] == a[k] {
    }
  }

  lemma PrefixOf(a: string, b: string, t: string)
    requires a + b <= t
    ensures a <= t
  {
    forall k | 0 <= k < |a| ensures t[k] == a[k] {
      assert (a + b)[k] == a[k];
    }
  }

  /** Where `pre + x` begins `t`, `x` occurs in `t` right after `pre`. */
  lemma PrefixStartsAt(t: string, pre: string, x: string)
    requires pre + x <= t
    ensures StartsAt(t, |pre|, x)
  {
    var w := t[|pre|..|pre| + |x|];
    forall k | 0 <= k < |x| ensures w[k] == x[k] {
      assert w[k] == t[|pre| + k] == (pre + x)[|pre| + k];
    }
    assert w == x;
  }

  lemma PrefixLineStart(t: string, pre: string)
    requires pre <= t && EndsLine(pre)
    ensures AtLineStart(t, |pre|)
  {
    if |pre| > 0 {
      assert t[|pre| - 1] == pre[|pre| - 1];
    }
  }

  /** The line heads of a prefix are line heads of the whole text. */
  lemma PrefixHeads(t: string, pre: string, c: char)
    requires pre <= t && LineHeads(pre, c)
    ensures forall q :: 0 <= q < |pre| && AtLineStart(t, q) ==> !IsSpace(t[q]) && t[q] != c
  {
    forall q | 0 <= q < |pre| && AtLineStart(t, q) ensures !IsSpace(t[q]) && t[q] != c {
      assert t[q] == pre[q];
      assert q == 0 || t[q - 1] == pre[q - 1];
      assert AtLineStart(pre, q);
    }
  }

  lemma PrefixAll(t: string, pre: string, p: char -> bool)
    requires pre <= t && All(pre, p)
    ensures forall q :: 0 <= q < |pre| ==> p(t[q])
  {
    forall q | 0 <= q < |pre| ensures p(t[q]) {
      assert t[q] == pre[q];
    }
  }

  /** A text that begins with a `Latency` row: the first match is that row's average. */
  lemma LatencyFirst(t: string, s: LatencyStats)
    requires WellFormed(s.avg.amount) && WellFormed(s.stdev.amount) && WellFormed(s.max.amount)
    requires WellFormed(s.withinStdev)
    requires LatencyLine(s) <= t
    ensures Find(t, LatencyRowAt) == Some(DurationText(s.avg))
  {
    var a, b, c := DurationText(s.avg), DurationText(s.stdev), DurationText(s.max);
    var x := DecimalText(s.withinStdev);
    var head := "Latency" + " " + a + " ";
    PrefixOf(head + b + " " + c + " " + x + "%", "\n", t);
    PrefixOf(head + b + " " + c + " " + x, "%", t);
    PrefixOf(head + b + " " + c + " ", x, t);
    PrefixOf(head + b + " " + c, " ", t);
    PrefixOf(head + b + " ", c, t);
    PrefixOf(head + b, " ", t);
    PrefixOf(head, b, t);
    PrefixStartsAt(t, "", head);
    assert "" + head == head;
    LocalLatency(t, 0, s.avg);
    FindFirst(t, LatencyRowAt, 0);
  }

  /**
   * A percentile row at the start of a line, with no match of the row's
   * pattern anywhere before it: the first match is that row's duration.
   */
  lemma PercentileFirst(t: string, pre: string, percent: nat, d: Duration)
    requires WellFormed(d.amount)
    requires pre + PercentileLine(percent, d) <= t && EndsLine(pre)
    requires forall q :: 0 <= q < |pre| ==> PercentileAt(t, q, percent).None?
    ensures Find(t, PercentileRow(percent)) == Some(DurationText(d))
  {
    PrefixStartsAt(t, pre, PercentileLine(percent, d));
    PrefixOf(pre, PercentileLine(percent, d), t);
    PrefixLineStart(t, pre);
    LocalPercentile(t, |pre|, percent, d);
    FindFirst(t, PercentileRow(percent), |pre|);
  }

  /** The percentile pattern cannot match inside lines that start with neither white space nor the percent's first digit. */
  lemma NoPercentileInHeads(t: string, pre: string, percent: nat)
    requires pre <= t && LineHeads(pre, ShowNat(percent)[0])
    ensures forall q :: 0 <= q < |pre| ==> PercentileAt(t, q, percent).None?
  {
    PrefixHeads(t, pre, ShowNat(percent)[0]);
  }

  lemma PercentileAfterHeads(t: string, pre: string, percent: nat, d: Duration)
    requires WellFormed(d.amount)
    requires pre + PercentileLine(percent, d) <= t
    requires EndsLine(pre) && LineHeads(pre, ShowNat(percent)[0])
    ensures Find(t, PercentileRow(percent)) == Some(DurationText(d))
  {
    PrefixOf(pre, PercentileLine(percent, d), t);
    NoPercentileInHeads(t, pre, percent);
    PercentileFirst(t, pre, percent, d);
  }

  /** Without a line that starts with white space or the percent's first digit, the row is NaN. */
  lemma PercentileAbsent(t: string, percent: nat)
    requires LineHeads(t, ShowNat(percent)[0])
    ensures Dist(t, percent) == Ok(None)
  {
    assert forall p :: 0 <= p <= |t| ==> PercentileRow(percent)(t, p).None?;
  }

  /** A throughput line with no match of the pattern before it: the first match is its value. */
  lemma ThroughputFirst(t: string, pre: string, x: Decimal)
    requires WellFormed(x)
    requires pre + ThroughputLine(x) <= t
    requires forall q :: 0 <= q < |pre| ==> ThroughputAt(t, q).None?
    ensures Find(t, ThroughputAt) == Some(DecimalText(x))
  {
    PrefixStartsAt(t, pre, ThroughputLine(x));
    LocalThroughput(t, |pre|, x);
    FindFirst(t, ThroughputAt, |pre|);
  }

  /** The throughput pattern cannot match inside text without an `R`. */
  lemma NoThroughputWithoutR(t: string, pre: string)
    requires pre <= t && All(pre, NotR)
    ensures forall q :: 0 <= q < |pre| ==> ThroughputAt(t, q).None?
  {
    PrefixAll(t, pre, NotR);
  }

  /** A socket-errors line with no match of the pattern before it: its connect count is reported. */
  lemma SocketFirst(t: string, pre: string, e: SocketErrors)
    requires pre + SocketLine(e) <= t
    requires forall q :: 0 <= q < |pre| ==> SocketErrorsAt(t, q).None?
    ensures ConnectErrors(t) == e.connect
  {
    PrefixStartsAt(t, pre, SocketLine(e));
    LocalSocket(t, |pre|, e);
    SearchFirst(t, SocketErrorsAt, |pre|);
    ShowNatValue(e.connect);
  }

  /** The socket-errors pattern cannot match inside text without an `S`. */
  lemma NoSocketWithoutS(t: string, pre: string)
    requires pre <= t && All(pre, NotS)
    ensures forall q :: 0 <= q < |pre| ==> SocketErrorsAt(t, q).None?
  {
    PrefixAll(t, pre, NotS);
  }

  lemma ThroughputAfterNoR(t: string, pre: string, x: Decimal)
    requires WellFormed(x)
    requires pre + ThroughputLine(x) <= t && All(pre, NotR)
    ensures Find(t, ThroughputAt) == Some(DecimalText(x))
  {
    PrefixOf(pre, ThroughputLine(x), t);
    NoThroughputWithoutR(t, pre);
    ThroughputFirst(t, pre, x);
  }

  lemma SocketAfterNoS(t: string, pre: string, e: SocketErrors)
    requires pre + SocketLine(e) <= t && All(pre, NotS)
    ensures ConnectErrors(t) == e.connect
  {
    PrefixOf(pre, SocketLine(e), t);
    NoSocketWithoutS(t, pre);
    SocketFirst(t, pre, e);
  }

  lemma NoConnectErrorsWithoutS(t: string)
    requires All(t, NotS)
    ensures ConnectErrors(t) == 0
  {
    NoSocketWithoutS(t, t);
  }

  lemma EndsLineConcat(a: string, b: string)
    requires EndsLine(a) && EndsLine(b)
    ensures EndsLine(a + b)
  {
    if |b| > 0 {
      assert (a + b)[|a + b| - 1] == b[|b| - 1];
    }
  }

  lemma PrefixTrans(a: string, b: string, c: string)
    requires a <= b && b <= c
    ensures a <= c
  {
    forall k | 0 <= k < |a| ensures a[k] == c[k] {
      assert a[k] == b[k];
    }
  }

  /** The rows of the distribution are headed by the first digits of 50 and 99. */
  lemma PercentHeads()
    ensures ShowNat(50)[0] == '5' && ShowNat(99)[0] == '9'
  {
    assert ShowNat(50) == ShowNat(5) + [DigitChar(0)];
    assert ShowNat(99) == ShowNat(9) + [DigitChar(9)];
  }

  /** Each of the five parts of a rendered report is empty or one good line with a known head. */
  lemma RenderParts(r: Report)
    requires ReportWellFormed(r)
    ensures OptLine(LatencyLine(r.latency), 'L')
    ensures OptLine(PercentileLines(50, r.p50), '5')
    ensures OptLine(PercentileLines(99, r.p99), '9')
    ensures OptLine(SocketLines(r.socket), 'S')
    ensures OptLine(ThroughputLine(r.requestsPerSec), 'R')
  {
    PercentHeads();
    LatencyLineGood(r.latency);
    if r.p50.Some? {
      PercentileLineGood(50, r.p50.value);
    }
    if r.p99.Some? {
      PercentileLineGood(99, r.p99.value);
    }
    if r.socket.Some? {
      SocketLineGood(r.socket.value);
    }
    ThroughputLineGood(r.requestsPerSec);
  }

  /** Each leading run of parts of a rendered report is a prefix of it. */
  lemma RenderPrefixes(r: Report)
    ensures var (l, p5, p9, s, t) := (LatencyLine(r.latency), PercentileLines(50, r.p50), PercentileLines(99, r.p99),
                                      SocketLines(r.socket), ThroughputLine(r.requestsPerSec));
            l + p5 <= Render(r) && l + p5 + p9 <= Render(r) && l + p5 + p9 + s <= Render(r) &&
            l + p5 + p9 + s + t <= Render(r)
  {
    var l, p5, p9, s, t := LatencyLine(r.latency), PercentileLines(50, r.p50), PercentileLines(99, r.p99),
                           SocketLines(r.socket), ThroughputLine(r.requestsPerSec);
    PrefixGrow(l + p5 + p9 + s, t);
    PrefixGrow(l + p5 + p9, s);
    PrefixGrow(l + p5, p9);
    PrefixTrans(l + p5 + p9, l + p5 + p9 + s, Render(r));
    PrefixTrans(l + p5, l + p5 + p9, Render(r));
  }

  /** The average latency read back from a rendered report is the rendered average, in ms. */
  lemma AverageLatencyOfRender(path: string, r: Report)
    requires ReportWellFormed(r)
    ensures AverageLatency(path, Render(r)) == Ok(Some(DurationMs(r.latency.avg)))
  {
    var l := LatencyLine(r.latency);
    PrefixGrow(l, PercentileLines(50, r.p50));
    RenderPrefixes(r);
    PrefixTrans(l, l + PercentileLines(50, r.p50), Render(r));
    LatencyFirst(Render(r), r.latency);
    ToMsDurationText(r.latency.avg);
  }

  /** The `50%` row read back is the rendered one in ms, or NaN when none was rendered. */
  lemma MedianOfRender(r: Report)
    requires ReportWellFormed(r)
    ensures Dist(Render(r), 50) == Ok(DurationMsOf(r.p50))
  {
    var l, p5, p9, s, t := LatencyLine(r.latency), PercentileLines(50, r.p50), PercentileLines(99, r.p99),
                           SocketLines(r.socket), ThroughputLine(r.requestsPerSec);
    RenderParts(r);
    PercentHeads();
    OptLineFacts(l, 'L');
    if r.p50.Some? {
      RenderPrefixes(r);
      PercentileAfterHeads(Render(r), l, 50, r.p50.value);
      ToMsDurationText(r.p50.value);
    } else {
      OptLineFacts(p9, '9');
      OptLineFacts(s, 'S');
      OptLineFacts(t, 'R');
      LineHeadsConcat(l, p5, '5');
      LineHeadsConcat(l + p5, p9, '5');
      LineHeadsConcat(l + p5 + p9, s, '5');
      LineHeadsConcat(l + p5 + p9 + s, t, '5');
      PercentileAbsent(Render(r), 50);
    }
  }

  /** The `99%` row read back is the rendered one in ms, or NaN when none was rendered. */
  lemma Tail99OfRender(r: Report)
    requires ReportWellFormed(r)
    ensures Dist(Render(r), 99) == Ok(DurationMsOf(r.p99))
  {
    var l, p5, p9, s, t := LatencyLine(r.latency), PercentileLines(50, r.p50), PercentileLines(99, r.p99),
                           SocketLines(r.socket), ThroughputLine(r.requestsPerSec);
    RenderParts(r);
    PercentHeads();
    OptLineFacts(l, 'L');
    OptLineFacts(p5, '5');
    LineHeadsConcat(l, p5, '9');
    if r.p99.Some? {
      RenderPrefixes(r);
      EndsLineConcat(l, p5);
      PercentileAfterHeads(Render(r), l + p5, 99, r.p99.value);
      ToMsDurationText(r.p99.value);
    } else {
      OptLineFacts(s, 'S');
      OptLineFacts(t, 'R');
      LineHeadsConcat(l + p5, p9, '9');
      LineHeadsConcat(l + p5 + p9, s, '9');
      LineHeadsConcat(l + p5 + p9 + s, t, '9');
      PercentileAbsent(Render(r), 99);
    }
  }

  /** The connect errors read back are the rendered count, or 0 when no socket-errors line was rendered. */
  lemma ConnectErrorsOfRender(r: Report)
    requires ReportWellFormed(r)
    ensures ConnectErrors(Render(r)) == if r.socket.Some? then r.socket.value.connect else 0
  {
    var l, p5, p9, s, t := LatencyLine(r.latency), PercentileLines(50, r.p50), PercentileLines(99, r.p99),
                           SocketLines(r.socket), ThroughputLine(r.requestsPerSec);
    RenderParts(r);
    OptLineFacts(l, 'L');
    OptLineFacts(p5, '5');
    OptLineFacts(p9, '9');
    OptLineFacts(t, 'R');
    AllConcat(l, p5, NotS);
    AllConcat(l + p5, p9, NotS);
    if r.socket.Some? {
      RenderPrefixes(r);
      SocketAfterNoS(Render(r), l + p5 + p9, r.socket.value);
    } else {
      AllConcat(l + p5 + p9, s, NotS);
      AllConcat(l + p5 + p9 + s, t, NotS);
      NoConnectErrorsWithoutS(Render(r));
    }
  }

  /** The throughput read back from a rendered report is the rendered value. */
  lemma ThroughputOfRender(path: string, r: Report)
    requires ReportWellFormed(r)
    ensures Throughput(path, Render(r)) == Ok(DecimalValue(r.requestsPerSec))
  {
    var l, p5, p9, s := LatencyLine(r.latency), PercentileLines(50, r.p50), PercentileLines(99, r.p99),
                        SocketLines(r.socket);
    RenderParts(r);
    OptLineFacts(l, 'L');
    OptLineFacts(p5, '5');
    OptLineFacts(p9, '9');
    OptLineFacts(s, 'S');
    AllConcat(l, p5, NotR);
    AllConcat(l + p5, p9, NotR);
    AllConcat(l + p5 + p9, s, NotR);
    RenderPrefixes(r);
    ThroughputAfterNoR(Render(r), l + p5 + p9 + s, r.requestsPerSec);
    ParseDecimalText(r.requestsPerSec);
  }

  /**
   * The round trip of the whole parser: a rendered report in a file named
   * `<stem>_c<connections>.txt` parses to the record it was rendered from,
   * whichever optional lines it holds.
   */
  lemma RenderRoundTrip(stem: string, connections: nat, r: Report)
    requires ReportWellFormed(r)
    ensures ParseWrkOutput(stem + "_c" + ShowNat(connections) + ".txt", Render(r)) == Ok(Expected(connections, r))
  {
    var path := stem + "_c" + ShowNat(connections) + ".txt";
    ExtractConnectionsOf(stem, ShowNat(connections));
    ShowNatValue(connections);
    ThroughputOfRender(path, r);
    AverageLatencyOfRender(path, r);
    MedianOfRender(r);
    Tail99OfRender(r);
    ConnectErrorsOfRender(r);
  }
}
