# wrk report parsing and the per-key rate limiter, in Dafny

This project models two components of the no-as-a-service repository.

**The benchmark report tool** (`benchmarks/plot_wrk.py`) turns the text that
`wrk --latency` prints into a `WrkResult` record. The record holds:
- the connection count, read from the file name `..._c<digits>.txt`;
- the throughput, from `Requests/sec:`;
- the average latency, from the `Latency` row;
- the `50%` and `99%` latencies, from the distribution rows;
- the connect count of the `Socket errors:` line.

The tool then loads every report of one server, sorted by connection count, and decides which charts to draw.

**The token-bucket rate limiter** (`rate-limiter.ts`) keeps one bucket per client key. A bucket holds at most 120 tokens and refills at 2 tokens a second. `get` admits a request when a whole token is there. `sweep` evicts buckets that have been idle for more than ten minutes.

Modules:
- `Wrappers`: `Option` and `Result`.
- `TextScan`: character classes, greedy runs, `re.search` as the earliest
  match position of a matcher, Python's `int()`, `float()` on `[0-9.]+`
  tokens, and `str.strip()`.
- `WrkReport`: `_to_ms`, `_extract_connections`, each regular expression of
  `parse_wrk_output` as a matcher over the whole text, the nested `dist`, and
  `parse_wrk_output` itself, with `Result` errors where the source raises.
- `WrkRender`: the lines wrk prints, rendered from their values, and the
  proofs that each matcher recognises such a line where it starts.
- `WrkRoundTrip`: a complete rendered report parses back to exactly the
  record it was rendered from.
- `WrkSeries`: `load_series` as a method with a loop, proved against a
  reference function, plus the empty check and the chart choice of `main`.
- `RateLimiter`: the limiter as a class over a `map` of buckets, with `Get`
  and `Sweep` methods and the properties of bursts and eviction.

Modelling choices:
- Each regular expression is a matcher `(text, p) -> Option<string>`. It gives the captured group of a match that starts at `p`, and `None` when the pattern cannot match there.
- The report is a single string. So `^` and `$` (with `re.M`) and a `\s` that spans a line break behave as Python's do.
- NaN is `None`.
- Numbers are exact reals.
- Times are integer milliseconds that the caller passes in.

Where the code and its written description disagree, the model follows the code:
- The average latency is never NaN. A report without a `Latency` row raises (plot_wrk.py:95-96), and a captured token always carries a unit. So `AverageLatency` returns an error or a number.
- A number token that `float()` rejects, such as `1.2.3`, raises rather than giving NaN. This holds in `_to_ms`, in the throughput, and in the distribution rows. The model returns `Err(InvalidFloat(token))`.
- `_extract_connections` also accepts a base name ending in `.txt` followed by one newline, because `$` matches before a final newline.

## Model

| member | source | states |
|---|---|---|
| TextScan.Search | benchmarks/plot_wrk.py:87 | `re.search`: the position found is a match and no earlier position matches; no position at all exactly when the pattern matches nowhere |
| TextScan.SearchFirst | benchmarks/plot_wrk.py:87 | a match with no earlier match is the one `re.search` reports |
| TextScan.FindFirst | benchmarks/plot_wrk.py:87 | the group reported is the group of that first match |
| TextScan.Find | benchmarks/plot_wrk.py:87 | `re.search(...)` yields a group exactly when the pattern matches at some position of the text |
| TextScan.DigitsValue | benchmarks/plot_wrk.py:80 | `int()` of a k-digit string is below 10^k |
| TextScan.ParseDecimal | benchmarks/plot_wrk.py:90 | `float()` on a `[0-9.]+` token: any value it gives is non-negative (what it accepts and the values are stated by the lemmas below) |
| TextScan.Strip | benchmarks/plot_wrk.py:61 | `strip()`: the result is a slice of the input with only whitespace around it, and neither starts nor ends with whitespace |
| TextScan.ShowNatValue | benchmarks/plot_wrk.py:80 | `int(str(n)) == n` for every natural number |
| TextScan.ParseDecimalShape | benchmarks/plot_wrk.py:90 | only a non-empty string of digits and dots is accepted by `float()` on these tokens |
| TextScan.ParseDecimalDigits | benchmarks/plot_wrk.py:90 | a digit string reads as its integer value |
| TextScan.ParseDecimalShowNat | benchmarks/plot_wrk.py:90 | `float(str(n)) == n` |
| TextScan.ParseDecimalPoint | benchmarks/plot_wrk.py:90 | `<whole>.<frac>` reads as whole + frac / 10^len(frac) |
| TextScan.ParseDecimalTwoDots | benchmarks/plot_wrk.py:65 | a token with two dots is rejected by `float()` |
| TextScan.ParseDecimalNoDigit | benchmarks/plot_wrk.py:65 | a token without a digit, such as `.`, is rejected by `float()` |
| TextScan.StripPadded | benchmarks/plot_wrk.py:61 | `strip()` removes exactly the whitespace around a text that neither starts nor ends with whitespace |
| TextScan.StripBounds | benchmarks/plot_wrk.py:61 | `strip()` removes only whitespace, and what it keeps neither starts nor ends with whitespace |
| TextScan.StripTrimmed | benchmarks/plot_wrk.py:61 | stripping a string without outer whitespace changes nothing |
| WrkReport.SplitUnit | benchmarks/plot_wrk.py:57 | a full match of `^([0-9.]+)(us\|ms\|s)$`: a non-empty number text of digits and dots, and the input is exactly that text followed by the unit |
| WrkReport.SplitUnitOf | benchmarks/plot_wrk.py:57 | every number text followed by a unit splits back into that text and unit |
| WrkReport.InMs | benchmarks/plot_wrk.py:67-72 | microseconds are a thousandth of a millisecond, seconds a thousand; the sign is kept |
| WrkReport.ToMs | benchmarks/plot_wrk.py:60-73 | NaN whenever the stripped input does not have the unit shape; a value only when it does; an error exactly when it does and `float()` rejects the number text; never negative |
| WrkReport.ToMsConverts | benchmarks/plot_wrk.py:65-72 | a number followed by `us`, `ms` or `s` converts to value/1000, value or value*1000 |
| WrkReport.ParseDecimalExample | benchmarks/plot_wrk.py:65 | `float("1.62") == 1.62` |
| WrkReport.ParseWholeExample | benchmarks/plot_wrk.py:65 | `float("500") == 500` |
| WrkReport.ToMsMilliseconds | benchmarks/plot_wrk.py:69-70 | `_to_ms("1.62ms") == 1.62` |
| WrkReport.ToMsMicroseconds | benchmarks/plot_wrk.py:67-68 | `_to_ms("500us") == 0.5` |
| WrkReport.ToMsPercentage | benchmarks/plot_wrk.py:62-64 | `_to_ms("92.17%")` is NaN |
| WrkReport.ToMsPadded | benchmarks/plot_wrk.py:60-72 | whitespace around a well-formed duration does not change the milliseconds `_to_ms` gives |
| WrkReport.ToMsOfStripped | benchmarks/plot_wrk.py:61 | `_to_ms(d) == _to_ms(d.strip())` for every text |
| WrkReport.DurationTrimmed | benchmarks/plot_wrk.py:60-72 | a well-formed duration neither starts nor ends with whitespace |
| WrkReport.ToMsStrips | benchmarks/plot_wrk.py:61 | `_to_ms(" 2s\n") == 2000`: the input is stripped first |
| WrkReport.ToMsNaN | benchmarks/plot_wrk.py:62-64 | an unknown unit (`1.5ns`) and the empty string give NaN |
| WrkReport.ToMsRaises | benchmarks/plot_wrk.py:65 | `_to_ms("1.2.3ms")` raises with the number text |
| WrkReport.ToMsOfToken | benchmarks/plot_wrk.py:60-73 | a token of the shape `[0-9.]+(?:us\|ms\|s)` never gives NaN: it raises or gives a value |
| WrkReport.Basename | benchmarks/plot_wrk.py:77 | `os.path.basename`: the longest suffix without `/` |
| WrkReport.ConnectionsAt | benchmarks/plot_wrk.py:77 | a match of `_c(\d+)\.txt$` captures a non-empty run of digits |
| WrkReport.ExtractConnections | benchmarks/plot_wrk.py:76-80 | raises exactly when the base name has no match, and the error names the path |
| WrkReport.BasenameKeepsSuffix | benchmarks/plot_wrk.py:77 | a suffix without `/` survives `basename` |
| WrkReport.ConnectionsAtSuffix | benchmarks/plot_wrk.py:77 | in a name ending `_c<digits>.txt` the first match is that suffix and captures those digits |
| WrkReport.ExtractConnectionsOf | benchmarks/plot_wrk.py:76-80 | a path ending `_c<digits>.txt` gives `int(digits)`, leading zeros allowed |
| WrkReport.ExtractConnectionsShape | benchmarks/plot_wrk.py:76-80 | a count is returned only for a base name ending `_c<digits>.txt` (or that and one newline), and it is the value of those digits |
| WrkReport.ConnectionsMatchShape | benchmarks/plot_wrk.py:77 | where the pattern matches, the rest of the name is `_c<digits>.txt`, possibly followed by one newline |
| WrkReport.NoDigitBeforeTxt | benchmarks/plot_wrk.py:76-79 | a path ending in `.txt` that no digit precedes raises |
| WrkReport.NoConnectionsAfterNonDigit | benchmarks/plot_wrk.py:77-78 | such a base name has no match anywhere |
| WrkReport.DurationAt | benchmarks/plot_wrk.py:94 | `[0-9.]+(?:us\|ms\|s)`: a non-empty run of digits and dots, then a unit |
| WrkReport.DurationToken | benchmarks/plot_wrk.py:94-97 | a token this pattern recognises is split by `_to_ms` into the same number and unit |
| WrkReport.ThroughputAt | benchmarks/plot_wrk.py:87 | `Requests/sec:\s+([0-9.]+)` captures a non-empty run of digits and dots, and matches only where an `R` stands |
| WrkReport.RowValueStart | benchmarks/plot_wrk.py:94 | `^\s*<head>\s+` matches only at a line start, at whitespace or at the head's first character |
| WrkReport.PercentileAt | benchmarks/plot_wrk.py:103 | `^\s*<percent>%\s+...\s*$` matches only at a line start, at whitespace or at the first digit of the percent |
| WrkReport.BoundedDurationAt | benchmarks/plot_wrk.py:94 | the captured token is the text at the start position, followed by the end of the text or a non-word character (`\b`) |
| WrkReport.LastDurationAt | benchmarks/plot_wrk.py:103 | the captured token is the text at the start position |
| WrkReport.LastDurationEndsLine | benchmarks/plot_wrk.py:103 | only whitespace lies between that token and the end of a line or of the text (`\s*$` with `re.M`) |
| WrkReport.LatencyRowAt | benchmarks/plot_wrk.py:94 | `^\s*Latency\s+(...)\b` matches only at a line start, at whitespace or at an `L` |
| WrkReport.BoundedDurationSpan | benchmarks/plot_wrk.py:94 | the token before `\b` is the one `DurationAt` finds |
| WrkReport.LastDurationSpan | benchmarks/plot_wrk.py:103 | the token before `\s*$` is the one `DurationAt` finds |
| WrkReport.BoundedToken | benchmarks/plot_wrk.py:94-97 | the token captured before `\b` has the shape `_to_ms` accepts |
| WrkReport.LastToken | benchmarks/plot_wrk.py:103-104 | the token captured before `\s*$` has the shape `_to_ms` accepts |
| WrkReport.LatencyRowToken | benchmarks/plot_wrk.py:94-97 | the average the `Latency` row captures has the shape `_to_ms` accepts |
| WrkReport.PercentileToken | benchmarks/plot_wrk.py:103-104 | so does the duration a `<percent>%` row captures |
| WrkReport.CountField | benchmarks/plot_wrk.py:110 | `\s+<word>\s+(\d+)`: the captured digits lie after the start |
| WrkReport.CountFieldDigits | benchmarks/plot_wrk.py:110 | what `(\d+)` captures is digits |
| WrkReport.NextCount | benchmarks/plot_wrk.py:110 | `,\s+<word>\s+(\d+)` ends after its start |
| WrkReport.CountsAt | benchmarks/plot_wrk.py:110 | a counts line captures a non-empty digit string and starts with its head |
| WrkReport.SocketErrorsAt | benchmarks/plot_wrk.py:109-110 | the socket-errors pattern captures the connect digits and matches only where an `S` stands |
| WrkReport.ConnectErrors | benchmarks/plot_wrk.py:109-113 | 0 when no socket-errors line matches anywhere; a nonzero count only when one does |
| WrkReport.Dist | benchmarks/plot_wrk.py:102-104 | the nested `dist`: NaN exactly when no `<percent>%` row matches; otherwise an error or a non-negative value |
| WrkReport.ParseWrkOutput | benchmarks/plot_wrk.py:83-122 | a bad file name, a missing throughput and a missing `Latency` row raise, checked in that order; a parsed record has non-negative values and an average that is never NaN |
| WrkReport.Throughput | benchmarks/plot_wrk.py:87-90 | a missing `Requests/sec:` raises; the value is never negative |
| WrkReport.AverageLatency | benchmarks/plot_wrk.py:94-97 | a missing `Latency` row raises; otherwise an error or a non-negative number, never NaN |
| WrkReport.Required | benchmarks/plot_wrk.py:88-89 | succeeds exactly when the match was found |
| WrkReport.FloatOf | benchmarks/plot_wrk.py:90 | succeeds exactly when `float()` accepts the token; the value is never negative |
| WrkRender.ParseDecimalText | benchmarks/plot_wrk.py:90 | `float()` reads a printed decimal back as its value |
| WrkRender.ToMsDurationText | benchmarks/plot_wrk.py:60-73 | `_to_ms` reads a printed duration back as its length in milliseconds |
| WrkRender.LocalDuration | benchmarks/plot_wrk.py:94 | a printed duration is the token `[0-9.]+(?:us\|ms\|s)` where it starts |
| WrkRender.LocalThroughput | benchmarks/plot_wrk.py:87 | the pattern matches a printed `Requests/sec:` line where it starts, capturing the printed number |
| WrkRender.LocalRowValueStart | benchmarks/plot_wrk.py:94 | a row head at a line start is followed by its value |
| WrkRender.LocalBoundedDuration | benchmarks/plot_wrk.py:94 | a printed duration followed by a space ends at a word boundary |
| WrkRender.LocalLastDuration | benchmarks/plot_wrk.py:103 | a printed duration followed by a line break is the last value on its line |
| WrkRender.LocalLatency | benchmarks/plot_wrk.py:92-94 | the `Latency` pattern matches a printed row where it starts, capturing the average |
| WrkRender.LocalPercentile | benchmarks/plot_wrk.py:99-103 | the `<percent>%` pattern matches a printed distribution row where it starts, capturing its duration |
| WrkRender.LocalCountField | benchmarks/plot_wrk.py:110 | `\s+<word>\s+(\d+)` matches a printed count followed by a non-digit, capturing its digits |
| WrkRender.LocalMoreCounts | benchmarks/plot_wrk.py:110 | printed `,<word> <n>` fields are matched one after the other |
| WrkRender.LocalCounts | benchmarks/plot_wrk.py:109-110 | a printed counts line is matched where it starts, capturing its first count |
| WrkRender.LocalSocket | benchmarks/plot_wrk.py:109-113 | the socket-errors pattern matches a printed socket-errors line, capturing the connect count |
| WrkRoundTrip.LatencyFirst | benchmarks/plot_wrk.py:94 | a text that starts with a printed `Latency` row yields that row's average |
| WrkRoundTrip.PercentileFirst | benchmarks/plot_wrk.py:103-104 | a printed distribution row at a line start with no match of the pattern before it gives its duration, whatever other text precedes it |
| WrkRoundTrip.NoPercentileInHeads | benchmarks/plot_wrk.py:103 | the distribution pattern cannot match in lines none of which starts, after whitespace, with the percent's first digit |
| WrkRoundTrip.PercentileAfterHeads | benchmarks/plot_wrk.py:103-104 | a distribution row after lines that cannot match yields its duration |
| WrkRoundTrip.PercentileAbsent | benchmarks/plot_wrk.py:102-104 | without a line that could start the row, `dist` gives NaN |
| WrkRoundTrip.ThroughputFirst | benchmarks/plot_wrk.py:87-90 | a printed throughput line with no match of the pattern anywhere before it gives the number it prints, whatever other text precedes it |
| WrkRoundTrip.NoThroughputWithoutR | benchmarks/plot_wrk.py:87 | the throughput pattern cannot match inside text that holds no `R` |
| WrkRoundTrip.SocketFirst | benchmarks/plot_wrk.py:109-113 | a printed socket-errors line with no match of the pattern anywhere before it gives its connect count, whatever other text precedes it |
| WrkRoundTrip.NoSocketWithoutS | benchmarks/plot_wrk.py:109-110 | the socket-errors pattern cannot match inside text that holds no `S` |
| WrkRoundTrip.NoConnectErrorsWithoutS | benchmarks/plot_wrk.py:113 | a text without an `S` has no socket-errors line and 0 connect errors |
| WrkRoundTrip.AverageLatencyOfRender | benchmarks/plot_wrk.py:94-97 | a rendered report yields its printed average in milliseconds |
| WrkRoundTrip.MedianOfRender | benchmarks/plot_wrk.py:106 | p50 is the printed `50%` duration in milliseconds, NaN when the row is absent |
| WrkRoundTrip.Tail99OfRender | benchmarks/plot_wrk.py:107 | p99 is the printed `99%` duration in milliseconds, NaN when the row is absent |
| WrkRoundTrip.ConnectErrorsOfRender | benchmarks/plot_wrk.py:113 | the connect errors are the printed connect count, 0 when the line is absent |
| WrkRoundTrip.ThroughputOfRender | benchmarks/plot_wrk.py:87-90 | the throughput is the printed number |
| WrkRoundTrip.RenderRoundTrip | benchmarks/plot_wrk.py:83-122 | a rendered report in a file named `..._c<n>.txt` parses to exactly the record it was rendered from |
| WrkSeries.Join | benchmarks/plot_wrk.py:126 | `os.path.join` ends with the name joined |
| WrkSeries.Glob | benchmarks/plot_wrk.py:126-127 | the files kept are exactly those whose names the pattern `<prefix>_c*.txt` accepts |
| WrkSeries.ParseAll | benchmarks/plot_wrk.py:128-133 | one record per file when every file parses |
| WrkSeries.ParseAllOk | benchmarks/plot_wrk.py:129-131 | the load succeeds exactly when every file parses, and the i-th record is the i-th file's |
| WrkSeries.ParseAllFirstFailure | benchmarks/plot_wrk.py:129-133 | a failure is that of the first file that does not parse, with its path and its own error |
| WrkSeries.ParseAllSnoc | benchmarks/plot_wrk.py:131 | appending a file that parses appends its record |
| WrkSeries.ParseAllFailsAt | benchmarks/plot_wrk.py:132-133 | a failing file after good ones is the failure reported, whatever follows |
| WrkSeries.Insert | benchmarks/plot_wrk.py:134 | inserting into sorted records keeps them sorted and adds exactly that record |
| WrkSeries.SortByConnections | benchmarks/plot_wrk.py:134 | `sorted(rows, key=connections)`: ascending by connections and a permutation of the input |
| WrkSeries.LoadSeries | benchmarks/plot_wrk.py:125-134 | the loop fails exactly when some globbed file fails, with the first failure; otherwise the records are the parsed files, sorted by connections |
| WrkSeries.GlobbedNameWithoutCount | benchmarks/plot_wrk.py:126-131 | a name like `bun_c.txt` or `bun_cfoo.txt` is globbed but has no connection count, so it fails the load |
| WrkSeries.AnyConnectErrors | benchmarks/plot_wrk.py:215 | true exactly when some record has a nonzero connect count |
| WrkSeries.ChartsToDraw | benchmarks/plot_wrk.py:189-222 | an error exactly when both series are empty; otherwise exactly the throughput and p99 charts, followed by the connect-errors chart exactly when some record of either series saw a connect error, and nothing else |
| RateLimiter.Fresh | rate-limiter.ts:12-14 | a new bucket is full |
| RateLimiter.Refill | rate-limiter.ts:17-21 | time moving on adds 2 tokens a second, capped at 120, and stamps `now`; otherwise nothing changes; tokens stay in [0, 120] and never drop; the stamp never goes back |
| RateLimiter.Admit | rate-limiter.ts:8-29 | admitted exactly when the refilled bucket holds a whole token, which is then taken; tokens stay in [0, 120]; the stamp never goes back |
| RateLimiter.FirstRequest | rate-limiter.ts:12-25 | the first request of a key is admitted and leaves 119 tokens stamped `now` |
| RateLimiter.Burst | rate-limiter.ts:17-28 | one answer per request of a burst at one instant; once one is refused every later one is; from a bucket with less than one token stamped at or after that instant, all are refused |
| RateLimiter.BurstOfWholeTokens | rate-limiter.ts:17-28 | from k whole tokens, k requests at one instant succeed and the next fails |
| RateLimiter.FullBucketBurst | rate-limiter.ts:2-28 | from a full bucket exactly 120 requests at one instant succeed and the 121st is denied |
| RateLimiter.EvictionUnobservable | rate-limiter.ts:31-36 | a bucket old enough to be swept would have refilled completely, so evicting it changes no later answer |
| RateLimiter.Live | rate-limiter.ts:32-34 | the buckets kept are exactly those stamped at or after the cutoff, unchanged |
| RateLimiter.Limiter.Valid | rate-limiter.ts:6 | the invariant of the bucket map: every bucket holds between 0 and 120 tokens; the constructor sets it up and `Get` and `Sweep` keep it |
| RateLimiter.Limiter.constructor | rate-limiter.ts:6 | the limiter starts with no buckets |
| RateLimiter.Limiter.Get | rate-limiter.ts:8-29 | creates the key's bucket if missing and updates it as `Admit` says; no other key's bucket changes; tokens stay in [0, 120] |
| RateLimiter.Limiter.Sweep | rate-limiter.ts:31-36 | removes exactly the buckets stamped before `now - 600000` and leaves the rest unchanged |

## Left out

- Reading files and `glob.glob`: `LoadSeries` takes the directory listing, with each file's text, as a parameter. The listing order is the glob's order.
- The `utf-8` decoding with `errors="ignore"`: the report is given as text.
- Plotting (`_plot_metric`), argument parsing, the messages `main` prints and its `os.path.exists` check: these are I/O. Of `main`, only the empty check and the chart choice are modelled.
- `WrkResult` floats are exact reals. IEEE rounding in `float()`, in the unit arithmetic and in the limiter's JavaScript numbers is not reproduced.
- Character classes are ASCII. Whitespace is space, tab, line feed, carriage return, vertical tab, form feed and U+001C to U+001F. Python's `\s`, `\d`, `\w` and `strip()` on `str` also accept non-ASCII whitespace (such as U+0085 and U+00A0), digits and letters.
- Python's text mode turns `\r\n` and a lone `\r` into `\n` when the report is read. The model takes the text after that translation and does not perform it.
- Glob metacharacters inside the prefix are not interpreted; the prefix is matched literally.
- The rendered reports of the round trip are one shape of wrk's output: each parsed line at column 0, in wrk's order, with only the lines the parser reads. Indented rows and interleaved other lines are covered by the matchers, not by the round-trip lemma.
- WrkSeries.SortByConnections: does not state that records with equal connection counts keep their listing order (Python's sort is stable), because that order comes from the glob listing and is unspecified.
- WrkSeries.LoadSeries: states the result as a sorted permutation of the parsed records, not as one particular order of equal-count records, for the same reason.
- `Date.now()`: `Get` and `Sweep` take `now` as a parameter.
- `setInterval(sweep, ttl).unref()`: the periodic scheduling of `Sweep` is not modelled.
- The iteration order of the `Map` in `sweep`: the loop picks any remaining key, and the result does not depend on the order.
- Bucket objects are updated in place in the source; here a bucket is a value in the map. No bucket is reachable from outside the map, so this aliasing makes no difference.
- index.ts (the HTTP server that calls the limiter) is not part of this model.
