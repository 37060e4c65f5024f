/**
 * The lines `wrk --latency` prints, rendered from their values, and for each
 * pattern of the report parser the proof that it matches such a line where
 * the line starts, capturing the printed value.
 *
 * The lines are the `Latency` row of the thread statistics, the `50%` and
 * `99%` rows of the latency distribution, the socket-errors line and the
 * throughput line. Whole reports and the search for the first match are the
 * business of WrkRoundTrip.
 */
module WrkRender {
  import opened Wrappers
  import opened TextScan
  import opened WrkReport

  /** A decimal number as wrk prints it: integer digits, then a fraction if `frac` is not empty. */
  datatype Decimal = Decimal(whole: nat, frac: string)

  predicate WellFormed(x: Decimal) {
    All(x.frac, IsDigit)
  }

  function DecimalText(x: Decimal): (s: string)
    ensures |s| > 0 && IsDigit(s[0])
    ensures WellFormed(x) ==> All(s, IsNumChar)
  {
    if x.frac == [] then ShowNat(x.whole) else ShowNat(x.whole) + "." + x.frac
  }

  function DecimalValue(x: Decimal): real
    requires WellFormed(x)
  {
    if x.frac == [] then x.whole as real else PointValue(ShowNat(x.whole), x.frac)
  }

  /** `float()` reads a printed decimal back as its value. */
  lemma ParseDecimalText(x: Decimal)
    requires WellFormed(x)
    ensures ParseDecimal(DecimalText(x)) == Some(DecimalValue(x))
  {
    if x.frac == [] {
      ParseDecimalShowNat(x.whole);
    } else {
      ParseDecimalPoint(ShowNat(x.whole), x.frac);
    }
  }

  /** A duration as wrk prints it: a decimal and a unit. */
  datatype Duration = Duration(amount: Decimal, unit: Unit)

  function DurationText(d: Duration): string {
    DecimalText(d.amount) + UnitText(d.unit)
  }

  function DurationMs(d: Duration): real
    requires WellFormed(d.amount)
  {
    InMs(DecimalValue(d.amount), d.unit)
  }

  /** `_to_ms` reads a printed duration back as its length in milliseconds. */
  lemma ToMsDurationText(d: Duration)
    requires WellFormed(d.amount)
    ensures ToMs(DurationText(d)) == Ok(Some(DurationMs(d)))
  {
    ParseDecimalText(d.amount);
    ToMsConverts(DecimalText(d.amount), d.unit);
  }

  /** A printed duration at `i` is the token `[0-9.]+(?:us|ms|s)` there. */
  lemma LocalDuration(t: string, i: nat, d: Duration)
    requires WellFormed(d.amount)
    requires StartsAt(t, i, DurationText(d))
    ensures DurationAt(t, i) == Some((i + |DecimalText(d.amount)|, d.unit))
  {
    var num := DecimalText(d.amount);
    var unit := UnitText(d.unit);
    var e := i + |num|;
    StartsAtSplit(t, i, num, unit);
    StartsAtChars(t, i, num);
    StartsAtChars(t, e, unit);
    forall k | i <= k < e ensures IsNumChar(t[k]) {
      assert t[i + (k - i)] == num[k - i];
    }
    assert t[e] == unit[0];
    SpanExact(t, i, e, IsNumChar);
    if d.unit != Us {
      assert t[e] != 'u';
    }
    if d.unit == S {
      assert t[e] != 'm';
    }
  }

  function ThroughputLine(x: Decimal): string {
    THROUGHPUT_LABEL + " " + DecimalText(x) + "\n"
  }

  /** The throughput line at `p` is matched there, capturing the printed number. */
  lemma LocalThroughput(t: string, p: nat, x: Decimal)
    requires WellFormed(x)
    requires StartsAt(t, p, ThroughputLine(x))
    ensures ThroughputAt(t, p) == Some(DecimalText(x))
  {
    var num := DecimalText(x);
    var a := p + |THROUGHPUT_LABEL|;
    StartsAtSplit(t, p, THROUGHPUT_LABEL + " " + num, "\n");
    StartsAtSplit(t, p, THROUGHPUT_LABEL + " ", num);
    StartsAtSplit(t, p, THROUGHPUT_LABEL, " ");
    StartsAtChars(t, a, " ");
    StartsAtChars(t, a + 1, num);
    StartsAtChars(t, a + 1 + |num|, "\n");
    assert t[a] == " "[0] && t[a + 1] == num[0] && t[a + 1 + |num|] == "\n"[0];
    SpanExact(t, a, a + 1, IsSpace);
    forall k | a + 1 <= k < a + 1 + |num| ensures IsNumChar(t[k]) {
      assert t[a + 1 + (k - a - 1)] == num[k - a - 1];
    }
    SpanExact(t, a + 1, a + 1 + |num|, IsNumChar);
  }

  /** `^\s*<head>\s+` at the start of a line that begins with `head` and one space. */
  lemma LocalRowValueStart(t: string, p: nat, head: string)
    requires AtLineStart(t, p)
    requires |head| > 0 && !IsSpace(head[0])
    requires StartsAt(t, p, head + " ")
    requires p + |head| + 1 < |t| && !IsSpace(t[p + |head| + 1])
    ensures RowValueStart(t, p, head) == Some(p + |head| + 1)
  {
    StartsAtSplit(t, p, head, " ");
    StartsAtChars(t, p, head);
    StartsAtChars(t, p + |head|, " ");
    assert t[p] == head[0] && t[p + |head|] == " "[0];
    SpanExact(t, p, p, IsSpace);
    SpanExact(t, p + |head|, p + |head| + 1, IsSpace);
  }

  /** A printed duration that ends at a space is a token `...(?:us|ms|s)\b`. */
  lemma LocalBoundedDuration(t: string, c: nat, d: Duration)
    requires WellFormed(d.amount)
    requires StartsAt(t, c, DurationText(d) + " ")
    ensures BoundedDurationAt(t, c) == Some(DurationText(d))
  {
    var e := c + |DurationText(d)|;
    StartsAtSplit(t, c, DurationText(d), " ");
    CharAt(t, e, " ", 0);
    LocalDuration(t, c, d);
    assert e == c + |DecimalText(d.amount)| + |UnitText(d.unit)|;
  }

  /** A printed duration that ends its line is a token `...(?:us|ms|s)\s*$`. */
  lemma LocalLastDuration(t: string, c: nat, d: Duration)
    requires WellFormed(d.amount)
    requires StartsAt(t, c, DurationText(d) + "\n")
    ensures LastDurationAt(t, c) == Some(DurationText(d))
  {
    var e := c + |DurationText(d)|;
    StartsAtSplit(t, c, DurationText(d), "\n");
    CharAt(t, e, "\n", 0);
    LocalDuration(t, c, d);
    assert e == c + |DecimalText(d.amount)| + |UnitText(d.unit)|;
    var f := Span(t, e, IsSpace);
    assert t[e..f][0] == '\n';
  }

  /** The `Latency` row at the start of a line, whose average column is the printed duration `d`. */
  lemma LocalLatency(t: string, p: nat, d: Duration)
    requires AtLineStart(t, p) && WellFormed(d.amount)
    requires StartsAt(t, p, "Latency" + " " + DurationText(d) + " ")
    ensures LatencyRowAt(t, p) == Some(DurationText(d))
  {
    LatencyParts(t, p, d);
    LatencyFromParts(t, p, d);
  }

  lemma LatencyFromParts(t: string, p: nat, d: Duration)
    requires AtLineStart(t, p) && WellFormed(d.amount)
    requires StartsAt(t, p, "Latency" + " ") && StartsAt(t, p + 8, DurationText(d) + " ")
    requires p + 8 < |t| && !IsSpace(t[p + 8])
    ensures LatencyRowAt(t, p) == Some(DurationText(d))
  {
    LocalRowValueStart(t, p, "Latency");
    LocalBoundedDuration(t, p + 8, d);
    LatencyRowOf(t, p, p + 8, DurationText(d));
  }

  lemma LatencyParts(t: string, p: nat, d: Duration)
    requires StartsAt(t, p, "Latency" + " " + DurationText(d) + " ")
    ensures StartsAt(t, p, "Latency" + " ") && StartsAt(t, p + 8, DurationText(d) + " ")
    ensures p + 8 < |t| && !IsSpace(t[p + 8])
  {
    StartsAtSplit(t, p, "Latency" + " ", DurationText(d) + " ");
    CharAt(t, p + 8, DurationText(d) + " ", 0);
  }

  lemma LatencyRowOf(t: string, p: nat, c: nat, x: string)
    requires RowValueStart(t, p, "Latency") == Some(c) && BoundedDurationAt(t, c) == Some(x)
    ensures LatencyRowAt(t, p) == Some(x)
  {
  }

  function PercentileLine(percent: nat, d: Duration): string {
    ShowNat(percent) + "%" + " " + DurationText(d) + "\n"
  }

  /** A `<percent>%` row of the latency distribution at the start of a line. */
  lemma LocalPercentile(t: string, p: nat, percent: nat, d: Duration)
    requires AtLineStart(t, p) && WellFormed(d.amount)
    requires StartsAt(t, p, PercentileLine(percent, d))
    ensures PercentileAt(t, p, percent) == Some(DurationText(d))
  {
    var head := ShowNat(percent) + "%";
    var c := p + |head| + 1;
    assert PercentileLine(percent, d) == head + " " + (DurationText(d) + "\n");
    StartsAtSplit(t, p, head + " ", DurationText(d) + "\n");
    CharAt(t, c, DurationText(d) + "\n", 0);
    LocalRowValueStart(t, p, head);
    LocalLastDuration(t, c, d);
  }

  /** ` <word> <digits>` as the socket-errors line prints each count. */
  function Field(word: string, n: nat): string {
    " " + word + " " + ShowNat(n)
  }

  /** A printed count, piece by piece: a space, the word, a space, the digits. */
  lemma FieldSplit(t: string, i: nat, word: string, n: nat)
    requires StartsAt(t, i, Field(word, n))
    ensures i + |Field(word, n)| <= |t| && |Field(word, n)| == |word| + 2 + |ShowNat(n)|
    ensures t[i] == ' ' && StartsAt(t, i + 1, word) && t[i + 1 + |word|] == ' '
    ensures StartsAt(t, i + |word| + 2, ShowNat(n))
    ensures t[i + |word| + 2..i + |Field(word, n)|] == ShowNat(n)
  {
    StartsAtSplit(t, i, " " + word + " ", ShowNat(n));
    StartsAtSplit(t, i, " " + word, " ");
    StartsAtSplit(t, i, " ", word);
    CharAt(t, i, " ", 0);
    CharAt(t, i + 1 + |word|, " ", 0);
  }

  /** A run of one character. */
  lemma SpanOne(s: string, i: nat, p: char -> bool)
    requires i + 1 < |s| && p(s[i]) && !p(s[i + 1])
    ensures Span(s, i, p) == i + 1
  {
  }

  /** `\s+<word>\s+(\d+)` over a space, the word, a space and digits that a non-digit follows. */
  lemma LocalCountChars(t: string, i: nat, word: string, digits: string)
    requires |word| > 0 && !IsSpace(word[0]) && |digits| > 0 && All(digits, IsDigit)
    requires i + |word| + 2 + |digits| < |t| && !IsDigit(t[i + |word| + 2 + |digits|])
    requires t[i] == ' ' && StartsAt(t, i + 1, word) && t[i + 1 + |word|] == ' '
    requires StartsAt(t, i + |word| + 2, digits)
    ensures CountField(t, i, word) == Some((i + |word| + 2, i + |word| + 2 + |digits|))
  {
    var k := i + 1 + |word|;
    CharAt(t, i + 1, word, 0);
    CharAt(t, k + 1, digits, 0);
    SpanOne(t, i, IsSpace);
    SpanOne(t, k, IsSpace);
    SpanOver(t, k + 1, digits, IsDigit);
  }

  /** `\s+<word>\s+(\d+)` over one printed count, followed by a non-digit. */
  lemma LocalCountField(t: string, i: nat, word: string, n: nat)
    requires |word| > 0 && !IsSpace(word[0])
    requires StartsAt(t, i, Field(word, n))
    requires i + |Field(word, n)| < |t| && !IsDigit(t[i + |Field(word, n)|])
    ensures CountField(t, i, word) == Some((i + |word| + 2, i + |Field(word, n)|))
  {
    FieldSplit(t, i, word, n);
    LocalCountChars(t, i, word, ShowNat(n));
  }

  /** The four counts of wrk's socket-errors line. */
  datatype SocketErrors = SocketErrors(connect: nat, read: nat, write: nat, timeout: nat)

  /** `,<field>` for each named count in turn. */
  function MoreFields(fields: seq<(string, nat)>): string
    decreases |fields|
  {
    if fields == [] then "" else "," + (Field(fields[0].0, fields[0].1) + MoreFields(fields[1..]))
  }

  function Words(fields: seq<(string, nat)>): (r: seq<string>)
    ensures |r| == |fields|
  {
    if fields == [] then [] else [fields[0].0] + Words(fields[1..])
  }

  /** A count word as wrk prints it: not empty, and not starting with white space. */
  predicate PlainWord(word: string) {
    |word| > 0 && !IsSpace(word[0])
  }

  /** Every word of `fields` is a plain word. */
  predicate PlainWords(fields: seq<(string, nat)>)
    decreases |fields|
  {
    fields == [] || (PlainWord(fields[0].0) && PlainWords(fields[1..]))
  }

  /** A line of `head` and named counts, as wrk prints its socket errors. */
  function CountsLine(head: string, first: string, n: nat, more: seq<(string, nat)>): string {
    head + Field(first, n) + MoreFields(more) + "\n"
  }

  function SocketLine(e: SocketErrors): string {
    CountsLine(SOCKET_LABEL, "connect", e.connect, [("read", e.read), ("write", e.write), ("timeout", e.timeout)])
  }

  /**
   * Printed `,<field>`s laid out from `i` one at a time, then `rest`: each
   * field is a comma and a printed count.
   */
  predicate Laid(t: string, i: nat, fields: seq<(string, nat)>, rest: string)
    decreases |fields|
  {
    if fields == [] then StartsAt(t, i, rest)
    else
      i < |t| && t[i] == ',' && StartsAt(t, i + 1, Field(fields[0].0, fields[0].1)) &&
      Laid(t, i + 1 + |Field(fields[0].0, fields[0].1)|, fields[1..], rest)
  }

  /** The printed `,<field>`s, regrouped around the first. */
  lemma MoreFieldsFirst(fields: seq<(string, nat)>, rest: string)
    requires fields != []
    ensures MoreFields(fields) + rest == "," + (Field(fields[0].0, fields[0].1) + (MoreFields(fields[1..]) + rest))
  {
  }

  /** A counts line, regrouped around its first count. */
  lemma CountsLineParts(head: string, first: string, n: nat, more: seq<(string, nat)>)
    ensures CountsLine(head, first, n, more) == head + (Field(first, n) + (MoreFields(more) + "\n"))
  {
  }

  /** A comma, then `x`, then `y`. */
  lemma CommaThen(t: string, i: nat, x: string, y: string)
    requires StartsAt(t, i, "," + (x + y))
    ensures i < |t| && t[i] == ',' && StartsAt(t, i + 1, x) && StartsAt(t, i + 1 + |x|, y)
  {
    StartsAtThree(t, i, ",", x, y);
    CharAt(t, i, ",", 0);
  }

  /** The printed `,<field>`s and `rest` at `i` are laid out field by field. */
  lemma {:induction false} LaidOf(t: string, i: nat, fields: seq<(string, nat)>, rest: string)
    requires StartsAt(t, i, MoreFields(fields) + rest)
    ensures Laid(t, i, fields, rest)
    decreases |fields|
  {
    if fields != [] {
      var field := Field(fields[0].0, fields[0].1);
      var after := MoreFields(fields[1..]) + rest;
      MoreFieldsFirst(fields, rest);
      CommaThen(t, i, field, after);
      LaidOf(t, i + 1 + |field|, fields[1..], rest);
    } else {
      assert MoreFields(fields) + rest == rest;
    }
  }

  /** Laid-out fields followed by a non-digit start with a non-digit. */
  lemma LaidHead(t: string, i: nat, fields: seq<(string, nat)>, rest: string)
    requires Laid(t, i, fields, rest) && |rest| > 0 && !IsDigit(rest[0])
    ensures i < |t| && !IsDigit(t[i])
  {
    if fields == [] {
      CharAt(t, i, rest, 0);
    }
  }

  /** A comma and then a count match `,\s+<word>\s+(\d+)`. */
  lemma CommaCount(t: string, j: nat, word: string, d: nat, e: nat)
    requires j < |t| && t[j] == ','
    requires CountField(t, j + 1, word) == Some((d, e))
    ensures NextCount(t, j, word) == Some(e)
  {
    assert t[j..j + 1] == [t[j]];
  }

  /** One more `,\s+<word>\s+(\d+)` in front of counts that match. */
  lemma MoreCountsStep(t: string, i: nat, word: string, words: seq<string>, e: nat)
    requires NextCount(t, i, word) == Some(e)
    requires MoreCounts(t, e, words)
    ensures MoreCounts(t, i, [word] + words)
  {
    assert ([word] + words)[1..] == words;
  }

  /** The first laid-out field is matched by `,\s+<word>\s+(\d+)`. */
  lemma LaidNextCount(t: string, i: nat, fields: seq<(string, nat)>, rest: string)
    requires fields != [] && PlainWord(fields[0].0) && |rest| > 0 && !IsDigit(rest[0])
    requires Laid(t, i, fields, rest)
    ensures NextCount(t, i, fields[0].0) == Some(i + 1 + |Field(fields[0].0, fields[0].1)|)
    ensures Laid(t, i + 1 + |Field(fields[0].0, fields[0].1)|, fields[1..], rest)
  {
    var word := fields[0].0;
    var e := i + 1 + |Field(word, fields[0].1)|;
    LaidHead(t, e, fields[1..], rest);
    LocalCountField(t, i + 1, word, fields[0].1);
    CommaCount(t, i, word, i + 1 + |word| + 2, e);
  }

  /** Laid-out fields followed by a non-digit are matched one after the other. */
  lemma {:induction false} LocalMoreCounts(t: string, i: nat, fields: seq<(string, nat)>, rest: string)
    requires PlainWords(fields) && |rest| > 0 && !IsDigit(rest[0])
    requires Laid(t, i, fields, rest)
    ensures MoreCounts(t, i, Words(fields))
    decreases |fields|
  {
    if fields != [] {
      LaidNextCount(t, i, fields, rest);
      var e := i + 1 + |Field(fields[0].0, fields[0].1)|;
      LocalMoreCounts(t, e, fields[1..], rest);
      MoreCountsStep(t, i, fields[0].0, Words(fields[1..]), e);
      assert Words(fields) == [fields[0].0] + Words(fields[1..]);
    }
  }

  /** The counts after the head are matched, capturing the first, whose digits are `n`'s. */
  lemma CountsOf(t: string, p: nat, head: string, first: string, more: seq<string>, n: nat, d: nat, e: nat)
    requires StartsAt(t, p, head)
    requires CountField(t, p + |head|, first) == Some((d, e))
    requires t[d..e] == ShowNat(n)
    requires MoreCounts(t, e, more)
    ensures CountsAt(t, p, head, first, more) == Some(ShowNat(n))
  {
  }

  /** A counts line is its head, its first count, and its other counts laid out. */
  lemma CountsLineLaid(t: string, p: nat, head: string, first: string, n: nat, more: seq<(string, nat)>)
    requires StartsAt(t, p, CountsLine(head, first, n, more))
    ensures StartsAt(t, p, head) && StartsAt(t, p + |head|, Field(first, n))
    ensures Laid(t, p + |head| + |Field(first, n)|, more, "\n")
  {
    CountsLineParts(head, first, n, more);
    StartsAtThree(t, p, head, Field(first, n), MoreFields(more) + "\n");
    LaidOf(t, p + |head| + |Field(first, n)|, more, "\n");
  }

  /** The first count of a counts line, which a non-digit follows, is captured, and its digits are the printed count. */
  lemma LocalFirstCount(t: string, i: nat, first: string, n: nat)
    requires PlainWord(first) && StartsAt(t, i, Field(first, n))
    requires i + |Field(first, n)| < |t| && !IsDigit(t[i + |Field(first, n)|])
    ensures CountField(t, i, first) == Some((i + |first| + 2, i + |Field(first, n)|))
    ensures t[i + |first| + 2..i + |Field(first, n)|] == ShowNat(n)
  {
    LocalCountField(t, i, first, n);
    FieldSplit(t, i, first, n);
  }

  /** A head and a first count, which a non-digit and then matching counts follow, are matched. */
  lemma LocalCountsFirst(t: string, p: nat, head: string, first: string, n: nat, more: seq<string>)
    requires PlainWord(first) && StartsAt(t, p, head) && StartsAt(t, p + |head|, Field(first, n))
    requires p + |head| + |Field(first, n)| < |t| && !IsDigit(t[p + |head| + |Field(first, n)|])
    requires MoreCounts(t, p + |head| + |Field(first, n)|, more)
    ensures CountsAt(t, p, head, first, more) == Some(ShowNat(n))
  {
    LocalFirstCount(t, p + |head|, first, n);
    CountsOf(t, p, head, first, more, n, p + |head| + |first| + 2, p + |head| + |Field(first, n)|);
  }

  /** A head, a first count and laid-out counts are matched, capturing the first count. */
  lemma LocalCountsLaid(t: string, p: nat, head: string, first: string, n: nat, more: seq<(string, nat)>)
    requires PlainWord(first) && PlainWords(more)
    requires StartsAt(t, p, head) && StartsAt(t, p + |head|, Field(first, n))
    requires Laid(t, p + |head| + |Field(first, n)|, more, "\n")
    ensures CountsAt(t, p, head, first, Words(more)) == Some(ShowNat(n))
  {
    LaidHead(t, p + |head| + |Field(first, n)|, more, "\n");
    LocalMoreCounts(t, p + |head| + |Field(first, n)|, more, "\n");
    LocalCountsFirst(t, p, head, first, n, Words(more));
  }

  /** A line of named counts is matched where it starts, capturing the first count. */
  lemma LocalCounts(t: string, p: nat, head: string, first: string, n: nat, more: seq<(string, nat)>)
    requires PlainWord(first) && PlainWords(more)
    requires StartsAt(t, p, CountsLine(head, first, n, more))
    ensures CountsAt(t, p, head, first, Words(more)) == Some(ShowNat(n))
  {
    CountsLineLaid(t, p, head, first, n, more);
    LocalCountsLaid(t, p, head, first, n, more);
  }

  /** The socket-errors line is matched where it starts, capturing the printed connect count. */
  lemma LocalSocket(t: string, p: nat, e: SocketErrors)
    requires StartsAt(t, p, SocketLine(e))
    ensures SocketErrorsAt(t, p) == Some(ShowNat(e.connect))
  {
    var more := [("read", e.read), ("write", e.write), ("timeout", e.timeout)];
    assert Words(more[2..]) == ["timeout"];
    assert Words(more[1..]) == ["write", "timeout"];
    assert Words(more) == ["read", "write", "timeout"];
    assert PlainWords(more[2..]) && PlainWords(more[1..]) && PlainWords(more);
    LocalCounts(t, p, SOCKET_LABEL, "connect", e.connect, more);
  }
}
