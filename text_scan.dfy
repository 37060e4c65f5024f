/**
 * The regular-expression building blocks that the report parser relies on,
 * written out as scanning functions over strings: character classes, greedy
 * runs, literal tests, first-match search, and Python's `float()`/`int()` on
 * the digit tokens that the patterns capture.
 */
module TextScan {
  import opened Wrappers

  /**
   * `\s` (and the characters `str.strip()` removes), restricted to ASCII: space,
   * tab, line feed, carriage return, vertical tab, form feed and the four
   * separators U+001C to U+001F.
   */
  predicate IsSpace(c: char) {
    c == ' ' || c == '\t' || c == '\n' || c == '\r' || c == '\U{B}' || c == '\U{C}' ||
    '\U{1C}' <= c <= '\U{1F}'
  }

  /** `\d`, restricted to ASCII. */
  predicate IsDigit(c: char) {
    '0' <= c <= '9'
  }

  /** The class `[0-9.]`. */
  predicate IsNumChar(c: char) {
    IsDigit(c) || c == '.'
  }

  /** `\w`, restricted to ASCII. */
  predicate IsWordChar(c: char) {
    'a' <= c <= 'z' || 'A' <= c <= 'Z' || IsDigit(c) || c == '_'
  }

  predicate All(s: string, p: char -> bool) {
    forall i :: 0 <= i < |s| ==> p(s[i])
  }

  /** The literal `lit` occurs in `s` starting at index `i`. */
  predicate StartsAt(s: string, i: nat, lit: string) {
    i + |lit| <= |s| && s[i..i + |lit|] == lit
  }

  /** Where `lit` occurs, the text holds its characters one by one. */
  lemma StartsAtChars(s: string, i: nat, lit: string)
    requires StartsAt(s, i, lit)
    ensures forall k :: 0 <= k < |lit| ==> s[i + k] == lit[k]
  {
    forall k | 0 <= k < |lit| ensures s[i + k] == lit[k] {
      assert s[i..i + |lit|][k] == s[i + k];
    }
  }

  /** One character of an occurrence of `lit`. */
  lemma CharAt(s: string, i: nat, lit: string, k: nat)
    requires StartsAt(s, i, lit) && k < |lit|
    ensures s[i + k] == lit[k]
  {
    assert s[i..i + |lit|][k] == s[i + k];
  }

  /** Over an occurrence of `lit`, whose characters all satisfy `p`, `Span` runs to its end when nothing after it satisfies `p`. */
  lemma SpanOver(s: string, i: nat, lit: string, p: char -> bool)
    requires StartsAt(s, i, lit) && All(lit, p)
    requires i + |lit| == |s| || !p(s[i + |lit|])
    ensures Span(s, i, p) == i + |lit|
  {
    StartsAtChars(s, i, lit);
    forall k | i <= k < i + |lit| ensures p(s[k]) {
      assert s[i + (k - i)] == lit[k - i];
    }
    SpanExact(s, i, i + |lit|, p);
  }

  /** An occurrence of `x + y` is an occurrence of `x` followed by one of `y`. */
  lemma StartsAtSplit(s: string, i: nat, x: string, y: string)
    requires StartsAt(s, i, x + y)
    ensures StartsAt(s, i, x) && StartsAt(s, i + |x|, y)
  {
    assert s[i..i + |x|] == s[i..i + |x + y|][..|x|];
    assert s[i + |x|..i + |x| + |y|] == s[i..i + |x + y|][|x|..];
  }

  /** An occurrence of `x + (y + z)` is one of `x`, then one of `y`, then one of `z`. */
  lemma StartsAtThree(s: string, i: nat, x: string, y: string, z: string)
    requires StartsAt(s, i, x + (y + z))
    ensures StartsAt(s, i, x) && StartsAt(s, i + |x|, y) && StartsAt(s, i + |x| + |y|, z)
  {
    StartsAtSplit(s, i, x, y + z);
    StartsAtSplit(s, i + |x|, y, z);
  }

  /** End of the longest run of `p`-characters that starts at `i` (a greedy `p*`). */
  function Span(s: string, i: nat, p: char -> bool): (j: nat)
    requires i <= |s|
    decreases |s| - i
    ensures i <= j <= |s|
    ensures j == |s| || !p(s[j])
  {
    if i < |s| && p(s[i]) then Span(s, i + 1, p) else i
  }

  /** Everything `Span` runs over satisfies `p`. */
  lemma {:induction false} SpanAll(s: string, i: nat, p: char -> bool)
    requires i <= |s|
    ensures forall k :: i <= k < Span(s, i, p) ==> p(s[k])
    decreases |s| - i
  {
    if i < |s| && p(s[i]) {
      SpanAll(s, i + 1, p);
    }
  }

  /** Start of the longest run of `p`-characters that ends at `j`. */
  function SpanBack(s: string, j: nat, p: char -> bool): (i: nat)
    requires j <= |s|
    ensures i <= j
    ensures forall k :: i <= k < j ==> p(s[k])
    ensures i == 0 || !p(s[i - 1])
  {
    if j > 0 && p(s[j - 1]) then SpanBack(s, j - 1, p) else j
  }

  /** A run of `p`-characters from `i` to `j` that stops at `j` is what `Span` finds. */
  lemma SpanExact(s: string, i: nat, j: nat, p: char -> bool)
    requires i <= j <= |s|
    requires forall k :: i <= k < j ==> p(s[k])
    requires j == |s| || !p(s[j])
    ensures Span(s, i, p) == j
    decreases j - i
  {
    if i < j {
      SpanExact(s, i + 1, j, p);
    }
  }

  predicate EndsWith(s: string, suffix: string) {
    |suffix| <= |s| && s[|s| - |suffix|..] == suffix
  }

  /** Index of the first occurrence of `c` in `s`. */
  function IndexOf(s: string, c: char): (r: Option<nat>)
    ensures r.None? ==> c !in s
    ensures r.Some? ==> r.value < |s| && s[r.value] == c && c !in s[..r.value]
  {
    if |s| == 0 then None
    else if s[0] == c then Some(0)
    else
      match IndexOf(s[1..], c)
      case None => None
      case Some(i) => Some(i + 1)
  }

  /**
   * The earliest start position, at or after `from`, at which the matcher `m`
   * succeeds. A matcher gives the captured group of a match starting at a
   * position, or None when the pattern cannot match there.
   */
  function SearchFrom(text: string, from: nat, m: (string, nat) -> Option<string>): (r: Option<nat>)
    requires from <= |text|
    decreases |text| - from
    ensures r.Some? ==> from <= r.value <= |text| && m(text, r.value).Some?
    ensures r.Some? ==> forall q :: from <= q < r.value ==> m(text, q).None?
    ensures r.None? ==> forall p :: from <= p <= |text| ==> m(text, p).None?
  {
    if m(text, from).Some? then Some(from)
    else if from == |text| then None
    else SearchFrom(text, from + 1, m)
  }

  /** Python's `re.search`: the earliest position of the whole text where `m` matches. */
  function Search(text: string, m: (string, nat) -> Option<string>): (r: Option<nat>)
    ensures r.Some? ==> r.value <= |text| && m(text, r.value).Some?
    ensures r.Some? ==> forall q :: 0 <= q < r.value ==> m(text, q).None?
    ensures r.None? <==> forall p :: 0 <= p <= |text| ==> m(text, p).None?
  {
    SearchFrom(text, 0, m)
  }

  /** The captured group of the first match of `m` in `text`, if any. */
  function Find(text: string, m: (string, nat) -> Option<string>): (r: Option<string>)
    ensures r.Some? <==> exists p :: 0 <= p <= |text| && m(text, p).Some?
  {
    match Search(text, m)
    case None => None
    case Some(p) => m(text, p)
  }

  /** A matcher that succeeds at `p`, and nowhere before, is found at `p`. */
  lemma SearchFirst(text: string, m: (string, nat) -> Option<string>, p: nat)
    requires p <= |text| && m(text, p).Some?
    requires forall q :: 0 <= q < p ==> m(text, q).None?
    ensures Search(text, m) == Some(p)
  {
  }

  /** A matcher that succeeds at `p`, and nowhere before, is what `Find` reports. */
  lemma FindFirst(text: string, m: (string, nat) -> Option<string>, p: nat)
    requires p <= |text| && m(text, p).Some?
    requires forall q :: 0 <= q < p ==> m(text, q).None?
    ensures Find(text, m) == m(text, p)
  {
  }

  function DigitValue(c: char): nat
    requires IsDigit(c)
  {
    (c as int) - ('0' as int)
  }

  function DigitChar(d: nat): (c: char)
    requires d < 10
    ensures IsDigit(c) && DigitValue(c) == d
  {
    ('0' as int + d) as char
  }

  /** Python's `int()` on a string of decimal digits (leading zeros allowed). */
  function DigitsValue(d: string): (r: nat)
    requires All(d, IsDigit)
    ensures r < Pow10(|d|)
  {
    if d == [] then 0 else DigitsValue(d[..|d| - 1]) * 10 + DigitValue(d[|d| - 1])
  }

  /** The decimal text of `n`, as an f-string or `str()` renders an int. */
  function ShowNat(n: nat): (s: string)
    ensures |s| >= 1 && All(s, IsDigit)
  {
    if n < 10 then [DigitChar(n)] else ShowNat(n / 10) + [DigitChar(n % 10)]
  }

  lemma {:induction false} ShowNatValue(n: nat)
    ensures DigitsValue(ShowNat(n)) == n
  {
    var s := ShowNat(n);
    if n >= 10 {
      var t := ShowNat(n / 10);
      assert s[..|s| - 1] == t;
      ShowNatValue(n / 10);
    }
  }

  function Pow10(k: nat): (r: nat)
    ensures r >= 1
  {
    if k == 0 then 1 else 10 * Pow10(k - 1)
  }

  /**
   * Python's `float()` applied to a token of the class `[0-9.]+`: it succeeds
   * exactly when the token has at most one dot and at least one digit, and
   * raises (None here) otherwise. The value is exact; IEEE rounding is not
   * modelled.
   */
  function ParseDecimal(s: string): (r: Option<real>)
    ensures r.Some? ==> r.value >= 0.0
  {
    match IndexOf(s, '.')
    case None =>
      if |s| > 0 && All(s, IsDigit) then Some(DigitsValue(s) as real) else None
    case Some(i) =>
      var whole, frac := s[..i], s[i + 1..];
      if |whole| + |frac| > 0 && All(whole, IsDigit) && All(frac, IsDigit)
      then Some(PointValue(whole, frac))
      else None
  }

  /** The value of the decimal text `<whole>.<frac>`. */
  function PointValue(whole: string, frac: string): (v: real)
    requires All(whole, IsDigit) && All(frac, IsDigit)
    ensures v >= DigitsValue(whole) as real
  {
    DigitsValue(whole) as real + DigitsValue(frac) as real / Pow10(|frac|) as real
  }

  /** A token without a digit, such as `.`, is one `float()` rejects. */
  lemma ParseDecimalNoDigit(s: string)
    requires forall i :: 0 <= i < |s| ==> !IsDigit(s[i])
    ensures ParseDecimal(s).None?
  {
    match IndexOf(s, '.')
    case None =>
      if |s| > 0 { assert !IsDigit(s[0]); }
    case Some(i) =>
      var whole, frac := s[..i], s[i + 1..];
      if |whole| > 0 { assert whole[0] == s[0]; }
      else if |frac| > 0 { assert frac[0] == s[i + 1]; }
  }

  /** Only a non-empty string of digits and dots can be a float token. */
  lemma ParseDecimalShape(s: string)
    requires ParseDecimal(s).Some?
    ensures |s| > 0 && All(s, IsNumChar)
  {
    match IndexOf(s, '.')
    case None =>
    case Some(i) =>
      assert s == s[..i] + [s[i]] + s[i + 1..];
  }

  /** A digit string reads back as its integer value. */
  lemma ParseDecimalDigits(d: string)
    requires |d| > 0 && All(d, IsDigit)
    ensures ParseDecimal(d) == Some(DigitsValue(d) as real)
  {
    forall k | 0 <= k < |d| ensures d[k] != '.' {
      assert IsDigit(d[k]);
    }
  }

  /** `str(n)` reads back as `n`. */
  lemma ParseDecimalShowNat(n: nat)
    ensures ParseDecimal(ShowNat(n)) == Some(n as real)
  {
    ParseDecimalDigits(ShowNat(n));
    ShowNatValue(n);
  }

  /** A token `<whole>.<frac>` of digits reads as whole + frac / 10^|frac|. */
  lemma ParseDecimalPoint(whole: string, frac: string)
    requires All(whole, IsDigit) && All(frac, IsDigit) && |whole| + |frac| > 0
    ensures ParseDecimal(whole + "." + frac) == Some(PointValue(whole, frac))
  {
    var s := whole + "." + frac;
    IndexOfAfterDigits(whole, frac);
    assert s[..|whole|] == whole;
    assert s[|whole| + 1..] == frac;
  }

  lemma IndexOfAfterDigits(whole: string, frac: string)
    requires All(whole, IsDigit)
    ensures IndexOf(whole + "." + frac, '.') == Some(|whole|)
  {
    var s := whole + "." + frac;
    assert s[|whole|] == '.';
    forall k | 0 <= k < |whole| ensures s[k] != '.' {
      assert s[k] == whole[k] && IsDigit(whole[k]);
    }
    assert '.' in s[..|whole| + 1];
  }

  /** A token with two dots is not a float: `float()` raises. */
  lemma ParseDecimalTwoDots(s: string, i: nat, j: nat)
    requires i < j < |s| && s[i] == '.' && s[j] == '.'
    ensures ParseDecimal(s) == None
  {
    var k := IndexOf(s, '.');
    assert k.Some? && k.value <= i;
    var frac := s[k.value + 1..];
    assert frac[j - k.value - 1] == '.';
    assert !IsDigit(frac[j - k.value - 1]);
  }

  /** The bounds of `s.strip()`: what lies outside is whitespace, and the kept part does not start or end with it. */
  function StripBounds(s: string): (r: (nat, nat))
    ensures r.0 <= r.1 <= |s|
    ensures All(s[..r.0], IsSpace) && All(s[r.1..], IsSpace)
    ensures r.0 < r.1 ==> !IsSpace(s[r.0]) && !IsSpace(s[r.1 - 1])
  {
    var i := Span(s, 0, IsSpace);
    SpanAll(s, 0, IsSpace);
    var j := SpanBack(s, |s|, IsSpace);
    if j <= i then
      assert All(s[..|s|], IsSpace) by {
        forall k | 0 <= k < |s| ensures IsSpace(s[k]) {
          if k >= i { assert false; }
        }
      }
      (|s|, |s|)
    else (i, j)
  }

  /** Python's `str.strip()`. */
  function Strip(s: string): (r: string)
    ensures |r| > 0 ==> !IsSpace(r[0]) && !IsSpace(r[|r| - 1])
    ensures exists i :: 0 <= i <= |s| - |r| && s[i..i + |r|] == r && All(s[..i], IsSpace) && All(s[i + |r|..], IsSpace)
  {
    var b := StripBounds(s);
    s[b.0..b.1]
  }

  /** Stripping a string that neither starts nor ends with whitespace leaves it as it is. */
  /** `strip()` removes exactly the whitespace around a text that neither starts nor ends with whitespace. */
  lemma StripPadded(pre: string, s: string, post: string)
    requires All(pre, IsSpace) && All(post, IsSpace)
    requires |s| > 0 && !IsSpace(s[0]) && !IsSpace(s[|s| - 1])
    ensures Strip(pre + s + post) == s
  {
    var x := pre + s + post;
    var b := StripBounds(x);
    assert x[|pre|] == s[0];
    assert x[|pre| + |s| - 1] == s[|s| - 1];
    assert b.0 <= |pre|;
    assert b.1 >= |pre| + |s|;
    assert b.0 >= |pre|;
    assert b.1 <= |pre| + |s|;
    assert x[b.0..b.1] == s;
  }

  lemma StripTrimmed(s: string)
    requires |s| > 0 && !IsSpace(s[0]) && !IsSpace(s[|s| - 1])
    ensures Strip(s) == s
  {
  }
}
