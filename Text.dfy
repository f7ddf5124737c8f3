/**
 * The pieces of Python's string handling that the question parser relies on:
 * `str.strip()`, `str.split('\n')`, the regex classes `\s` and `\d`, and `int()`
 * of a run of decimal digits. Only ASCII is modelled: `\s` and `strip()` agree
 * on the ASCII whitespace characters below, and `\d` is taken to be '0'..'9'.
 */
module Text {

  /** ASCII characters that both `str.strip()` and the regex class `\s` treat as whitespace. */
  predicate IsSpace(c: char) {
    // '\t' .. '\r' are tab, line feed, vertical tab, form feed and carriage return;
    // '\U{1C}' .. '\U{1F}' are the file, group, record and unit separators
    c == ' ' || ('\t' <= c <= '\r') || ('\U{1C}' <= c <= '\U{1F}')
  }

  predicate IsDigit(c: char) {
    '0' <= c <= '9'
  }

  predicate AllSpace(s: string) {
    forall i :: 0 <= i < |s| ==> IsSpace(s[i])
  }

  predicate AllDigits(s: string) {
    forall i :: 0 <= i < |s| ==> IsDigit(s[i])
  }

  /** `s[i..j]` is all whitespace. */
  predicate SpacesBetween(s: string, i: nat, j: nat)
    requires i <= j <= |s|
  {
    forall m :: i <= m < j ==> IsSpace(s[m])
  }

  /** `s[i..j]` is all digits. */
  predicate DigitsBetween(s: string, i: nat, j: nat)
    requires i <= j <= |s|
  {
    forall m :: i <= m < j ==> IsDigit(s[m])
  }

  /** A string that `strip()` leaves alone: empty, or no whitespace at either end. */
  predicate IsStripped(s: string) {
    s == [] || (!IsSpace(s[0]) && !IsSpace(s[|s| - 1]))
  }

  /** The end of the whitespace run that starts at `i` (what greedy `\s*` consumes from there). */
  function SkipSpaces(s: string, i: nat): (j: nat)
    requires i <= |s|
    ensures i <= j <= |s| && SpacesBetween(s, i, j)
    ensures j < |s| ==> !IsSpace(s[j])
    decreases |s| - i
  {
    if i == |s| || !IsSpace(s[i]) then i else SkipSpaces(s, i + 1)
  }

  /** The end of the digit run that starts at `i` (what greedy `\d+` consumes from there). */
  function SkipDigits(s: string, i: nat): (j: nat)
    requires i <= |s|
    ensures i <= j <= |s| && DigitsBetween(s, i, j)
    ensures j < |s| ==> !IsDigit(s[j])
    decreases |s| - i
  {
    if i == |s| || !IsDigit(s[i]) then i else SkipDigits(s, i + 1)
  }

  /** The start of the whitespace run that ends at `j`, not going below `lo`. */
  function SkipSpacesBack(s: string, lo: nat, j: nat): (i: nat)
    requires lo <= j <= |s|
    ensures lo <= i <= j && SpacesBetween(s, i, j)
    ensures i > lo ==> !IsSpace(s[i - 1])
    decreases j
  {
    if j == lo || !IsSpace(s[j - 1]) then j else SkipSpacesBack(s, lo, j - 1)
  }

  /**
   * Python's `str.strip()`: the result is the part of `s` left after removing
   * the leading and trailing whitespace runs; it has no whitespace at either
   * end and is empty exactly when `s` is all whitespace.
   */
  function Strip(s: string): (r: string)
    ensures IsStripped(r) && |r| <= |s|
    ensures r == [] <==> AllSpace(s)
    ensures forall c :: c in r ==> c in s
    ensures exists a, b :: 0 <= a <= b <= |s| && r == s[a..b] && SpacesBetween(s, 0, a) && SpacesBetween(s, b, |s|)
  {
    var a := SkipSpaces(s, 0);
    var b := SkipSpacesBack(s, a, |s|);
    assert a == |s| ==> SpacesBetween(s, 0, |s|);
    assert a < b ==> !IsSpace(s[a]);
    s[a..b]
  }

  /** `strip()` is the identity on a string that has no whitespace at its ends (so it is idempotent). */
  lemma StripStripped(s: string)
    requires IsStripped(s)
    ensures Strip(s) == s
  {
    if s != [] {
      assert SkipSpaces(s, 0) == 0;
      assert SkipSpacesBack(s, 0, |s|) == |s|;
    }
  }

  /** Index of the first `sep` in `s`, or `|s|` when there is none. */
  function IndexOf(s: string, sep: char): (k: nat)
    ensures k <= |s| && sep !in s[..k]
    ensures k < |s| ==> s[k] == sep
  {
    if s == [] then 0
    else if s[0] == sep then 0
    else
      var k := 1 + IndexOf(s[1..], sep);
      assert s[..k] == [s[0]] + s[1..][..k - 1];
      k
  }

  /**
   * Python's `s.split(sep)` with an explicit separator: always at least one part
   * (the empty string splits into `[""]`), no part contains the separator.
   */
  function Split(s: string, sep: char): (parts: seq<string>)
    ensures |parts| >= 1
    ensures forall p :: p in parts ==> sep !in p
    decreases |s|
  {
    var k := IndexOf(s, sep);
    if k == |s| then [s] else [s[..k]] + Split(s[k + 1..], sep)
  }

  /** Python's `sep.join(parts)`, the inverse of `Split`. */
  function Join(parts: seq<string>, sep: char): string
    requires |parts| >= 1
  {
    if |parts| == 1 then parts[0] else parts[0] + [sep] + Join(parts[1..], sep)
  }

  /** One level of `Split`: the text up to the first separator, then the split of the rest. */
  lemma SplitAt(s: string, sep: char, k: nat)
    requires k == IndexOf(s, sep) && k < |s|
    ensures Split(s, sep) == [s[..k]] + Split(s[k + 1..], sep)
  {
  }

  /** One level of `Join`. */
  lemma JoinCons(p: string, tail: seq<string>, sep: char)
    requires |tail| >= 1
    ensures Join([p] + tail, sep) == p + [sep] + Join(tail, sep)
  {
    assert ([p] + tail)[1..] == tail;
  }

  lemma {:induction false} JoinSplit(s: string, sep: char)
    ensures Join(Split(s, sep), sep) == s
    decreases |s|
  {
    var k := IndexOf(s, sep);
    if k == |s| {
      assert Split(s, sep) == [s];
    } else {
      var rest := s[k + 1..];
      SplitAt(s, sep, k);
      JoinSplit(rest, sep);
      JoinCons(s[..k], Split(rest, sep), sep);
      assert s == s[..k] + [sep] + rest;
    }
  }

  lemma {:induction false} SplitJoin(parts: seq<string>, sep: char)
    requires |parts| >= 1
    requires forall p :: p in parts ==> sep !in p
    ensures Split(Join(parts, sep), sep) == parts
    decreases |parts|
  {
    assert sep !in parts[0] by { assert parts[0] in parts; }
    if |parts| == 1 {
      IndexOfAbsent(parts[0], sep);
    } else {
      var p, tail := parts[0], parts[1..];
      assert parts == [p] + tail;
      var rest := Join(tail, sep);
      JoinCons(p, tail, sep);
      var s := p + [sep] + rest;
      IndexOfFirst(p, rest, sep);
      SplitAt(s, sep, |p|);
      assert s[..|p|] == p && s[|p| + 1..] == rest;
      assert forall q :: q in tail ==> q in parts;
      SplitJoin(tail, sep);
    }
  }

  lemma IndexOfAbsent(s: string, sep: char)
    requires sep !in s
    ensures IndexOf(s, sep) == |s|
  {
  }

  lemma {:induction false} IndexOfFirst(p: string, rest: string, sep: char)
    requires sep !in p
    ensures IndexOf(p + [sep] + rest, sep) == |p|
  {
    var s := p + [sep] + rest;
    if p != [] {
      assert s[1..] == p[1..] + [sep] + rest;
      IndexOfFirst(p[1..], rest, sep);
    }
  }

  // ---------------------------------------------------------------------------
  // Decimal numerals: `int()` of a digit run, and the digits a number prints as.

  function DigitValue(c: char): (d: nat)
    requires IsDigit(c)
    ensures d < 10
  {
    (c as int) - ('0' as int)
  }

  function DigitChar(d: nat): (c: char)
    requires d < 10
    ensures IsDigit(c) && DigitValue(c) == d
  {
    ('0' as int + d) as char
  }

  /** Python's `int(ds)` for a non-empty run of ASCII digits (leading zeros allowed). */
  function DigitsValue(ds: string): nat
    requires AllDigits(ds)
  {
    if ds == [] then 0 else 10 * DigitsValue(ds[..|ds| - 1]) + DigitValue(ds[|ds| - 1])
  }

  /** The canonical decimal numeral of `n`: what `str(n)` in Python or `${n}` in JavaScript prints. */
  function NatToDigits(n: nat): (ds: string)
    ensures |ds| >= 1 && AllDigits(ds)
    ensures |ds| > 1 ==> ds[0] != '0'
  {
    if n < 10 then [DigitChar(n)] else NatToDigits(n / 10) + [DigitChar(n % 10)]
  }

  /** Reading back the numeral of `n` gives `n`. */
  lemma {:induction false} DigitsRoundTrip(n: nat)
    ensures DigitsValue(NatToDigits(n)) == n
  {
    if n >= 10 {
      DigitsRoundTrip(n / 10);
      var ds := NatToDigits(n);
      assert ds[..|ds| - 1] == NatToDigits(n / 10);
    }
  }

  /**
   * An integer as an f-string renders it: a '-' for a negative number, then the
   * decimal numeral of its magnitude, which reads back as that magnitude.
   */
  function IntToString(i: int): (s: string)
    ensures |s| >= 1
    ensures (s[0] == '-') <==> i < 0
    ensures (if i < 0 then s[1..] else s) == NatToDigits(if i < 0 then -i else i)
    ensures var ds := if i < 0 then s[1..] else s; AllDigits(ds) && DigitsValue(ds) == (if i < 0 then -i else i)
  {
    var n: nat := if i < 0 then -i else i;
    DigitsRoundTrip(n);
    if i < 0 then
      var s := "-" + NatToDigits(n);
      assert s[1..] == NatToDigits(n);
      s
    else NatToDigits(n)
  }

}
