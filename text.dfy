/**
 * Character classes, decimal numerals and string order shared by the parsers,
 * the UUID stripper and the timestamp comparisons.
 */
module Text {

  /** The regular-expression class `\w` without the `u` flag: `[A-Za-z0-9_]`. */
  predicate IsWordChar(c: char) {
    ('a' <= c <= 'z') || ('A' <= c <= 'Z') || ('0' <= c <= '9') || c == '_'
  }

  /** The regular-expression class `\d` without the `u` flag: `[0-9]`. */
  predicate IsDigit(c: char) {
    '0' <= c <= '9'
  }

  predicate AllWord(s: string) {
    forall i :: 0 <= i < |s| ==> IsWordChar(s[i])
  }

  predicate AllDigits(s: string) {
    forall i :: 0 <= i < |s| ==> IsDigit(s[i])
  }

  function DigitValue(c: char): (d: nat)
    requires IsDigit(c)
    ensures d < 10
  {
    (c as int) - ('0' as int)
  }

  /** The number a string of decimal digits denotes (leading zeros allowed). */
  function DigitsValue(s: string): nat
    requires AllDigits(s)
  {
    if s == [] then 0 else DigitsValue(s[..|s| - 1]) * 10 + DigitValue(s[|s| - 1])
  }

  function DigitChar(d: nat): (c: char)
    requires d < 10
    ensures IsDigit(c) && DigitValue(c) == d
  {
    (('0' as int) + d) as char
  }

  /** The shortest decimal spelling of `n`: JavaScript's `${n}` and Python's `str(n)` for a natural. */
  function NatToString(n: nat): string
  {
    if n < 10 then [DigitChar(n)] else NatToString(n / 10) + [DigitChar(n % 10)]
  }

  lemma {:induction false} NatToStringDenotes(n: nat)
    ensures |NatToString(n)| > 0 && AllDigits(NatToString(n))
    ensures DigitsValue(NatToString(n)) == n
    ensures NatToString(n)[0] != '0' || n == 0
  {
    if n >= 10 {
      NatToStringDenotes(n / 10);
      var s := NatToString(n);
      assert s[..|s| - 1] == NatToString(n / 10);
    }
  }

  /** A one-, two- or three-digit numeral's value, digit by digit. */
  lemma DigitsValue1(a: char)
    requires IsDigit(a)
    ensures DigitsValue([a]) == DigitValue(a)
  {
    assert [a][..0] == [];
  }


  lemma DigitsValue2(a: char, b: char)
    requires IsDigit(a) && IsDigit(b)
    ensures DigitsValue([a, b]) == DigitValue(a) * 10 + DigitValue(b)
  {
    assert [a, b][..1] == [a] && [a][..0] == [];
    assert DigitsValue([a]) == DigitsValue([]) * 10 + DigitValue(a);
  }

  lemma DigitsValue3(a: char, b: char, c: char)
    requires IsDigit(a) && IsDigit(b) && IsDigit(c)
    ensures DigitsValue([a, b, c]) == (DigitValue(a) * 10 + DigitValue(b)) * 10 + DigitValue(c)
  {
    assert [a, b, c][..2] == [a, b];
    DigitsValue2(a, b);
  }

  /**
   * The longest prefix of `s` all of whose characters satisfy `p`, as a greedy
   * `p+`/`p*` repetition in a regular expression consumes it.
   */
  function Span(s: string, p: char -> bool): (n: nat)
    ensures n <= |s|
    ensures forall i :: 0 <= i < n ==> p(s[i])
    ensures n < |s| ==> !p(s[n])
  {
    if s == [] || !p(s[0]) then 0 else 1 + Span(s[1..], p)
  }

  lemma {:induction false} SpanOfPrefix(x: string, y: string, p: char -> bool)
    requires forall i :: 0 <= i < |x| ==> p(x[i])
    requires y == [] || !p(y[0])
    ensures Span(x + y, p) == |x|
  {
    if x != [] {
      assert (x + y)[1..] == x[1..] + y;
      SpanOfPrefix(x[1..], y, p);
    } else {
      assert x + y == y;
    }
  }

  /**
   * Strict lexicographic order on strings by character code, the order of
   * JavaScript's `<`/`>` on (BMP) strings and of Python's `<` on `str`.
   */
  predicate Below(a: string, b: string)
  {
    if a == [] then b != []
    else if b == [] then false
    else a[0] < b[0] || (a[0] == b[0] && Below(a[1..], b[1..]))
  }

  lemma {:induction false} BelowIrreflexive(a: string)
    ensures !Below(a, a)
  {
    if a != [] {
      BelowIrreflexive(a[1..]);
    }
  }

  lemma {:induction false} BelowTransitive(a: string, b: string, c: string)
    requires Below(a, b) && Below(b, c)
    ensures Below(a, c)
  {
    if a != [] && b != [] && c != [] && a[0] == b[0] == c[0] {
      BelowTransitive(a[1..], b[1..], c[1..]);
    }
  }

  lemma {:induction false} BelowTotal(a: string, b: string)
    requires a != b
    ensures Below(a, b) || Below(b, a)
  {
    if a != [] && b != [] && a[0] == b[0] {
      assert a == [a[0]] + a[1..] && b == [b[0]] + b[1..];
      BelowTotal(a[1..], b[1..]);
    }
  }

  lemma {:induction false} BelowAsymmetric(a: string, b: string)
    requires Below(a, b)
    ensures !Below(b, a)
  {
    if a != [] && b != [] && a[0] == b[0] {
      BelowAsymmetric(a[1..], b[1..]);
    }
  }

  /** A common prefix does not change the order. */
  lemma {:induction false} BelowAfterPrefix(p: string, a: string, b: string)
    ensures Below(p + a, p + b) == Below(a, b)
  {
    if p != [] {
      assert (p + a)[0] == (p + b)[0] && (p + a)[1..] == p[1..] + a && (p + b)[1..] == p[1..] + b;
      BelowAfterPrefix(p[1..], a, b);
    } else {
      assert p + a == a && p + b == b;
    }
  }

  /**
   * `s.split(sep)` for a one-character separator, which JavaScript and Python
   * define alike: the pieces between the occurrences of `sep`, at least one.
   */
  function Split(s: string, sep: char): (parts: seq<string>)
    ensures |parts| >= 1
    decreases |s|
  {
    var i := Span(s, c => c != sep);
    if i == |s| then [s] else [s[..i]] + Split(s[i + 1..], sep)
  }

  /** The pieces glued back with the separator: what `Split` inverts. */
  function Join(parts: seq<string>, sep: char): string
    requires |parts| >= 1
  {
    if |parts| == 1 then parts[0] else parts[0] + [sep] + Join(parts[1..], sep)
  }

  lemma SplitNone(x: string, sep: char)
    requires sep !in x
    ensures Split(x, sep) == [x]
  {
    assert forall i :: 0 <= i < |x| ==> x[i] != sep;
    SpanOfPrefix(x, [], c => c != sep);
    assert x + [] == x;
  }

  lemma SplitOf(x: string, sep: char, y: string)
    requires sep !in x
    ensures Split(x + [sep] + y, sep) == [x] + Split(y, sep)
  {
    var s := x + [sep] + y;
    assert s == x + ([sep] + y);
    assert forall i :: 0 <= i < |x| ==> x[i] != sep;
    SpanOfPrefix(x, [sep] + y, c => c != sep);
    assert s[..|x|] == x && s[|x| + 1..] == y;
  }

  /** There is a second piece exactly when the separator occurs. */
  lemma SplitFound(s: string, sep: char)
    ensures |Split(s, sep)| >= 2 <==> sep in s
  {
    var i := Span(s, c => c != sep);
    if i == |s| {
      assert forall j :: 0 <= j < |s| ==> s[j] != sep;
    } else {
      assert s[i] == sep;
    }
  }

  /** Splitting loses nothing: the pieces hold no separator and join back to `s`. */
  lemma {:induction false} SplitJoin(s: string, sep: char)
    ensures var parts := Split(s, sep);
            Join(parts, sep) == s && forall k :: 0 <= k < |parts| ==> sep !in parts[k]
    decreases |s|
  {
    var i := Span(s, c => c != sep);
    var x := s[..i];
    assert sep !in x by {
      forall j | 0 <= j < |x| ensures x[j] != sep { assert x[j] == s[j]; }
    }
    if i < |s| {
      var y := s[i + 1..];
      assert s == x + [sep] + y;
      SplitOf(x, sep, y);
      SplitJoin(y, sep);
    } else {
      assert x == s;
      SplitNone(s, sep);
    }
  }

  /** Python's `s.replace(pat, '')`: every non-overlapping occurrence, scanning left to right, removed. */
  function RemoveAll(s: string, pat: string): (r: string)
    requires |pat| > 0
    ensures |r| <= |s|
    decreases |s|
  {
    if |s| < |pat| then s
    else if s[..|pat|] == pat then RemoveAll(s[|pat|..], pat)
    else [s[0]] + RemoveAll(s[1..], pat)
  }

  /** JavaScript's `s.replace(pat, '')` with a string pattern: only the leftmost occurrence removed. */
  function RemoveFirst(s: string, pat: string): (r: string)
    requires |pat| > 0
    ensures |r| == |s| || |r| == |s| - |pat|
    decreases |s|
  {
    if |s| < |pat| then s
    else if s[..|pat|] == pat then s[|pat|..]
    else [s[0]] + RemoveFirst(s[1..], pat)
  }

  lemma RemoveAllLeading(pat: string, r: string)
    requires |pat| > 0
    ensures RemoveAll(pat + r, pat) == RemoveAll(r, pat)
  {
    assert (pat + r)[..|pat|] == pat && (pat + r)[|pat|..] == r;
  }

  lemma RemoveFirstLeading(pat: string, r: string)
    requires |pat| > 0
    ensures RemoveFirst(pat + r, pat) == r
  {
    assert (pat + r)[..|pat|] == pat && (pat + r)[|pat|..] == r;
  }

  /** A string without the pattern's first character holds no occurrence: nothing is removed. */
  lemma {:induction false} RemoveAllAbsent(r: string, pat: string)
    requires |pat| > 0 && pat[0] !in r
    ensures RemoveAll(r, pat) == r
    decreases |r|
  {
    if |r| >= |pat| {
      assert r[..|pat|][0] == r[0] != pat[0];
      assert r[1..] == r[1..];
      assert pat[0] !in r[1..] by {
        forall i | 0 <= i < |r[1..]| ensures r[1..][i] != pat[0] { assert r[1..][i] == r[i + 1]; }
      }
      RemoveAllAbsent(r[1..], pat);
      assert r == [r[0]] + r[1..];
    }
  }

  lemma {:induction false} RemoveFirstAbsent(r: string, pat: string)
    requires |pat| > 0 && pat[0] !in r
    ensures RemoveFirst(r, pat) == r
    decreases |r|
  {
    if |r| >= |pat| {
      assert r[..|pat|][0] == r[0] != pat[0];
      assert pat[0] !in r[1..] by {
        forall i | 0 <= i < |r[1..]| ensures r[1..][i] != pat[0] { assert r[1..][i] == r[i + 1]; }
      }
      RemoveFirstAbsent(r[1..], pat);
      assert r == [r[0]] + r[1..];
    }
  }
}
