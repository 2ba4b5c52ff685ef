/**
 * The `Content-Range` pagination cursor of the current client
 * (`src_js/grndwork_api_client/content_range.ts`). The header has the shape of
 * the Content-Range field of section 14.4 of RFC 9110, with the custom range
 * unit `items` and 1-indexed positions: `items {first}-{last}/{count}`.
 */
module ContentRanges {
  import opened Wrappers
  import opened Text

  /** What one response says about its slice of the whole result. */
  datatype ContentRange = ContentRange(first: int, last: int, count: int, unit: string)

  const ParseError := "Could not parse content range"

  /** Well-formed pieces of a header matching `^(\w+) (\d+)-(\d+)\/(\d+)$`. */
  predicate Pieces(unit: string, first: string, last: string, count: string) {
    && |unit| > 0 && AllWord(unit)
    && |first| > 0 && AllDigits(first)
    && |last| > 0 && AllDigits(last)
    && |count| > 0 && AllDigits(count)
  }

  function Spell(unit: string, first: string, last: string, count: string): string {
    unit + " " + first + "-" + last + "/" + count
  }

  /**
   * One group of the regular expression followed by its separator: the greedy
   * run of class `p` at the front of `s` (at least one character), then `sep`.
   * Gives the group and what follows the separator.
   */
  function ScanField(s: string, p: char -> bool, sep: char): (r: Option<(string, string)>)
    requires !p(sep)
    ensures r.Some? ==> |r.value.0| > 0 && (forall i :: 0 <= i < |r.value.0| ==> p(r.value.0[i]))
                        && s == r.value.0 + [sep] + r.value.1
  {
    var n := Span(s, p);
    if n == 0 || n == |s| || s[n] != sep then None
    else
      assert s == s[..n] + [sep] + s[n + 1..];
      Some((s[..n], s[n + 1..]))
  }

  lemma ScanFieldOf(x: string, p: char -> bool, sep: char, y: string)
    requires !p(sep)
    requires |x| > 0 && forall i :: 0 <= i < |x| ==> p(x[i])
    ensures ScanField(x + [sep] + y, p, sep) == Some((x, y))
  {
    var s := x + [sep] + y;
    assert s == x + ([sep] + y);
    SpanOfPrefix(x, [sep] + y, p);
    assert s[..|x|] == x && s[|x| + 1..] == y;
  }

  /**
   * `ContentRange.parse`: the regular expression `^(\w+) (\d+)-(\d+)\/(\d+)$` is
   * anchored at both ends and each group is a greedy run of a class that
   * excludes the separator after it, so matching is a left-to-right scan with
   * no backtracking.
   */
  function Parse(header: string): (r: Result<ContentRange, string>)
    ensures r.Failure? ==> r.error == ParseError
    ensures r.Success? ==> r.value.first >= 0 && r.value.last >= 0 && r.value.count >= 0
  {
    match ScanField(header, IsWordChar, ' ')
    case None => Failure(ParseError)
    case Some((unit, rest1)) =>
      match ScanField(rest1, IsDigit, '-')
      case None => Failure(ParseError)
      case Some((first, rest2)) =>
        match ScanField(rest2, IsDigit, '/')
        case None => Failure(ParseError)
        case Some((last, count)) =>
          if |count| > 0 && AllDigits(count) then
            Success(ContentRange(DigitsValue(first), DigitsValue(last), DigitsValue(count), unit))
          else Failure(ParseError)
  }

  lemma SpellNested(unit: string, first: string, last: string, count: string)
    ensures Spell(unit, first, last, count) == unit + [' '] + (first + ['-'] + (last + ['/'] + count))
  {
  }

  /** Every spelling the regular expression matches parses, with the groups in order unit, first, last, count. */
  lemma ParseAccepts(unit: string, first: string, last: string, count: string)
    requires Pieces(unit, first, last, count)
    ensures Parse(Spell(unit, first, last, count))
         == Success(ContentRange(DigitsValue(first), DigitsValue(last), DigitsValue(count), unit))
  {
    SpellNested(unit, first, last, count);
    ScanFieldOf(unit, IsWordChar, ' ', first + ['-'] + (last + ['/'] + count));
    ScanFieldOf(first, IsDigit, '-', last + ['/'] + count);
    ScanFieldOf(last, IsDigit, '/', count);
  }

  /** A header that parses is spelled from well-formed pieces, and the result is read from them. */
  lemma ParseSpells(header: string) returns (unit: string, first: string, last: string, count: string)
    requires Parse(header).Success?
    ensures Pieces(unit, first, last, count) && header == Spell(unit, first, last, count)
  {
    var rest1, rest2;
    unit, rest1 := ScanField(header, IsWordChar, ' ').value.0, ScanField(header, IsWordChar, ' ').value.1;
    first, rest2 := ScanField(rest1, IsDigit, '-').value.0, ScanField(rest1, IsDigit, '-').value.1;
    last, count := ScanField(rest2, IsDigit, '/').value.0, ScanField(rest2, IsDigit, '/').value.1;
    SpellNested(unit, first, last, count);
  }

  /** Parsing succeeds exactly on the spellings the regular expression matches. */
  lemma ParseSucceedsIffMatches(header: string)
    ensures Parse(header).Success?
        <==> exists unit, first, last, count :: Pieces(unit, first, last, count) && header == Spell(unit, first, last, count)
  {
    if Parse(header).Success? {
      var unit, first, last, count := ParseSpells(header);
    }
    if exists unit, first, last, count :: Pieces(unit, first, last, count) && header == Spell(unit, first, last, count) {
      var unit, first, last, count :| Pieces(unit, first, last, count) && header == Spell(unit, first, last, count);
      ParseAccepts(unit, first, last, count);
    }
  }

  /** How the server writes a range: each number in its shortest decimal form. */
  function Format(r: ContentRange): string
    requires r.first >= 0 && r.last >= 0 && r.count >= 0
  {
    Spell(r.unit, NatToString(r.first), NatToString(r.last), NatToString(r.count))
  }

  /** Round trip: a formatted range over a word-character unit parses back to itself. */
  lemma ParseFormat(r: ContentRange)
    requires r.first >= 0 && r.last >= 0 && r.count >= 0
    requires |r.unit| > 0 && AllWord(r.unit)
    ensures Parse(Format(r)) == Success(r)
  {
    NatToStringDenotes(r.first);
    NatToStringDenotes(r.last);
    NatToStringDenotes(r.count);
    ParseAccepts(r.unit, NatToString(r.first), NatToString(r.last), NatToString(r.count));
  }

  /** The three headers of the parser's tests. */
  lemma ParseExampleSingle()
    ensures Parse("items 1-1/1") == Success(ContentRange(1, 1, 1, "items"))
  {
    DigitsExamples();
    assert Spell("items", "1", "1", "1") == "items 1-1/1";
    ParseAccepts("items", "1", "1", "1");
  }

  lemma ParseExampleFirstPage()
    ensures Parse("items 1-20/65") == Success(ContentRange(1, 20, 65, "items"))
  {
    DigitsExamples();
    assert Spell("items", "1", "20", "65") == "items 1-20/65";
    ParseAccepts("items", "1", "20", "65");
  }

  lemma ParseExampleLaterPage()
    ensures Parse("items 6-25/65") == Success(ContentRange(6, 25, 65, "items"))
  {
    DigitsExamples();
    assert Spell("items", "6", "25", "65") == "items 6-25/65";
    ParseAccepts("items", "6", "25", "65");
  }

  /** The header of the paginator's "invalid content range" test. */
  lemma ParseExampleStale()
    ensures Parse("items 1-100/165") == Success(ContentRange(1, 100, 165, "items"))
  {
    assert Spell("items", "1", "100", "165") == "items 1-100/165";
    DigitsExamples();
    MoreDigitsExamples();
    ParseAccepts("items", "1", "100", "165");
  }

  lemma DigitsExamples()
    ensures DigitsValue("1") == 1 && DigitsValue("6") == 6 && DigitsValue("2") == 2
    ensures DigitsValue("20") == 20 && DigitsValue("25") == 25 && DigitsValue("65") == 65
  {
    assert "20"[..1] == "2" && "25"[..1] == "2" && "65"[..1] == "6";
    assert "1"[..0] == "" && "2"[..0] == "" && "6"[..0] == "";
  }

  lemma MoreDigitsExamples()
    ensures DigitsValue("21") == 21 && DigitsValue("26") == 26 && DigitsValue("40") == 40
    ensures DigitsValue("41") == 41 && DigitsValue("45") == 45 && DigitsValue("46") == 46
    ensures DigitsValue("100") == 100 && DigitsValue("105") == 105 && DigitsValue("165") == 165
  {
    DigitsValue2('2', '1');
    DigitsValue2('2', '6');
    DigitsValue2('4', '0');
    DigitsValue2('4', '1');
    DigitsValue2('4', '5');
    DigitsValue2('4', '6');
    DigitsValue3('1', '0', '0');
    DigitsValue3('1', '0', '5');
    DigitsValue3('1', '6', '5');
  }

  /**
   * The empty header (what the paginator passes when the header is absent), a
   * bare unit and non-numeric positions all fail with the one parse error; this
   * parser has no separate "missing" error.
   */
  lemma ParseRejects()
    ensures Parse("") == Failure(ParseError)
    ensures Parse("items") == Failure(ParseError)
    ensures Parse("items a-b/c") == Failure(ParseError)
  {
    assert Span("items", IsWordChar) == 5;
    var h := "items a-b/c";
    assert h[6] == 'a';
    assert h[6..][0] == 'a';
    assert Span(h[6..], IsDigit) == 0;
  }

  /** Nothing checks that `first <= last <= count`. */
  lemma ParseDoesNotOrder()
    ensures Parse("items 9-2/1") == Success(ContentRange(9, 2, 1, "items"))
  {
    DigitsValue1('9');
    DigitsValue1('2');
    DigitsValue1('1');
    assert Spell("items", "9", "2", "1") == "items 9-2/1";
    ParseAccepts("items", "9", "2", "1");
  }
}
