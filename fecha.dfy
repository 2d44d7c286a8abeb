/** The Spanish long-date formatter of the letter generator: a calendar date is
    written "<day> de <month name> del <year>", e.g. "15 de enero del 2025",
    with the month name taken from a fixed table of twelve names. */
module Fecha {
  import opened Decimal

  datatype Option<T> = None | Some(value: T)

  /** A calendar date, with the fields of a Python `date` that the formatter reads. */
  datatype Date = Date(year: nat, month: nat, day: nat)

  /** The month table `meses`, January first. */
  const MonthNames: seq<string> := [
    "enero", "febrero", "marzo", "abril", "mayo", "junio",
    "julio", "agosto", "septiembre", "octubre", "noviembre", "diciembre"
  ]

  predicate IsLowerLetter(c: char) {
    'a' <= c <= 'z'
  }

  /** A month word: non-empty and made of lower-case letters only, so it holds
      no digit and no space. */
  predicate IsMonthWord(w: string) {
    |w| > 0 && forall i :: 0 <= i < |w| ==> IsLowerLetter(w[i])
  }

  /** `meses[month - 1]` for the months a Python `date` can hold, 1 to 12. */
  function MonthName(month: nat): (w: string)
    requires 1 <= month <= 12
    ensures IsMonthWord(w)
  {
    MonthNames[month - 1]
  }

  /** The number of the month whose name is w, searching the table from entry i on. */
  function MonthNumberFrom(w: string, i: nat): Option<nat>
    requires i <= |MonthNames|
    decreases |MonthNames| - i
  {
    if i == |MonthNames| then None
    else if MonthNames[i] == w then Some(i + 1)
    else MonthNumberFrom(w, i + 1)
  }

  /** The number of the month named w, if w is one of the twelve names. */
  function MonthNumber(w: string): Option<nat> {
    MonthNumberFrom(w, 0)
  }

  /** `formatear_fecha`: the day, " de ", the month name, " del ", the year. */
  function FormatearFecha(d: Date): string
    requires 1 <= d.month <= 12
  {
    DecimalString(d.day) + " de " + MonthName(d.month) + " del " + DecimalString(d.year)
  }

  // Reading a long date back. This is not part of the program; it is the
  // independent description of the output format against which FormatearFecha
  // is proved, and it shows that the text determines the date.

  /** The length of the longest prefix of s all of whose characters satisfy p. */
  function SpanLength(s: string, p: char -> bool): (k: nat)
    ensures k <= |s|
    ensures forall i :: 0 <= i < k ==> p(s[i])
    ensures k < |s| ==> !p(s[k])
  {
    if s == [] || !p(s[0]) then 0 else 1 + SpanLength(s[1..], p)
  }

  /** The date that s writes out in the long form, if s is such a text:
      a canonical number, " de ", a month name, " del ", a canonical number. */
  function ParseFecha(s: string): Option<Date> {
    var k := SpanLength(s, IsDigit);
    ParseAfterDay(s[..k], s[k..])
  }

  /** The day has been read as dayText; rest must be " de " and the month and year. */
  function ParseAfterDay(dayText: string, rest: string): Option<Date> {
    if IsCanonical(dayText) && |rest| >= 4 && rest[..4] == " de " then ParseMonthAndYear(dayText, rest[4..])
    else None
  }

  /** The month word is the run of lower-case letters at the start of rest. */
  function ParseMonthAndYear(dayText: string, rest: string): Option<Date>
    requires IsCanonical(dayText)
  {
    var j := SpanLength(rest, IsLowerLetter);
    ParseYear(dayText, rest[..j], rest[j..])
  }

  /** The word must name a month, and rest must be " del " and a canonical year. */
  function ParseYear(dayText: string, word: string, rest: string): Option<Date>
    requires IsCanonical(dayText)
  {
    if MonthNumber(word).Some? && |rest| >= 5 && rest[..5] == " del " && IsCanonical(rest[5..]) then
      Some(Date(ParseDecimal(rest[5..]), MonthNumber(word).value, ParseDecimal(dayText)))
    else None
  }

  /** If the prefix a is made of characters satisfying p and b does not start
      with one, the span of a + b is exactly a. */
  lemma {:induction false} SpanOfConcat(a: string, b: string, p: char -> bool)
    requires forall i :: 0 <= i < |a| ==> p(a[i])
    requires b != [] ==> !p(b[0])
    ensures SpanLength(a + b, p) == |a|
  {
    if a != [] {
      assert (a + b)[1..] == a[1..] + b;
      SpanOfConcat(a[1..], b, p);
    }
  }

  /** Entry i of the table is not found before entry k when k is its position. */
  lemma {:induction false} MonthNumberFromName(k: nat, i: nat)
    requires i <= k < |MonthNames|
    ensures MonthNumberFrom(MonthNames[k], i) == Some(k + 1)
    decreases k - i
  {
    MonthNamesDistinct();
    if i < k {
      MonthNumberFromName(k, i + 1);
    }
  }

  /** Looking up a month name gives its month number back. */
  lemma MonthNumberOfName(month: nat)
    requires 1 <= month <= 12
    ensures MonthNumber(MonthName(month)) == Some(month)
  {
    MonthNumberFromName(month - 1, 0);
  }

  /** Only the twelve names are found, each at its own number. */
  lemma {:induction false} MonthNumberFromSound(w: string, i: nat)
    requires i <= |MonthNames|
    requires MonthNumberFrom(w, i).Some?
    ensures var m := MonthNumberFrom(w, i).value; i < m <= 12 && MonthName(m) == w
    decreases |MonthNames| - i
  {
    if MonthNames[i] != w {
      MonthNumberFromSound(w, i + 1);
    }
  }

  lemma MonthNumberSound(w: string)
    requires MonthNumber(w).Some?
    ensures 1 <= MonthNumber(w).value <= 12 && MonthName(MonthNumber(w).value) == w
  {
    MonthNumberFromSound(w, 0);
  }

  /** The table has twelve entries, and no two of them are the same word,
      so different months get different names. */
  lemma MonthNamesDistinct()
    ensures |MonthNames| == 12
    ensures forall i, j :: 0 <= i < j < |MonthNames| ==> MonthNames[i] != MonthNames[j]
  {
    forall i, j | 0 <= i < j < |MonthNames|
      ensures MonthNames[i] != MonthNames[j]
    {
      assert |MonthNames[i]| != |MonthNames[j]| || MonthNames[i][0] != MonthNames[j][0]
        || MonthNames[i][2] != MonthNames[j][2];
    }
  }

  /** Different months are written with different words. */
  lemma DistinctMonthsDistinctNames(m1: nat, m2: nat)
    requires 1 <= m1 <= 12 && 1 <= m2 <= 12 && m1 != m2
    ensures MonthName(m1) != MonthName(m2)
  {
    MonthNamesDistinct();
    if m1 < m2 {
      assert MonthNames[m1 - 1] != MonthNames[m2 - 1];
    } else {
      assert MonthNames[m2 - 1] != MonthNames[m1 - 1];
    }
  }

  /** The formatted text reads back as the date it was made from. */
  lemma FormatearFechaReadsBack(d: Date)
    requires 1 <= d.month <= 12
    ensures ParseFecha(FormatearFecha(d)) == Some(d)
  {
    var dayText, word, yearText := DecimalString(d.day), MonthName(d.month), DecimalString(d.year);
    var tail := " del " + yearText;
    var rest := " de " + (word + tail);
    var s := dayText + rest;
    assert s == FormatearFecha(d);
    SpanOfConcat(dayText, rest, IsDigit);
    assert s[..|dayText|] == dayText && s[|dayText|..] == rest;
    assert rest[4..] == word + tail;
    SpanOfConcat(word, tail, IsLowerLetter);
    assert (word + tail)[..|word|] == word && (word + tail)[|word|..] == tail;
    MonthNumberOfName(d.month);
    assert tail[5..] == yearText;
    assert ParseYear(dayText, word, tail) == Some(d);
  }

  /** Every text that reads back as a date is the formatting of that date: the
      long form has exactly one spelling per date. */
  lemma ParseFechaSound(s: string)
    requires ParseFecha(s).Some?
    ensures 1 <= ParseFecha(s).value.month <= 12
    ensures FormatearFecha(ParseFecha(s).value) == s
  {
    var k := SpanLength(s, IsDigit);
    var dayText, rest := s[..k], s[k..];
    assert s == dayText + rest;
    ParseMonthAndYearSound(dayText, rest[4..]);
    assert rest == " de " + rest[4..];
  }

  lemma ParseMonthAndYearSound(dayText: string, rest: string)
    requires IsCanonical(dayText)
    requires ParseMonthAndYear(dayText, rest).Some?
    ensures var d := ParseMonthAndYear(dayText, rest).value;
      1 <= d.month <= 12 && FormatearFecha(d) == dayText + " de " + rest
  {
    var j := SpanLength(rest, IsLowerLetter);
    var word, tail := rest[..j], rest[j..];
    assert rest == word + tail;
    ParseYearSound(dayText, word, tail);
  }

  lemma ParseYearSound(dayText: string, word: string, rest: string)
    requires IsCanonical(dayText)
    requires ParseYear(dayText, word, rest).Some?
    ensures var d := ParseYear(dayText, word, rest).value;
      1 <= d.month <= 12 && FormatearFecha(d) == dayText + " de " + (word + rest)
  {
    var yearText := rest[5..];
    var d := ParseYear(dayText, word, rest).value;
    MonthNumberSound(word);
    DecimalStringOfParse(dayText);
    DecimalStringOfParse(yearText);
    assert rest == " del " + yearText;
    assert FormatearFecha(d) == dayText + " de " + word + " del " + yearText;
  }

  /** Different dates are written differently. */
  lemma FormatearFechaInjective(d1: Date, d2: Date)
    requires 1 <= d1.month <= 12 && 1 <= d2.month <= 12
    requires FormatearFecha(d1) == FormatearFecha(d2)
    ensures d1 == d2
  {
    FormatearFechaReadsBack(d1);
    FormatearFechaReadsBack(d2);
  }

  /** The day carries no leading zero: for a day of at least 1 (as every `date`
      has) the text starts with a non-zero digit, and a day below ten is a
      single digit followed by the space ("5 de", not "05 de"). */
  lemma {:induction false} DayWithoutLeadingZero(d: Date)
    requires 1 <= d.month <= 12 && 1 <= d.day
    ensures '1' <= FormatearFecha(d)[0] <= '9'
    ensures d.day < 10 ==> FormatearFecha(d)[1] == ' '
  {
    var dayText := DecimalString(d.day);
    var r := FormatearFecha(d);
    assert r == dayText + (" de " + MonthName(d.month) + " del " + DecimalString(d.year));
    assert r[0] == dayText[0];
    assert dayText[0] != '0' by {
      if |dayText| == 1 {
        assert ParseDecimal(dayText) == DigitValue(dayText[0]);
      }
    }
    if d.day < 10 {
      DecimalStringLength(d.day, 1);
      assert r[1] == ' ';
    }
  }

  /** The year is written in full: a year of k digits occupies the last k
      characters, right after " del ", and they read back as the whole year
      (a four-digit year is not cut to two digits). */
  lemma {:induction false} YearInFull(d: Date, k: nat)
    requires 1 <= d.month <= 12
    requires (d.year == 0 && k == 1) || (k >= 1 && Pow10(k - 1) <= d.year < Pow10(k))
    ensures var r := FormatearFecha(d);
      |r| >= k + 5 && r[|r| - k - 5..|r| - k] == " del " &&
      IsCanonical(r[|r| - k..]) && ParseDecimal(r[|r| - k..]) == d.year
  {
    DecimalStringLength(d.year, k);
    var yearText := DecimalString(d.year);
    var front := DecimalString(d.day) + " de " + MonthName(d.month);
    var r := FormatearFecha(d);
    assert r == front + " del " + yearText;
    assert r[|r| - k..] == yearText;
    assert r[|r| - k - 5..|r| - k] == " del ";
  }

  /** The first and the last entries of the table. */
  lemma FirstAndLastMonth()
    ensures MonthName(1) == "enero" && MonthName(12) == "diciembre"
  {
  }

  /** 15 January 2025 is written "15 de enero del 2025". */
  lemma FifteenthOfJanuary2025()
    ensures FormatearFecha(Date(2025, 1, 15)) == "15 de enero del 2025"
  {
    assert DecimalString(15) == "15";
    assert DecimalString(2025) == "2025";
  }
}
