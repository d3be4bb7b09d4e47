/** Calendar dates and Python's `datetime.strptime` for the two formats the
    parsers try, "%b %d, %Y" and "%b %Y", with English month abbreviations.

    `strptime` turns the format into a regular expression (a space becomes
    `\s+`, `%b` the twelve abbreviations matched case-insensitively, `%d` the
    alternation `3[01]|[12]\d|0[1-9]|[1-9]| [1-9]`, `%Y` four digits), matches it
    at the start of the text, rejects text left over after the match, and finally
    builds a `datetime`, which rejects year 0 and a day past the end of the month.
    Each of those steps is one branch below. */
module Calendar {
  import opened Wrappers
  import opened Text

  datatype Date = Date(year: int, month: int, day: int)

  /** The proleptic Gregorian rule of `calendar.isleap`. */
  predicate IsLeapYear(y: int) {
    y % 4 == 0 && (y % 100 != 0 || y % 400 == 0)
  }

  /** `calendar.monthrange(y, m)[1]`. */
  function DaysInMonth(y: int, m: int): (n: int)
    requires 1 <= m <= 12
    ensures 28 <= n <= 31
    ensures m == 2 ==> (n == 29 <==> IsLeapYear(y))
  {
    if m == 2 then (if IsLeapYear(y) then 29 else 28)
    else if m == 4 || m == 6 || m == 9 || m == 11 then 30
    else 31
  }

  /** What `datetime.date` accepts: MINYEAR 1 to MAXYEAR 9999, a month, and a
      day within that month. */
  predicate ValidDate(d: Date) {
    && 1 <= d.year <= 9999
    && 1 <= d.month <= 12
    && 1 <= d.day <= DaysInMonth(d.year, d.month)
  }

  /** `%b` in the C/English locale, lower-cased as `_strptime` keeps them. */
  const MonthNames: seq<string> :=
    ["jan", "feb", "mar", "apr", "may", "jun", "jul", "aug", "sep", "oct", "nov", "dec"]

  /** The month whose abbreviation, ignoring case, starts `s`. */
  function MonthAt(s: string): (m: Option<int>)
    ensures m.Some? ==> 1 <= m.value <= 12 && |s| >= 3 && LowerString(s[..3]) == MonthNames[m.value - 1]
    ensures m.None? ==> |s| < 3 || LowerString(s[..3]) !in MonthNames
  {
    if |s| < 3 then None
    else
      var w := LowerString(s[..3]);
      assert w == [Lower(s[0]), Lower(s[1]), Lower(s[2])];
      MonthOfLetters(w[0], w[1], w[2])
  }

  /** The month spelled by three lower-case letters. */
  function MonthOfLetters(a: char, b: char, c: char): (m: Option<int>)
    ensures m.Some? ==> 1 <= m.value <= 12 && [a, b, c] == MonthNames[m.value - 1]
    ensures m.None? ==> [a, b, c] !in MonthNames
  {
    if [a, b, c] == "jan" then Some(1)
    else if [a, b, c] == "feb" then Some(2)
    else if [a, b, c] == "mar" then Some(3)
    else if [a, b, c] == "apr" then Some(4)
    else if [a, b, c] == "may" then Some(5)
    else if [a, b, c] == "jun" then Some(6)
    else if [a, b, c] == "jul" then Some(7)
    else if [a, b, c] == "aug" then Some(8)
    else if [a, b, c] == "sep" then Some(9)
    else if [a, b, c] == "oct" then Some(10)
    else if [a, b, c] == "nov" then Some(11)
    else if [a, b, c] == "dec" then Some(12)
    else None
  }

  /** The two formats, in the order both date parsers try them. */
  datatype Format =
    | FullDate   // "%b %d, %Y"
    | MonthOnly  // "%b %Y"

  /** The ways `%d` can match at `i`, as (day, end), in the order of the
      alternation `3[01]|[12]\d|0[1-9]|[1-9]`. The last alternative ` [1-9]`
      starts with a space, which the greedy `\s+` before it has consumed;
      handing that space back yields the same day and end as `[1-9]`, so it
      never changes the outcome and is not listed. */
  function DayCandidates(s: string, i: nat): (r: seq<(int, nat)>)
    requires i <= |s|
    ensures forall c :: c in r ==> 1 <= c.0 <= 39 && i < c.1 <= |s|
  {
    (if i + 1 < |s| && s[i] == '3' && (s[i + 1] == '0' || s[i + 1] == '1')
     then [(30 + DigitValue(s[i + 1]), i + 2)] else [])
    + (if i + 1 < |s| && (s[i] == '1' || s[i] == '2') && IsDigit(s[i + 1])
       then [(10 * DigitValue(s[i]) + DigitValue(s[i + 1]), i + 2)] else [])
    + (if i + 1 < |s| && s[i] == '0' && '1' <= s[i + 1] <= '9'
       then [(DigitValue(s[i + 1]), i + 2)] else [])
    + (if i < |s| && '1' <= s[i] <= '9' then [(DigitValue(s[i]), i + 1)] else [])
  }

  /** The first candidate that the literal ',' after `%d` accepts. */
  function FirstBeforeComma(s: string, cs: seq<(int, nat)>): (r: Option<(int, nat)>)
    ensures r.Some? ==> r.value in cs && r.value.1 < |s| && s[r.value.1] == ','
    ensures r.None? ==> forall c :: c in cs ==> !(c.1 < |s| && s[c.1] == ',')
  {
    if cs == [] then None
    else if cs[0].1 < |s| && s[cs[0].1] == ',' then Some(cs[0])
    else FirstBeforeComma(s, cs[1..])
  }

  /** The `datetime` constructor's check. */
  function MakeDate(y: int, m: int, d: int): (r: Option<Date>)
    requires 1 <= m <= 12
    ensures r.Some? <==> 1 <= y <= 9999 && 1 <= d <= DaysInMonth(y, m)
    ensures r.Some? ==> r.value == Date(y, m, d)
  {
    if 1 <= y <= 9999 && 1 <= d <= DaysInMonth(y, m) then Some(Date(y, m, d)) else None
  }

  /** Four digits ending the text at `k` (`\d\d\d\d` then "no unconverted data
      remains"): the year they spell. */
  function YearAtEnd(s: string, k: nat): (y: Option<int>)
    requires k <= |s|
    ensures y.Some? ==> 0 <= y.value <= 9999
  {
    assert Pow10(4) == 10000;
    if k + 4 == |s| && AllDigits(s[k..]) then Some(DigitsValue(s[k..])) else None
  }

  /** `datetime.strptime(s, fmt)`, with None for the `ValueError` it raises. */
  function Strptime(s: string, fmt: Format): (r: Option<Date>)
    ensures r.Some? ==> ValidDate(r.value)
    ensures r.Some? && fmt == MonthOnly ==> r.value.day == 1
  {
    match MonthAt(s)
    case None => None
    case Some(m) =>
      var i := SkipSpaces(s, 3);   // the `\s+` after `%b`
      if i == 3 then None
      else if fmt == MonthOnly then YearOnlyFrom(s, m, i)
      else DayAndYearFrom(s, m, i)
  }

  /** The rest of "%b %Y" from `i`: `%Y` and the end of the text; the day is 1. */
  function YearOnlyFrom(s: string, m: int, i: nat): (r: Option<Date>)
    requires 1 <= m <= 12 && i <= |s|
    ensures r.Some? ==> ValidDate(r.value) && r.value.month == m && r.value.day == 1
  {
    match YearAtEnd(s, i)
    case None => None
    case Some(y) => MakeDate(y, m, 1)
  }

  /** The rest of "%b %d, %Y" from `i`: `%d`, the comma, `\s+`, `%Y`, the end. */
  function DayAndYearFrom(s: string, m: int, i: nat): (r: Option<Date>)
    requires 1 <= m <= 12 && i <= |s|
    ensures r.Some? ==> ValidDate(r.value) && r.value.month == m
  {
    match FirstBeforeComma(s, DayCandidates(s, i))
    case None => None
    case Some(c) => YearAfterComma(s, m, c.0, c.1)
  }

  function YearAfterComma(s: string, m: int, d: int, j: nat): (r: Option<Date>)
    requires 1 <= m <= 12 && j < |s|
    ensures r.Some? ==> ValidDate(r.value) && r.value == Date(r.value.year, m, d)
  {
    var k := SkipSpaces(s, j + 1);
    if k == j + 1 then None
    else match YearAtEnd(s, k)
      case None => None
      case Some(y) => MakeDate(y, m, d)
  }

  // ---- rendering, the partner of Strptime -----------------------------------

  /** The abbreviations as Goodreads prints them. */
  function MonthAbbr(m: int): (a: string)
    requires 1 <= m <= 12
    ensures |a| == 3 && LowerString(a) == MonthNames[m - 1]
  {
    match m
    case 1 => "Jan" case 2 => "Feb" case 3 => "Mar" case 4 => "Apr"
    case 5 => "May" case 6 => "Jun" case 7 => "Jul" case 8 => "Aug"
    case 9 => "Sep" case 10 => "Oct" case 11 => "Nov" case _ => "Dec"
  }

  function DayText(d: int): (t: string)
    requires 1 <= d <= 39
    ensures AllDigits(t) && 1 <= |t| <= 2 && t[0] != '0'
  {
    if d < 10 then [DigitChar(d)] else [DigitChar(d / 10), DigitChar(d % 10)]
  }

  /** The year with four digits, zero-padded. */
  function YearText(y: int): (t: string)
    requires 0 <= y <= 9999
    ensures |t| == 4 && AllDigits(t) && DigitsValue(t) == y
  {
    var n := NatToString(y);
    assert Pow10(4) == 10000;
    NatToStringLength(y, 4);
    ZeroPadded(4 - |n|, n);
    Zeros(4 - |n|) + n
  }

  function Zeros(k: nat): (z: string)
    ensures |z| == k && AllDigits(z)
  {
    if k == 0 then [] else ['0'] + Zeros(k - 1)
  }

  /** Leading zeros do not change what `int()` reads. */
  lemma {:induction false} ZeroPadded(k: nat, t: string)
    requires AllDigits(t)
    ensures AllDigits(Zeros(k) + t) && DigitsValue(Zeros(k) + t) == DigitsValue(t)
  {
    if k > 0 {
      ZeroPadded(k - 1, t);
      LeadingZero(Zeros(k - 1) + t);
      assert Zeros(k) + t == ['0'] + (Zeros(k - 1) + t);
    } else {
      assert Zeros(k) + t == t;
    }
  }

  lemma {:induction false} LeadingZero(t: string)
    requires AllDigits(t)
    ensures AllDigits(['0'] + t) && DigitsValue(['0'] + t) == DigitsValue(t)
    decreases |t|
  {
    if t != [] {
      var u := ['0'] + t;
      assert u[..|u| - 1] == ['0'] + t[..|t| - 1];
      LeadingZero(t[..|t| - 1]);
    } else {
      assert ['0'] + t == ['0'];
      assert (['0'] + t)[..0] == [];
    }
  }

  /** "Mon D, YYYY", the read-date text of a shelf row. */
  function FormatFullDate(y: int, m: int, d: int): string
    requires 0 <= y <= 9999 && 1 <= m <= 12 && 1 <= d <= 39
  {
    MonthAbbr(m) + " " + DayText(d) + ", " + YearText(y)
  }

  /** "Mon YYYY", the month-only read-date text. */
  function FormatMonthYear(y: int, m: int): string
    requires 0 <= y <= 9999 && 1 <= m <= 12
  {
    MonthAbbr(m) + " " + YearText(y)
  }

  lemma MonthOfAbbr(m: int, rest: string)
    requires 1 <= m <= 12
    ensures MonthAt(MonthAbbr(m) + rest) == Some(m)
  {
    var s := MonthAbbr(m) + rest;
    assert s[..3] == MonthAbbr(m);
  }

  /** The day text followed by a comma is read back as that day by the `%d`
      alternation. */
  lemma DayBeforeComma(s: string, i: nat, d: int)
    requires 1 <= d <= 31
    requires i + |DayText(d)| < |s|
    requires s[i..i + |DayText(d)|] == DayText(d) && s[i + |DayText(d)|] == ','
    ensures FirstBeforeComma(s, DayCandidates(s, i)) == Some((d, i + |DayText(d)|))
  {
    var dt := DayText(d);
    var cs := DayCandidates(s, i);
    assert s[i] == dt[0];
    if d < 10 {
      assert cs == [(d, i + 1)];
    } else {
      assert s[i + 1] == dt[1];
      assert cs == [(d, i + 2), (DigitValue(dt[0]), i + 1)];
    }
  }

  /** What `Strptime(_, FullDate)` reads once its pieces have been located: the
      month, the `\s+` ending at `i`, the day and its comma at `e`, the `\s+`
      ending at `k`, and the year that ends the text. */
  lemma FullDateShape(s: string, m: int, i: nat, d: int, e: nat, k: nat, y: int)
    requires MonthAt(s) == Some(m) && SkipSpaces(s, 3) == i && i != 3
    requires FirstBeforeComma(s, DayCandidates(s, i)) == Some((d, e))
    requires SkipSpaces(s, e + 1) == k && k != e + 1
    requires YearAtEnd(s, k) == Some(y)
    ensures Strptime(s, FullDate) == MakeDate(y, m, d)
  {
    assert YearAfterComma(s, m, d, e) == MakeDate(y, m, d);
    assert DayAndYearFrom(s, m, i) == MakeDate(y, m, d);
  }

  /** One space before a non-space character is all that `\s+` consumes. */
  lemma SingleSpace(s: string, i: nat)
    requires i + 1 < |s| && s[i] == ' ' && !IsSpace(s[i + 1])
    ensures SkipSpaces(s, i) == i + 1
  {
    assert SkipSpaces(s, i + 1) == i + 1;
  }

  /** Round trip of "%b %d, %Y": the printed form of a date parses back to that
      date when the day exists in that month, and to nothing otherwise (Feb 30
      is rejected by `datetime`, not by the pattern). */
  lemma FullDateRoundTrip(y: int, m: int, d: int)
    requires 1 <= y <= 9999 && 1 <= m <= 12 && 1 <= d <= 31
    ensures Strptime(FormatFullDate(y, m, d), FullDate)
         == (if d <= DaysInMonth(y, m) then Some(Date(y, m, d)) else None)
  {
    FullDatePieces(y, m, d);
    FullDateFromPieces(FormatFullDate(y, m, d), y, m, d, 4 + |DayText(d)|);
  }

  /** Text laid out as "Mon D, YYYY" is read as that day of that month. */
  lemma FullDateFromPieces(s: string, y: int, m: int, d: int, e: nat)
    requires 0 <= y <= 9999 && 1 <= m <= 31 && 1 <= d <= 31 && m <= 12
    requires e == 4 + |DayText(d)| && |s| == e + 6 && MonthAt(s) == Some(m) && s[3] == ' '
    requires s[4..e] == DayText(d) && s[e] == ',' && s[e + 1] == ' '
    requires s[e + 2..] == YearText(y) && YearAtEnd(s, e + 2) == Some(y)
    ensures Strptime(s, FullDate) == MakeDate(y, m, d)
  {
    var dt, yt := DayText(d), YearText(y);
    DayBeforeComma(s, 4, d);
    DigitIsNotSpace(dt[0]);
    assert s[4] == dt[0];
    SingleSpace(s, 3);
    DigitIsNotSpace(yt[0]);
    assert s[e + 2] == yt[0];
    SingleSpace(s, e + 1);
    FullDateShape(s, m, 4, d, e, e + 2, y);
  }

  /** Where the month, the day, the comma and the year sit in "Mon D, YYYY". */
  lemma FullDatePieces(y: int, m: int, d: int)
    requires 0 <= y <= 9999 && 1 <= m <= 12 && 1 <= d <= 39
    ensures var s, e := FormatFullDate(y, m, d), 4 + |DayText(d)|;
      && |s| == e + 6 && MonthAt(s) == Some(m) && s[3] == ' '
      && s[4..e] == DayText(d) && s[e] == ',' && s[e + 1] == ' '
      && s[e + 2..] == YearText(y) && YearAtEnd(s, e + 2) == Some(y)
  {
    var s := FormatFullDate(y, m, d);
    assert s == MonthAbbr(m) + (" " + DayText(d) + ", " + YearText(y));
    MonthOfAbbr(m, " " + DayText(d) + ", " + YearText(y));
    FullDateLayout(y, m, d);
    YearTextAtEnd(s, 4 + |DayText(d)| + 2, y);
  }

  lemma FullDateLayout(y: int, m: int, d: int)
    requires 0 <= y <= 9999 && 1 <= m <= 12 && 1 <= d <= 39
    ensures var s, e := FormatFullDate(y, m, d), 4 + |DayText(d)|;
      && |s| == e + 6 && s[3] == ' ' && s[4..e] == DayText(d) && s[e] == ',' && s[e + 1] == ' '
      && s[e + 2..] == YearText(y)
  {
    var s, dt, yt := FormatFullDate(y, m, d), DayText(d), YearText(y);
    var e := 4 + |dt|;
    assert s[4..e] == dt;
    assert s[e + 2..] == yt;
  }

  /** A year's four digits ending the text are read as that year. */
  lemma YearTextAtEnd(s: string, k: nat, y: int)
    requires 0 <= y <= 9999 && k <= |s| && s[k..] == YearText(y)
    ensures YearAtEnd(s, k) == Some(y)
  {
  }

  /** The same text never parses as "%b %Y": a day and a comma come before the
      year. */
  lemma FullDateIsNotMonthOnly(y: int, m: int, d: int)
    requires 0 <= y <= 9999 && 1 <= m <= 12 && 1 <= d <= 31
    ensures Strptime(FormatFullDate(y, m, d), MonthOnly) == None
  {
    FullDatePieces(y, m, d);
    NotMonthOnlyFromPieces(FormatFullDate(y, m, d), m, 4 + |DayText(d)|);
  }

  /** Text with a comma after "Mon " is not "%b %Y". */
  lemma NotMonthOnlyFromPieces(s: string, m: int, e: nat)
    requires 4 < e < |s| && MonthAt(s) == Some(m) && s[3] == ' ' && IsDigit(s[4]) && s[e] == ','
    ensures Strptime(s, MonthOnly) == None
  {
    DigitIsNotSpace(s[4]);
    assert SkipSpaces(s, 3) == 4 by { assert SkipSpaces(s, 4) == 4; }
    assert s[4..][e - 4] == ',';
  }

  /** Where the month and the year sit in "Mon YYYY". */
  lemma MonthYearPieces(y: int, m: int)
    requires 0 <= y <= 9999 && 1 <= m <= 12
    ensures var s := FormatMonthYear(y, m);
      && |s| == 8 && MonthAt(s) == Some(m) && s[3] == ' ' && s[4..] == YearText(y)
  {
    var s := FormatMonthYear(y, m);
    MonthOfAbbr(m, " " + YearText(y));
    assert s[4..] == YearText(y);
  }

  /** Round trip of "%b %Y": month-only text parses as the first of that month,
      and does not parse as "%b %d, %Y". */
  lemma MonthYearRoundTrip(y: int, m: int)
    requires 1 <= y <= 9999 && 1 <= m <= 12
    ensures Strptime(FormatMonthYear(y, m), MonthOnly) == Some(Date(y, m, 1))
    ensures Strptime(FormatMonthYear(y, m), FullDate) == None
  {
    MonthYearPieces(y, m);
    MonthYearFromPieces(FormatMonthYear(y, m), y, m);
  }

  /** Text laid out as "Mon YYYY" is read as the first of that month, and as no
      full date: four digits give no day followed by a comma. */
  lemma MonthYearFromPieces(s: string, y: int, m: int)
    requires 1 <= y <= 9999 && 1 <= m <= 12
    requires |s| == 8 && MonthAt(s) == Some(m) && s[3] == ' ' && s[4..] == YearText(y)
    ensures Strptime(s, MonthOnly) == Some(Date(y, m, 1))
    ensures Strptime(s, FullDate) == None
  {
    var yt := YearText(y);
    assert s[4] == yt[0];
    DigitIsNotSpace(s[4]);
    assert SkipSpaces(s, 3) == 4 by { assert SkipSpaces(s, 4) == 4; }
    var cs := DayCandidates(s, 4);
    assert forall c :: c in cs ==> c.1 == 5 || c.1 == 6;
    assert s[5] == yt[1] && s[6] == yt[2];
  }
}
