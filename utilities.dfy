/** pyreads/_utilities.py: the `Rating` enum and its phrase table, `parse_date`
    and `format_url`. */
module Utilities {
  import opened Wrappers
  import opened Text
  import opened Calendar

  /** `Rating`, an `IntEnum` marked `@unique`. */
  datatype Rating = NoRating | DidNotLikeIt | ItWasOk | LikedIt | ReallyLikedIt | ItWasAmazing

  function RatingValue(r: Rating): (v: int)
    ensures 0 <= v <= 5
    ensures v == 0 <==> r == NoRating
  {
    match r
    case NoRating => 0
    case DidNotLikeIt => 1
    case ItWasOk => 2
    case LikedIt => 3
    case ReallyLikedIt => 4
    case ItWasAmazing => 5
  }

  /** `Rating(v)`: the member with value `v`, None for the `ValueError`. */
  function RatingFromValue(v: int): (r: Option<Rating>)
    ensures r.Some? <==> 0 <= v <= 5
    ensures r.Some? ==> RatingValue(r.value) == v
  {
    if v == 0 then Some(NoRating)
    else if v == 1 then Some(DidNotLikeIt)
    else if v == 2 then Some(ItWasOk)
    else if v == 3 then Some(LikedIt)
    else if v == 4 then Some(ReallyLikedIt)
    else if v == 5 then Some(ItWasAmazing)
    else None
  }

  /** `@unique`: the six members have six distinct values, so each value names
      exactly one member. */
  lemma RatingValuesUnique(a: Rating, b: Rating)
    ensures RatingValue(a) == RatingValue(b) <==> a == b
    ensures RatingFromValue(RatingValue(a)) == Some(a)
  {
  }

  /** `STRING_TO_RATING`. */
  const StringToRating: map<string, Rating> := map[
    "did not like it" := DidNotLikeIt,
    "it was ok" := ItWasOk,
    "liked it" := LikedIt,
    "really liked it" := ReallyLikedIt,
    "it was amazing" := ItWasAmazing]

  /** The table holds exactly the five phrases, lower case, and maps them to
      the five ratings 1..5, one each; the lookup is case sensitive. */
  lemma StringToRatingTable()
    ensures StringToRating.Keys
         == {"did not like it", "it was ok", "liked it", "really liked it", "it was amazing"}
    ensures StringToRating.Values == {DidNotLikeIt, ItWasOk, LikedIt, ReallyLikedIt, ItWasAmazing}
    ensures forall p :: p in StringToRating ==> 1 <= RatingValue(StringToRating[p]) <= 5
    ensures forall p, q :: p in StringToRating && q in StringToRating && StringToRating[p] == StringToRating[q] ==> p == q
    ensures "Liked it" !in StringToRating && "LIKED IT" !in StringToRating
  {
    var v := StringToRating.Values;
    assert StringToRating["did not like it"] in v;
    assert StringToRating["it was ok"] in v;
    assert StringToRating["liked it"] in v;
    assert StringToRating["really liked it"] in v;
    assert StringToRating["it was amazing"] in v;
  }

  // ---- parse_date ------------------------------------------------------------

  /** The formats `parse_date` tries, in order. */
  const DateFormats: seq<Format> := [FullDate, MonthOnly]

  /** `dt.replace(day=monthrange(dt.year, dt.month)[1])`. */
  function MonthEnd(d: Date): (e: Date)
    requires ValidDate(d)
    ensures ValidDate(e) && e.year == d.year && e.month == d.month
    ensures e.day == DaysInMonth(d.year, d.month)
  {
    d.(day := DaysInMonth(d.year, d.month))
  }

  /** What `parse_date` returns: the first format that parses, a month-only
      date moved to the last day of its month. */
  function ParsedDate(s: string): (r: Option<Date>)
    ensures r.Some? ==> ValidDate(r.value)
    ensures r.None? <==> Strptime(s, FullDate).None? && Strptime(s, MonthOnly).None?
    ensures Strptime(s, FullDate).Some? ==> r == Strptime(s, FullDate)
    ensures Strptime(s, FullDate).None? && Strptime(s, MonthOnly).Some? ==>
              r == Some(MonthEnd(Strptime(s, MonthOnly).value))
    ensures Strptime(s, FullDate).None? && r.Some? ==> r.value.day == DaysInMonth(r.value.year, r.value.month)
  {
    match Strptime(s, FullDate)
    case Some(d) => Some(d)
    case None =>
      match Strptime(s, MonthOnly)
      case Some(d) => Some(MonthEnd(d))
      case None => None
  }

  /** `parse_date`: the loop over the formats, returning on the first that
      does not raise. */
  method ParseDate(s: string) returns (r: Option<Date>)
    ensures r == ParsedDate(s)
  {
    var k := 0;
    while k < |DateFormats|
      invariant 0 <= k <= |DateFormats|
      invariant k >= 1 ==> Strptime(s, FullDate).None?
      invariant k >= 2 ==> Strptime(s, MonthOnly).None?
    {
      var fmt := DateFormats[k];
      assert fmt == if k == 0 then FullDate else MonthOnly;
      var dt := Strptime(s, fmt);
      if dt.Some? {
        var d := dt.value;
        if fmt == MonthOnly {
          d := MonthEnd(d);
        }
        return Some(d);
      }
      k := k + 1;
    }
    return None;
  }

  /** A printed full date comes back as itself when the day exists in its
      month; an impossible day such as Feb 30 gives None, because the month-only
      format does not match it either. */
  lemma ParsedFullDate(y: int, m: int, d: int)
    requires 1 <= y <= 9999 && 1 <= m <= 12 && 1 <= d <= 31
    ensures ParsedDate(FormatFullDate(y, m, d))
         == (if d <= DaysInMonth(y, m) then Some(Date(y, m, d)) else None)
  {
    FullDateRoundTrip(y, m, d);
    FullDateIsNotMonthOnly(y, m, d);
  }

  /** A month-only date is moved to the last day of that month. */
  lemma ParsedMonthOnly(y: int, m: int)
    requires 1 <= y <= 9999 && 1 <= m <= 12
    ensures ParsedDate(FormatMonthYear(y, m)) == Some(Date(y, m, DaysInMonth(y, m)))
  {
    MonthYearRoundTrip(y, m);
  }

  /** December ends on the 31st; February on the 29th in a leap year and the
      28th otherwise. */
  lemma ParsedMonthEnds(y: int)
    requires 1 <= y <= 9999
    ensures ParsedDate(FormatMonthYear(y, 12)) == Some(Date(y, 12, 31))
    ensures ParsedDate(FormatMonthYear(y, 2)) == Some(Date(y, 2, if IsLeapYear(y) then 29 else 28))
  {
    ParsedMonthOnly(y, 12);
    ParsedMonthOnly(y, 2);
  }

  /** A returned day always lies between 1 and the length of its month. */
  lemma ParsedDayInMonth(s: string)
    requires ParsedDate(s).Some?
    ensures 1 <= ParsedDate(s).value.day <= DaysInMonth(ParsedDate(s).value.year, ParsedDate(s).value.month)
  {
  }

  // ---- format_url ------------------------------------------------------------

  const UrlPrefix: string := "https://www.goodreads.com/review/list/"
  const UrlSuffix: string := "&shelf=read"

  /** `format_url(user_id, page=1)`. */
  function FormatUrl(userId: int, page: int := 1): (url: string)
    ensures UrlPrefix <= url
    ensures |url| >= |UrlSuffix| && url[|url| - |UrlSuffix|..] == UrlSuffix
  {
    var q := "page=" + IntToString(page);
    Concat(IntToString(userId) + "?" + q, UrlSuffix);
    Concat(UrlPrefix, IntToString(userId) + "?" + q + UrlSuffix);
    UrlPrefix + (IntToString(userId) + "?" + q + UrlSuffix)
  }

  /** The two halves of a concatenation. */
  lemma Concat(a: string, b: string)
    ensures (a + b)[..|a|] == a && (a + b)[|a|..] == b
  {
  }

  /** An integer's text holds no '?', so it ends where the query string starts. */
  lemma NoQuestionMark(i: int)
    ensures '?' !in IntToString(i)
  {
    assert AllDigits(NatToString(if i < 0 then -i else i));
    if i < 0 {
      assert forall k :: 1 <= k < |IntToString(i)| ==> IntToString(i)[k] == NatToString(-i)[k - 1];
    }
  }

  /** The position of the first '?' in `s`, or `|s|`. */
  function QueryStart(s: string): (i: nat)
    ensures i <= |s|
  {
    if s == [] || s[0] == '?' then 0 else 1 + QueryStart(s[1..])
  }

  lemma {:induction false} QueryStartAfter(a: string, b: string)
    requires '?' !in a
    ensures QueryStart(a + "?" + b) == |a|
  {
    if a != [] {
      assert a[0] in a;
      assert (a + "?" + b)[1..] == a[1..] + "?" + b;
      assert forall c :: c in a[1..] ==> c in a;
      QueryStartAfter(a[1..], b);
    }
  }

  /** Splitting at the first '?' recovers both halves. */
  lemma SplitAtQuestionMark(a: string, b: string, c: string, d: string)
    requires '?' !in a && '?' !in c
    requires a + "?" + b == c + "?" + d
    ensures a == c && b == d
  {
    var s := a + "?" + b;
    QueryStartAfter(a, b);
    QueryStartAfter(c, d);
    assert a == s[..|a|];
    assert c == s[..|c|];
    assert b == s[|a| + 1..];
    assert d == s[|c| + 1..];
  }

  /** Different users or pages give different URLs: the URL determines both. */
  lemma FormatUrlInjective(u1: int, p1: int, u2: int, p2: int)
    requires FormatUrl(u1, p1) == FormatUrl(u2, p2)
    ensures u1 == u2 && p1 == p2
  {
    var t1, t2 := PageQuery(p1), PageQuery(p2);
    UrlAfterPrefix(u1, p1);
    UrlAfterPrefix(u2, p2);
    NoQuestionMark(u1);
    NoQuestionMark(u2);
    SplitAtQuestionMark(IntToString(u1), t1, IntToString(u2), t2);
    IntToStringInjective(u1, u2);
    PageQueryPage(p1);
    PageQueryPage(p2);
    IntToStringInjective(p1, p2);
  }

  function PageQuery(p: int): string {
    "page=" + IntToString(p) + UrlSuffix
  }

  lemma UrlAfterPrefix(u: int, p: int)
    ensures FormatUrl(u, p)[|UrlPrefix|..] == IntToString(u) + "?" + PageQuery(p)
  {
    assert IntToString(u) + "?" + ("page=" + IntToString(p)) + UrlSuffix == IntToString(u) + "?" + PageQuery(p);
    Concat(UrlPrefix, IntToString(u) + "?" + PageQuery(p));
  }

  lemma PageQueryPage(p: int)
    ensures IntToString(p) == PageQuery(p)[5..|PageQuery(p)| - |UrlSuffix|]
  {
  }

  /** The page defaults to 1. */
  lemma FormatUrlDefaultPage(u: int)
    ensures FormatUrl(u) == UrlPrefix + IntToString(u) + "?page=1" + UrlSuffix
  {
  }
}
