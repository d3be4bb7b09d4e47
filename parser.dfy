/** pyreads/_parser.py: the field parsers that read one review row of a
    Goodreads shelf page, `_parse_row`, which gathers their results in an
    attribute dictionary, and the lenient page driver `_parse_books_from_html`.

    Every parser runs the pipeline of `_Parser.parse`: find the element, read
    its data, transform it; a None at either of the first two steps is the
    result. */
module Parser {
  import opened Wrappers
  import opened Text
  import opened Calendar
  import opened Soup
  import opened Models
  import Utilities
  import Patterns

  // ---- helpers ---------------------------------------------------------------

  /** `_safe_find_text`: the stripped text of the element, None when there is
      no element or its text is empty. A bs4 `Tag` is always truthy, so only
      a missing element counts as absent. */
  function SafeFindText(el: Option<Node>): (r: Option<string>)
    ensures r.None? <==> el.None? || GetText(el.value) == ""
    ensures r.Some? ==> r.value == GetText(el.value) && r.value != "" && Stripped(r.value)
  {
    match el
    case None => None
    case Some(e) => if GetText(e) == "" then None else Some(GetText(e))
  }

  /** `_get_field_cell`: the first `<td class="field {name}">` of the row. */
  function FieldCell(row: Node, name: string): (r: Option<Node>)
    ensures r.Some? ==> r.value.Elem? && r.value.tag == "td" && ClassMatches(r.value.classes, "field " + name)
    ensures r.None? <==> FindAll(row, ByClass("td", "field " + name)) == []
  {
    Find(row, ByClass("td", "field " + name))
  }

  /** The first descendant of the optional element matching `q`. */
  function FindIn(el: Option<Node>, q: Query): (r: Option<Node>)
    ensures el.None? ==> r.None?
    ensures el.Some? ==> r == Find(el.value, q)
  {
    if el.None? then None else Find(el.value, q)
  }

  // ---- the seven parsers -----------------------------------------------------

  /** `_AuthorParser.parse`: the text of the first link of the author cell. */
  function AuthorOf(row: Node): (r: Option<string>)
    ensures r.Some? ==> r.value != "" && Stripped(r.value)
    ensures FieldCell(row, "author").None? ==> r.None?
    ensures r == SafeFindText(FindIn(FieldCell(row, "author"), ByTag("a")))
  {
    match FieldCell(row, "author")
    case None => None
    case Some(cell) =>
      match Find(cell, ByTag("a"))
      case None => None
      case Some(link) => SafeFindText(Some(link))
  }

  /** The span `_DateParser._extract_data` reads in the date cell: the first
      `date_read_value` span, or else the first span with a `title`. */
  function DateSpan(cell: Node): (r: Option<Node>)
    ensures Find(cell, ByClass("span", "date_read_value")).Some? ==> r == Find(cell, ByClass("span", "date_read_value"))
    ensures Find(cell, ByClass("span", "date_read_value")).None? ==> r == Find(cell, ByAttr("span", "title"))
  {
    var value := Find(cell, ByClass("span", "date_read_value"));
    if value.Some? then value else Find(cell, ByAttr("span", "title"))
  }

  /** The text `_DateParser._extract_data` reads: the stripped text of the
      date cell's span, None without the cell, without either span, or for
      empty text. */
  function DateTextOf(row: Node): (r: Option<string>)
    ensures r.Some? ==> r.value != "" && Stripped(r.value)
    ensures FieldCell(row, "date_read").None? ==> r.None?
    ensures FieldCell(row, "date_read").Some? ==> r == SafeFindText(DateSpan(FieldCell(row, "date_read").value))
    ensures FieldCell(row, "date_read").Some? && DateSpan(FieldCell(row, "date_read").value).None? ==> r.None?
  {
    match FieldCell(row, "date_read")
    case None => None
    case Some(cell) => SafeFindText(DateSpan(cell))
  }

  /** What `_DateParser._transform_data` returns: the first of the two formats
      that `strptime` accepts. A month-only date keeps day 1. */
  function ReadDate(s: string): (r: Option<Date>)
    ensures r.Some? ==> ValidDate(r.value)
    ensures r.None? <==> Strptime(s, FullDate).None? && Strptime(s, MonthOnly).None?
    ensures Strptime(s, FullDate).Some? ==> r == Strptime(s, FullDate)
    ensures Strptime(s, FullDate).None? ==> r == Strptime(s, MonthOnly)
    ensures Strptime(s, FullDate).None? && r.Some? ==> r.value.day == 1
  {
    if Strptime(s, FullDate).Some? then Strptime(s, FullDate) else Strptime(s, MonthOnly)
  }

  /** `_DateParser._transform_data`: the loop over `_DATE_FORMATS`, returning
      on the first format that does not raise. */
  method TransformDate(s: string) returns (r: Option<Date>)
    ensures r == ReadDate(s)
  {
    var k := 0;
    while k < |Utilities.DateFormats|
      invariant 0 <= k <= |Utilities.DateFormats|
      invariant k >= 1 ==> Strptime(s, FullDate).None?
      invariant k >= 2 ==> Strptime(s, MonthOnly).None?
    {
      var fmt := Utilities.DateFormats[k];
      assert fmt == if k == 0 then FullDate else MonthOnly;
      var dt := Strptime(s, fmt);
      if dt.Some? {
        return dt;
      }
      k := k + 1;
    }
    return None;
  }

  /** A printed full date is read back when its day exists and gives None
      otherwise; month-only text gives the first of that month, with no move
      to the month's end. */
  lemma ReadDateFormats(y: int, m: int, d: int)
    requires 1 <= y <= 9999 && 1 <= m <= 12 && 1 <= d <= 31
    ensures ReadDate(FormatFullDate(y, m, d)) == (if d <= DaysInMonth(y, m) then Some(Date(y, m, d)) else None)
    ensures ReadDate(FormatMonthYear(y, m)) == Some(Date(y, m, 1))
  {
    FullDateRoundTrip(y, m, d);
    FullDateIsNotMonthOnly(y, m, d);
    MonthYearRoundTrip(y, m);
  }

  /** `_DateParser.parse`. */
  function DateOf(row: Node): (r: Option<Date>)
    ensures r.Some? ==> ValidDate(r.value)
    ensures DateTextOf(row).None? ==> r.None?
    ensures DateTextOf(row).Some? ==> r == ReadDate(DateTextOf(row).value)
  {
    match DateTextOf(row)
    case None => None
    case Some(s) => ReadDate(s)
  }

  /** `_PageNumberParser.parse`: the page count in the cell's `nobr` text. */
  function PagesOf(row: Node): (r: Option<int>)
    ensures r.Some? ==> 0 <= r.value <= 999999
    ensures FieldCell(row, "num_pages").None? ==> r.None?
    ensures FindIn(FieldCell(row, "num_pages"), ByTag("nobr")).None? ==> r.None?
    ensures SafeFindText(FindIn(FieldCell(row, "num_pages"), ByTag("nobr"))).Some? ==>
              r == Patterns.ExtractPageNumber(SafeFindText(FindIn(FieldCell(row, "num_pages"), ByTag("nobr"))).value)
  {
    match SafeFindText(FindIn(FieldCell(row, "num_pages"), ByTag("nobr")))
    case None => None
    case Some(text) => Patterns.ExtractPageNumber(text)
  }

  /** `_STRING_TO_RATING`. */
  const RatingTable: map<string, int> := map[
    "did not like it" := 1,
    "it was ok" := 2,
    "liked it" := 3,
    "really liked it" := 4,
    "it was amazing" := 5]

  /** The parser's table is the utilities' table with each rating read as
      its value. */
  lemma RatingTableMatchesUtilities()
    ensures RatingTable.Keys == Utilities.StringToRating.Keys
    ensures forall p :: p in RatingTable ==> RatingTable[p] == Utilities.RatingValue(Utilities.StringToRating[p])
  {
  }

  /** The `title` of the `staticStars` span of the rating cell, when there is
      one (it may be empty). */
  function StarsTitleOf(row: Node): (r: Option<string>)
    ensures FieldCell(row, "rating").None? ==> r.None?
    ensures FieldCell(row, "rating").Some? ==>
              Find(FieldCell(row, "rating").value, ByClass("span", "staticStars")).None? ==> r.None?
    ensures FindIn(FieldCell(row, "rating"), ByClass("span", "staticStars")).Some? ==>
              var span := FindIn(FieldCell(row, "rating"), ByClass("span", "staticStars")).value;
              (r.Some? <==> "title" in span.attrs) && (r.Some? ==> r.value == span.attrs["title"])
  {
    match FindIn(FieldCell(row, "rating"), ByClass("span", "staticStars"))
    case None => None
    case Some(span) => if "title" in span.attrs then Some(span.attrs["title"]) else None
  }

  /** `_RatingParser._transform_data`: the lower-cased title looked up in the
      table, 0 for any other text. */
  function RatingOfTitle(title: string): (r: int)
    ensures 0 <= r <= 5
    ensures r != 0 <==> LowerString(title) in RatingTable
    ensures r != 0 ==> r == RatingTable[LowerString(title)]
  {
    if LowerString(title) in RatingTable then RatingTable[LowerString(title)] else 0
  }

  /** `_RatingParser.parse`: 0 when the cell, the span or its title is
      missing. */
  function RatingOf(row: Node): (r: int)
    ensures 0 <= r <= 5
    ensures StarsTitleOf(row).None? ==> r == 0
    ensures StarsTitleOf(row).Some? ==> r == RatingOfTitle(StarsTitleOf(row).value)
  {
    match StarsTitleOf(row)
    case None => 0
    case Some(title) => RatingOfTitle(title)
  }

  const ReviewIdPrefix: string := "freeTextContainerreview"

  /** `_ReviewParser.parse`: the text of the first span whose id starts with
      `freeTextContainerreview`. */
  function ReviewOf(row: Node): (r: Option<string>)
    ensures r.Some? ==> r.value != "" && Stripped(r.value)
    ensures FindAll(row, ByIdPrefix("span", ReviewIdPrefix)) == [] ==> r.None?
    ensures r == SafeFindText(Find(row, ByIdPrefix("span", ReviewIdPrefix)))
  {
    SafeFindText(Find(row, ByIdPrefix("span", ReviewIdPrefix)))
  }

  /** The first link of the title cell: the element both `_TitleParser` and
      `_SeriesParser` start from. */
  function TitleLinkOf(row: Node): (r: Option<Node>)
    ensures FieldCell(row, "title").None? ==> r.None?
    ensures FieldCell(row, "title").Some? ==> r == Find(FieldCell(row, "title").value, ByTag("a"))
    ensures r.Some? ==> r.value.Elem? && r.value.tag == "a"
  {
    FindIn(FieldCell(row, "title"), ByTag("a"))
  }

  /** `_TitleParser._transform_data`: the first child stripped when it is a
      string (possibly ""), else the whole stripped text or None. */
  function LinkTitle(link: Node): (r: Option<string>)
    requires link.Elem?
    ensures r.Some? ==> Stripped(r.value)
    ensures link.children != [] && link.children[0].TextNode? ==> r == Some(Strip(link.children[0].s))
    ensures (link.children == [] || !link.children[0].TextNode?) ==>
              (r.None? <==> GetText(link) == "") && (r.Some? ==> r.value == GetText(link))
  {
    if link.children != [] && link.children[0].TextNode? then Some(Strip(link.children[0].s))
    else if GetText(link) == "" then None
    else Some(GetText(link))
  }

  /** `_TitleParser.parse`. */
  function TitleOf(row: Node): (r: Option<string>)
    ensures TitleLinkOf(row).None? ==> r.None?
    ensures TitleLinkOf(row).Some? ==> r == LinkTitle(TitleLinkOf(row).value)
  {
    match TitleLinkOf(row)
    case None => None
    case Some(link) => LinkTitle(link)
  }

  /** The text `_SeriesParser._extract_data` reads: the `darkGreyText` span
      inside the title link. */
  function SeriesTextOf(row: Node): (r: Option<string>)
    ensures r.Some? ==> r.value != "" && Stripped(r.value)
    ensures TitleLinkOf(row).None? ==> r.None?
    ensures r == SafeFindText(FindIn(TitleLinkOf(row), ByClass("span", "darkGreyText")))
    ensures TitleLinkOf(row).Some? && Find(TitleLinkOf(row).value, ByClass("span", "darkGreyText")).None? ==> r.None?
  {
    SafeFindText(FindIn(TitleLinkOf(row), ByClass("span", "darkGreyText")))
  }

  /** `_SeriesParser._transform_data`: the patterns in order, returning the
      first match. */
  method TransformSeries(s: string) returns (r: Option<Series>)
    ensures r == Patterns.SeriesOf(s)
  {
    var pats := Patterns.SeriesPatterns;
    var k := 0;
    while k < |pats|
      invariant 0 <= k <= |pats|
      invariant Patterns.FirstSeries(s, pats[k..]) == Patterns.SeriesOf(s)
    {
      Patterns.FirstSeriesStep(s, pats[k..]);
      assert pats[k..][0] == pats[k] && pats[k..][1..] == pats[k + 1..];
      var m := Patterns.MatchPattern(pats[k], s);
      if m.Some? {
        return m;
      }
      k := k + 1;
    }
    return None;
  }

  /** `_SeriesParser.parse`. */
  function SeriesFieldOf(row: Node): (r: Option<Series>)
    ensures SeriesTextOf(row).None? ==> r.None?
    ensures SeriesTextOf(row).Some? ==> r == Patterns.SeriesOf(SeriesTextOf(row).value)
    ensures r.Some? ==> Stripped(r.value.name) && r.value.entry >= 0.0
  {
    match SeriesTextOf(row)
    case None => None
    case Some(s) => Patterns.SeriesOf(s)
  }

  // ---- _parse_row ------------------------------------------------------------

  datatype FieldParser =
    | AuthorParser | DateParser | PageNumberParser | RatingParser
    | ReviewParser | TitleParser | SeriesParser

  /** The `parsers` table of `_parse_row`, in its order. */
  const Parsers: seq<(Key, FieldParser)> := [
    (AuthorNameKey, AuthorParser), (DateReadKey, DateParser), (NumberOfPagesKey, PageNumberParser),
    (UserRatingKey, RatingParser), (UserReviewKey, ReviewParser), (TitleKey, TitleParser),
    (SeriesKey, SeriesParser)]

  function SeriesValue(x: Option<Series>): Value {
    if x.Some? then VSeries(x.value.name, x.value.entry) else VNone
  }

  /** `parser.parse(row)` as the dictionary holds it. */
  function ParserValue(p: FieldParser, row: Node): Value
  {
    match p
    case AuthorParser => OptStrValue(AuthorOf(row))
    case DateParser => OptDateValue(DateOf(row))
    case PageNumberParser => OptIntValue(PagesOf(row))
    case RatingParser => VInt(RatingOf(row))
    case ReviewParser => OptStrValue(ReviewOf(row))
    case TitleParser => OptStrValue(TitleOf(row))
    case SeriesParser => SeriesValue(SeriesFieldOf(row))
  }

  /** The seven parser results for a row, in table order. */
  function ParserValues(row: Node): (vs: seq<Value>)
    ensures |vs| == |Parsers|
  {
    seq(|Parsers|, j requires 0 <= j < |Parsers| => ParserValue(Parsers[j].1, row))
  }

  /** One step of the loop of `_parse_row`: a truthy series value (a
      `_Series` instance; None is the only falsy value the series parser
      returns) first adds `seriesName` and `seriesEntry`. */
  function Record(attrs: Attributes, key: Key, v: Value): Attributes {
    if key == SeriesKey && v.VSeries? then
      attrs[SeriesNameKey := VStr(v.name)][SeriesEntryKey := VFloat(v.entry)][key := v]
    else attrs[key := v]
  }

  /** Whether recording `v` under `key` also fills `q`. */
  predicate Adds(key: Key, v: Value, q: Key) {
    key == SeriesKey && v.VSeries? && (q == SeriesNameKey || q == SeriesEntryKey)
  }

  /** One step leaves every other key as it was, stores the value under its
      key and, for a `_Series`, its name and entry under the series keys. */
  lemma RecordAt(attrs: Attributes, key: Key, v: Value, q: Key)
    ensures q in Record(attrs, key, v) <==> q in attrs || q == key || Adds(key, v, q)
    ensures q == key ==> Record(attrs, key, v)[q] == v
    ensures q != key && Adds(key, v, q) ==>
              Record(attrs, key, v)[q] == (if q == SeriesNameKey then VStr(v.name) else VFloat(v.entry))
    ensures q != key && !Adds(key, v, q) && q in attrs ==> Record(attrs, key, v)[q] == attrs[q]
  {
  }

  /** The dictionary after the first `|vs|` entries of the parser table have
      recorded the values `vs`. */
  function Assemble(vs: seq<Value>): Attributes
    requires |vs| <= |Parsers|
  {
    if vs == [] then map[] else Record(Assemble(Front(vs)), Parsers[|vs| - 1].0, Last(vs))
  }

  function Front(vs: seq<Value>): seq<Value>
    requires vs != []
  {
    vs[..|vs| - 1]
  }

  function Last(vs: seq<Value>): Value
    requires vs != []
  {
    vs[|vs| - 1]
  }

  /** `_parse_row(row)`. */
  function RowAttributes(row: Node): Attributes {
    Assemble(ParserValues(row))
  }

  /** The position of a key in the parser table; 7 for the keys it lacks. */
  function Slot(key: Key): (i: nat)
    ensures i <= |Parsers|
    ensures i < |Parsers| ==> Parsers[i].0 == key
  {
    match key
    case AuthorNameKey => 0
    case DateReadKey => 1
    case NumberOfPagesKey => 2
    case UserRatingKey => 3
    case UserReviewKey => 4
    case TitleKey => 5
    case SeriesKey => 6
    case _ => 7
  }

  /** The table's keys are pairwise distinct: each one is found at its own
      position. */
  lemma SlotsOfParsers()
    ensures forall j :: 0 <= j < |Parsers| ==> Slot(Parsers[j].0) == j
  {
  }

  /** Whether `key` is one of the series keys the series step added. */
  predicate Extra(vs: seq<Value>, key: Key) {
    |vs| == |Parsers| && vs[6].VSeries? && (key == SeriesNameKey || key == SeriesEntryKey)
  }

  /** After `k` steps a key is present exactly when its table entry has been
      processed, or it is a series key added by the series step; it holds
      that entry's value, or the series' name or entry. */
  lemma {:induction false} AssembleGet(vs: seq<Value>, key: Key)
    requires |vs| <= |Parsers|
    ensures key in Assemble(vs) <==> Slot(key) < |vs| || Extra(vs, key)
    ensures Slot(key) < |vs| ==> Assemble(vs)[key] == vs[Slot(key)]
    ensures Extra(vs, key) ==>
              Assemble(vs)[key] == (if key == SeriesNameKey then VStr(vs[6].name) else VFloat(vs[6].entry))
    decreases |vs|
  {
    if vs != [] {
      var k := |vs| - 1;
      AssembleGet(Front(vs), key);
      SlotsOfParsers();
      var p := Parsers[k].0;
      assert Slot(p) == k;
      assert forall j :: 0 <= j < k ==> Front(vs)[j] == vs[j];
      RecordAt(Assemble(Front(vs)), p, Last(vs), key);
    }
  }

  /** The keys `_parse_row` always fills. */
  const ParserKeys: set<Key> := {AuthorNameKey, DateReadKey, NumberOfPagesKey, UserRatingKey, UserReviewKey, TitleKey, SeriesKey}

  /** The keys a series value adds. */
  function SeriesKeys(v: Value): set<Key> {
    if v.VSeries? then {SeriesNameKey, SeriesEntryKey} else {}
  }

  /** The dictionary holds the seven parser keys, and the series keys exactly
      when the series value is a `_Series`. */
  lemma AssembleKeys(vs: seq<Value>)
    requires |vs| == |Parsers|
    ensures Assemble(vs).Keys == ParserKeys + SeriesKeys(vs[6])
  {
    var a := Assemble(vs);
    forall q | true
      ensures q in a <==> q in ParserKeys + SeriesKeys(vs[6])
    {
      AssembleGet(vs, q);
    }
  }

  /** Each parser's value is under its key, and the series keys hold the
      name and entry of a `_Series` (and are absent, read as None, otherwise). */
  lemma AssembleFields(vs: seq<Value>)
    requires |vs| == |Parsers|
    ensures var a := Assemble(vs);
      && Get(a, AuthorNameKey) == vs[0] && Get(a, DateReadKey) == vs[1] && Get(a, NumberOfPagesKey) == vs[2]
      && Get(a, UserRatingKey) == vs[3] && Get(a, UserReviewKey) == vs[4] && Get(a, TitleKey) == vs[5]
      && Get(a, SeriesKey) == vs[6]
      && Get(a, SeriesNameKey) == (if vs[6].VSeries? then VStr(vs[6].name) else VNone)
      && Get(a, SeriesEntryKey) == (if vs[6].VSeries? then VFloat(vs[6].entry) else VNone)
  {
    var a := Assemble(vs);
    forall q | true
      ensures Get(a, q) == if Slot(q) < 7 then vs[Slot(q)]
                           else if Extra(vs, q) then (if q == SeriesNameKey then VStr(vs[6].name) else VFloat(vs[6].entry))
                           else VNone
    {
      AssembleGet(vs, q);
    }
  }

  /** The parser table binds each key to its parser. */
  lemma ParsersTable()
    ensures Parsers[0].1 == AuthorParser && Parsers[1].1 == DateParser && Parsers[2].1 == PageNumberParser
    ensures Parsers[3].1 == RatingParser && Parsers[4].1 == ReviewParser && Parsers[5].1 == TitleParser
    ensures Parsers[6].1 == SeriesParser
  {
  }

  /** `_parse_row` holds the seven parser keys, and `seriesName` and
      `seriesEntry` exactly when the series parser matched. */
  lemma RowAttributesKeys(row: Node)
    ensures RowAttributes(row).Keys == ParserKeys + (if SeriesFieldOf(row).Some? then {SeriesNameKey, SeriesEntryKey} else {})
  {
    var vs := ParserValues(row);
    AssembleKeys(vs);
    ParsersTable();
  }

  /** Each key of `_parse_row` holds its parser's result; the series keys
      hold the matched series' name and entry. */
  lemma RowAttributesFields(row: Node)
    ensures var a := RowAttributes(row);
      && Get(a, AuthorNameKey) == OptStrValue(AuthorOf(row))
      && Get(a, DateReadKey) == OptDateValue(DateOf(row))
      && Get(a, NumberOfPagesKey) == OptIntValue(PagesOf(row))
      && Get(a, UserRatingKey) == VInt(RatingOf(row))
      && Get(a, UserReviewKey) == OptStrValue(ReviewOf(row))
      && Get(a, TitleKey) == OptStrValue(TitleOf(row))
      && Get(a, SeriesKey) == SeriesValue(SeriesFieldOf(row))
      && Get(a, SeriesNameKey) == (if SeriesFieldOf(row).Some? then VStr(SeriesFieldOf(row).value.name) else VNone)
      && Get(a, SeriesEntryKey) == (if SeriesFieldOf(row).Some? then VFloat(SeriesFieldOf(row).value.entry) else VNone)
  {
    AssembleFields(ParserValues(row));
    ParserValuesAt(row);
  }

  /** The seven parser results, position by position. */
  lemma ParserValuesAt(row: Node)
    ensures var vs := ParserValues(row);
      && vs[0] == OptStrValue(AuthorOf(row)) && vs[1] == OptDateValue(DateOf(row))
      && vs[2] == OptIntValue(PagesOf(row)) && vs[3] == VInt(RatingOf(row))
      && vs[4] == OptStrValue(ReviewOf(row)) && vs[5] == OptStrValue(TitleOf(row))
      && vs[6] == SeriesValue(SeriesFieldOf(row))
  {
    ParsersTable();
  }

  /** `parser.parse(row)`, with the loops of the date and series parsers run
      as methods. */
  method ParseField(p: FieldParser, row: Node) returns (v: Value)
    ensures v == ParserValue(p, row)
  {
    match p
    case DateParser =>
      var d: Option<Date> := None;
      var text := DateTextOf(row);
      if text.Some? {
        d := TransformDate(text.value);
      }
      v := OptDateValue(d);
    case SeriesParser =>
      var x: Option<Series> := None;
      var text := SeriesTextOf(row);
      if text.Some? {
        x := TransformSeries(text.value);
      }
      v := SeriesValue(x);
    case _ =>
      v := ParserValue(p, row);
  }

  /** `_parse_row`: the loop over the parser table. */
  method ParseRow(row: Node) returns (attrs: Attributes)
    ensures attrs == RowAttributes(row)
  {
    ghost var vs := ParserValues(row);
    attrs := map[];
    var k := 0;
    while k < |Parsers|
      invariant 0 <= k <= |Parsers|
      invariant attrs == Assemble(vs[..k])
    {
      var (key, parser) := Parsers[k];
      var value := ParseField(parser, row);
      assert value == vs[k];
      ghost var next := Record(attrs, key, value);
      if key == SeriesKey && value.VSeries? {
        attrs := attrs[SeriesNameKey := VStr(value.name)];
        attrs := attrs[SeriesEntryKey := VFloat(value.entry)];
      }
      attrs := attrs[key := value];
      assert attrs == next;
      assert Front(vs[..k + 1]) == vs[..k] && Last(vs[..k + 1]) == value;
      k := k + 1;
    }
    assert vs[..k] == vs;
  }

  // ---- what validation makes of a row ----------------------------------------

  /** The series parser's result passes `validate_series`. */
  predicate SeriesAgrees(x: Option<Series>) {
    x.None? || ((x.value.name != "") == (x.value.entry != 0.0))
  }

  /** What the seven parsers found in a row. */
  datatype Parsed = Parsed(
    author: Option<string>, date: Option<Date>, pages: Option<int>, rating: int,
    review: Option<string>, title: Option<string>, series: Option<Series>)

  function ParsedOf(row: Node): Parsed {
    Parsed(AuthorOf(row), DateOf(row), PagesOf(row), RatingOf(row), ReviewOf(row), TitleOf(row), SeriesFieldOf(row))
  }

  /** The attributes hold what the parsers found, under the keys `Book` reads. */
  predicate Carries(a: Attributes, p: Parsed) {
    && Get(a, AuthorNameKey) == OptStrValue(p.author) && Get(a, DateReadKey) == OptDateValue(p.date)
    && Get(a, NumberOfPagesKey) == OptIntValue(p.pages) && Get(a, UserRatingKey) == VInt(p.rating)
    && Get(a, UserReviewKey) == OptStrValue(p.review) && Get(a, TitleKey) == OptStrValue(p.title)
    && Get(a, SeriesNameKey) == (if p.series.Some? then VStr(p.series.value.name) else VNone)
    && Get(a, SeriesEntryKey) == (if p.series.Some? then VFloat(p.series.value.entry) else VNone)
  }

  /** Attributes carrying parser results validate exactly when there are a
      title and an author, the rating is 1 to 5 and a series (if any) has a
      name and an entry that are both truthy or both falsy; the book then
      holds those results. */
  lemma CarriedValidation(a: Attributes, p: Parsed)
    requires Carries(a, p)
    ensures Validate(a).Ok? <==>
      p.title.Some? && p.author.Some? && 1 <= p.rating <= 5 && SeriesAgrees(p.series)
    ensures Validate(a).Ok? ==>
      var b := Validate(a).value;
      && Some(b.title) == p.title && Some(b.authorName) == p.author
      && b.numberOfPages == p.pages && b.dateRead == p.date
      && b.userRating == Some(p.rating) && b.userReview == p.review
      && b.seriesName == (if p.series.Some? then Some(p.series.value.name) else None)
      && b.seriesEntry == (if p.series.Some? then Some(p.series.value.entry) else None)
  {
    ValidateByFields(a);
  }

  /** A row validates as a `Book` exactly when it has a title and an author,
      a rating of 1 to 5, and a series (if any) whose name and entry are both
      truthy or both falsy. */
  lemma RowAccepted(row: Node)
    ensures Validate(RowAttributes(row)).Ok? <==>
      && TitleOf(row).Some? && AuthorOf(row).Some? && 1 <= RatingOf(row)
      && SeriesAgrees(SeriesFieldOf(row))
  {
    RowAttributesFields(row);
    CarriedValidation(RowAttributes(row), ParsedOf(row));
  }

  /** The book built from an accepted row holds what the parsers found. */
  lemma RowBook(row: Node)
    requires Validate(RowAttributes(row)).Ok?
    ensures var b := Validate(RowAttributes(row)).value;
      && Some(b.title) == TitleOf(row) && Some(b.authorName) == AuthorOf(row)
      && b.numberOfPages == PagesOf(row) && b.dateRead == DateOf(row)
      && b.userRating == Some(RatingOf(row)) && b.userReview == ReviewOf(row)
      && b.seriesName == (if SeriesFieldOf(row).Some? then Some(SeriesFieldOf(row).value.name) else None)
      && b.seriesEntry == (if SeriesFieldOf(row).Some? then Some(SeriesFieldOf(row).value.entry) else None)
  {
    RowAttributesFields(row);
    CarriedValidation(RowAttributes(row), ParsedOf(row));
  }

  /** A row without a rating (or with unknown rating text) is rejected, with
      `userRating` among the invalid fields: the parser's default 0 is not a
      rating `Book` accepts. */
  lemma UnratedRowRejected(row: Node)
    requires RatingOf(row) == 0
    ensures Validate(RowAttributes(row)).Err?
    ensures Validate(RowAttributes(row)).error.InvalidFields?
    ensures UserRatingKey in Validate(RowAttributes(row)).error.fields
  {
    RowAttributesFields(row);
    RatingOutOfRange(RowAttributes(row), 0);
  }

  /** A row without children gives None from every parser, 0 from the
      rating parser, and is rejected. */
  lemma ChildlessRow(row: Node)
    requires row.Elem? && row.children == []
    ensures && AuthorOf(row).None? && DateOf(row).None? && PagesOf(row).None?
            && RatingOf(row) == 0 && ReviewOf(row).None? && TitleOf(row).None?
            && SeriesFieldOf(row).None?
            && Validate(RowAttributes(row)).Err?
  {
    assert forall q :: FindAll(row, q) == [];
    UnratedRowRejected(row);
  }

  // ---- the lenient driver ----------------------------------------------------

  /** `soup.find_all("tr", id=re.compile(r"^review_"))`. */
  function ReviewRows(doc: Node): (rows: seq<Node>)
    ensures forall i :: 0 <= i < |rows| ==>
              rows[i].Elem? && rows[i].tag == "tr" && "id" in rows[i].attrs && "review_" <= rows[i].attrs["id"]
  {
    FindAll(doc, ByIdPrefix("tr", "review_"))
  }

  /** What the driver makes of one row: `Book.model_validate(_parse_row(tr))`. */
  function Outcome(row: Node): Result<Book, BookError> {
    Validate(RowAttributes(row))
  }

  /** `f` applied to each element, in order. */
  function MapSeq<A, B>(f: A -> B, xs: seq<A>): (ys: seq<B>)
    ensures |ys| == |xs|
    ensures forall i :: 0 <= i < |xs| ==> ys[i] == f(xs[i])
  {
    seq(|xs|, i requires 0 <= i < |xs| => f(xs[i]))
  }

  lemma MapSeqAppend<A, B>(f: A -> B, a: seq<A>, b: seq<A>)
    ensures MapSeq(f, a + b) == MapSeq(f, a) + MapSeq(f, b)
  {
  }

  /** The outcome of every row, in row order. */
  function Outcomes(rows: seq<Node>): seq<Result<Book, BookError>> {
    MapSeq(Outcome, rows)
  }

  /** The books among the outcomes, in order. */
  function Kept(os: seq<Result<Book, BookError>>): (bs: seq<Book>)
    ensures |bs| <= |os|
  {
    if os == [] then [] else (if os[0].Ok? then [os[0].value] else []) + Kept(os[1..])
  }

  /** The errors among the outcomes, in order: one warning each. */
  function Rejected(os: seq<Result<Book, BookError>>): (ws: seq<BookError>)
    ensures |ws| <= |os|
  {
    if os == [] then [] else (if os[0].Err? then [os[0].error] else []) + Rejected(os[1..])
  }

  lemma {:induction false} KeptAppend(a: seq<Result<Book, BookError>>, b: seq<Result<Book, BookError>>)
    ensures Kept(a + b) == Kept(a) + Kept(b)
    ensures Rejected(a + b) == Rejected(a) + Rejected(b)
  {
    KeptOfAppend(a, b);
    RejectedOfAppend(a, b);
  }

  lemma {:induction false} KeptOfAppend(a: seq<Result<Book, BookError>>, b: seq<Result<Book, BookError>>)
    ensures Kept(a + b) == Kept(a) + Kept(b)
    decreases |a|
  {
    if a == [] {
      assert a + b == b;
    } else {
      assert (a + b)[0] == a[0];
      assert (a + b)[1..] == a[1..] + b;
      KeptOfAppend(a[1..], b);
      var h := if a[0].Ok? then [a[0].value] else [];
      assert h + (Kept(a[1..]) + Kept(b)) == h + Kept(a[1..]) + Kept(b);
    }
  }

  lemma {:induction false} RejectedOfAppend(a: seq<Result<Book, BookError>>, b: seq<Result<Book, BookError>>)
    ensures Rejected(a + b) == Rejected(a) + Rejected(b)
    decreases |a|
  {
    if a == [] {
      assert a + b == b;
    } else {
      assert (a + b)[0] == a[0];
      assert (a + b)[1..] == a[1..] + b;
      RejectedOfAppend(a[1..], b);
      var h := if a[0].Err? then [a[0].error] else [];
      assert h + (Rejected(a[1..]) + Rejected(b)) == h + Rejected(a[1..]) + Rejected(b);
    }
  }

  /** Every outcome gives a book or a warning, never both and never neither. */
  lemma {:induction false} KeptPlusRejected(os: seq<Result<Book, BookError>>)
    ensures |Kept(os)| + |Rejected(os)| == |os|
    decreases |os|
  {
    if os != [] { KeptPlusRejected(os[1..]); }
  }

  /** A book is kept exactly when some outcome is that book. */
  lemma {:induction false} KeptFrom(os: seq<Result<Book, BookError>>, b: Book)
    ensures b in Kept(os) <==> exists i :: 0 <= i < |os| && os[i] == Ok(b)
    decreases |os|
  {
    if os != [] {
      KeptFrom(os[1..], b);
      if exists i :: 1 <= i < |os| && os[i] == Ok(b) {
        var i :| 1 <= i < |os| && os[i] == Ok(b);
        assert os[1..][i - 1] == os[i];
      }
      if exists i :: 0 <= i < |os| - 1 && os[1..][i] == Ok(b) {
        var i :| 0 <= i < |os| - 1 && os[1..][i] == Ok(b);
        assert os[i + 1] == os[1..][i];
      }
    }
  }

  /** With every outcome a book, all of them are kept, in order. */
  lemma {:induction false} KeptAllOk(os: seq<Result<Book, BookError>>)
    requires forall i :: 0 <= i < |os| ==> os[i].Ok?
    ensures |Kept(os)| == |os|
    ensures forall i :: 0 <= i < |os| ==> Kept(os)[i] == os[i].value
    ensures Rejected(os) == []
    decreases |os|
  {
    if os != [] {
      assert forall i :: 0 <= i < |os| - 1 ==> os[1..][i] == os[i + 1];
      KeptAllOk(os[1..]);
    }
  }

  /** The books `_parse_books_from_html` returns for these rows. */
  function LenientBooks(rows: seq<Node>): (books: seq<Book>)
    ensures |books| <= |rows|
  {
    Kept(Outcomes(rows))
  }

  /** The warnings it emits for these rows. */
  function Warnings(rows: seq<Node>): (ws: seq<BookError>)
    ensures |ws| <= |rows|
  {
    Rejected(Outcomes(rows))
  }

  /** One iteration of the driver's loop: parse the row, then validate. */
  method RowOutcome(tr: Node) returns (r: Result<Book, BookError>)
    ensures r == Outcome(tr)
  {
    var attributes := ParseRow(tr);
    r := Validate(attributes);
  }

  /** The outcome of row `k`, as `os` records it. */
  method OutcomeAt(rows: seq<Node>, ghost os: seq<Result<Book, BookError>>, k: nat) returns (r: Result<Book, BookError>)
    requires k < |rows| == |os|
    requires forall i {:trigger Outcome(rows[i])} :: 0 <= i < |rows| ==> os[i] == Outcome(rows[i])
    ensures r == os[k]
  {
    r := RowOutcome(rows[k]);
  }

  /** The loop of `_parse_books_from_html` over the rows, whose outcomes are
      `os`: a book is appended for each valid row and a warning for each
      other. */
  method CollectBooks(rows: seq<Node>, ghost os: seq<Result<Book, BookError>>)
    returns (books: seq<Book>, warnings: seq<BookError>)
    requires |os| == |rows|
    requires forall i {:trigger Outcome(rows[i])} :: 0 <= i < |rows| ==> os[i] == Outcome(rows[i])
    ensures books == Kept(os) && warnings == Rejected(os)
  {
    books, warnings := [], [];
    var k := 0;
    while k < |rows|
      invariant 0 <= k <= |rows|
      invariant books == Kept(os[..k]) && warnings == Rejected(os[..k])
    {
      var r := OutcomeAt(rows, os, k);
      assert os[..k + 1] == os[..k] + [r];
      KeptAppend(os[..k], [r]);
      if r.Err? {
        warnings := warnings + [r.error];
      } else {
        books := books + [r.value];
      }
      k := k + 1;
    }
    assert os[..k] == os;
  }

  /** `_parse_books_from_html` of pyreads/_parser.py, on the parsed document:
      each row's attributes are validated; a failure is warned about (the
      warning is returned here) and the row dropped. */
  method ParseBooksLenient(doc: Node) returns (books: seq<Book>, warnings: seq<BookError>)
    ensures books == LenientBooks(ReviewRows(doc))
    ensures warnings == Warnings(ReviewRows(doc))
    ensures |books| + |warnings| == |ReviewRows(doc)|
  {
    var rows := ReviewRows(doc);
    books, warnings := CollectBooks(rows, Outcomes(rows));
    KeptPlusRejected(Outcomes(rows));
  }

  /** Every returned book is valid and comes from some row, and every row
      that validates contributes its book. */
  lemma LenientBooksFrom(rows: seq<Node>, b: Book)
    ensures b in LenientBooks(rows) <==> exists i :: 0 <= i < |rows| && Outcome(rows[i]) == Ok(b)
    ensures b in LenientBooks(rows) ==> Valid(b)
  {
    KeptFrom(Outcomes(rows), b);
  }

  /** With every row valid, the books are the rows' books, one each, in
      document order, and nothing is warned about. */
  lemma LenientAllValid(rows: seq<Node>)
    requires forall i :: 0 <= i < |rows| ==> Outcome(rows[i]).Ok?
    ensures |LenientBooks(rows)| == |rows| && Warnings(rows) == []
    ensures forall i :: 0 <= i < |rows| ==> LenientBooks(rows)[i] == Outcome(rows[i]).value
  {
    KeptAllOk(Outcomes(rows));
  }

  /** A document without review rows gives no books and no warnings. */
  lemma NoRowsNoBooks(doc: Node)
    requires ReviewRows(doc) == []
    ensures LenientBooks(ReviewRows(doc)) == [] && Warnings(ReviewRows(doc)) == []
  {
  }

  /** A failed outcome adds a warning and no book, wherever it stands. */
  lemma DropFailed(a: seq<Result<Book, BookError>>, o: Result<Book, BookError>, b: seq<Result<Book, BookError>>)
    requires o.Err?
    ensures Kept(a + [o] + b) == Kept(a + b)
    ensures Rejected(a + [o] + b) == Rejected(a) + [o.error] + Rejected(b)
  {
    var ka, kb := Kept(a), Kept(b);
    assert Kept([o]) == [] && Rejected([o]) == [o.error] by {
      assert [o][1..] == [];
    }
    KeptAppend(a + [o], b);
    KeptAppend(a, [o]);
    KeptAppend(a, b);
    assert ka + [] + kb == ka + kb;
  }

  /** An unrated row is dropped with a warning: it adds no book, and one
      warning, wherever it stands. */
  lemma UnratedRowDropped(before: seq<Node>, row: Node, after: seq<Node>)
    requires RatingOf(row) == 0
    ensures LenientBooks(before + [row] + after) == LenientBooks(before + after)
    ensures |Warnings(before + [row] + after)| == |Warnings(before + after)| + 1
  {
    UnratedRowRejected(row);
    MapSeqAppend(Outcome, before + [row], after);
    MapSeqAppend(Outcome, before, [row]);
    MapSeqAppend(Outcome, before, after);
    assert MapSeq(Outcome, [row]) == [Outcome(row)];
    DropFailed(Outcomes(before), Outcome(row), Outcomes(after));
    KeptAppend(Outcomes(before), Outcomes(after));
  }
}
