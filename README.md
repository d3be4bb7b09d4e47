# pyreads row parsing, in Dafny

pyreads reads a Goodreads "read" shelf page. Each review row becomes a
validated `Book` record, or the row is dropped. This project models that
pipeline and proves properties of it:

- the seven field parsers: author, date read, page count, rating, review,
  title and series. Each one runs the find-element, read-data, transform
  pipeline of `_Parser.parse`;
- `_parse_row`, which collects their results in an attribute dictionary;
- validation of the `Book` of `models.py`: its field types, the 1..5
  rating and the truthiness-based series check;
- `full_title` and the tabular projection: headers, rows, the Polars schema
  and the column dictionary;
- the two page drivers. The lenient one warns and keeps going; the strict
  one skips undated rows and fails on the first invalid row;
- the helpers of `_utilities.py`: the `Rating` enum and its phrase table,
  `parse_date` and `format_url`;
- the older `Book` of `_models.py`, whose series check is based on `None`.

The HTML is an abstract tree (`Soup.Node`: text nodes and elements with a
tag, classes, attributes and children). BeautifulSoup's `find`, `find_all`
and `get_text(strip=True)` are functions over that tree.

The regular expressions are hand-written recognisers:

- the page-number search `(\d{1,6})(?=\D|$)` is modelled with its
  give-back behaviour;
- the three series patterns are modelled with a lazy `(.*?)` that takes the
  shortest name after which the rest of the pattern matches;
- `datetime.strptime` is modelled for "%b %d, %Y" and "%b %Y", including
  `%d`'s alternation, the comma, `\s+`, the four-digit year, the rejection of
  leftover text, and the `datetime` range and month-length checks.

Series entries are exact decimals (`real`), read from the text of
`\d+(\.\d+)?`.

Modules, one per file:

| file | module | models |
|---|---|---|
| `wrappers.dfy` | `Wrappers` | `Option` and `Result` |
| `text.dfy` | `Text` | `str.strip`, `str.isspace`, ASCII `lower`, digits, `int` to text |
| `soup.dfy` | `Soup` | the element tree, `find`, `find_all`, `get_text(strip=True)` |
| `calendar.dfy` | `Calendar` | dates, leap years, `strptime` for the two formats, the printed forms |
| `utilities.dfy` | `Utilities` | `pyreads/_utilities.py` |
| `models.dfy` | `Models` | `pyreads/models.py`, plus the attribute values a row dictionary holds |
| `legacy_models.dfy` | `LegacyModels` | `pyreads/_models.py` |
| `patterns.dfy` | `Patterns` | the regular expressions of `pyreads/_parser.py` |
| `parser.dfy` | `Parser` | the parsers, `_parse_row` and the lenient driver of `pyreads/_parser.py` |
| `html_driver.dfy` | `HtmlDriver` | the strict driver of `pyreads/_html.py` |

The source's loops are methods proved against specification functions:

- `_DateParser._transform_data` is `Parser.TransformDate`;
- `_SeriesParser._transform_data` is `Parser.TransformSeries`;
- `_parse_row` is `Parser.ParseRow`;
- the lenient driver is `Parser.CollectBooks` and `Parser.ParseBooksLenient`;
- `parse_date` is `Utilities.ParseDate`;
- the strict driver is `HtmlDriver.CollectStrict` and `HtmlDriver.ParseBooksStrict`.

Where the code and its tests disagree, the model follows the code:

- The rating parser returns 0, not None, when the rating cell, the stars
  span or its title is missing (`pyreads/_parser.py:243-248`). The tests
  expect None.
- A series entry is a number (`pyreads/models.py:30`). The tests expect the
  string "1".

A consequence of the first point is proved. `_parse_row` always gives a
rating in 0..5, and `Book` rejects 0. So an unrated row is dropped with a
warning by the lenient driver and makes the strict driver fail
(`Parser.UnratedRowDropped`, `HtmlDriver.UnratedDatedRowFails`).

A Python `ValidationError` is a `Models.BookError`. It either lists the
fields with the wrong type (in declaration order) or reports the
`validate_series` failure. Dictionary keys are the enum `Models.Key`, and
`Models.KeyName` gives the Python string of each key; distinct keys have
distinct names (`Models.KeyNamesDistinct`).

## Model

| member | source | states |
|---|---|---|
| `Text.IsSpace` | pyreads/_parser.py:308 | the characters Python's `str.isspace` accepts, which `strip()` removes and `\s` matches: tab to carriage return, U+1C..U+1F, space, U+85, U+A0, U+1680, U+2000..U+200A, U+2028, U+2029, U+202F, U+205F and U+3000 |
| `Text.LowerString` | pyreads/_parser.py:241 | `title.lower()`: the same length, each character mapped by `Lower` (ASCII capitals to small letters, everything else unchanged) |
| `Text.Strip` | pyreads/_parser.py:341 | `str.strip`: the result has no leading or trailing whitespace, is empty exactly when the input is all whitespace, is no longer than the input and leaves an already stripped string alone |
| `Soup.FindAll` | pyreads/_parser.py:385 | `find_all`: every element returned matches the query; a text node has no matches. The document order is fixed by its definition over `Descendants` |
| `Soup.FindAllSiblings` | pyreads/_parser.py:385 | `find_all` keeps document order across siblings: the matches below the first children come before those below the later ones |
| `Soup.Find` | pyreads/_parser.py:56 | `find`: None exactly when `find_all` finds nothing, otherwise the first element `find_all` returns, which matches the query |
| `Soup.GetText` | pyreads/_parser.py:49 | `get_text(strip=True)`: the joined stripped text pieces, never padded with whitespace |
| `Parser.SafeFindText` | pyreads/_parser.py:42-49 | None exactly when there is no element or its stripped text is empty; otherwise that text, which is non-empty and stripped |
| `Parser.FieldCell` | pyreads/_parser.py:52-57 | the result is a `td` whose class matches "field {name}"; None exactly when the row has no such cell |
| `Parser.AuthorOf` | pyreads/_parser.py:145-163 | the stripped text of the author cell's first link; None when the cell or the link is missing or the text is empty |
| `Parser.DateSpan` | pyreads/_parser.py:178-182 | the cell's first `date_read_value` span when there is one, else its first span with a `title` attribute |
| `Parser.DateTextOf` | pyreads/_parser.py:171-182 | `_safe_find_text` of the date cell's `DateSpan`: None without the cell, without either span, or for empty text; otherwise non-empty and stripped |
| `Parser.ReadDate` | pyreads/_parser.py:186-196 | the "%b %d, %Y" result when it parses, else the "%b %Y" result; None exactly when neither parses; any result is a valid date, and a month-only result keeps day 1 |
| `Parser.TransformDate` | pyreads/_parser.py:186-196 | the loop over `_DATE_FORMATS`, returning on the first format that parses, computes `ReadDate` |
| `Parser.ReadDateFormats` | pyreads/_parser.py:29 | a printed full date reads back as itself when the day exists and as None otherwise; month-only text gives day 1 of that month, not the month's end |
| `Parser.DateOf` | pyreads/_parser.py:166-196 | None without the date text; otherwise the text read with `ReadDate`; every date is valid |
| `Parser.PagesOf` | pyreads/_parser.py:199-218 | None without the `num_pages` cell or its `nobr`; otherwise `ExtractPageNumber` of the `nobr` text, a count in 0..999999 |
| `Parser.RatingTableMatchesUtilities` | pyreads/_parser.py:31-37 | the parser's phrase table has the same five phrases as `STRING_TO_RATING` and the same values 1..5 |
| `Parser.StarsTitleOf` | pyreads/_parser.py:228-236 | None without the rating cell or its `staticStars` span; otherwise the span's `title` attribute when it has one (possibly empty), else None |
| `Parser.RatingOfTitle` | pyreads/_parser.py:238-241 | the lower-cased title is looked up in the table; the result is in 0..5, and 0 exactly for text that is not in the table |
| `Parser.RatingOf` | pyreads/_parser.py:221-248 | always in 0..5, never None; 0 when the cell, the `staticStars` span or its title is missing |
| `Parser.ReviewOf` | pyreads/_parser.py:251-269 | `_safe_find_text` of the first span whose id starts with `freeTextContainerreview`: None without that span or for empty text, otherwise its non-empty stripped text |
| `Parser.TitleLinkOf` | pyreads/_parser.py:321-330 | the first `a` of the title cell; None without the cell or without a link in it |
| `Parser.LinkTitle` | pyreads/_parser.py:339-343 | a text first child gives that text stripped, which may be ""; otherwise the whole stripped text, or None when it is empty |
| `Parser.TitleOf` | pyreads/_parser.py:314-343 | None without the title link; otherwise `LinkTitle` of the link |
| `Parser.SeriesTextOf` | pyreads/_parser.py:285-300 | `_safe_find_text` of the `darkGreyText` span inside the title link: None without the link, without the span or for empty text; never the raw title text |
| `Parser.TransformSeries` | pyreads/_parser.py:302-311 | the loop over the three patterns, returning the first match, computes `Patterns.SeriesOf` |
| `Parser.SeriesFieldOf` | pyreads/_parser.py:272-311 | None without the span text, with no fallback to the raw title; otherwise the first pattern's match, with a stripped name and an entry of at least 0 |
| `Parser.ParseField` | pyreads/_parser.py:80-100 | one `parser.parse(row)`, with the date and series loops run as methods, gives the value the dictionary records for that parser |
| `Parser.RecordAt` | pyreads/_parser.py:369-375 | one loop step stores the value under its key; a `_Series` also adds `seriesName` and `seriesEntry`; every other key is unchanged |
| `Parser.AssembleGet` | pyreads/_parser.py:367-377 | after k steps, a key is present exactly when its table entry has been processed or it is a series key added by the series step; it holds that value |
| `Parser.AssembleKeys` | pyreads/_parser.py:367-377 | the finished dictionary holds the seven parser keys, plus the two series keys exactly when the series value is a `_Series` |
| `Parser.AssembleFields` | pyreads/_parser.py:367-377 | each parser's value is under its key; the series keys hold the name and entry, and read as None without a series |
| `Parser.ParsersTable` | pyreads/_parser.py:357-365 | the `parsers` table binds each of the seven keys to its parser, in order |
| `Parser.ParserValuesAt` | pyreads/_parser.py:357-370 | the seven parser results, position by position, are the results of the seven parsers |
| `Parser.RowAttributes` | pyreads/_parser.py:346-377 | the dictionary `_parse_row` returns; its contents are stated by `RowAttributesKeys` and `RowAttributesFields`, and `ParseRow` is proved to compute it |
| `Parser.RowAttributesKeys` | pyreads/_parser.py:357-377 | `_parse_row` always contains the seven parser keys; `seriesName` and `seriesEntry` are there exactly when the series parser matched |
| `Parser.RowAttributesFields` | pyreads/_parser.py:369-377 | every key of `_parse_row` holds its parser's result; the series keys hold the matched series' name and entry |
| `Parser.ParseRow` | pyreads/_parser.py:346-377 | the loop that fills `attributes` computes `RowAttributes` |
| `Parser.CarriedValidation` | pyreads/models.py:37-83 | attributes that carry parser results validate exactly when title and author are present, the rating is 1..5 and a series' name and entry are both truthy or both falsy; the book then holds those results |
| `Parser.RowAccepted` | pyreads/_parser.py:389-391 | a row validates exactly when it has a title, an author, a rating of 1..5 and a consistent series |
| `Parser.RowBook` | pyreads/_parser.py:389-391 | the book of an accepted row holds exactly what the seven parsers found |
| `Parser.UnratedRowRejected` | pyreads/_parser.py:243-248 | a row rated 0 (no rating, or unknown text) fails validation, with `userRating` among the invalid fields |
| `Parser.ChildlessRow` | pyreads/_parser.py:80-100 | a row without children gives None from every parser except the rating, which gives 0, and it is rejected |
| `Parser.Kept` | pyreads/_parser.py:386-396 | the books kept from a list of outcomes are no more than the outcomes |
| `Parser.Rejected` | pyreads/_parser.py:390-393 | the warnings from a list of outcomes are no more than the outcomes |
| `Parser.KeptAppend` | pyreads/_parser.py:387-395 | the books and warnings of two stretches of rows are those of each stretch, concatenated in order |
| `Parser.KeptOfAppend` | pyreads/_parser.py:387-395 | the books of two stretches of rows are those of each stretch, in order |
| `Parser.RejectedOfAppend` | pyreads/_parser.py:390-393 | the warnings of two stretches of rows are those of each stretch, in order |
| `Parser.KeptPlusRejected` | pyreads/_parser.py:390-395 | every row gives exactly one book or one warning |
| `Parser.KeptFrom` | pyreads/_parser.py:390-395 | a book is kept exactly when some outcome is that book |
| `Parser.KeptAllOk` | pyreads/_parser.py:390-395 | when every outcome is a book, all of them are kept, in order, and there are no warnings |
| `Parser.ReviewRows` | pyreads/_parser.py:385 | every row is a `tr` whose `id` starts with `review_` |
| `Parser.Outcome` | pyreads/_parser.py:389-391 | `Book.model_validate` of the row's attributes; when it succeeds is stated by `RowAccepted`, its book by `RowBook`, an unrated row's failure by `UnratedRowRejected` |
| `Parser.RowOutcome` | pyreads/_parser.py:389-391 | one iteration's `Book.model_validate(_parse_row(tr))` |
| `Parser.OutcomeAt` | pyreads/_parser.py:387-391 | the outcome of row k, as the specification sequence records it |
| `Parser.CollectBooks` | pyreads/_parser.py:386-396 | the loop returns the kept books and the warnings of the outcomes, in row order |
| `Parser.LenientBooks` | pyreads/_parser.py:386-396 | the list the lenient driver returns: at most one book per row; which books is stated by `LenientBooksFrom`, `LenientAllValid`, `DropFailed` and `UnratedRowDropped` |
| `Parser.Warnings` | pyreads/_parser.py:391-393 | one `warn` per row that fails validation, at most one per row; with `LenientBooks` they account for every row (`ParseBooksLenient`) |
| `Parser.ParseBooksLenient` | pyreads/_parser.py:380-396 | the lenient driver returns the books of the `review_` rows that validate, and one warning per rejected row; books plus warnings equal the rows |
| `Parser.LenientBooksFrom` | pyreads/_parser.py:387-395 | a book is returned exactly when some row validates to it; every returned book satisfies `Book`'s validators |
| `Parser.LenientAllValid` | pyreads/_parser.py:387-395 | when every row is valid, the result is the rows' books, one each, in document order, with no warnings |
| `Parser.NoRowsNoBooks` | pyreads/_parser.py:385-396 | no review rows give no books and no warnings |
| `Parser.DropFailed` | pyreads/_parser.py:392-393 | a rejected outcome adds one warning and no book, wherever it stands, and processing continues |
| `Parser.UnratedRowDropped` | pyreads/_parser.py:389-393 | an unrated row is dropped with one warning and leaves the other books unchanged |
| `Patterns.GiveBack` | pyreads/_parser.py:21 | `\d{1,6}` gives back digits until the look-ahead `(?=\D\|$)` holds; the group length is between 1 and the digits taken |
| `Patterns.PageGroupAtRun` | pyreads/_parser.py:21 | the page pattern matches at a position exactly when the digit run there has 1 to 6 digits, and the group is then the whole run |
| `Patterns.GiveBackInsideRun` | pyreads/_parser.py:21 | a group shorter than its digit run is always followed by a digit and fails |
| `Patterns.PageSearch` | pyreads/_parser.py:67 | `pattern.search` finds the leftmost start where the pattern matches, and no earlier one matches |
| `Patterns.ExtractPageNumber` | pyreads/_parser.py:60-68 | empty text gives None; any result lies in 0..999999 |
| `Patterns.ExtractPageNumberLeftmost` | pyreads/_parser.py:60-68 | the result is the value of the leftmost digit run of 1 to 6 digits, taken whole; every earlier start is a non-digit or inside a run of 7 or more |
| `Patterns.ExtractPageNumberNoDigits` | pyreads/_parser.py:60-68 | text without digits gives None |
| `Patterns.ExtractPageNumberSevenDigits` | pyreads/_parser.py:21 | a 7-digit run yields its last 6 digits |
| `Patterns.ExtractPageNumberRoundTrip` | pyreads/_parser.py:60-68 | a count of at most 6 digits, between digit-free text and text not starting with a digit, is read back |
| `Patterns.NumberEnds` | pyreads/_parser.py:24-26 | every end the engine tries for `\d+(?:\.\d+)?` spans a numeral |
| `Patterns.EngineNumber` | pyreads/_parser.py:24-26 | the backtracking search for `\d+(?:\.\d+)?` followed by `\)` or `\b` returns a numeral span after which the follow holds |
| `Patterns.NumberAt` | pyreads/_parser.py:24-26 | the closed form: the end after the fraction when there is one and the follow holds there, else the end of the integer run |
| `Patterns.NumberAtIsEngine` | pyreads/_parser.py:24-26 | the closed form equals the backtracking search, for every text, position and follow |
| `Patterns.EngineSplit` | pyreads/_parser.py:24-26 | the engine tries the fraction's ends before the integer's |
| `Patterns.NumeralAt` | pyreads/_parser.py:24-26 | a numeral followed by a non-digit that satisfies the follow is matched whole and read as its decimal value |
| `Patterns.TailAt` | pyreads/_parser.py:24-26 | what the rest of a pattern after group 1 gives when the name ends at k; any value is at least 0 |
| `Patterns.Tails` | pyreads/_parser.py:24-26 | the rest's result for every end of the name, 0 to the length of the text |
| `Patterns.TailsAt` | pyreads/_parser.py:24-26 | entry k of `Tails` is the rest's result after a name ending at k |
| `Patterns.LazyMatch` | pyreads/_parser.py:24-26 | lazy `(.*?)`: the shortest newline-free name after which the rest matches; no match means every later success lies past a newline |
| `Patterns.LazyMatchAt` | pyreads/_parser.py:24-26 | the lazy name grows past every end where the rest fails, up to the first end where it succeeds |
| `Patterns.MatchPattern` | pyreads/_parser.py:305-310 | a match gives `_Series(group(1).strip(), group(2))`, with a stripped name and an entry of at least 0 |
| `Patterns.FirstSeries` | pyreads/_parser.py:305-311 | None exactly when no pattern in the list matches; otherwise the first match |
| `Patterns.FirstSeriesStep` | pyreads/_parser.py:305-311 | the first pattern's match wins; only when it fails is the next pattern tried |
| `Patterns.SeriesOf` | pyreads/_parser.py:23-27 | None exactly when none of the three patterns matches |
| `Patterns.PatternMatchAt` | pyreads/_parser.py:305-310 | a pattern whose rest first succeeds after a name ending at m gives that name, stripped, and the number found there |
| `Patterns.NoDigitsNoSeries` | pyreads/_parser.py:23-27 | text without a digit matches no pattern |
| `Patterns.NoHashNoParenHash` | pyreads/_parser.py:24 | without a '#', the first pattern does not match |
| `Patterns.NoVNoVolume` | pyreads/_parser.py:25 | without a 'V', the second pattern does not match |
| `Patterns.ParenHashRoundTrip` | pyreads/_parser.py:24 | "(Name, #3)" and "(Name, #2.5)" give the stripped name and the number |
| `Patterns.VolumeRoundTrip` | pyreads/_parser.py:25 | "Name, Vol. 3" gives the stripped name and the number |
| `Patterns.ParenBookRoundTrip` | pyreads/_parser.py:26 | "(Name Book 3)" gives the stripped name and the number, after the first two patterns fail |
| `Patterns.SecondSeries` | pyreads/_parser.py:305-311 | when the first pattern fails, the series is what the second gives |
| `Patterns.ThirdSeries` | pyreads/_parser.py:305-311 | when the first two fail, the series is what the third gives |
| `Calendar.DaysInMonth` | pyreads/_utilities.py:32 | 28 to 31 days; February has 29 exactly in leap years |
| `Calendar.MonthAt` | pyreads/_parser.py:29 | `%b`: the month whose English abbreviation, ignoring case, starts the text; None when no abbreviation does |
| `Calendar.DayCandidates` | pyreads/_parser.py:29 | the ways `%d` can match, each a day of 1..39 and an end inside the text |
| `Calendar.MakeDate` | pyreads/_utilities.py:30 | the `datetime` check: a date exactly for years 1..9999 and a day inside the month |
| `Calendar.Strptime` | pyreads/_utilities.py:30 | any date it returns is valid; a month-only date has day 1 |
| `Calendar.FullDateRoundTrip` | pyreads/_parser.py:29 | a printed "Mon D, YYYY" parses back to that date when the day exists in the month, and to None otherwise |
| `Calendar.FullDateIsNotMonthOnly` | pyreads/_parser.py:29 | a printed full date never parses as "%b %Y" |
| `Calendar.MonthYearRoundTrip` | pyreads/_parser.py:29 | "Mon YYYY" parses as day 1 of that month, and not as a full date |
| `Utilities.RatingValue` | pyreads/_utilities.py:8-15 | the six members have values 0..5, and only `NO_RATING` has 0 |
| `Utilities.RatingFromValue` | pyreads/_utilities.py:8-15 | `Rating(v)` exists exactly for 0..5 and has value v |
| `Utilities.RatingValuesUnique` | pyreads/_utilities.py:8-15 | `@unique`: distinct members have distinct values, and a member's value names it back |
| `Utilities.StringToRatingTable` | pyreads/_utilities.py:18-24 | exactly the five lower-case phrases, mapped one-to-one onto the ratings 1..5; lookup is case sensitive |
| `Utilities.MonthEnd` | pyreads/_utilities.py:32 | the same year and month, on the last day of the month |
| `Utilities.ParsedDate` | pyreads/_utilities.py:27-36 | "%b %d, %Y" wins when it parses; otherwise a "%b %Y" date moved to the last day of its month; None exactly when neither format parses; any result is a valid date |
| `Utilities.ParseDate` | pyreads/_utilities.py:27-36 | the loop over the formats, returning on the first that does not raise, computes `ParsedDate` |
| `Utilities.ParsedFullDate` | pyreads/_utilities.py:30 | a printed full date comes back as itself when the day exists; an impossible day such as Feb 30 gives None |
| `Utilities.ParsedMonthOnly` | pyreads/_utilities.py:31-33 | month-only input moves to the last day of that month |
| `Utilities.ParsedMonthEnds` | pyreads/_utilities.py:31-33 | December gives the 31st; February gives the 29th in leap years and the 28th otherwise |
| `Utilities.ParsedDayInMonth` | pyreads/_utilities.py:30-33 | a returned day lies between 1 and the length of its month |
| `Utilities.FormatUrl` | pyreads/_utilities.py:39-40 | the URL starts with the review-list prefix and ends with "&shelf=read" |
| `Utilities.FormatUrlInjective` | pyreads/_utilities.py:39-40 | the URL determines both the user id and the page |
| `Utilities.FormatUrlDefaultPage` | pyreads/_utilities.py:39 | the page defaults to 1 |
| `Models.KeyNamesDistinct` | pyreads/models.py:37-72 | distinct keys have distinct Python names |
| `Models.FieldKindsOfBookFields` | pyreads/models.py:37-72 | the validation table is the name and type columns of the field list, in declaration order |
| `Models.BadAmongFacts` | pyreads/models.py:37-72 | a field is listed exactly when its value fails its type check; the list is empty exactly when all pass |
| `Models.WellTypedFields` | pyreads/models.py:37-72 | title and author are strings, pages an int or None, the date a date or None, the rating 1..5 or None, the review and series name strings or None, the entry a float or None |
| `Models.Validate` | pyreads/models.py:37-83 | succeeds exactly when every field has its type and the series name and entry are equally truthy; the book satisfies the validators and holds the values; a type error names only failing fields |
| `Models.Dump` | pyreads/models.py:110 | `model_dump` has every field |
| `Models.DumpRoundTrip` | pyreads/models.py:37-83 | validating a book's dump gives the book back exactly when the book satisfies the validators, and fails otherwise |
| `Models.DumpFields` | pyreads/models.py:110 | each field of the dump is the book's value |
| `Models.HoldsDump` | pyreads/models.py:110 | the only book that holds the dump of b is b |
| `Models.InvalidFieldsListed` | pyreads/models.py:37-72 | a type error lists every field whose value fails its check, and only those |
| `Models.RequiredFields` | pyreads/models.py:38-41 | a missing, None or non-string title or author fails, naming that field |
| `Models.RatingOutOfRange` | pyreads/models.py:52-56 | a rating of 0, or any integer outside 1..5, fails, naming `userRating` |
| `Models.ValidateByFields` | pyreads/models.py:37-83 | validation, field by field: each value has its type, and the series name and entry are both truthy or both falsy |
| `Models.SeriesRule` | pyreads/models.py:74-83 | for well-typed attributes, validation passes exactly when `bool(seriesName) == bool(seriesEntry)`, and otherwise fails with the series error |
| `Models.SeriesExamples` | pyreads/models.py:80 | name "X" with entry 0 is rejected, "" with a non-zero entry is rejected, and "" with entry 0 passes |
| `Models.FractionDigits` | pyreads/models.py:95-99 | at most n digits; none only for a zero fraction |
| `Models.DecimalText` | pyreads/models.py:95-99 | a non-whole entry is printed with a decimal point |
| `Models.EntryText` | pyreads/models.py:95-99 | a whole entry is printed as `int(entry)`; the text has a '.' exactly when the entry is not whole |
| `Models.FullTitle` | pyreads/models.py:85-102 | starts with "{title} " and ends with "by {authorName}"; the part between is stated by `FullTitleWholeEntry` and `FullTitleNoSeries` |
| `Models.FullTitleWholeEntry` | pyreads/models.py:93-102 | with a truthy series name and a whole, non-zero entry: "{title} ({seriesName}, #{entry}) by {authorName}", with no decimal point |
| `Models.FullTitleNoSeries` | pyreads/models.py:93-102 | "{title} by {authorName}" exactly when name and entry are not both truthy |
| `Models.ColumnHeaders` | pyreads/models.py:121-132 | the headers are the field titles, in declaration order |
| `Models.ColumnHeadersValue` | pyreads/models.py:121-132 | Title, Author Name, Number of Pages, Date Read, User Rating, User Review, Series Name, Series Entry |
| `Models.HeadersDistinct` | pyreads/models.py:112-116 | the titles are pairwise distinct, so a title determines its field |
| `Models.TitleToName` | pyreads/models.py:112-116 | each field's title maps to its name |
| `Models.CreateRow` | pyreads/models.py:104-119 | as long as the headers; entry i is the dumped value of the field whose title is header i |
| `Models.NonNone` | pyreads/models.py:145 | keeps exactly the union arguments that are not `None`, in order |
| `Models.ConvertAnnotation` | pyreads/models.py:138-162 | the annotation's Polars type; how unions and literals map is stated by `ConvertUnwraps`, the book fields' types by `FieldColumnTypes` |
| `Models.ConvertUnwraps` | pyreads/models.py:138-162 | `Optional[X]` maps like X; a `Literal` maps like the type of its first value; a union of `None` alone maps to Object |
| `Models.PolarsSchema` | pyreads/models.py:134-180 | each field's title maps to the Polars type of its annotation |
| `Models.PolarsSchemaValue` | pyreads/models.py:134-180 | keyed by the eight titles; Utf8, Utf8, Int16, Date, Int16, Utf8, Utf8, Float32 in header order |
| `Models.FieldColumnTypes` | pyreads/models.py:138-162 | each field's annotation converts to the column type of its header |
| `Models.Columns` | pyreads/models.py:191-209 | every column has one entry per book; which entries is stated by `ColumnsTranspose`, the keys by `ColumnsMatchSchema` |
| `Models.ColumnsTranspose` | pyreads/models.py:200-207 | column i has one entry per book, in book order, and entry j is book j's value of field i |
| `Models.ColumnsMatchSchema` | pyreads/models.py:200-209 | the columns are keyed by exactly the schema's titles |
| `LegacyModels.OldWellTypedFields` | pyreads/_models.py:10-18 | title, author and date are required; `numberOfPages` may be None but must be given; the rating is an int; series, `seriesNumber` and review are optional |
| `LegacyModels.OldBadAmongFacts` | pyreads/_models.py:10-18 | nothing is listed exactly when every value passes; whatever is listed fails its check |
| `LegacyModels.OldValidate` | pyreads/_models.py:10-37 | succeeds exactly when well typed and `(series is None) == (seriesNumber is None)`; the book holds the values |
| `LegacyModels.OldSeriesRule` | pyreads/_models.py:31-37 | for well-typed input, validation passes exactly when series and `seriesNumber` are both None or both given; "" counts as given |
| `LegacyModels.OldPagesRequired` | pyreads/_models.py:15 | leaving out `numberOfPages` fails |
| `LegacyModels.OldAcceptsAnyRating` | pyreads/_models.py:17 | any integer rating, 0 included, passes |
| `LegacyModels.OldFullTitle` | pyreads/_models.py:20-29 | starts with "{title} " and ends with "by {authorName}"; the part between is stated by `OldFullTitleCases` |
| `LegacyModels.OldFullTitleCases` | pyreads/_models.py:20-29 | with a truthy series: "{title} ({series}, #{seriesNumber}) by {authorName}"; "{title} by {authorName}" exactly when the series is None or "" |
| `LegacyModels.EmptySeriesDisagreement` | pyreads/_models.py:24-37 | the new model rejects `seriesName=""` with a non-zero entry; the old one accepts `series=""` with a number and prints no series part |
| `HtmlDriver.RowStep` | pyreads/_html.py:25-28 | what one row adds: skipped when `dateRead` is None, else the validated book or the escaping error; `ProcessRow` is proved to compute it and `RowHasDate` ties the guard to the date parser |
| `HtmlDriver.Run` | pyreads/_html.py:22-29 | the loop over the steps; `RunCases` states when it fails and what it returns, `RunSkip` that skips change nothing, `CollectStrict` is proved to compute it |
| `HtmlDriver.StrictBooks` | pyreads/_html.py:16-29 | what the strict driver returns for the rows; stated by `StrictBooksFrom`, `StrictBooksFails`, `UndatedRowSkipped` and `StrictMatchesLenient`, and `ParseBooksStrict` is proved to compute it |
| `HtmlDriver.HasDate` | pyreads/_html.py:26 | `attributes["dateRead"] is not None`: the key is present and its value is not None; `RowHasDate` ties it to the date parser |
| `HtmlDriver.RowHasDate` | pyreads/_html.py:26 | `attributes["dateRead"] is not None` exactly when the date parser found a date |
| `HtmlDriver.ProcessRow` | pyreads/_html.py:25-28 | one iteration: parse the row and, when it is dated, validate it |
| `HtmlDriver.StepAt` | pyreads/_html.py:23-28 | the step of row k, as the specification sequence records it |
| `HtmlDriver.CollectStrict` | pyreads/_html.py:22-29 | the loop computes the run over the rows' steps: the kept books in order, or the first failure |
| `HtmlDriver.ParseBooksStrict` | pyreads/_html.py:16-29 | the strict driver over the `review_` rows computes `StrictBooks` |
| `HtmlDriver.PrependAssoc` | pyreads/_html.py:28 | prepending books in two steps equals prepending their concatenation |
| `HtmlDriver.RunCases` | pyreads/_html.py:23-29 | the run fails exactly when some step fails, with the first failure's error; otherwise it returns the kept books, one at most per step |
| `HtmlDriver.KeptBooksFrom` | pyreads/_html.py:27-28 | a book is kept exactly when some step keeps it |
| `HtmlDriver.RunSkip` | pyreads/_html.py:26 | a skipped step changes nothing, wherever it stands |
| `HtmlDriver.StrictBooksFrom` | pyreads/_html.py:26-28 | every returned book comes from a dated row that validates to it; the list is no longer than the rows |
| `HtmlDriver.StrictBooksFails` | pyreads/_html.py:27 | the call fails exactly when some dated row fails validation, with the error of the first such row |
| `HtmlDriver.UnratedDatedRowFails` | pyreads/_html.py:27 | a dated row without a rating makes the whole call fail |
| `HtmlDriver.UndatedRowSkipped` | pyreads/_html.py:26 | an undated row is skipped silently and changes nothing, wherever it stands |
| `HtmlDriver.RunAgreesWithKept` | pyreads/_html.py:23-29 | over dated steps, the strict run succeeds exactly when the lenient bookkeeping has no warnings, and then returns the same books |
| `HtmlDriver.StrictMatchesLenient` | pyreads/_html.py:16-29 | when every row is dated, the strict driver fails exactly when the lenient driver would warn, and otherwise returns the lenient driver's books |

## Left out

- HTTP, `_fetch_html` and its status handling (`pyreads/_http.py`) are left out. They are I/O.
- The fetch-and-paginate orchestration and its thread pool (`pyreads/core.py`, `pyreads/_core.py:85-128`) are left out. They are I/O and concurrency.
- `_fetch_books_page` (`pyreads/_html.py:32-38`) is left out. It is a network call followed by the modelled driver.
- `pyreads/_core.py` is not part of this model. It builds `Book` with field names the model lacks, so it is a stale copy of the drivers.
- `pyreads/__init__.py` is not part of this model. It only re-exports names.
- HTML parsing by BeautifulSoup is left out. The page is the abstract `Soup.Node` tree, and `Tag` versus `NavigableString` subclasses such as comments are not distinguished from text.
- CSS class matching is reduced to "one of the classes, or the whole class string". This covers the `class_` arguments the parsers pass.
- Character classes are ASCII:
  - `\d` and `\w` are ASCII digits and word characters;
  - `str.lower` is ASCII lower-casing;
  - `str.strip` and `\s` use Python's `str.isspace` set, which `Text.IsSpace` spells out.
- `%b` is the C/English locale's month abbreviations. Other locales are left out.
- The time zone and time of day of `strptime(...).replace(tzinfo=UTC).date()` are left out. Only the date is kept.
- `_utilities.parse_date` returns a `datetime`. The model keeps only its date.
- Series entries are exact decimals, not floats. Python's `float` rounding and `repr` are left out.
- `Models.EntryText`: for a non-whole entry, the model prints the exact decimal with at most 17 fraction digits, not Python's shortest `repr`. Only whole entries are proved to print as in the source.
- pydantic's lax coercions, such as numeric strings and int to float, are left out. `_parse_row` never produces those values.
- Pydantic's error text is left out. A `ValidationError` is the list of failing fields, or the series failure.
- `warnings.warn` is left out. The lenient driver returns its warnings as a list beside the books.
- The Polars `Int16` column type is a tag only. Overflow of values above 32767 is left out, as is building the `DataFrame` itself.
- `_models.Library.dataframe` (`pyreads/_models.py:40-46`) is left out. It is a pandas `DataFrame` construction.
- `Library` of `models.py` is a datatype without validation of `userId`.
- The tests that contradict the code are not modelled:
  - the rating-None and entry-string tests;
  - `fetch_library` and `userId` in the core tests;
  - `df.iloc`.
- `Patterns.ParenBookRoundTrip` requires the name to hold no '#', 'V' or 'B', and not to end in a space. With those characters the earlier patterns, or a shorter lazy name, can match first. The lemma does not say what happens then.
- `Patterns.VolumeRoundTrip` requires the name to hold no 'V' or newline and not to start with '('. Other names are not covered.
- `Patterns.ParenHashRoundTrip` requires the name to hold no '#' or newline. Other names are not covered.
- `Patterns.ExtractPageNumberRoundTrip` requires digit-free text before the count and a non-digit after it. Other surroundings are covered only by `Patterns.ExtractPageNumberLeftmost`.
