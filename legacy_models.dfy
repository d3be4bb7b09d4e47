/** The older `Book` of pyreads/_models.py: a series name and an integer series
    number, checked against each other by `is None` rather than by truthiness. */
module LegacyModels {
  import opened Wrappers
  import opened Text
  import opened Calendar
  import opened Models

  /** `_models.Book`. The `datetime` of `dateRead` is kept as its date. */
  datatype OldBook = OldBook(
    title: string,
    series: Option<string>,
    seriesNumber: Option<int>,
    authorName: string,
    numberOfPages: Option<int>,
    dateRead: Date,
    userRating: int,
    review: Option<string>)

  /** How the fields of `_models.Book` are checked. */
  datatype OldKind =
    | Str             // str, required
    | NullableInt     // int | None with no default: the key must be given
    | DateTime        // datetime, required
    | Int             // int, required
    | OptStr          // str | None = None
    | OptInt          // int | None = None

  /** The fields in declaration order. */
  const OldFields: seq<(Key, OldKind)> := [
    (TitleKey, Str), (SeriesKey, OptStr), (SeriesNumberKey, OptInt), (AuthorNameKey, Str),
    (NumberOfPagesKey, NullableInt), (DateReadKey, DateTime), (UserRatingKey, Int), (ReviewKey, OptStr)]

  /** Whether the value under `k` (if any) passes the field's check. */
  predicate OldAccepts(kind: OldKind, a: Attributes, k: Key) {
    match kind
    case Str => k in a && a[k].VStr?
    case NullableInt => k in a && (a[k].VNone? || a[k].VInt?)
    case DateTime => k in a && a[k].VDate?
    case Int => k in a && a[k].VInt?
    case OptStr => Get(a, k).VNone? || Get(a, k).VStr?
    case OptInt => Get(a, k).VNone? || Get(a, k).VInt?
  }

  predicate OldWellTyped(a: Attributes) {
    forall i :: 0 <= i < |OldFields| ==> OldAccepts(OldFields[i].1, a, OldFields[i].0)
  }

  /** `OldWellTyped` spelled out for the eight keys. */
  lemma OldWellTypedFields(a: Attributes)
    ensures OldWellTyped(a) <==>
      && OldAccepts(Str, a, TitleKey) && OldAccepts(OptStr, a, SeriesKey)
      && OldAccepts(OptInt, a, SeriesNumberKey) && OldAccepts(Str, a, AuthorNameKey)
      && OldAccepts(NullableInt, a, NumberOfPagesKey) && OldAccepts(DateTime, a, DateReadKey)
      && OldAccepts(Int, a, UserRatingKey) && OldAccepts(OptStr, a, ReviewKey)
  {
    var f := OldFields;
    assert f[0] == (TitleKey, Str) && f[1] == (SeriesKey, OptStr);
    assert f[2] == (SeriesNumberKey, OptInt) && f[3] == (AuthorNameKey, Str);
    assert f[4] == (NumberOfPagesKey, NullableInt) && f[5] == (DateReadKey, DateTime);
    assert f[6] == (UserRatingKey, Int) && f[7] == (ReviewKey, OptStr);
  }

  /** The names among `fs` whose value fails its check, in order. */
  function OldBadAmong(a: Attributes, fs: seq<(Key, OldKind)>): seq<Key> {
    if fs == [] then [] else Flag(fs[0].0, OldAccepts(fs[0].1, a, fs[0].0)) + OldBadAmong(a, fs[1..])
  }

  /** Nothing is listed exactly when every value passes; what is listed fails. */
  lemma {:induction false} OldBadAmongFacts(a: Attributes, fs: seq<(Key, OldKind)>)
    ensures OldBadAmong(a, fs) == [] <==> forall j :: 0 <= j < |fs| ==> OldAccepts(fs[j].1, a, fs[j].0)
    ensures forall k :: k in OldBadAmong(a, fs) ==> exists j :: 0 <= j < |fs| && fs[j].0 == k && !OldAccepts(fs[j].1, a, k)
  {
    if fs != [] {
      OldBadAmongFacts(a, fs[1..]);
      assert forall j :: 1 <= j < |fs| ==> fs[j] == fs[1..][j - 1];
    }
  }

  /** `validate_series`: `(series is not None) == (seriesNumber is not None)`. */
  predicate OldSeriesConsistent(b: OldBook) {
    b.series.Some? == b.seriesNumber.Some?
  }

  /** `_models.Book.model_validate(a)`. */
  function OldValidate(a: Attributes): (r: Result<OldBook, BookError>)
    ensures r.Ok? <==> OldWellTyped(a) && Get(a, SeriesKey).VNone? == Get(a, SeriesNumberKey).VNone?
    ensures r.Ok? ==> OldSeriesConsistent(r.value)
    ensures r.Ok? ==>
      && VStr(r.value.title) == Get(a, TitleKey) && VStr(r.value.authorName) == Get(a, AuthorNameKey)
      && OptStrValue(r.value.series) == Get(a, SeriesKey)
      && OptIntValue(r.value.seriesNumber) == Get(a, SeriesNumberKey)
      && OptIntValue(r.value.numberOfPages) == Get(a, NumberOfPagesKey)
      && VDate(r.value.dateRead) == Get(a, DateReadKey) && VInt(r.value.userRating) == Get(a, UserRatingKey)
      && OptStrValue(r.value.review) == Get(a, ReviewKey)
    ensures r.Err? && r.error.InvalidFields? ==> r.error.fields != [] && !OldWellTyped(a)
  {
    OldWellTypedFields(a);
    if !OldWellTyped(a) then OldBadAmongFacts(a, OldFields); Err(InvalidFields(OldBadAmong(a, OldFields)))
    else
      var b := OldBook(
        a[TitleKey].s,
        AsOptStr(Get(a, SeriesKey)).value,
        AsOptInt(Get(a, SeriesNumberKey)).value,
        a[AuthorNameKey].s,
        AsOptInt(a[NumberOfPagesKey]).value,
        a[DateReadKey].d,
        a[UserRatingKey].i,
        AsOptStr(Get(a, ReviewKey)).value);
      if OldSeriesConsistent(b) then Ok(b) else Err(SeriesMismatch)
  }

  /** Among well-typed attributes, validation passes exactly when the series
      and its number are both given or both None; an empty series with a
      number passes. */
  lemma OldSeriesRule(a: Attributes)
    requires OldWellTyped(a)
    ensures OldValidate(a).Ok? <==> (Get(a, SeriesKey).VNone? == Get(a, SeriesNumberKey).VNone?)
    ensures OldValidate(a).Err? ==> OldValidate(a).error == SeriesMismatch
  {
  }

  /** `numberOfPages` may be None but must be supplied. */
  lemma OldPagesRequired(a: Attributes)
    ensures OldValidate(a - {NumberOfPagesKey}).Err?
  {
    OldWellTypedFields(a - {NumberOfPagesKey});
  }

  /** The only checks are types and the series rule: with `series` and
      `seriesNumber` both None, any title, author, date and integer rating
      (0 included) and a page count of None or an integer pass. */
  lemma OldAcceptsAnyRating(a: Attributes)
    requires Get(a, TitleKey).VStr? && Get(a, AuthorNameKey).VStr? && Get(a, DateReadKey).VDate?
    requires Get(a, UserRatingKey).VInt? && NumberOfPagesKey in a && (a[NumberOfPagesKey].VNone? || a[NumberOfPagesKey].VInt?)
    requires Get(a, SeriesKey) == VNone && Get(a, SeriesNumberKey) == VNone && Get(a, ReviewKey) == VNone
    ensures OldValidate(a).Ok?
  {
    OldWellTypedFields(a);
  }

  /** The text of `#{self.seriesNumber}`: the integer, or "None". */
  function NumberText(n: Option<int>): string {
    if n.Some? then IntToString(n.value) else "None"
  }

  /** `_models.Book.full_title`. */
  function OldFullTitle(b: OldBook): (r: string)
    ensures b.title + " " <= r
    ensures |r| >= |b.title| + 4 + |b.authorName|
    ensures r[|r| - 3 - |b.authorName|..] == "by " + b.authorName
  {
    var head := b.title + " "
      + (if b.series.Some? && b.series.value != ""
         then "(" + b.series.value + ", #" + NumberText(b.seriesNumber) + ") "
         else "");
    var byline := "by " + b.authorName;
    assert (head + byline)[|head|..] == byline;
    head + byline
  }

  /** With a non-empty series the title shows the series and its number;
      with series None or "" it is "{title} by {authorName}", even when a series
      number is set. */
  lemma OldFullTitleCases(b: OldBook)
    ensures b.series.Some? && b.series.value != "" && b.seriesNumber.Some? ==>
      OldFullTitle(b) == b.title + " (" + b.series.value + ", #" + IntToString(b.seriesNumber.value)
                         + ") by " + b.authorName
    ensures OldFullTitle(b) == b.title + " by " + b.authorName <==> (b.series.None? || b.series.value == "")
  {
    if b.series.Some? && b.series.value != "" {
      assert |OldFullTitle(b)| > |b.title + " by " + b.authorName|;
    }
  }

  /** The two `Book` models disagree on an empty series name: the new one
      rejects `seriesName=""` with a non-zero entry, the old one accepts
      `series=""` with a number. */
  lemma EmptySeriesDisagreement(a: Attributes, o: Attributes)
    requires WellTyped(a) && Get(a, SeriesNameKey) == VStr("") && Get(a, SeriesEntryKey).VFloat?
    requires Get(a, SeriesEntryKey).f != 0.0
    requires OldWellTyped(o) && Get(o, SeriesKey) == VStr("") && Get(o, SeriesNumberKey).VInt?
    ensures Validate(a) == Err(SeriesMismatch)
    ensures OldValidate(o).Ok? && OldFullTitle(OldValidate(o).value)
         == OldValidate(o).value.title + " by " + OldValidate(o).value.authorName
  {
    SeriesRule(a);
    OldSeriesRule(o);
    OldFullTitleCases(OldValidate(o).value);
  }
}
