/** The validated record `Book` of pyreads/models.py and its tabular form.

    Validation is modelled on the attribute dictionary the row parser builds:
    each key maps to one of the Python values the parser produces. A field is
    accepted when its value has the field's declared type; the series fields
    are then compared by Python truthiness. */
module Models {
  import opened Wrappers
  import opened Text
  import opened Calendar

  /** The Python values an attribute dictionary holds. */
  datatype Value =
    | VNone
    | VStr(s: string)
    | VInt(i: int)
    | VFloat(f: real)
    | VDate(d: Date)
    | VSeries(name: string, entry: real)   // a `_Series` instance

  /** The keys of an attribute dictionary: the field names of the two `Book`
      models and the parser's "series". Each stands for the Python string
      `KeyName` gives. */
  datatype Key =
    | TitleKey | AuthorNameKey | NumberOfPagesKey | DateReadKey | UserRatingKey
    | UserReviewKey | SeriesNameKey | SeriesEntryKey | SeriesKey | SeriesNumberKey | ReviewKey

  function KeyName(k: Key): string {
    match k
    case TitleKey => "title"
    case AuthorNameKey => "authorName"
    case NumberOfPagesKey => "numberOfPages"
    case DateReadKey => "dateRead"
    case UserRatingKey => "userRating"
    case UserReviewKey => "userReview"
    case SeriesNameKey => "seriesName"
    case SeriesEntryKey => "seriesEntry"
    case SeriesKey => "series"
    case SeriesNumberKey => "seriesNumber"
    case ReviewKey => "review"
  }

  /** Distinct keys are distinct strings, so a dictionary keyed by `Key` is one
      keyed by the strings. */
  lemma KeyNamesDistinct(j: Key, k: Key)
    ensures KeyName(j) == KeyName(k) <==> j == k
  {
  }

  type Attributes = map<Key, Value>

  /** `_Series`: a series name and the book's position in it. */
  datatype Series = Series(name: string, entry: real)

  datatype Book = Book(
    title: string,
    authorName: string,
    numberOfPages: Option<int>,
    dateRead: Option<Date>,
    userRating: Option<int>,
    userReview: Option<string>,
    seriesName: Option<string>,
    seriesEntry: Option<real>)

  /** A pydantic `ValidationError`: the fields whose value has the wrong type
      (or is missing), or the failure of `validate_series`. */
  datatype BookError =
    | InvalidFields(fields: seq<Key>)
    | SeriesMismatch

  // ---- the field table -------------------------------------------------------

  /** The declared type of a field, as far as validation is concerned. */
  datatype Kind =
    | RequiredStr     // str, no default
    | OptionalStr     // str | None = None
    | OptionalInt     // int | None = None
    | OptionalDate    // date | None = None
    | OptionalRating  // Literal[1, 2, 3, 4, 5] | None = None
    | OptionalFloat   // float | None = None

  /** The Python types the annotations mention. */
  datatype PyType = IntType | FloatType | StrType | DateType | BoolType | NoneType | OtherType(name: string)

  datatype Literal = LitInt(i: int) | LitStr(s: string) | LitBool(b: bool)

  /** A typing annotation: a plain type, a union (`X | None`, `Optional[X]`) or
      a `Literal[...]`, which always has at least one value. */
  datatype Annotation =
    | Plain(t: PyType)
    | Union(args: seq<Annotation>)
    | LiteralOf(first: Literal, rest: seq<Literal>)

  /** A field of `Book.model_fields`: its name, its `title` (every field of
      `Book` has one, so the "title is not None" filters keep them all), how it
      is validated and its annotation. */
  datatype FieldInfo = FieldInfo(name: Key, title: string, kind: Kind, annotation: Annotation)

  function Optional(t: PyType): Annotation {
    Union([Plain(t), Plain(NoneType)])
  }

  /** The name and validation kind of each field of `Book`, in declaration
      order. */
  const FieldKinds: seq<(Key, Kind)> := [
    (TitleKey, RequiredStr), (AuthorNameKey, RequiredStr), (NumberOfPagesKey, OptionalInt),
    (DateReadKey, OptionalDate), (UserRatingKey, OptionalRating), (UserReviewKey, OptionalStr),
    (SeriesNameKey, OptionalStr), (SeriesEntryKey, OptionalFloat)]

  /** `Book.model_fields`, in declaration order. */
  const BookFields: seq<FieldInfo> := [
    FieldInfo(TitleKey, "Title", RequiredStr, Plain(StrType)),
    FieldInfo(AuthorNameKey, "Author Name", RequiredStr, Plain(StrType)),
    FieldInfo(NumberOfPagesKey, "Number of Pages", OptionalInt, Optional(IntType)),
    FieldInfo(DateReadKey, "Date Read", OptionalDate, Optional(DateType)),
    FieldInfo(UserRatingKey, "User Rating", OptionalRating,
              Union([LiteralOf(LitInt(1), [LitInt(2), LitInt(3), LitInt(4), LitInt(5)]), Plain(NoneType)])),
    FieldInfo(UserReviewKey, "User Review", OptionalStr, Optional(StrType)),
    FieldInfo(SeriesNameKey, "Series Name", OptionalStr, Optional(StrType)),
    FieldInfo(SeriesEntryKey, "Series Entry", OptionalFloat, Optional(FloatType))
  ]

  /** `FieldKinds` is the name and kind columns of `BookFields`. */
  lemma FieldKindsOfBookFields()
    ensures |FieldKinds| == |BookFields|
    ensures forall i :: 0 <= i < |BookFields| ==> BookFields[i].name == FieldKinds[i].0 && BookFields[i].kind == FieldKinds[i].1
  {
  }

  // ---- validation ------------------------------------------------------------

  /** The value of a key, with a missing key read as None (the default of every
      optional field; a required field rejects both). */
  function Get(a: Attributes, k: Key): Value {
    if k in a then a[k] else VNone
  }

  /** Whether a value passes the field's type check. */
  predicate Accepts(kind: Kind, v: Value) {
    match kind
    case RequiredStr => v.VStr?
    case OptionalStr => v.VNone? || v.VStr?
    case OptionalInt => v.VNone? || v.VInt?
    case OptionalDate => v.VNone? || v.VDate?
    case OptionalRating => v.VNone? || (v.VInt? && 1 <= v.i <= 5)
    case OptionalFloat => v.VNone? || v.VFloat?
  }

  /** Python's `bool(v)` for the values a series field can hold. */
  predicate Truthy(v: Value) {
    match v
    case VNone => false
    case VStr(s) => s != ""
    case VInt(i) => i != 0
    case VFloat(f) => f != 0.0
    case _ => true
  }

  predicate NameTruthy(n: Option<string>) {
    n.Some? && n.value != ""
  }

  predicate EntryTruthy(e: Option<real>) {
    e.Some? && e.value != 0.0
  }

  /** `validate_series`: `bool(seriesName) == bool(seriesEntry)`. */
  predicate SeriesConsistent(b: Book) {
    NameTruthy(b.seriesName) == EntryTruthy(b.seriesEntry)
  }

  predicate RatingAllowed(r: Option<int>) {
    r.None? || 1 <= r.value <= 5
  }

  /** The invariant every validated `Book` satisfies. */
  predicate Valid(b: Book) {
    RatingAllowed(b.userRating) && SeriesConsistent(b)
  }

  function AsStr(v: Value): Option<string> {
    if v.VStr? then Some(v.s) else None
  }

  function AsOptStr(v: Value): Option<Option<string>> {
    match v
    case VNone => Some(None)
    case VStr(s) => Some(Some(s))
    case _ => None
  }

  function AsOptInt(v: Value): Option<Option<int>> {
    match v
    case VNone => Some(None)
    case VInt(i) => Some(Some(i))
    case _ => None
  }

  function AsOptDate(v: Value): Option<Option<Date>> {
    match v
    case VNone => Some(None)
    case VDate(d) => Some(Some(d))
    case _ => None
  }

  function AsRating(v: Value): Option<Option<int>> {
    match v
    case VNone => Some(None)
    case VInt(i) => if 1 <= i <= 5 then Some(Some(i)) else None
    case _ => None
  }

  function AsOptFloat(v: Value): Option<Option<real>> {
    match v
    case VNone => Some(None)
    case VFloat(f) => Some(Some(f))
    case _ => None
  }

  function Flag(name: Key, ok: bool): seq<Key> {
    if ok then [] else [name]
  }

  /** The names of the fields whose value fails its type check, in declaration
      order. */
  function BadFields(a: Attributes): seq<Key> {
    BadAmong(a, FieldKinds)
  }

  /** The names among `fs` whose value fails its check, in order. */
  function BadAmong(a: Attributes, fs: seq<(Key, Kind)>): seq<Key> {
    if fs == [] then [] else Flag(fs[0].0, Accepts(fs[0].1, Get(a, fs[0].0))) + BadAmong(a, fs[1..])
  }

  /** A name is listed exactly when its value fails the check of its kind. */
  lemma {:induction false} BadAmongFacts(a: Attributes, fs: seq<(Key, Kind)>)
    ensures forall k :: k in BadAmong(a, fs) ==> exists j :: 0 <= j < |fs| && fs[j].0 == k && !Accepts(fs[j].1, Get(a, k))
    ensures forall j :: 0 <= j < |fs| && !Accepts(fs[j].1, Get(a, fs[j].0)) ==> fs[j].0 in BadAmong(a, fs)
    ensures BadAmong(a, fs) == [] <==> forall j :: 0 <= j < |fs| ==> Accepts(fs[j].1, Get(a, fs[j].0))
  {
    if fs != [] {
      BadAmongFacts(a, fs[1..]);
      assert forall j :: 1 <= j < |fs| ==> fs[j] == fs[1..][j - 1];
    }
  }

  /** Every field's value passes its type check. */
  predicate WellTyped(a: Attributes) {
    forall i :: 0 <= i < |FieldKinds| ==> Accepts(FieldKinds[i].1, Get(a, FieldKinds[i].0))
  }

  /** `WellTyped` spelled out for the eight keys. */
  lemma WellTypedFields(a: Attributes)
    ensures WellTyped(a) <==>
      && Get(a, TitleKey).VStr? && Get(a, AuthorNameKey).VStr?
      && Accepts(OptionalInt, Get(a, NumberOfPagesKey)) && Accepts(OptionalDate, Get(a, DateReadKey))
      && Accepts(OptionalRating, Get(a, UserRatingKey)) && Accepts(OptionalStr, Get(a, UserReviewKey))
      && Accepts(OptionalStr, Get(a, SeriesNameKey)) && Accepts(OptionalFloat, Get(a, SeriesEntryKey))
  {
    var f := FieldKinds;
    assert f[0] == (TitleKey, RequiredStr);
    assert f[1] == (AuthorNameKey, RequiredStr);
    assert f[2] == (NumberOfPagesKey, OptionalInt);
    assert f[3] == (DateReadKey, OptionalDate);
    assert f[4] == (UserRatingKey, OptionalRating);
    assert f[5] == (UserReviewKey, OptionalStr);
    assert f[6] == (SeriesNameKey, OptionalStr);
    assert f[7] == (SeriesEntryKey, OptionalFloat);
  }

  /** The book holds exactly the attribute values: each field of its dump is
      the value under that key, None for a missing key. */
  predicate Holds(b: Book, a: Attributes) {
    && VStr(b.title) == Get(a, TitleKey)
    && VStr(b.authorName) == Get(a, AuthorNameKey)
    && OptIntValue(b.numberOfPages) == Get(a, NumberOfPagesKey)
    && OptDateValue(b.dateRead) == Get(a, DateReadKey)
    && OptIntValue(b.userRating) == Get(a, UserRatingKey)
    && OptStrValue(b.userReview) == Get(a, UserReviewKey)
    && OptStrValue(b.seriesName) == Get(a, SeriesNameKey)
    && OptFloatValue(b.seriesEntry) == Get(a, SeriesEntryKey)
  }

  /** `Book.model_validate(a)`: keys other than the eight fields (the parser's
      "series") are ignored. */
  function Validate(a: Attributes): (r: Result<Book, BookError>)
    ensures r.Ok? <==> WellTyped(a) && Truthy(Get(a, SeriesNameKey)) == Truthy(Get(a, SeriesEntryKey))
    ensures r.Ok? ==> Valid(r.value) && Holds(r.value, a)
    ensures r.Err? && r.error.InvalidFields? ==>
      && r.error.fields != []
      && forall k :: k in r.error.fields ==> exists i :: 0 <= i < |FieldKinds| && FieldKinds[i].0 == k
                                              && !Accepts(FieldKinds[i].1, Get(a, k))
    ensures r.Err? && r.error == SeriesMismatch ==> WellTyped(a)
  {
    WellTypedFields(a);
    if !WellTyped(a) then BadAmongFacts(a, FieldKinds); Err(InvalidFields(BadFields(a)))
    else
      var b := Book(
        AsStr(Get(a, TitleKey)).value,
        AsStr(Get(a, AuthorNameKey)).value,
        AsOptInt(Get(a, NumberOfPagesKey)).value,
        AsOptDate(Get(a, DateReadKey)).value,
        AsRating(Get(a, UserRatingKey)).value,
        AsOptStr(Get(a, UserReviewKey)).value,
        AsOptStr(Get(a, SeriesNameKey)).value,
        AsOptFloat(Get(a, SeriesEntryKey)).value);
      if SeriesConsistent(b) then Ok(b) else Err(SeriesMismatch)
  }

  function OptStrValue(o: Option<string>): Value {
    if o.Some? then VStr(o.value) else VNone
  }

  function OptIntValue(o: Option<int>): Value {
    if o.Some? then VInt(o.value) else VNone
  }

  function OptDateValue(o: Option<Date>): Value {
    if o.Some? then VDate(o.value) else VNone
  }

  function OptFloatValue(o: Option<real>): Value {
    if o.Some? then VFloat(o.value) else VNone
  }

  /** `book.model_dump()`: every field under its name. */
  function Dump(b: Book): (d: Attributes)
    ensures forall i :: 0 <= i < |FieldKinds| ==> FieldKinds[i].0 in d
  {
    map[
      TitleKey := VStr(b.title),
      AuthorNameKey := VStr(b.authorName),
      NumberOfPagesKey := OptIntValue(b.numberOfPages),
      DateReadKey := OptDateValue(b.dateRead),
      UserRatingKey := OptIntValue(b.userRating),
      UserReviewKey := OptStrValue(b.userReview),
      SeriesNameKey := OptStrValue(b.seriesName),
      SeriesEntryKey := OptFloatValue(b.seriesEntry)]
  }

  // ---- validation properties -------------------------------------------------

  /** Dumping a book and validating the dump gives the book back exactly when
      the book satisfies the validators, and fails otherwise. */
  lemma DumpRoundTrip(b: Book)
    ensures Validate(Dump(b)).Ok? <==> Valid(b)
    ensures Valid(b) ==> Validate(Dump(b)) == Ok(b)
  {
    var d := Dump(b);
    DumpFields(b);
    WellTypedFields(d);
    assert WellTyped(d) <==> RatingAllowed(b.userRating);
    assert Truthy(Get(d, SeriesNameKey)) == NameTruthy(b.seriesName);
    assert Truthy(Get(d, SeriesEntryKey)) == EntryTruthy(b.seriesEntry);
    if Validate(d).Ok? {
      HoldsDump(b, Validate(d).value);
    }
  }

  lemma DumpFields(b: Book)
    ensures Get(Dump(b), TitleKey) == VStr(b.title)
    ensures Get(Dump(b), AuthorNameKey) == VStr(b.authorName)
    ensures Get(Dump(b), NumberOfPagesKey) == OptIntValue(b.numberOfPages)
    ensures Get(Dump(b), DateReadKey) == OptDateValue(b.dateRead)
    ensures Get(Dump(b), UserRatingKey) == OptIntValue(b.userRating)
    ensures Get(Dump(b), UserReviewKey) == OptStrValue(b.userReview)
    ensures Get(Dump(b), SeriesNameKey) == OptStrValue(b.seriesName)
    ensures Get(Dump(b), SeriesEntryKey) == OptFloatValue(b.seriesEntry)
  {
  }

  /** The only book holding the dump of `b` is `b`. */
  lemma HoldsDump(b: Book, c: Book)
    requires Holds(c, Dump(b))
    ensures c == b
  {
    DumpFields(b);
  }

  /** A type error lists every field whose value fails its check, and only
      those. */
  lemma InvalidFieldsListed(a: Attributes)
    requires !WellTyped(a)
    ensures Validate(a).Err? && Validate(a).error.InvalidFields?
    ensures forall i :: 0 <= i < |FieldKinds| && !Accepts(FieldKinds[i].1, Get(a, FieldKinds[i].0))
                        ==> FieldKinds[i].0 in Validate(a).error.fields
    ensures forall k :: k in Validate(a).error.fields ==>
              exists i :: 0 <= i < |FieldKinds| && FieldKinds[i].0 == k && !Accepts(FieldKinds[i].1, Get(a, k))
  {
    BadAmongFacts(a, FieldKinds);
  }

  /** `title` and `authorName` are required: missing, None or not a string
      fails, and the error names the field. */
  lemma RequiredFields(a: Attributes, k: Key)
    requires k == TitleKey || k == AuthorNameKey
    requires !Get(a, k).VStr?
    ensures Validate(a).Err? && Validate(a).error.InvalidFields? && k in Validate(a).error.fields
  {
    WellTypedFields(a);
    InvalidFieldsListed(a);
    assert FieldKinds[0] == (TitleKey, RequiredStr) && FieldKinds[1] == (AuthorNameKey, RequiredStr);
  }

  /** `userRating` accepts 1..5 or None: 0 and every other integer fail. */
  lemma RatingOutOfRange(a: Attributes, r: int)
    requires Get(a, UserRatingKey) == VInt(r) && !(1 <= r <= 5)
    ensures Validate(a).Err? && Validate(a).error.InvalidFields? && UserRatingKey in Validate(a).error.fields
  {
    WellTypedFields(a);
    InvalidFieldsListed(a);
    assert FieldKinds[4] == (UserRatingKey, OptionalRating);
  }

  /** Validation passes exactly when each field's value has its field's type
      and the series name and entry are both truthy or both falsy. */
  lemma ValidateByFields(a: Attributes)
    ensures Validate(a).Ok? <==>
      && Get(a, TitleKey).VStr? && Get(a, AuthorNameKey).VStr?
      && Accepts(OptionalInt, Get(a, NumberOfPagesKey)) && Accepts(OptionalDate, Get(a, DateReadKey))
      && Accepts(OptionalRating, Get(a, UserRatingKey)) && Accepts(OptionalStr, Get(a, UserReviewKey))
      && Accepts(OptionalStr, Get(a, SeriesNameKey)) && Accepts(OptionalFloat, Get(a, SeriesEntryKey))
      && Truthy(Get(a, SeriesNameKey)) == Truthy(Get(a, SeriesEntryKey))
  {
    WellTypedFields(a);
  }

  /** Among well-typed attributes, validation passes exactly when the series
      name and entry are both truthy or both falsy: an empty name counts as
      absent, and so does an entry of 0. */
  lemma SeriesRule(a: Attributes)
    requires WellTyped(a)
    ensures Validate(a).Ok? <==> (Truthy(Get(a, SeriesNameKey)) == Truthy(Get(a, SeriesEntryKey)))
    ensures Validate(a).Err? ==> Validate(a).error == SeriesMismatch
  {
  }

  /** A named series at entry 0 is rejected, and so is an entry without a name. */
  lemma SeriesExamples(t: string, au: string, e: real)
    requires e != 0.0
    ensures Validate(map[TitleKey := VStr(t), AuthorNameKey := VStr(au),
                         SeriesNameKey := VStr("X"), SeriesEntryKey := VFloat(0.0)]) == Err(SeriesMismatch)
    ensures Validate(map[TitleKey := VStr(t), AuthorNameKey := VStr(au),
                         SeriesNameKey := VStr(""), SeriesEntryKey := VFloat(e)]) == Err(SeriesMismatch)
    ensures Validate(map[TitleKey := VStr(t), AuthorNameKey := VStr(au),
                         SeriesNameKey := VStr(""), SeriesEntryKey := VFloat(0.0)]).Ok?
  {
    var a1 := map[TitleKey := VStr(t), AuthorNameKey := VStr(au), SeriesNameKey := VStr("X"), SeriesEntryKey := VFloat(0.0)];
    var a2 := map[TitleKey := VStr(t), AuthorNameKey := VStr(au), SeriesNameKey := VStr(""), SeriesEntryKey := VFloat(e)];
    var a3 := map[TitleKey := VStr(t), AuthorNameKey := VStr(au), SeriesNameKey := VStr(""), SeriesEntryKey := VFloat(0.0)];
    SimpleWellTyped(a1);
    SimpleWellTyped(a2);
    SimpleWellTyped(a3);
    SeriesRule(a1);
    SeriesRule(a2);
    SeriesRule(a3);
  }

  lemma SimpleWellTyped(a: Attributes)
    requires Get(a, TitleKey).VStr? && Get(a, AuthorNameKey).VStr?
    requires Get(a, NumberOfPagesKey) == VNone && Get(a, DateReadKey) == VNone
    requires Get(a, UserRatingKey) == VNone && Get(a, UserReviewKey) == VNone
    requires Get(a, SeriesNameKey).VStr? && Get(a, SeriesEntryKey).VFloat?
    ensures WellTyped(a)
  {
    WellTypedFields(a);
  }

  // ---- full_title ------------------------------------------------------------

  /** The decimal digits after the point of `f` (0 <= f < 1), at most `n` of
      them, without trailing zeros. */
  function FractionDigits(f: real, n: nat): (r: string)
    requires 0.0 <= f < 1.0
    ensures AllDigits(r) && |r| <= n
    ensures f != 0.0 && n > 0 ==> r != []
    decreases n
  {
    if f == 0.0 || n == 0 then ""
    else
      var t := f * 10.0;
      var d := t.Floor;
      assert 0 <= d <= 9;
      [DigitChar(d)] + FractionDigits(t - d as real, n - 1)
  }

  predicate IsWhole(e: real) {
    e == e.Floor as real
  }

  /** A non-negative non-whole entry written out in decimal. */
  function DecimalText(e: real): (r: string)
    requires e >= 0.0 && !IsWhole(e)
    ensures '.' in r
  {
    var w := e.Floor;
    var t := NatToString(w) + "." + FractionDigits(e - w as real, 17);
    assert t[|NatToString(w)|] == '.';
    t
  }

  /** How `full_title` prints the entry: `int(e)` when `e.is_integer()`, the
      float itself otherwise. */
  function EntryText(e: real): (r: string)
    ensures IsWhole(e) ==> r == IntToString(e.Floor)
    ensures '.' in r <==> !IsWhole(e)
  {
    if IsWhole(e) then
      NoPointInInt(e.Floor);
      IntToString(e.Floor)
    else if e < 0.0 then
      assert !IsWhole(-e) by { assert (-e).Floor == -e.Floor - 1; }
      var r := "-" + DecimalText(-e);
      assert '.' in r by { assert forall c :: c in DecimalText(-e) ==> c in r; }
      r
    else DecimalText(e)
  }

  lemma NoPointInInt(i: int)
    ensures '.' !in IntToString(i)
  {
    assert AllDigits(NatToString(if i < 0 then -i else i));
    if i < 0 {
      assert forall k :: 1 <= k < |IntToString(i)| ==> IntToString(i)[k] == NatToString(-i)[k - 1];
    }
  }

  /** `Book.full_title`. */
  function FullTitle(b: Book): (r: string)
    ensures b.title + " " <= r
    ensures |r| >= |b.title| + 4 + |b.authorName|
    ensures r[|r| - 3 - |b.authorName|..] == "by " + b.authorName
  {
    var head := b.title + " "
      + (if NameTruthy(b.seriesName) && EntryTruthy(b.seriesEntry)
         then "(" + b.seriesName.value + ", #" + EntryText(b.seriesEntry.value) + ") "
         else "");
    var byline := "by " + b.authorName;
    assert (head + byline)[|head|..] == byline;
    head + byline
  }

  /** A book in a series at a whole-number entry prints the entry with no
      decimal point. */
  lemma FullTitleWholeEntry(b: Book, k: int)
    requires NameTruthy(b.seriesName) && b.seriesEntry == Some(k as real) && k != 0
    ensures FullTitle(b) == b.title + " (" + b.seriesName.value + ", #" + IntToString(k) + ") by " + b.authorName
  {
    assert (k as real).Floor == k;
  }

  /** The title is just "{title} by {authorName}" exactly when the book is not
      in a series by the truthiness rule. */
  lemma FullTitleNoSeries(b: Book)
    ensures FullTitle(b) == b.title + " by " + b.authorName
        <==> !(NameTruthy(b.seriesName) && EntryTruthy(b.seriesEntry))
  {
    if NameTruthy(b.seriesName) && EntryTruthy(b.seriesEntry) {
      assert |FullTitle(b)| > |b.title + " by " + b.authorName|;
    }
  }

  // ---- the tabular projection -------------------------------------------------

  /** `Book.get_column_headers()`: the field titles in declaration order. */
  function ColumnHeaders(): (h: seq<string>)
    ensures |h| == |BookFields|
    ensures forall i :: 0 <= i < |h| ==> h[i] == BookFields[i].title
  {
    seq(|BookFields|, i requires 0 <= i < |BookFields| => BookFields[i].title)
  }

  lemma ColumnHeadersValue()
    ensures ColumnHeaders() == ["Title", "Author Name", "Number of Pages", "Date Read",
                                "User Rating", "User Review", "Series Name", "Series Entry"]
  {
  }

  /** The header titles are pairwise distinct, so a title determines its field. */
  lemma HeadersDistinct()
    ensures forall i, j :: 0 <= i < j < |BookFields| ==> BookFields[i].title != BookFields[j].title
  {
    ColumnHeadersValue();
  }

  /** The `title → name` dictionary of `create_row`. */
  function TitleToName(): (m: map<string, Key>)
    ensures forall i :: 0 <= i < |BookFields| ==> BookFields[i].title in m && m[BookFields[i].title] == BookFields[i].name
  {
    HeadersDistinct();
    map i | 0 <= i < |BookFields| :: BookFields[i].title := BookFields[i].name
  }

  /** `book.create_row()`: for each header, the dumped value of the field with
      that title. */
  function CreateRow(b: Book): (row: seq<Value>)
    ensures |row| == |ColumnHeaders()|
    ensures forall i :: 0 <= i < |row| ==> row[i] == Dump(b)[FieldKinds[i].0]
  {
    FieldKindsOfBookFields();
    var data := Dump(b);
    var names := TitleToName();
    var headers := ColumnHeaders();
    seq(|headers|, i requires 0 <= i < |headers| => data[names[headers[i]]])
  }

  /** Polars column types. */
  datatype PolarsType = Int16 | Float32 | Utf8 | PolarsDate | PolarsObject

  function TypeOfLiteral(l: Literal): PyType {
    match l
    case LitInt(_) => IntType
    case LitStr(_) => StrType
    case LitBool(_) => BoolType
  }

  function NonNone(args: seq<Annotation>): (r: seq<Annotation>)
    ensures |r| <= |args|
    ensures forall x :: x in r <==> x in args && x != Plain(NoneType)
  {
    if args == [] then []
    else (if args[0] == Plain(NoneType) then [] else [args[0]]) + NonNone(args[1..])
  }

  /** `_convert_annotation_to_polars_datatype`. `None` after unwrapping a union
      of only `None` is represented as `Plain(NoneType)`, which maps to Object
      like the source's `None`. */
  function ConvertAnnotation(a: Annotation): (p: PolarsType)
  {
    var unwrapped :=
      if a.Union? then (var args := NonNone(a.args); if args == [] then Plain(NoneType) else args[0])
      else a;
    var t :=
      match unwrapped
      case LiteralOf(first, _) => Plain(TypeOfLiteral(first))
      case _ => unwrapped;
    match t
    case Plain(IntType) => Int16
    case Plain(FloatType) => Float32
    case Plain(StrType) => Utf8
    case Plain(DateType) => PolarsDate
    case _ => PolarsObject
  }

  /** `Optional[X]` maps like `X`; a `Literal` maps like the type of its first
      value; a union of None alone maps to Object. */
  lemma ConvertUnwraps(t: PyType, l: Literal, rest: seq<Literal>, more: seq<Annotation>)
    requires t != NoneType
    ensures ConvertAnnotation(Union([Plain(t), Plain(NoneType)])) == ConvertAnnotation(Plain(t))
    ensures ConvertAnnotation(Union([Plain(NoneType), Plain(t)] + more)) == ConvertAnnotation(Plain(t))
    ensures ConvertAnnotation(LiteralOf(l, rest)) == ConvertAnnotation(Plain(TypeOfLiteral(l)))
    ensures ConvertAnnotation(Union([LiteralOf(l, rest), Plain(NoneType)])) == ConvertAnnotation(Plain(TypeOfLiteral(l)))
    ensures ConvertAnnotation(Union([Plain(NoneType)])) == PolarsObject
  {
    var u := [Plain(NoneType), Plain(t)] + more;
    assert NonNone(u) == [Plain(t)] + NonNone(more) by {
      assert u[1..] == [Plain(t)] + more;
      assert u[1..][1..] == more;
    }
  }

  /** `Book.get_polars_schema()`: header title → column type. */
  function PolarsSchema(): (s: map<string, PolarsType>)
    ensures forall i :: 0 <= i < |BookFields| ==>
              BookFields[i].title in s && s[BookFields[i].title] == ConvertAnnotation(BookFields[i].annotation)
  {
    HeadersDistinct();
    map i | 0 <= i < |BookFields| :: BookFields[i].title := ConvertAnnotation(BookFields[i].annotation)
  }

  /** The column types of the eight headers, in header order. */
  const ColumnTypes: seq<PolarsType> := [Utf8, Utf8, Int16, PolarsDate, Int16, Utf8, Utf8, Float32]

  lemma PolarsSchemaValue()
    ensures PolarsSchema().Keys == set i | 0 <= i < |BookFields| :: BookFields[i].title
    ensures forall i :: 0 <= i < |BookFields| ==> PolarsSchema()[ColumnHeaders()[i]] == ColumnTypes[i]
  {
    FieldColumnTypes();
  }

  /** Each field's annotation converts to the column type of its header. */
  lemma FieldColumnTypes()
    ensures forall i :: 0 <= i < |BookFields| ==> ConvertAnnotation(BookFields[i].annotation) == ColumnTypes[i]
  {
    ConvertUnwraps(IntType, LitInt(1), [LitInt(2), LitInt(3), LitInt(4), LitInt(5)], []);
    ConvertUnwraps(DateType, LitInt(1), [], []);
    ConvertUnwraps(StrType, LitInt(1), [], []);
    ConvertUnwraps(FloatType, LitInt(1), [], []);
  }

  /** `Library`: the user's id and the books of the shelf. */
  datatype Library = Library(userId: int, books: seq<Book>)

  /** The column dictionary `Library.dataframe` hands to polars. */
  function Columns(lib: Library): (cols: map<string, seq<Value>>)
    ensures forall h :: h in cols ==> |cols[h]| == |lib.books|
  {
    var headers := ColumnHeaders();
    var rows := seq(|lib.books|, j requires 0 <= j < |lib.books| => CreateRow(lib.books[j]));
    HeadersDistinct();
    map i | 0 <= i < |headers| :: headers[i] := seq(|rows|, j requires 0 <= j < |rows| => rows[j][i])
  }

  /** Column `h` of the i-th header has one entry per book, in book order, and
      entry j is book j's value of the i-th field. */
  lemma ColumnsTranspose(lib: Library, i: nat)
    requires i < |ColumnHeaders()|
    ensures ColumnHeaders()[i] in Columns(lib)
    ensures |Columns(lib)[ColumnHeaders()[i]]| == |lib.books|
    ensures forall j :: 0 <= j < |lib.books| ==>
              Columns(lib)[ColumnHeaders()[i]][j] == Dump(lib.books[j])[FieldKinds[i].0]
  {
    HeadersDistinct();
  }

  /** The columns are keyed by exactly the headers, as the schema is. */
  lemma ColumnsMatchSchema(lib: Library)
    ensures Columns(lib).Keys == PolarsSchema().Keys
  {
    PolarsSchemaValue();
    ColumnHeadersValue();
    HeadersDistinct();
    var ks := Columns(lib).Keys;
    assert forall i :: 0 <= i < 8 ==> ColumnHeaders()[i] in ks;
  }
}
