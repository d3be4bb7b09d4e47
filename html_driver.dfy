/** The strict driver of pyreads/_html.py: rows without a reading date are
    skipped, every other row is validated, and the first validation error
    ends the whole call. */
module HtmlDriver {
  import opened Wrappers
  import opened Soup
  import opened Models
  import opened Parser

  /** `attributes["dateRead"] is not None`. */
  predicate HasDate(attributes: Attributes) {
    DateReadKey in attributes && attributes[DateReadKey] != VNone
  }

  /** The key is always there, so the guard holds exactly when the date
      parser found a date. */
  lemma RowHasDate(row: Node)
    ensures HasDate(RowAttributes(row)) <==> DateOf(row).Some?
  {
    RowAttributesKeys(row);
    RowAttributesFields(row);
  }

  /** What the loop does with one row. */
  datatype Step = Skip | Keep(book: Book) | Fail(error: BookError)

  function RowStep(row: Node): Step {
    var attributes := RowAttributes(row);
    if !HasDate(attributes) then Skip
    else
      match Validate(attributes)
      case Ok(b) => Keep(b)
      case Err(e) => Fail(e)
  }

  /** The step of every row, in row order. */
  function Steps(rows: seq<Node>): seq<Step> {
    MapSeq(RowStep, rows)
  }

  /** The loop run over the steps: the kept books in order, or the error of
      the first failing step. */
  function Run(ss: seq<Step>): Result<seq<Book>, BookError> {
    if ss == [] then Ok([])
    else
      match ss[0]
      case Skip => Run(ss[1..])
      case Fail(e) => Err(e)
      case Keep(b) =>
        match Run(ss[1..])
        case Ok(bs) => Ok([b] + bs)
        case Err(e) => Err(e)
  }

  /** What `_parse_books_from_html` of pyreads/_html.py returns for these
      rows, the escaping validation error as `Err`. */
  function StrictBooks(rows: seq<Node>): Result<seq<Book>, BookError> {
    Run(Steps(rows))
  }

  // ---- the loop ----------------------------------------------------------------

  /** `books` put in front of what the rest of the loop gives. */
  function Prepend(books: seq<Book>, r: Result<seq<Book>, BookError>): Result<seq<Book>, BookError> {
    if r.Ok? then Ok(books + r.value) else r
  }

  lemma PrependAssoc(a: seq<Book>, b: seq<Book>, r: Result<seq<Book>, BookError>)
    ensures Prepend(a, Prepend(b, r)) == Prepend(a + b, r)
  {
    if r.Ok? { assert a + (b + r.value) == a + b + r.value; }
  }

  /** One row's body: parse it; when it is dated, validate it. */
  method ProcessRow(tr: Node) returns (s: Step)
    ensures s == RowStep(tr)
  {
    var attributes := ParseRow(tr);
    if DateReadKey in attributes && attributes[DateReadKey] != VNone {
      var book := Validate(attributes);
      if book.Err? {
        s := Fail(book.error);
      } else {
        s := Keep(book.value);
      }
    } else {
      s := Skip;
    }
  }

  /** The step of row `k`, as `ss` records it. */
  method StepAt(rows: seq<Node>, ghost ss: seq<Step>, k: nat) returns (s: Step)
    requires k < |rows| == |ss|
    requires forall i {:trigger RowStep(rows[i])} :: 0 <= i < |rows| ==> ss[i] == RowStep(rows[i])
    ensures s == ss[k]
  {
    s := ProcessRow(rows[k]);
  }

  /** The loop over the rows whose steps are `ss`. */
  method CollectStrict(rows: seq<Node>, ghost ss: seq<Step>) returns (r: Result<seq<Book>, BookError>)
    requires |ss| == |rows|
    requires forall i {:trigger RowStep(rows[i])} :: 0 <= i < |rows| ==> ss[i] == RowStep(rows[i])
    ensures r == Run(ss)
  {
    var books: seq<Book> := [];
    var k := 0;
    assert ss[0..] == ss;
    assert Run(ss).Ok? ==> [] + Run(ss).value == Run(ss).value;
    while k < |rows|
      invariant 0 <= k <= |rows|
      invariant Run(ss) == Prepend(books, Run(ss[k..]))
    {
      assert ss[k..][0] == ss[k] && ss[k..][1..] == ss[k + 1..];
      var s := StepAt(rows, ss, k);
      match s {
        case Skip =>
        case Fail(e) =>
          return Err(e);
        case Keep(b) =>
          PrependAssoc(books, [b], Run(ss[k + 1..]));
          books := books + [b];
      }
      k := k + 1;
    }
    assert ss[k..] == [];
    assert books + [] == books;
    r := Ok(books);
  }

  /** `_parse_books_from_html` of pyreads/_html.py, on the parsed document. */
  method ParseBooksStrict(doc: Node) returns (r: Result<seq<Book>, BookError>)
    ensures r == StrictBooks(ReviewRows(doc))
  {
    var rows := ReviewRows(doc);
    r := CollectStrict(rows, Steps(rows));
  }

  // ---- the run over steps --------------------------------------------------------

  /** The books the steps keep, in order. */
  function KeptBooks(ss: seq<Step>): seq<Book> {
    if ss == [] then [] else (if ss[0].Keep? then [ss[0].book] else []) + KeptBooks(ss[1..])
  }

  /** The run fails exactly when some step fails, with the first failure's
      error; otherwise it returns the kept books, at most one per step. */
  lemma {:induction false} RunCases(ss: seq<Step>)
    ensures Run(ss).Err? <==> exists i :: 0 <= i < |ss| && ss[i].Fail?
    ensures Run(ss).Err? ==> exists i :: 0 <= i < |ss| && ss[i] == Fail(Run(ss).error)
                                        && forall j :: 0 <= j < i ==> !ss[j].Fail?
    ensures Run(ss).Ok? ==> Run(ss).value == KeptBooks(ss) && |Run(ss).value| <= |ss|
  {
    if ss != [] {
      RunCases(ss[1..]);
      assert forall j :: 1 <= j < |ss| ==> ss[1..][j - 1] == ss[j];
      if Run(ss).Err? && !ss[0].Fail? {
        var i :| 0 <= i < |ss| - 1 && ss[1..][i] == Fail(Run(ss[1..]).error)
                 && forall j :: 0 <= j < i ==> !ss[1..][j].Fail?;
        assert ss[i + 1] == Fail(Run(ss).error);
        assert forall j :: 1 <= j < i + 1 ==> ss[j] == ss[1..][j - 1];
      }
    }
  }

  /** A book is kept exactly when some step keeps it. */
  lemma {:induction false} KeptBooksFrom(ss: seq<Step>, b: Book)
    ensures b in KeptBooks(ss) <==> exists i :: 0 <= i < |ss| && ss[i] == Keep(b)
  {
    if ss != [] {
      KeptBooksFrom(ss[1..], b);
      assert forall j :: 1 <= j < |ss| ==> ss[1..][j - 1] == ss[j];
      if exists i :: 0 <= i < |ss| - 1 && ss[1..][i] == Keep(b) {
        var i :| 0 <= i < |ss| - 1 && ss[1..][i] == Keep(b);
        assert ss[i + 1] == Keep(b);
      }
    }
  }

  /** A skipped step changes nothing, wherever it stands. */
  lemma {:induction false} RunSkip(a: seq<Step>, b: seq<Step>)
    ensures Run(a + [Skip] + b) == Run(a + b)
  {
    if a == [] {
      assert a + [Skip] + b == [Skip] + b && ([Skip] + b)[1..] == b && a + b == b;
    } else {
      assert (a + [Skip] + b)[0] == a[0] && (a + b)[0] == a[0];
      assert (a + [Skip] + b)[1..] == a[1..] + [Skip] + b;
      assert (a + b)[1..] == a[1..] + b;
      RunSkip(a[1..], b);
    }
  }

  // ---- what that means for rows ---------------------------------------------------

  /** Every returned book comes from a dated row that validates to it, in a
      list no longer than the rows. */
  lemma StrictBooksFrom(rows: seq<Node>, b: Book)
    requires StrictBooks(rows).Ok? && b in StrictBooks(rows).value
    ensures |StrictBooks(rows).value| <= |rows|
    ensures exists i :: 0 <= i < |rows| && DateOf(rows[i]).Some? && Outcome(rows[i]) == Ok(b)
  {
    var ss := Steps(rows);
    RunCases(ss);
    KeptBooksFrom(ss, b);
    var i :| 0 <= i < |ss| && ss[i] == Keep(b);
    assert RowStep(rows[i]) == Keep(b);
    RowHasDate(rows[i]);
  }

  /** The call fails exactly when some dated row fails validation, and then
      with the error of the first such row. */
  lemma StrictBooksFails(rows: seq<Node>)
    ensures StrictBooks(rows).Err? <==>
      exists i :: 0 <= i < |rows| && DateOf(rows[i]).Some? && Outcome(rows[i]).Err?
    ensures StrictBooks(rows).Err? ==>
      exists i :: 0 <= i < |rows| && DateOf(rows[i]).Some? && Outcome(rows[i]) == Err(StrictBooks(rows).error)
                  && forall j :: 0 <= j < i ==> DateOf(rows[j]).None? || Outcome(rows[j]).Ok?
  {
    var ss := Steps(rows);
    RunCases(ss);
    forall i | 0 <= i < |rows|
      ensures ss[i].Fail? <==> DateOf(rows[i]).Some? && Outcome(rows[i]).Err?
      ensures ss[i].Fail? ==> Outcome(rows[i]) == Err(ss[i].error)
    {
      RowHasDate(rows[i]);
    }
  }

  /** A dated row without a rating makes the whole call fail. */
  lemma UnratedDatedRowFails(rows: seq<Node>, i: nat)
    requires i < |rows| && DateOf(rows[i]).Some? && RatingOf(rows[i]) == 0
    ensures StrictBooks(rows).Err?
  {
    UnratedRowRejected(rows[i]);
    StrictBooksFails(rows);
  }

  /** An undated row is skipped: it changes nothing, wherever it stands. */
  lemma UndatedRowSkipped(before: seq<Node>, row: Node, after: seq<Node>)
    requires DateOf(row).None?
    ensures StrictBooks(before + [row] + after) == StrictBooks(before + after)
  {
    RowHasDate(row);
    MapSeqAppend(RowStep, before + [row], after);
    MapSeqAppend(RowStep, before, [row]);
    MapSeqAppend(RowStep, before, after);
    assert MapSeq(RowStep, [row]) == [Skip];
    RunSkip(Steps(before), Steps(after));
  }

  // ---- the two drivers side by side ---------------------------------------------

  /** How the strict loop treats a dated row with outcome `o`. */
  function AsStep(o: Result<Book, BookError>): Step {
    if o.Ok? then Keep(o.value) else Fail(o.error)
  }

  /** Over dated rows only, the strict run succeeds exactly when the lenient
      driver would warn about nothing, and then returns the same books. */
  lemma {:induction false} RunAgreesWithKept(ss: seq<Step>, os: seq<Result<Book, BookError>>)
    requires |ss| == |os|
    requires forall i :: 0 <= i < |ss| ==> ss[i] == AsStep(os[i])
    ensures Run(ss).Ok? <==> Rejected(os) == []
    ensures Run(ss).Ok? ==> Run(ss).value == Kept(os)
  {
    if ss != [] {
      assert forall i :: 0 <= i < |ss| - 1 ==> ss[1..][i] == ss[i + 1] && os[1..][i] == os[i + 1];
      RunAgreesWithKept(ss[1..], os[1..]);
    }
  }

  /** When every row carries a reading date, the strict driver raises exactly
      when the lenient one would warn, and otherwise returns the lenient
      driver's books. */
  lemma StrictMatchesLenient(rows: seq<Node>)
    requires forall i :: 0 <= i < |rows| ==> DateOf(rows[i]).Some?
    ensures StrictBooks(rows).Ok? <==> Warnings(rows) == []
    ensures StrictBooks(rows).Ok? ==> StrictBooks(rows).value == LenientBooks(rows)
  {
    var ss := Steps(rows);
    var os := Outcomes(rows);
    forall i | 0 <= i < |rows|
      ensures ss[i] == AsStep(os[i])
    {
      RowHasDate(rows[i]);
    }
    RunAgreesWithKept(ss, os);
  }
}
