/** Hand-written recognisers for the regular expressions of pyreads/_parser.py,
    following Python's backtracking `re` engine: greedy quantifiers try the
    longest run first and give characters back one at a time, a lazy `.*?`
    tries the shortest name first, and alternatives are tried left to right.
    `\d` is an ASCII digit, `\w` an ASCII word character, `\s` what
    `str.isspace` accepts, and `.` anything but a newline. */
module Patterns {
  import opened Wrappers
  import opened Text
  import Models

  // ---- runs of digits --------------------------------------------------------

  /** The length of the run of digits that starts at `i`. */
  function DigitRun(s: string, i: nat): (n: nat)
    requires i <= |s|
    ensures i + n <= |s|
    ensures forall k :: i <= k < i + n ==> IsDigit(s[k])
    ensures i + n == |s| || !IsDigit(s[i + n])
    decreases |s| - i
  {
    if i < |s| && IsDigit(s[i]) then 1 + DigitRun(s, i + 1) else 0
  }

  /** Inside a run, the run from a later start ends at the same place. */
  lemma {:induction false} DigitRunSuffix(s: string, i: nat, j: nat)
    requires i <= |s| && i <= j <= i + DigitRun(s, i)
    ensures j + DigitRun(s, j) == i + DigitRun(s, i)
    decreases j - i
  {
    if i < j { DigitRunSuffix(s, i + 1, j); }
  }

  // ---- _PAGE_NUMBER_PATTERN: (\d{1,6})(?=\D|$), searched -----------------------

  /** `(?=\D|$)` at `e`: the end of the text or a non-digit. */
  predicate NotBeforeDigit(s: string, e: nat)
    requires e <= |s|
  {
    e == |s| || !IsDigit(s[e])
  }

  /** The engine at `i`: `\d{1,6}` has taken `n` digits and gives them back one
      at a time until the look-ahead holds; the length of the group, if any. */
  function GiveBack(s: string, i: nat, n: nat): (r: Option<nat>)
    requires i + n <= |s|
    ensures r.Some? ==> 1 <= r.value <= n && NotBeforeDigit(s, i + r.value)
    decreases n
  {
    if n == 0 then None
    else if NotBeforeDigit(s, i + n) then Some(n)
    else GiveBack(s, i, n - 1)
  }

  /** Where the group of `(\d{1,6})(?=\D|$)` matches at `i`: its length. */
  function PageGroupAt(s: string, i: nat): Option<nat>
    requires i <= |s|
  {
    var run := DigitRun(s, i);
    GiveBack(s, i, if run < 6 then run else 6)
  }

  /** The pattern matches at `i` exactly when the digit run there has one to
      six digits, and then the group is the whole run. */
  lemma PageGroupAtRun(s: string, i: nat)
    requires i <= |s|
    ensures PageGroupAt(s, i).Some? <==> 1 <= DigitRun(s, i) <= 6
    ensures PageGroupAt(s, i).Some? ==> PageGroupAt(s, i).value == DigitRun(s, i)
  {
    var run := DigitRun(s, i);
    var n := if run < 6 then run else 6;
    if run > 6 {
      GiveBackInsideRun(s, i, n);
    }
  }

  /** Inside a digit run every shorter group is followed by a digit. */
  lemma {:induction false} GiveBackInsideRun(s: string, i: nat, n: nat)
    requires i <= |s| && n < DigitRun(s, i)
    ensures GiveBack(s, i, n).None?
    decreases n
  {
    if n > 0 {
      assert IsDigit(s[i + n]);
      GiveBackInsideRun(s, i, n - 1);
    }
  }

  /** `pattern.search(text)` from `i`: the leftmost start where the pattern
      matches. */
  function PageSearch(s: string, i: nat): (r: Option<nat>)
    requires i <= |s|
    ensures r.Some? ==> i <= r.value < |s| && PageGroupAt(s, r.value).Some?
    ensures forall j :: i <= j < (if r.Some? then r.value else |s|) ==> PageGroupAt(s, j).None?
    decreases |s| - i
  {
    if i == |s| then None
    else if PageGroupAt(s, i).Some? then Some(i)
    else PageSearch(s, i + 1)
  }

  /** `_extract_number(text, _PAGE_NUMBER_PATTERN)`: None for empty text or no
      match, else `int(m.group(1))`. */
  function ExtractPageNumber(text: string): (r: Option<int>)
    ensures r.Some? ==> 0 <= r.value <= 999999
    ensures text == "" ==> r.None?
  {
    if text == "" then None
    else
      match PageSearch(text, 0)
      case None => None
      case Some(i) =>
        var n := PageGroupAt(text, i).value;
        PageGroupAtRun(text, i);
        assert AllDigits(text[i..i + n]);
        assert Pow10(6) == 1000000;
        Pow10Mono(n, 6);
        Some(DigitsValue(text[i..i + n]))
  }

  /** The result is the value of the leftmost run of one to six digits, whole:
      every earlier start is a non-digit or inside a run of seven or more. */
  lemma ExtractPageNumberLeftmost(text: string, i: nat)
    requires text != "" && PageSearch(text, 0) == Some(i)
    ensures 1 <= DigitRun(text, i) <= 6
    ensures ExtractPageNumber(text) == Some(DigitsValue(text[i..i + DigitRun(text, i)]))
    ensures forall j :: 0 <= j < i ==> !(1 <= DigitRun(text, j) <= 6)
  {
    PageGroupAtRun(text, i);
    forall j | 0 <= j < i ensures !(1 <= DigitRun(text, j) <= 6) {
      PageGroupAtRun(text, j);
    }
  }

  /** Text without digits has no page number. */
  lemma ExtractPageNumberNoDigits(text: string)
    requires forall k :: 0 <= k < |text| ==> !IsDigit(text[k])
    ensures ExtractPageNumber(text).None?
  {
    if text != "" {
      forall j | 0 <= j < |text| ensures PageGroupAt(text, j).None? {
        PageGroupAtRun(text, j);
      }
      NoPageFrom(text, 0);
    }
  }

  lemma {:induction false} NoPageFrom(s: string, i: nat)
    requires i <= |s|
    requires forall j :: i <= j < |s| ==> PageGroupAt(s, j).None?
    ensures PageSearch(s, i).None?
    decreases |s| - i
  {
    if i < |s| { NoPageFrom(s, i + 1); }
  }

  /** Seven digits: the run at 0 is too long, so the match is the last six. */
  lemma ExtractPageNumberSevenDigits(text: string)
    requires |text| == 7 && AllDigits(text)
    ensures ExtractPageNumber(text) == Some(DigitsValue(text[1..]))
  {
    RunOfAllDigits(text, 0);
    RunOfAllDigits(text, 1);
    PageGroupAtRun(text, 0);
    PageGroupAtRun(text, 1);
    assert PageSearch(text, 0) == Some(1);
    assert text[1..7] == text[1..];
  }

  lemma {:induction false} RunOfAllDigits(s: string, i: nat)
    requires i <= |s|
    requires forall k :: i <= k < |s| ==> IsDigit(s[k])
    ensures DigitRun(s, i) == |s| - i
    decreases |s| - i
  {
    if i < |s| { RunOfAllDigits(s, i + 1); }
  }

  /** A count printed between digit-free text and text that does not start
      with a digit is read back, as long as it has at most six digits. */
  lemma ExtractPageNumberRoundTrip(p: string, n: nat, q: string)
    requires forall k :: 0 <= k < |p| ==> !IsDigit(p[k])
    requires q == "" || !IsDigit(q[0])
    requires n <= 999999
    ensures ExtractPageNumber(p + NatToString(n) + q) == Some(n)
  {
    var t := NatToString(n);
    var s := p + t + q;
    assert Pow10(6) == 1000000;
    NatToStringLength(n, 6);
    forall j | 0 <= j < |p| ensures PageGroupAt(s, j).None? {
      assert s[j] == p[j];
      PageGroupAtRun(s, j);
    }
    assert forall k :: |p| <= k < |p| + |t| ==> s[k] == t[k - |p|];
    RunThrough(s, |p|, |p| + |t|);
    PageGroupAtRun(s, |p|);
    Skip(s, 0, |p|);
    assert s[|p|..|p| + |t|] == t;
  }

  lemma {:induction false} RunThrough(s: string, i: nat, e: nat)
    requires i <= e <= |s|
    requires forall k :: i <= k < e ==> IsDigit(s[k])
    requires e == |s| || !IsDigit(s[e])
    ensures DigitRun(s, i) == e - i
    decreases e - i
  {
    if i < e { RunThrough(s, i + 1, e); }
  }

  lemma {:induction false} Skip(s: string, i: nat, m: nat)
    requires i <= m < |s| && PageGroupAt(s, m).Some?
    requires forall j :: i <= j < m ==> PageGroupAt(s, j).None?
    ensures PageSearch(s, i) == Some(m)
    decreases m - i
  {
    if i < m { Skip(s, i + 1, m); }
  }

  // ---- numbers: \d+(?:\.\d+)? ------------------------------------------------

  /** What the series patterns demand right after the number: `\)` or `\b`. */
  datatype Follow = CloseParen | WordBoundary

  predicate FollowAt(s: string, e: nat, f: Follow)
    requires e <= |s|
  {
    match f
    case CloseParen => e < |s| && s[e] == ')'
    case WordBoundary => (0 < e && IsWordChar(s[e - 1])) != (e < |s| && IsWordChar(s[e]))
  }

  /** `hi, hi - 1, ..., lo`. */
  function Desc(hi: nat, lo: nat): (r: seq<nat>)
    ensures |r| == if hi < lo then 0 else hi - lo + 1
    ensures forall i :: 0 <= i < |r| ==> r[i] == hi - i
    decreases hi
  {
    if hi < lo then [] else if hi == lo then [hi] else [hi] + Desc(hi - 1, lo)
  }

  /** `s[p..e]` is what `\d+(?:\.\d+)?` can match from `p`: a non-empty prefix of
      the digit run at `p`, or the whole run, a '.' and a non-empty prefix of the
      digit run after it. */
  predicate NumeralSpan(s: string, p: nat, e: nat) {
    && p <= |s| && e <= |s|
    && var q := p + DigitRun(s, p);
       && p < q && p < e
       && (e <= q || (q < |s| && s[q] == '.' && q + 2 <= e <= q + 1 + DigitRun(s, q + 1)))
  }

  /** The ends the engine tries for `\d+(?:\.\d+)?` at `p`, in its order: with
      the whole integer run, the optional fraction first (its digits given back
      one at a time), then without it; then shorter integer runs, where no '.'
      can follow. */
  function NumberEnds(s: string, p: nat): (r: seq<nat>)
    requires p <= |s|
    ensures forall i :: 0 <= i < |r| ==> NumeralSpan(s, p, r[i])
  {
    var q := p + DigitRun(s, p);
    (if p < q then FracEnds(s, q) else []) + Desc(q, p + 1)
  }

  /** The ends of `\.\d+` after an integer run that ends at `q`, longest first. */
  function FracEnds(s: string, q: nat): (r: seq<nat>)
    requires q <= |s|
    ensures forall i :: 0 <= i < |r| ==> q < |s| && s[q] == '.' && q + 2 <= r[i] <= q + 1 + DigitRun(s, q + 1)
  {
    if q < |s| && s[q] == '.' then Desc(q + 1 + DigitRun(s, q + 1), q + 2) else []
  }

  /** The first end in `ends` after which the follow holds. */
  function FirstEnd(s: string, ends: seq<nat>, f: Follow): (r: Option<nat>)
    requires forall i :: 0 <= i < |ends| ==> ends[i] <= |s|
    ensures r.Some? ==> r.value in ends && FollowAt(s, r.value, f)
  {
    if ends == [] then None
    else if FollowAt(s, ends[0], f) then Some(ends[0])
    else FirstEnd(s, ends[1..], f)
  }

  /** The backtracking search for the end of `\d+(?:\.\d+)?` at `p` followed by
      `f`: the first end, in the engine's order, after which `f` holds. */
  function EngineNumber(s: string, p: nat, f: Follow): (r: Option<nat>)
    requires p <= |s|
    ensures r.Some? ==> NumeralSpan(s, p, r.value) && FollowAt(s, r.value, f)
  {
    var ends := NumberEnds(s, p);
    var r := FirstEnd(s, ends, f);
    assert r.Some? ==> NumeralSpan(s, p, r.value) by {
      if r.Some? {
        var i :| 0 <= i < |ends| && ends[i] == r.value;
      }
    }
    r
  }

  /** `float(m.group(2))`, read as the exact decimal it spells. */
  function NumberValue(s: string, p: nat, e: nat): (v: real)
    requires NumeralSpan(s, p, e)
    ensures v >= 0.0
  {
    var q := p + DigitRun(s, p);
    if e <= q then
      assert AllDigits(s[p..e]);
      DigitsValue(s[p..e]) as real
    else
      assert AllDigits(s[p..q]) && AllDigits(s[q + 1..e]);
      DigitsValue(s[p..q]) as real + DigitsValue(s[q + 1..e]) as real / Pow10(e - q - 1) as real
  }

  /** After the integer run ending at `q` come a '.', at least one digit, and
      then what `f` demands. */
  predicate FractionFollows(s: string, q: nat, f: Follow)
    requires q <= |s|
  {
    q < |s| && s[q] == '.' && DigitRun(s, q + 1) >= 1 && FollowAt(s, q + 1 + DigitRun(s, q + 1), f)
  }

  /** Where `\d+(?:\.\d+)?` followed by `f` ends when it starts at `p`: after the
      fraction, when there is one and `f` holds there, else right after the
      integer run when `f` holds there, else nowhere. */
  function NumberAt(s: string, p: nat, f: Follow): (r: Option<nat>)
    requires p <= |s|
    ensures r.Some? ==> NumeralSpan(s, p, r.value) && FollowAt(s, r.value, f)
  {
    var q := p + DigitRun(s, p);
    if q == p then None
    else if FractionFollows(s, q, f) then Some(q + 1 + DigitRun(s, q + 1))
    else if FollowAt(s, q, f) then Some(q)
    else None
  }

  /** The two ends `NumberAt` considers are the only ones the backtracking
      search can accept: every shorter integer run, and every shorter
      fraction, is followed by a digit, which fails both `\)` and `\b`. */
  lemma NumberAtIsEngine(s: string, p: nat, f: Follow)
    requires p <= |s|
    ensures NumberAt(s, p, f) == EngineNumber(s, p, f)
  {
    var q := p + DigitRun(s, p);
    if q == p {
      NoIntegerRun(s, p, f);
    } else if FractionFollows(s, q, f) {
      FractionEnd(s, p, q, f);
    } else {
      IntegerEnd(s, p, q, f);
    }
  }

  lemma NoIntegerRun(s: string, p: nat, f: Follow)
    requires p <= |s| && DigitRun(s, p) == 0
    ensures EngineNumber(s, p, f).None?
  {
  }

  /** The fraction's ends are tried before the integer's. */
  lemma EngineSplit(s: string, p: nat, q: nat, f: Follow)
    requires p <= |s| && q == p + DigitRun(s, p) && q > p
    ensures EngineNumber(s, p, f) ==
      if FirstEnd(s, FracEnds(s, q), f).Some? then FirstEnd(s, FracEnds(s, q), f) else FirstEnd(s, Desc(q, p + 1), f)
  {
    assert NumberEnds(s, p) == FracEnds(s, q) + Desc(q, p + 1);
    FirstEndAppend(s, FracEnds(s, q), Desc(q, p + 1), f);
  }

  lemma FractionEnd(s: string, p: nat, q: nat, f: Follow)
    requires p <= |s| && q == p + DigitRun(s, p) && q > p && FractionFollows(s, q, f)
    ensures EngineNumber(s, p, f) == Some(q + 1 + DigitRun(s, q + 1))
  {
    EngineSplit(s, p, q, f);
    FracFirst(s, q, f);
  }

  lemma IntegerEnd(s: string, p: nat, q: nat, f: Follow)
    requires p <= |s| && q == p + DigitRun(s, p) && q > p && !FractionFollows(s, q, f)
    ensures EngineNumber(s, p, f) == if FollowAt(s, q, f) then Some(q) else None
  {
    EngineSplit(s, p, q, f);
    FracFirst(s, q, f);
    DescFirst(s, q, p + 1, f);
  }

  lemma FracFirst(s: string, q: nat, f: Follow)
    requires q <= |s|
    ensures FirstEnd(s, FracEnds(s, q), f) ==
      if FractionFollows(s, q, f) then Some(q + 1 + DigitRun(s, q + 1)) else None
  {
    if q < |s| && s[q] == '.' && DigitRun(s, q + 1) >= 1 {
      DescFirst(s, q + 1 + DigitRun(s, q + 1), q + 2, f);
    }
  }

  lemma {:induction false} FirstEndAppend(s: string, a: seq<nat>, b: seq<nat>, f: Follow)
    requires forall i :: 0 <= i < |a| ==> a[i] <= |s|
    requires forall i :: 0 <= i < |b| ==> b[i] <= |s|
    ensures FirstEnd(s, a + b, f) == if FirstEnd(s, a, f).Some? then FirstEnd(s, a, f) else FirstEnd(s, b, f)
    decreases |a|
  {
    if a == [] {
      assert a + b == b;
    } else {
      assert (a + b)[0] == a[0];
      assert (a + b)[1..] == a[1..] + b;
      FirstEndAppend(s, a[1..], b, f);
    }
  }

  /** Over a descending run of ends inside a run of digits only the first can
      be followed by anything but a digit. */
  lemma DescFirst(s: string, hi: nat, lo: nat, f: Follow)
    requires 1 <= lo <= hi <= |s|
    requires forall i :: lo - 1 <= i < hi ==> IsDigit(s[i])
    ensures FirstEnd(s, Desc(hi, lo), f) == if FollowAt(s, hi, f) then Some(hi) else None
  {
    if hi > lo && !FollowAt(s, hi, f) {
      assert Desc(hi, lo)[1..] == Desc(hi - 1, lo);
      DescMiss(s, hi - 1, lo, f);
    }
  }

  lemma {:induction false} DescMiss(s: string, hi: nat, lo: nat, f: Follow)
    requires 1 <= lo && hi < |s|
    requires forall i :: lo - 1 <= i <= hi ==> IsDigit(s[i])
    ensures FirstEnd(s, Desc(hi, lo), f).None?
    decreases hi
  {
    if lo <= hi {
      assert IsDigit(s[hi]) && IsDigit(s[hi - 1]);
      assert !FollowAt(s, hi, f);
      if hi > lo {
        assert Desc(hi, lo)[1..] == Desc(hi - 1, lo);
        DescMiss(s, hi - 1, lo, f);
      }
    }
  }

  /** A numeral written as digits `w` and, when `fr` is not empty, a '.' and the
      digits `fr`. */
  function NumeralText(w: string, fr: string): string {
    if fr == [] then w else w + "." + fr
  }

  function NumeralValue(w: string, fr: string): real
    requires AllDigits(w) && AllDigits(fr)
  {
    DigitsValue(w) as real + DigitsValue(fr) as real / Pow10(|fr|) as real
  }

  /** A numeral in the text, followed by a non-digit that satisfies the follow,
      is matched whole and read as its decimal value. */
  lemma NumeralAt(s: string, p: nat, e: nat, w: string, fr: string, f: Follow)
    requires AllDigits(w) && w != [] && AllDigits(fr)
    requires p <= e <= |s| && s[p..e] == NumeralText(w, fr)
    requires e == |s| || !IsDigit(s[e])
    requires FollowAt(s, e, f)
    requires fr == [] ==> e == |s| || s[e] != '.'
    ensures NumberAt(s, p, f) == Some(e)
    ensures Number(s, p, f) == Some(NumeralValue(w, fr))
  {
    if fr == [] {
      IntegerNumeralText(s, p, e, w, f);
    } else {
      FractionNumeralText(s, p, e, w, fr, f);
    }
  }

  lemma IntegerNumeralText(s: string, p: nat, e: nat, w: string, f: Follow)
    requires AllDigits(w) && w != []
    requires p <= e <= |s| && s[p..e] == w
    requires e == |s| || (!IsDigit(s[e]) && s[e] != '.')
    requires FollowAt(s, e, f)
    ensures NumberAt(s, p, f) == Some(e)
    ensures NumeralSpan(s, p, e) && NumberValue(s, p, e) == NumeralValue(w, [])
  {
    assert forall i :: p <= i < e ==> s[i] == w[i - p];
    IntegerNumeral(s, p, e, f);
    assert DigitsValue([]) == 0 && Pow10(0) == 1;
  }

  lemma FractionNumeralText(s: string, p: nat, e: nat, w: string, fr: string, f: Follow)
    requires AllDigits(w) && w != [] && AllDigits(fr) && fr != []
    requires p <= e <= |s| && s[p..e] == w + "." + fr
    requires e == |s| || !IsDigit(s[e])
    requires FollowAt(s, e, f)
    ensures NumberAt(s, p, f) == Some(e)
    ensures NumeralSpan(s, p, e) && NumberValue(s, p, e) == NumeralValue(w, fr)
  {
    var q := p + |w|;
    assert forall i :: p <= i < q ==> s[i] == w[i - p];
    assert s[q] == '.';
    assert forall i :: q + 1 <= i < e ==> s[i] == fr[i - q - 1];
    FractionNumeral(s, p, q, e, f);
    assert s[p..q] == w;
    assert s[q + 1..e] == fr;
  }

  lemma IntegerNumeral(s: string, p: nat, e: nat, f: Follow)
    requires p < e <= |s|
    requires forall i :: p <= i < e ==> IsDigit(s[i])
    requires e == |s| || (!IsDigit(s[e]) && s[e] != '.')
    requires FollowAt(s, e, f)
    ensures NumberAt(s, p, f) == Some(e)
    ensures NumeralSpan(s, p, e) && NumberValue(s, p, e) == DigitsValue(s[p..e]) as real
  {
    RunThrough(s, p, e);
  }

  lemma FractionNumeral(s: string, p: nat, q: nat, e: nat, f: Follow)
    requires p < q && q + 1 < e <= |s|
    requires forall i :: p <= i < q ==> IsDigit(s[i])
    requires s[q] == '.'
    requires forall i :: q + 1 <= i < e ==> IsDigit(s[i])
    requires e == |s| || !IsDigit(s[e])
    requires FollowAt(s, e, f)
    ensures NumberAt(s, p, f) == Some(e)
    ensures NumeralSpan(s, p, e)
    ensures NumberValue(s, p, e) == DigitsValue(s[p..q]) as real + DigitsValue(s[q + 1..e]) as real / Pow10(e - q - 1) as real
  {
    RunThrough(s, p, q);
    RunThrough(s, q + 1, e);
    FractionRuns(s, p, q, e, f);
  }

  lemma FractionRuns(s: string, p: nat, q: nat, e: nat, f: Follow)
    requires p < q && q + 1 < e <= |s| && s[q] == '.'
    requires DigitRun(s, p) == q - p && DigitRun(s, q + 1) == e - q - 1
    requires FollowAt(s, e, f)
    ensures NumberAt(s, p, f) == Some(e)
    ensures NumeralSpan(s, p, e)
    ensures NumberValue(s, p, e) == DigitsValue(s[p..q]) as real + DigitsValue(s[q + 1..e]) as real / Pow10(e - q - 1) as real
  {
    assert FractionFollows(s, q, f);
  }

  // ---- _SERIES_PATTERNS --------------------------------------------------------

  /** The three series patterns, tried with `re.match`:
      ParenHash `\((.*?)(?:,\s*|\s+)#(\d+(?:\.\d+)?)\)`,
      Volume    `^(.*?)(?:,)?\s*Vol\.\s*(\d+(?:\.\d+)?)\b`,
      ParenBook `\((.*?)\s+Book\s+(\d+(?:\.\d+)?)\)`. */
  datatype SeriesPattern = ParenHash | Volume | ParenBook

  /** `_SERIES_PATTERNS`, in the order they are tried. */
  const SeriesPatterns: seq<SeriesPattern> := [ParenHash, Volume, ParenBook]

  /** Where group 1 starts: after the opening parenthesis, or at 0. */
  function NameStart(pat: SeriesPattern): nat {
    if pat == Volume then 0 else 1
  }

  /** The part after group 1, tried with the name ending at `k`: the value of
      group 2, if the rest of the pattern matches there. A greedy `\s*` or
      `\s+` that gave back a space would leave a space where a '#', "Vol.",
      "Book" or digit is needed, so only its longest run is tried; likewise
      the alternative `\s+` of ParenHash and the skipped `(?:,)?` of Volume
      cannot succeed when there is a ',' at `k`. */
  function TailAt(pat: SeriesPattern, s: string, k: nat): (r: Option<real>)
    requires k <= |s|
    ensures r.Some? ==> r.value >= 0.0
  {
    match pat
    case ParenHash =>
      var comma := k < |s| && s[k] == ',';
      var j := SkipSpaces(s, if comma then k + 1 else k);
      if (comma || j > k) && j < |s| && s[j] == '#' then Number(s, j + 1, CloseParen) else None
    case Volume =>
      var j := SkipSpaces(s, if k < |s| && s[k] == ',' then k + 1 else k);
      if j + 4 <= |s| && s[j..j + 4] == "Vol." then Number(s, SkipSpaces(s, j + 4), WordBoundary) else None
    case ParenBook =>
      var j := SkipSpaces(s, k);
      if j > k && j + 4 <= |s| && s[j..j + 4] == "Book" then
        var p := SkipSpaces(s, j + 4);
        if p > j + 4 then Number(s, p, CloseParen) else None
      else None
  }

  /** The value of group 2 when it starts at `p` and is followed by `f`. */
  function Number(s: string, p: nat, f: Follow): (r: Option<real>)
    requires p <= |s|
    ensures r.Some? ==> r.value >= 0.0
  {
    match NumberAt(s, p, f)
    case Some(e) => Some(NumberValue(s, p, e))
    case None => None
  }

  /** What the rest of the pattern gives for every end of the name, 0 to |s|. */
  function Tails(pat: SeriesPattern, s: string): (ts: seq<Option<real>>)
    ensures |ts| == |s| + 1
  {
    TailsUpTo(pat, s, |s| + 1)
  }

  /** The results for the ends 0 to `n - 1`. */
  function TailsUpTo(pat: SeriesPattern, s: string, n: nat): (ts: seq<Option<real>>)
    requires n <= |s| + 1
    ensures |ts| == n
  {
    if n == 0 then [] else TailsUpTo(pat, s, n - 1) + [TailAt(pat, s, n - 1)]
  }

  lemma {:induction false} TailsUpToAt(pat: SeriesPattern, s: string, n: nat)
    requires n <= |s| + 1
    ensures forall k :: 0 <= k < n ==> TailsUpTo(pat, s, n)[k] == TailAt(pat, s, k)
  {
    if n > 0 {
      var t := TailsUpTo(pat, s, n - 1);
      TailsUpToAt(pat, s, n - 1);
      assert TailsUpTo(pat, s, n) == t + [TailAt(pat, s, n - 1)];
      forall k | 0 <= k < n ensures TailsUpTo(pat, s, n)[k] == TailAt(pat, s, k) {
        if k < n - 1 { assert TailsUpTo(pat, s, n)[k] == t[k]; }
      }
    }
  }

  /** Entry `k` is what the rest gives after a name ending at `k`. */
  lemma TailsAt(pat: SeriesPattern, s: string)
    ensures forall k :: 0 <= k <= |s| ==> Tails(pat, s)[k] == TailAt(pat, s, k)
  {
    TailsUpToAt(pat, s, |s| + 1);
  }

  /** The lazy `(.*?)` from `k`, given the result `ts[i]` of the rest of the
      pattern after a name ending at `i`: the shortest name (stopping at a
      newline) after which the rest matches; where it ends and the value of
      group 2. */
  function LazyMatch(ts: seq<Option<real>>, s: string, k: nat): (r: Option<(nat, real)>)
    requires |ts| == |s| + 1 && k <= |s|
    ensures r.Some? ==> k <= r.value.0 <= |s| && ts[r.value.0] == Some(r.value.1)
    ensures r.Some? ==> forall i :: k <= i < r.value.0 ==> s[i] != '\n'
    ensures r.Some? ==> forall i :: k <= i < r.value.0 ==> ts[i].None?
    ensures r.None? ==> forall i :: k <= i < |ts| && ts[i].Some? ==> exists j :: k <= j < i && s[j] == '\n'
    decreases |s| - k
  {
    match ts[k]
    case Some(v) => Some((k, v))
    case None => if k < |s| && s[k] != '\n' then LazyMatch(ts, s, k + 1) else None
  }

  /** `pattern.match(text)` turned into `_Series(name=group(1).strip(), entry=group(2))`. */
  function MatchPattern(pat: SeriesPattern, s: string): (r: Option<Models.Series>)
    ensures r.Some? ==> Stripped(r.value.name) && r.value.entry >= 0.0
  {
    TailsAt(pat, s);
    if pat != Volume && (s == [] || s[0] != '(') then None
    else
      match LazyMatch(Tails(pat, s), s, NameStart(pat))
      case None => None
      case Some((k, v)) => Some(Models.Series(Strip(s[NameStart(pat)..k]), v))
  }

  /** The first of `pats` that matches. */
  function FirstSeries(s: string, pats: seq<SeriesPattern>): (r: Option<Models.Series>)
    ensures r.None? <==> forall i :: 0 <= i < |pats| ==> MatchPattern(pats[i], s).None?
    ensures r.Some? ==> Stripped(r.value.name) && r.value.entry >= 0.0
  {
    if pats == [] then None
    else if MatchPattern(pats[0], s).Some? then MatchPattern(pats[0], s)
    else FirstSeries(s, pats[1..])
  }

  /** What `_SeriesParser._transform_data` returns for `text`. */
  function SeriesOf(s: string): (r: Option<Models.Series>)
    ensures r.None? <==> forall i :: 0 <= i < |SeriesPatterns| ==> MatchPattern(SeriesPatterns[i], s).None?
  {
    FirstSeries(s, SeriesPatterns)
  }

  // ---- lemmas about the series patterns ---------------------------------------

  /** The lazy name grows past every end where the rest fails, up to the first
      end where it succeeds. */
  lemma {:induction false} LazyMatchAt(ts: seq<Option<real>>, s: string, k0: nat, k: nat)
    requires |ts| == |s| + 1 && k0 <= k <= |s|
    requires forall i :: k0 <= i < k ==> s[i] != '\n'
    requires forall i :: k0 <= i < k ==> ts[i].None?
    requires ts[k].Some?
    ensures LazyMatch(ts, s, k0) == Some((k, ts[k].value))
    decreases k - k0
  {
    if k0 < k { LazyMatchAt(ts, s, k0 + 1, k); }
  }

  /** Where the rest never matches, neither does the pattern. */
  lemma {:induction false} NoLazyMatch(ts: seq<Option<real>>, s: string, k0: nat)
    requires |ts| == |s| + 1 && k0 <= |s|
    requires forall i :: k0 <= i <= |s| ==> ts[i].None?
    ensures LazyMatch(ts, s, k0).None?
    decreases |s| - k0
  {
    if k0 < |s| { NoLazyMatch(ts, s, k0 + 1); }
  }

  /** A run of spaces from `c` stops at the first non-space. */
  lemma SkipBound(s: string, c: nat, m: nat)
    requires c <= m < |s| && !IsSpace(s[m])
    ensures SkipSpaces(s, c) <= m
  {
  }

  /** Without a digit no pattern matches. */
  lemma NoDigitsNoSeries(s: string)
    requires forall i :: 0 <= i < |s| ==> !IsDigit(s[i])
    ensures SeriesOf(s).None?
  {
    forall p: nat, f: Follow | p <= |s| ensures NumberAt(s, p, f).None? {
      assert DigitRun(s, p) == 0;
    }
    forall pat: SeriesPattern | true ensures MatchPattern(pat, s).None? {
      if pat == Volume || (s != [] && s[0] == '(') {
        TailsAt(pat, s);
        NoLazyMatch(Tails(pat, s), s, NameStart(pat));
      }
    }
  }

  /** Without a '#', ParenHash does not match. */
  lemma NoHashNoParenHash(s: string)
    requires forall i :: 0 <= i < |s| ==> s[i] != '#'
    ensures MatchPattern(ParenHash, s).None?
  {
    if s != [] && s[0] == '(' {
      TailsAt(ParenHash, s);
      NoLazyMatch(Tails(ParenHash, s), s, 1);
    }
  }

  /** Without a 'V', Volume does not match. */
  lemma NoVNoVolume(s: string)
    requires forall i :: 0 <= i < |s| ==> s[i] != 'V'
    ensures MatchPattern(Volume, s).None?
  {
    forall k | 0 <= k <= |s| ensures TailAt(Volume, s, k).None? {
      var j := SkipSpaces(s, if k < |s| && s[k] == ',' then k + 1 else k);
      if j + 4 <= |s| { assert s[j..j + 4][0] == s[j]; }
    }
    TailsAt(Volume, s);
    NoLazyMatch(Tails(Volume, s), s, 0);
  }

  // ---- round trips: the texts Goodreads prints are read back ------------------

  /** A pattern whose rest first matches after a name ending at `m` gives that
      name, stripped, and the value found there. */
  lemma PatternMatchAt(pat: SeriesPattern, s: string, m: nat, v: real)
    requires pat != Volume ==> s != [] && s[0] == '('
    requires NameStart(pat) <= m <= |s|
    requires forall i :: NameStart(pat) <= i < m ==> s[i] != '\n' && TailAt(pat, s, i).None?
    requires TailAt(pat, s, m) == Some(v)
    ensures MatchPattern(pat, s) == Some(Models.Series(Strip(s[NameStart(pat)..m]), v))
  {
    TailsAt(pat, s);
    LazyMatchAt(Tails(pat, s), s, NameStart(pat), m);
  }

  /** ParenHash's rest fails before the ',' that ends a name without '#'. */
  lemma ParenHashTailFails(s: string, i: nat, m: nat)
    requires i < m < |s| && s[m] == ','
    requires forall j :: i <= j < m ==> s[j] != '#'
    ensures TailAt(ParenHash, s, i).None?
  {
    SkipBound(s, if s[i] == ',' then i + 1 else i, m);
  }

  /** ParenHash's rest reads ", #" and a numeral closed by ')'. */
  lemma ParenHashTailAt(s: string, m: nat, w: string, fr: string)
    requires AllDigits(w) && w != [] && AllDigits(fr)
    requires m + 4 + |NumeralText(w, fr)| == |s|
    requires s[m] == ',' && s[m + 1] == ' ' && s[m + 2] == '#' && s[|s| - 1] == ')'
    requires s[m + 3..|s| - 1] == NumeralText(w, fr)
    ensures TailAt(ParenHash, s, m) == Some(NumeralValue(w, fr))
  {
    assert SkipSpaces(s, m + 1) == m + 2;
    NumeralAt(s, m + 3, |s| - 1, w, fr, CloseParen);
  }

  /** "(Name, #3)" and "(Name, #2.5)" give the stripped name and the number. */
  lemma ParenHashRoundTrip(n: string, w: string, fr: string)
    requires '#' !in n && '\n' !in n
    requires AllDigits(w) && w != [] && AllDigits(fr)
    ensures SeriesOf("(" + n + ", #" + NumeralText(w, fr) + ")")
         == Some(Models.Series(Strip(n), NumeralValue(w, fr)))
  {
    var t := NumeralText(w, fr);
    var s := "(" + n + ", #" + t + ")";
    var m := 1 + |n|;
    assert |s| == m + 4 + |t| && s[0] == '(' && s[m] == ',' && s[m + 1] == ' ' && s[m + 2] == '#' && s[|s| - 1] == ')';
    assert forall i :: 1 <= i < m ==> s[i] == n[i - 1] && s[i] in n;
    assert s[m + 3..|s| - 1] == t;
    assert s[1..m] == n;
    ParenHashTailAt(s, m, w, fr);
    forall i | 1 <= i < m ensures TailAt(ParenHash, s, i).None? {
      ParenHashTailFails(s, i, m);
    }
    PatternMatchAt(ParenHash, s, m, NumeralValue(w, fr));
  }

  /** Volume's rest fails before the ',' that ends a name without 'V'. */
  lemma VolumeTailFails(s: string, i: nat, m: nat)
    requires i < m < |s| && s[m] == ','
    requires forall j :: i <= j < m ==> s[j] != 'V'
    ensures TailAt(Volume, s, i).None?
  {
    var j := SkipSpaces(s, if s[i] == ',' then i + 1 else i);
    SkipBound(s, if s[i] == ',' then i + 1 else i, m);
    if j + 4 <= |s| { assert s[j..j + 4][0] == s[j]; }
  }

  /** The last character of a numeral is a digit. */
  lemma NumeralEndsInDigit(w: string, fr: string)
    requires AllDigits(w) && w != [] && AllDigits(fr)
    ensures |NumeralText(w, fr)| >= 1 && IsDigit(NumeralText(w, fr)[|NumeralText(w, fr)| - 1])
    ensures IsDigit(NumeralText(w, fr)[0])
  {
  }

  /** Volume's rest reads ", Vol. " and a numeral that ends the text. */
  lemma VolumeTailAt(s: string, m: nat, w: string, fr: string)
    requires AllDigits(w) && w != [] && AllDigits(fr)
    requires m + 7 + |NumeralText(w, fr)| == |s|
    requires s[m] == ',' && s[m + 1] == ' ' && s[m + 2..m + 6] == "Vol." && s[m + 6] == ' '
    requires s[m + 7..] == NumeralText(w, fr)
    ensures TailAt(Volume, s, m) == Some(NumeralValue(w, fr))
  {
    var t := NumeralText(w, fr);
    NumeralEndsInDigit(w, fr);
    assert s[m + 7] == t[0] && s[|s| - 1] == t[|t| - 1];
    DigitIsNotSpace(s[m + 7]);
    assert SkipSpaces(s, m + 1) == m + 2;
    assert SkipSpaces(s, m + 6) == m + 7;
    NumeralAt(s, m + 7, |s|, w, fr, WordBoundary);
  }

  /** "Name, Vol. 3" gives the stripped name and the number. */
  lemma VolumeRoundTrip(n: string, w: string, fr: string)
    requires 'V' !in n && '\n' !in n && (n == [] || n[0] != '(')
    requires AllDigits(w) && w != [] && AllDigits(fr)
    ensures SeriesOf(n + ", Vol. " + NumeralText(w, fr))
         == Some(Models.Series(Strip(n), NumeralValue(w, fr)))
  {
    var s := n + ", Vol. " + NumeralText(w, fr);
    VolumeText(n, NumeralText(w, fr));
    VolumeMatch(s, |n|, w, fr);
    SecondSeries(s, Models.Series(Strip(n), NumeralValue(w, fr)));
  }

  /** Where the pieces of "Name, Vol. 3" sit. */
  lemma VolumeText(n: string, t: string)
    ensures var s := n + ", Vol. " + t;
      && |s| == |n| + 7 + |t| && s[|n|] == ',' && s[|n| + 1] == ' '
      && s[|n| + 2..|n| + 6] == "Vol." && s[|n| + 6] == ' '
      && s[|n| + 7..] == t && s[0..|n|] == n
      && (n == [] ==> s[0] == ',') && (n != [] ==> s[0] == n[0])
  {
  }

  lemma VolumeMatch(s: string, m: nat, w: string, fr: string)
    requires AllDigits(w) && w != [] && AllDigits(fr)
    requires m + 7 + |NumeralText(w, fr)| == |s|
    requires s[m] == ',' && s[m + 1] == ' ' && s[m + 2..m + 6] == "Vol." && s[m + 6] == ' '
    requires s[m + 7..] == NumeralText(w, fr)
    requires s[0] != '('
    requires forall i :: 0 <= i < m ==> s[i] != 'V' && s[i] != '\n'
    ensures MatchPattern(Volume, s) == Some(Models.Series(Strip(s[0..m]), NumeralValue(w, fr)))
  {
    VolumeTailAt(s, m, w, fr);
    forall i | 0 <= i < m ensures TailAt(Volume, s, i).None? {
      VolumeTailFails(s, i, m);
    }
    PatternMatchAt(Volume, s, m, NumeralValue(w, fr));
  }

  /** ParenBook's rest fails before the end of a name that holds no 'B' and
      does not end in a space. */
  lemma ParenBookTailFails(s: string, i: nat, m: nat)
    requires i < m <= |s| && !IsSpace(s[m - 1])
    requires forall j :: i <= j < m ==> s[j] != 'B'
    ensures TailAt(ParenBook, s, i).None?
  {
    var j := SkipSpaces(s, i);
    SkipBound(s, i, m - 1);
    if j + 4 <= |s| { assert s[j..j + 4][0] == s[j]; }
  }

  /** ParenBook's rest reads " Book " and a numeral closed by ')'. */
  lemma ParenBookTailAt(s: string, m: nat, w: string, fr: string)
    requires AllDigits(w) && w != [] && AllDigits(fr)
    requires m + 7 + |NumeralText(w, fr)| == |s|
    requires s[m] == ' ' && s[m + 1..m + 5] == "Book" && s[m + 5] == ' ' && s[|s| - 1] == ')'
    requires s[m + 6..|s| - 1] == NumeralText(w, fr)
    ensures TailAt(ParenBook, s, m) == Some(NumeralValue(w, fr))
  {
    var t := NumeralText(w, fr);
    NumeralEndsInDigit(w, fr);
    assert s[m + 6] == t[0];
    DigitIsNotSpace(s[m + 6]);
    assert s[m + 1] == 'B';
    assert SkipSpaces(s, m) == m + 1;
    assert SkipSpaces(s, m + 5) == m + 6;
    NumeralAt(s, m + 6, |s| - 1, w, fr, CloseParen);
  }

  /** The characters of a numeral are digits and '.'. */
  lemma NumeralChars(w: string, fr: string)
    requires AllDigits(w) && AllDigits(fr)
    ensures forall i :: 0 <= i < |NumeralText(w, fr)| ==> IsDigit(NumeralText(w, fr)[i]) || NumeralText(w, fr)[i] == '.'
  {
  }

  /** "(Name Book 3)" gives the name and the number, once ParenHash and
      Volume, tried first, have failed for want of a '#' and a 'V'. */
  lemma ParenBookRoundTrip(n: string, w: string, fr: string)
    requires '#' !in n && 'V' !in n && 'B' !in n && '\n' !in n
    requires n == [] || !IsSpace(n[|n| - 1])
    requires AllDigits(w) && w != [] && AllDigits(fr)
    ensures SeriesOf("(" + n + " Book " + NumeralText(w, fr) + ")")
         == Some(Models.Series(Strip(n), NumeralValue(w, fr)))
  {
    var t := NumeralText(w, fr);
    var s := "(" + n + " Book " + t + ")";
    ParenBookText(n, t);
    NumeralChars(w, fr);
    ParenBookLetters(s, n, t);
    NoHashNoParenHash(s);
    NoVNoVolume(s);
    ParenBookMatch(s, 1 + |n|, w, fr);
    ThirdSeries(s, Models.Series(Strip(n), NumeralValue(w, fr)));
  }

  /** Where the pieces of "(Name Book 3)" sit. */
  lemma ParenBookText(n: string, t: string)
    ensures var s := "(" + n + " Book " + t + ")"; var m := 1 + |n|;
      && |s| == m + 7 + |t| && s[0] == '(' && s[m] == ' ' && s[m + 1..m + 5] == "Book"
      && s[m + 5] == ' ' && s[|s| - 1] == ')' && s[m + 6..|s| - 1] == t && s[1..m] == n
      && (forall i :: 1 <= i < m ==> s[i] in n)
      && (forall i :: m + 6 <= i < |s| - 1 ==> s[i] == t[i - m - 6])
      && (n != [] ==> s[m - 1] == n[|n| - 1])
  {
    var s := "(" + n + " Book " + t + ")";
    assert forall i :: 1 <= i < 1 + |n| ==> s[i] == n[i - 1];
  }

  /** "(Name Book 3)" holds no '#' and no 'V' when the name holds none. */
  lemma ParenBookLetters(s: string, n: string, t: string)
    requires '#' !in n && 'V' !in n
    requires forall i :: 0 <= i < |t| ==> IsDigit(t[i]) || t[i] == '.'
    requires var m := 1 + |n|;
      && |s| == m + 7 + |t| && s[0] == '(' && s[m] == ' ' && s[m + 1..m + 5] == "Book"
      && s[m + 5] == ' ' && s[|s| - 1] == ')'
      && (forall i :: 1 <= i < m ==> s[i] in n)
      && (forall i :: m + 6 <= i < |s| - 1 ==> s[i] == t[i - m - 6])
    ensures forall i :: 0 <= i < |s| ==> s[i] != '#' && s[i] != 'V'
  {
    var m := 1 + |n|;
    forall i | m + 1 <= i < m + 5 ensures s[i] != '#' && s[i] != 'V' {
      assert s[i] == s[m + 1..m + 5][i - m - 1];
    }
  }

  lemma ParenBookMatch(s: string, m: nat, w: string, fr: string)
    requires AllDigits(w) && w != [] && AllDigits(fr)
    requires m + 7 + |NumeralText(w, fr)| == |s| && s[0] == '('
    requires s[m] == ' ' && s[m + 1..m + 5] == "Book" && s[m + 5] == ' ' && s[|s| - 1] == ')'
    requires s[m + 6..|s| - 1] == NumeralText(w, fr)
    requires forall i :: 1 <= i < m ==> s[i] != 'B' && s[i] != '\n'
    requires 1 < m ==> !IsSpace(s[m - 1])
    ensures MatchPattern(ParenBook, s) == Some(Models.Series(Strip(s[1..m]), NumeralValue(w, fr)))
  {
    ParenBookTailAt(s, m, w, fr);
    forall i | 1 <= i < m ensures TailAt(ParenBook, s, i).None? {
      ParenBookTailFails(s, i, m);
    }
    PatternMatchAt(ParenBook, s, m, NumeralValue(w, fr));
  }

  /** One step of the first-match search. */
  lemma FirstSeriesStep(s: string, pats: seq<SeriesPattern>)
    requires pats != []
    ensures MatchPattern(pats[0], s).Some? ==> FirstSeries(s, pats) == MatchPattern(pats[0], s)
    ensures MatchPattern(pats[0], s).None? ==> FirstSeries(s, pats) == FirstSeries(s, pats[1..])
  {
  }

  /** A failing pattern passes the text on to the next. */
  lemma FirstSeriesSkip(s: string, pats: seq<SeriesPattern>, x: Models.Series)
    requires pats != [] && MatchPattern(pats[0], s).None? && FirstSeries(s, pats[1..]) == Some(x)
    ensures FirstSeries(s, pats) == Some(x)
  {
  }

  /** When ParenHash fails, the series is whatever Volume gives. */
  lemma SecondSeries(s: string, x: Models.Series)
    requires MatchPattern(ParenHash, s).None? && MatchPattern(Volume, s) == Some(x)
    ensures SeriesOf(s) == Some(x)
  {
    var pats := SeriesPatterns;
    assert pats[1..] == [Volume, ParenBook];
    assert FirstSeries(s, pats[1..]) == Some(x);
    FirstSeriesSkip(s, pats, x);
  }

  /** When ParenHash and Volume fail, the series is whatever ParenBook gives. */
  lemma ThirdSeries(s: string, x: Models.Series)
    requires MatchPattern(ParenHash, s).None? && MatchPattern(Volume, s).None? && MatchPattern(ParenBook, s) == Some(x)
    ensures SeriesOf(s) == Some(x)
  {
    var pats := SeriesPatterns;
    assert pats[1..][1..] == [ParenBook];
    assert FirstSeries(s, pats[1..][1..]) == Some(x);
    FirstSeriesSkip(s, pats[1..], x);
    FirstSeriesSkip(s, pats, x);
  }
}
