/**
 * `extract_statement_date`: find a date in `subject + " " + filename` with four patterns
 * tried in order, each searched leftmost-first as `re.search` does with `re.IGNORECASE`;
 * the first pattern that matches anywhere wins, and its matched text, with spaces turned
 * into underscores, is the result. With no match the current year and month are used,
 * which the caller supplies.
 *
 * The regular expressions become matchers written out by hand:
 *   DayMonthYear      (\d{2})[-/](\d{2})[-/](\d{4})
 *   YearMonthDay      (\d{4})[-/](\d{2})[-/](\d{2})
 *   MonthYear         (Jan|...|Dec)[\s\-_]*(\d{4})
 *   DayMonthNameYear  (\d{2})[\s\-_]*(Jan|...|Dec)[\s\-_]*(\d{4})
 * A run of `[\s\-_]*` is taken whole: giving any of it back leaves a gap character where
 * a month letter or a digit is needed, so backtracking never finds another match.
 */
module StatementDate {
  import opened Wrappers
  import opened Text

  datatype Pattern = DayMonthYear | YearMonthDay | MonthYear | DayMonthNameYear

  /** The order in which the patterns are tried. */
  const Patterns: seq<Pattern> := [DayMonthYear, YearMonthDay, MonthYear, DayMonthNameYear]

  /** The month abbreviations, lower-cased; they are matched ignoring case. */
  const MonthNames: seq<string> :=
    ["jan", "feb", "mar", "apr", "may", "jun", "jul", "aug", "sep", "oct", "nov", "dec"]

  /** `n` digits start at `i`. */
  predicate DigitsAt(s: string, i: nat, n: nat)
  {
    i + n <= |s| && forall k :: i <= k < i + n ==> IsDigit(s[k])
  }

  /** `[-/]` at `i`. */
  predicate DateSepAt(s: string, i: nat)
  {
    i < |s| && (s[i] == '-' || s[i] == '/')
  }

  /** `[\s\-_]`. */
  predicate IsGap(c: char)
  {
    IsSpace(c) || c == '-' || c == '_'
  }

  /** Length of the run of gap characters starting at `i`. */
  function GapRun(s: string, i: nat): (n: nat)
    requires i <= |s|
    ensures i + n <= |s|
    ensures forall k :: i <= k < i + n ==> IsGap(s[k])
    ensures i + n < |s| ==> !IsGap(s[i + n])
    decreases |s| - i
  {
    if i < |s| && IsGap(s[i]) then 1 + GapRun(s, i + 1) else 0
  }

  /** A month abbreviation, in any case, starts at `i`. */
  predicate MonthAt(s: string, i: nat)
  {
    i + 3 <= |s| && Lower(s[i..i + 3]) in MonthNames
  }

  /** Where `(Mon)[\s\-_]*(\d{4})`, the tail shared by the last two patterns, ends when it starts at `i`. */
  function MonthYearFrom(s: string, i: nat): (r: Option<nat>)
    requires i <= |s|
    ensures r.Some? ==> i < r.value <= |s|
  {
    if MonthAt(s, i) then
      var j := i + 3 + GapRun(s, i + 3);
      if DigitsAt(s, j, 4) then Some(j + 4) else None
    else None
  }

  /**
   * Where the match of `p` that starts at index `i` ends, if `p` matches there. Each gap
   * `[\s\-_]*` is followed by a digit or a letter, which no gap character is, so taking the
   * longest run of gap characters is the only way the expression can match.
   */
  function MatchEnd(p: Pattern, s: string, i: nat): (r: Option<nat>)
    requires i <= |s|
    ensures r.Some? ==> i < r.value <= |s|
  {
    match p
    case DayMonthYear =>
      if DigitsAt(s, i, 2) && DateSepAt(s, i + 2) && DigitsAt(s, i + 3, 2) &&
         DateSepAt(s, i + 5) && DigitsAt(s, i + 6, 4)
      then Some(i + 10) else None
    case YearMonthDay =>
      if DigitsAt(s, i, 4) && DateSepAt(s, i + 4) && DigitsAt(s, i + 5, 2) &&
         DateSepAt(s, i + 7) && DigitsAt(s, i + 8, 2)
      then Some(i + 10) else None
    case MonthYear =>
      MonthYearFrom(s, i)
    case DayMonthNameYear =>
      if DigitsAt(s, i, 2) then MonthYearFrom(s, i + 2 + GapRun(s, i + 2)) else None
  }

  /** `p` matches nowhere in `s`. */
  predicate NoMatch(p: Pattern, s: string)
  {
    forall j :: 0 <= j <= |s| ==> MatchEnd(p, s, j).None?
  }

  /** `s[a..e]` is the leftmost match of `p` in `s`. */
  predicate LeftmostMatch(p: Pattern, s: string, a: int, e: int)
  {
    0 <= a < e <= |s| && MatchEnd(p, s, a) == Some(e) &&
    forall j :: 0 <= j < a ==> MatchEnd(p, s, j).None?
  }

  /** `re.search` from index `i` on: the first start index where `p` matches, and the match's end. */
  function Search(p: Pattern, s: string, i: nat): (r: Option<(nat, nat)>)
    requires i <= |s|
    ensures r.None? ==> forall j :: i <= j <= |s| ==> MatchEnd(p, s, j).None?
    ensures r.Some? ==> i <= r.value.0 <= |s| && MatchEnd(p, s, r.value.0) == Some(r.value.1)
    ensures r.Some? ==> forall j :: i <= j < r.value.0 ==> MatchEnd(p, s, j).None?
    decreases |s| - i
  {
    var m := MatchEnd(p, s, i);
    if m.Some? then Some((i, m.value))
    else if i == |s| then None
    else Search(p, s, i + 1)
  }

  /** `match.group(0).replace(' ', '_')`. */
  function Underscored(s: string): string
  {
    ReplaceChar(s, ' ', '_')
  }

  /** The text searched. */
  function Combined(subject: string, filename: string): string
  {
    subject + " " + filename
  }

  /** The patterns before index `k` match nowhere in `s`. */
  predicate NoneBefore(s: string, k: int)
    requires 0 <= k <= |Patterns|
  {
    forall j :: 0 <= j < k ==> NoMatch(Patterns[j], s)
  }

  /** Try the patterns from index `k` on; the first that matches gives the date. */
  function FirstDate(s: string, k: nat): Option<string>
    requires k <= |Patterns|
    decreases |Patterns| - k
  {
    if k == |Patterns| then None
    else match Search(Patterns[k], s, 0)
      case Some((a, e)) => Some(Underscored(s[a..e]))
      case None => FirstDate(s, k + 1)
  }

  /** `Search` from the start finds nothing exactly when the pattern matches nowhere. */
  lemma SearchNone(p: Pattern, s: string)
    ensures Search(p, s, 0).None? <==> NoMatch(p, s)
  {
    var r := Search(p, s, 0);
    if r.Some? {
      assert MatchEnd(p, s, r.value.0).Some?;
    }
  }

  /** `Search` from the start returns the leftmost match. */
  lemma SearchLeftmost(p: Pattern, s: string, a: int, e: int)
    requires LeftmostMatch(p, s, a, e)
    ensures Search(p, s, 0) == Some((a, e))
  {
    var r := Search(p, s, 0);
    assert r.Some? by {
      assert MatchEnd(p, s, a).Some?;
    }
    assert !(r.value.0 < a);
    assert !(a < r.value.0) by {
      assert MatchEnd(p, s, a) == Some(e);
    }
  }

  /**
   * `FirstDate` from pattern `k` on: nothing when none of those patterns matches; else the
   * leftmost match of the first of them that matches, spaces turned into `_`.
   */
  lemma {:induction false} FirstDateSpec(s: string, k: nat)
    requires k <= |Patterns|
    ensures FirstDate(s, k).None? <==> forall j :: k <= j < |Patterns| ==> NoMatch(Patterns[j], s)
    ensures forall n, a, e :: (k <= n < |Patterns| && LeftmostMatch(Patterns[n], s, a, e) &&
      forall j :: k <= j < n ==> NoMatch(Patterns[j], s)) ==>
        FirstDate(s, k) == Some(Underscored(s[a..e]))
    decreases |Patterns| - k
  {
    if k < |Patterns| {
      SearchNone(Patterns[k], s);
      FirstDateSpec(s, k + 1);
      forall n, a, e | k <= n < |Patterns| && LeftmostMatch(Patterns[n], s, a, e) &&
        (forall j :: k <= j < n ==> NoMatch(Patterns[j], s))
        ensures FirstDate(s, k) == Some(Underscored(s[a..e]))
      {
        if n == k {
          SearchLeftmost(Patterns[k], s, a, e);
        } else {
          assert NoMatch(Patterns[k], s);
        }
      }
    }
  }

  /**
   * `extract_statement_date`: the leftmost match of the first pattern that matches
   * anywhere, spaces turned into underscores; `fallback` (the current `%Y%m`) when none
   * of the patterns matches.
   */
  function ExtractStatementDate(subject: string, filename: string, fallback: string): (r: string)
    ensures NoneBefore(Combined(subject, filename), |Patterns|) ==> r == fallback
    ensures forall n, a, e :: (0 <= n < |Patterns| &&
      LeftmostMatch(Patterns[n], Combined(subject, filename), a, e) &&
      NoneBefore(Combined(subject, filename), n)) ==>
        r == Underscored(Combined(subject, filename)[a..e])
  {
    FirstDateSpec(Combined(subject, filename), 0);
    match FirstDate(Combined(subject, filename), 0)
    case Some(d) => d
    case None => fallback
  }

  /** A found date never contains a space: every space of the match became `_`. */
  lemma FoundDateHasNoSpace(subject: string, filename: string, fallback: string)
    requires !NoneBefore(Combined(subject, filename), |Patterns|)
    ensures ' ' !in ExtractStatementDate(subject, filename, fallback)
  {
    FirstDateSpec(Combined(subject, filename), 0);
    UnderscoredFrom(Combined(subject, filename), 0);
  }

  /** Every date `FirstDate` finds is some stretch of the text with its spaces turned into `_`. */
  lemma {:induction false} UnderscoredFrom(s: string, k: nat)
    requires k <= |Patterns|
    ensures FirstDate(s, k).Some? ==> ' ' !in FirstDate(s, k).value
    decreases |Patterns| - k
  {
    if k < |Patterns| && Search(Patterns[k], s, 0).None? {
      UnderscoredFrom(s, k + 1);
    }
  }

  /**
   * A subject that begins with a day-first numeric date written with slashes yields that
   * date, slashes included.
   */
  lemma SlashDateExtracted(filename: string, fallback: string)
    ensures ExtractStatementDate("15/08/2024", filename, fallback) == "15/08/2024"
  {
    var s := Combined("15/08/2024", filename);
    assert s[..10] == "15/08/2024";
    assert MatchEnd(DayMonthYear, s, 0) == Some(10);
    assert LeftmostMatch(Patterns[0], s, 0, 10);
    assert s[0..10] == "15/08/2024";
    assert Underscored("15/08/2024") == "15/08/2024";
  }

  /** A text without `-` and `/` holds no numeric date of either kind. */
  lemma NoSeparatorNoNumericDate(s: string)
    requires forall k :: 0 <= k < |s| ==> s[k] != '-' && s[k] != '/'
    ensures NoMatch(DayMonthYear, s) && NoMatch(YearMonthDay, s)
  {
  }

  /**
   * Wherever "DD Mon YYYY" matches, "Mon YYYY" matches too, starting at the month and
   * ending at the same place; as "Mon YYYY" is tried first, the fourth pattern is only
   * ever consulted on texts where it cannot match, and a day in front of a month name is
   * never part of the result.
   */
  lemma DayMonthNameYearShadowed(s: string)
    ensures forall i :: 0 <= i <= |s| && MatchEnd(DayMonthNameYear, s, i).Some? ==>
      var m := i + 2 + GapRun(s, i + 2);
      m <= |s| && MatchEnd(MonthYear, s, m) == MatchEnd(DayMonthNameYear, s, i)
  {
    forall i | 0 <= i <= |s| && MatchEnd(DayMonthNameYear, s, i).Some?
      ensures var m := i + 2 + GapRun(s, i + 2);
        m <= |s| && MatchEnd(MonthYear, s, m) == MatchEnd(DayMonthNameYear, s, i)
    {
      ShadowedAt(s, i);
    }
  }

  /** So when "Mon YYYY" matches nowhere, neither does "DD Mon YYYY". */
  lemma DayMonthNameYearNeverUsed(s: string)
    ensures NoMatch(MonthYear, s) ==> NoMatch(DayMonthNameYear, s)
  {
    if !NoMatch(DayMonthNameYear, s) {
      var i :| 0 <= i <= |s| && MatchEnd(DayMonthNameYear, s, i).Some?;
      ShadowedAt(s, i);
    }
  }

  lemma ShadowedAt(s: string, i: nat)
    requires i <= |s| && MatchEnd(DayMonthNameYear, s, i).Some?
    ensures var m := i + 2 + GapRun(s, i + 2);
      m <= |s| && MatchEnd(MonthYear, s, m) == MatchEnd(DayMonthNameYear, s, i)
    ensures !NoMatch(MonthYear, s)
  {
    var m := i + 2 + GapRun(s, i + 2);
    assert MatchEnd(MonthYear, s, m).Some?;
  }

  /** The date found when pattern `n` is the first to match and `s[a..e]` is its leftmost match. */
  lemma ExtractedFrom(subject: string, filename: string, fallback: string, n: nat, a: int, e: int)
    requires n < |Patterns| && NoneBefore(Combined(subject, filename), n)
    requires LeftmostMatch(Patterns[n], Combined(subject, filename), a, e)
    ensures ExtractStatementDate(subject, filename, fallback) ==
      Underscored(Combined(subject, filename)[a..e])
  {
  }

  /** A month name followed by a year gives the two joined by `_`. */
  lemma MonthYearExtracted(fallback: string)
    ensures ExtractStatementDate("Aug 2024", "a.pdf", fallback) == "Aug_2024"
  {
    MonthExampleNumeric();
    MonthExampleMatch();
    ExtractedFrom("Aug 2024", "a.pdf", fallback, 2, 0, 8);
    MonthExampleSlice();
    UnderscoredExample();
  }

  lemma MonthExampleNumeric()
    ensures NoneBefore(Combined("Aug 2024", "a.pdf"), 2)
  {
    var s := Combined("Aug 2024", "a.pdf");
    assert s == "Aug 2024 a.pdf";
    NoSeparatorNoNumericDate(s);
  }

  lemma MonthExampleSlice()
    ensures Combined("Aug 2024", "a.pdf")[0..8] == "Aug 2024"
  {
  }

  lemma MonthExampleMatch()
    ensures LeftmostMatch(MonthYear, Combined("Aug 2024", "a.pdf"), 0, 8)
  {
    var s := Combined("Aug 2024", "a.pdf");
    assert s == "Aug 2024 a.pdf";
    assert Lower(s[0..3]) == "aug";
    assert GapRun(s, 4) == 0;
    assert GapRun(s, 3) == 1;
    assert DigitsAt(s, 4, 4);
  }

  lemma UnderscoredExample()
    ensures Underscored("Aug 2024") == "Aug_2024"
  {
  }

  /** A month name can only start at a letter. */
  lemma NoMonthAtNonLetter(s: string, i: nat)
    requires i < |s| && !('a' <= LowerChar(s[i]) <= 'z')
    ensures !MonthAt(s, i)
  {
    if i + 3 <= |s| {
      assert Lower(s[i..i + 3])[0] == LowerChar(s[i]);
    }
  }

  lemma DayExampleMatch()
    ensures LeftmostMatch(MonthYear, Combined("15 Aug 2024", "a.pdf"), 3, 11)
  {
    var s := Combined("15 Aug 2024", "a.pdf");
    assert s == "15 Aug 2024 a.pdf";
    forall j | 0 <= j < 3 ensures MatchEnd(MonthYear, s, j).None? {
      NoMonthAtNonLetter(s, j);
    }
    DayExampleMonth();
  }

  lemma DayExampleMonth()
    ensures MatchEnd(MonthYear, "15 Aug 2024 a.pdf", 3) == Some(11)
  {
    var s := "15 Aug 2024 a.pdf";
    assert Lower(s[3..6]) == "aug";
    assert GapRun(s, 7) == 0;
    assert GapRun(s, 6) == 1;
    assert DigitsAt(s, 7, 4);
  }

  lemma DayExampleNumeric()
    ensures NoneBefore(Combined("15 Aug 2024", "a.pdf"), 2)
  {
    var s := Combined("15 Aug 2024", "a.pdf");
    assert s == "15 Aug 2024 a.pdf";
    NoSeparatorNoNumericDate(s);
  }

  /** The day in front of a month name is dropped: "15 Aug 2024" gives "Aug_2024". */
  lemma DayBeforeMonthDropped(fallback: string)
    ensures ExtractStatementDate("15 Aug 2024", "a.pdf", fallback) == "Aug_2024"
  {
    DayExampleNumeric();
    DayExampleMatch();
    ExtractedFrom("15 Aug 2024", "a.pdf", fallback, 2, 3, 11);
    DayExampleSlice();
    UnderscoredExample();
  }

  lemma DayExampleSlice()
    ensures Combined("15 Aug 2024", "a.pdf")[3..11] == "Aug 2024"
  {
  }
}
