/** Calendar dates as the task-detail page uses them: Python's `int(text)`,
    `datetime.date(y, m, d)` with its range checks, date comparison, and the
    `YYYY-MM-DD` text a due date is stored as. */
module Dates {
  import opened Py
  import opened Text

  // ---------------------------------------------------------------------
  // Python `int(text)` in base 10
  // ---------------------------------------------------------------------

  predicate IsDigit(c: char) {
    '0' <= c <= '9'
  }

  function DigitValue(c: char): nat
    requires IsDigit(c)
  {
    c as int - '0' as int
  }

  /** Decimal digits in which single underscores may separate two digits,
      as Python's integer literals allow ("1_000"). */
  predicate IsDigitGroups(s: string) {
    && s != []
    && IsDigit(s[0])
    && IsDigit(s[|s| - 1])
    && (forall i :: 0 <= i < |s| ==> IsDigit(s[i]) || s[i] == '_')
    && (forall i :: 0 < i < |s| && s[i] == '_' ==> s[i - 1] != '_')
  }

  /** The number that a run of digits and underscores denotes. */
  function DigitsValue(s: string): nat
    requires forall i :: 0 <= i < |s| ==> IsDigit(s[i]) || s[i] == '_'
  {
    if s == [] then 0
    else if s[|s| - 1] == '_' then DigitsValue(s[..|s| - 1])
    else DigitsValue(s[..|s| - 1]) * 10 + DigitValue(s[|s| - 1])
  }

  /** The text `int` accepts once surrounding whitespace is stripped: an
      optional sign, then digit groups. */
  predicate IsIntText(t: string) {
    || IsDigitGroups(t)
    || (t != [] && (t[0] == '+' || t[0] == '-') && IsDigitGroups(t[1..]))
  }

  /** Whitespace `int` skips around the number: the ASCII whitespace of
      `str.isspace` except the information separators 0x1C-0x1F, which
      `int` rejects. */
  predicate IsIntSpace(c: char) {
    IsSpace(c) && !(28 <= c as int <= 31)
  }

  /** Every whitespace character of `s` is one `int` skips. */
  predicate IntSpaceOnly(s: string) {
    forall i :: 0 <= i < |s| && IsSpace(s[i]) ==> IsIntSpace(s[i])
  }

  /** The default of `sys.get_int_max_str_digits()`: since CPython 3.11,
      `int` raises ValueError on a text of more digits than this. */
  const MaxIntDigits := 4300

  /** The digits of `s`, not counting signs and underscores. */
  function DigitCount(s: string): (n: nat)
    ensures n <= |s|
  {
    if s == [] then 0
    else DigitCount(s[..|s| - 1]) + (if IsDigit(s[|s| - 1]) then 1 else 0)
  }

  lemma {:induction false} DigitCountAllDigits(s: string)
    requires forall i :: 0 <= i < |s| ==> IsDigit(s[i])
    ensures DigitCount(s) == |s|
  {
    if s != [] {
      DigitCountAllDigits(s[..|s| - 1]);
    }
  }

  /** `str.isspace` holds for the file separator 0x1C, but `int` does not
      skip it: `int("\x1c5")` raises. */
  lemma SeparatorMarginRejected()
    ensures ParseInt([28 as char, '5']) == None
  {
    assert !IntSpaceOnly([28 as char, '5']) by {
      assert IsSpace([28 as char, '5'][0]);
    }
  }

  /** A text of more than 4300 digits is rejected, leading zeros included. */
  lemma TooManyDigitsRejected(s: string)
    requires |s| > MaxIntDigits && forall i :: 0 <= i < |s| ==> IsDigit(s[i])
    ensures ParseInt(s) == None
  {
    DigitCountAllDigits(s);
    NoSpaceText(s);
  }

  /** A sign in front adds no digit. */
  lemma {:induction false} DigitCountSign(c: char, s: string)
    requires !IsDigit(c)
    ensures DigitCount([c] + s) == DigitCount(s)
  {
    if s != [] {
      DigitCountSign(c, s[..|s| - 1]);
      assert ([c] + s)[..|s|] == [c] + s[..|s| - 1];
    }
  }

  /** Python's `int(s)`; None where it raises ValueError. */
  function ParseInt(s: string): (r: Option<int>)
    ensures r.Some? <==> IsIntText(Strip(s)) && IntSpaceOnly(s) && DigitCount(Strip(s)) <= MaxIntDigits
    ensures r.Some? && '-' !in s ==> r.value >= 0
    ensures r.Some? && IsDigitGroups(Strip(s)) ==> r.value == DigitsValue(Strip(s))
    ensures var t := Strip(s); r.Some? && t[0] == '+' ==> r.value == DigitsValue(t[1..])
    ensures var t := Strip(s); r.Some? && t[0] == '-' ==> r.value == -(DigitsValue(t[1..]) as int)
  {
    var t := Strip(s);
    StripIsCore(s);
    if !IntSpaceOnly(s) || DigitCount(t) > MaxIntDigits then None
    else if IsDigitGroups(t) then Some(DigitsValue(t))
    else if t != [] && (t[0] == '+' || t[0] == '-') && IsDigitGroups(t[1..]) then
      assert t[0] in s by {
        var i, j :| 0 <= i <= j <= |s| && t == s[i..j] && AllSpace(s[..i]) && AllSpace(s[j..]);
        assert s[i] == t[0];
      }
      var magnitude: int := DigitsValue(t[1..]);
      Some(if t[0] == '-' then -magnitude else magnitude)
    else None
  }

  // ---------------------------------------------------------------------
  // datetime.date
  // ---------------------------------------------------------------------

  datatype Date = Date(year: int, month: int, day: int)

  /** `datetime.MINYEAR` and `datetime.MAXYEAR`. */
  const MinYear := 1
  const MaxYear := 9999

  predicate IsLeap(year: int) {
    year % 4 == 0 && (year % 100 != 0 || year % 400 == 0)
  }

  function DaysInMonth(year: int, month: int): (n: int)
    requires 1 <= month <= 12
    ensures 28 <= n <= 31
    ensures month == 2 ==> (n == 29 <==> IsLeap(year))
    ensures month != 2 ==> n >= 30
  {
    if month == 2 then (if IsLeap(year) then 29 else 28)
    else if month == 4 || month == 6 || month == 9 || month == 11 then 30
    else 31
  }

  /** The arguments `date(year, month, day)` accepts without ValueError. */
  predicate IsValid(d: Date): (b: bool)
    ensures b ==> 1 <= d.month <= 12 && 1 <= d.day <= 31
    ensures d.month == 2 && d.day == 29 ==> (b <==> MinYear <= d.year <= MaxYear && IsLeap(d.year))
  {
    && MinYear <= d.year <= MaxYear
    && 1 <= d.month <= 12
    && 1 <= d.day <= DaysInMonth(d.year, d.month)
  }

  /** `a < b` on dates: years, then months, then days. */
  predicate Before(a: Date, b: Date) {
    || a.year < b.year
    || (a.year == b.year && a.month < b.month)
    || (a.year == b.year && a.month == b.month && a.day < b.day)
  }

  function YearLength(year: int): int {
    if IsLeap(year) then 366 else 365
  }

  /** Days in the years before `year`, counted the proleptic Gregorian way. */
  function DaysBeforeYear(year: int): int
    requires year >= 1
  {
    var y := year - 1;
    y * 365 + y / 4 - y / 100 + y / 400
  }

  /** Days in the months of `year` before `month`. */
  function DaysBeforeMonth(year: int, month: int): int
    requires 1 <= month <= 12
  {
    var common := [0, 31, 59, 90, 120, 151, 181, 212, 243, 273, 304, 334][month - 1];
    if month > 2 && IsLeap(year) then common + 1 else common
  }

  /** `date.toordinal()`: day 1 is 0001-01-01. */
  function Ordinal(d: Date): int
    requires IsValid(d)
  {
    DaysBeforeYear(d.year) + DaysBeforeMonth(d.year, d.month) + d.day
  }

  /** Among the numbers 1 .. y + 1 there is one more multiple of 4 than
      among 1 .. y exactly when y + 1 is one; likewise for 100 and 400. */
  lemma MultiplesStep(y: nat)
    ensures (y + 1) / 4 == y / 4 + (if (y + 1) % 4 == 0 then 1 else 0)
    ensures (y + 1) / 100 == y / 100 + (if (y + 1) % 100 == 0 then 1 else 0)
    ensures (y + 1) / 400 == y / 400 + (if (y + 1) % 400 == 0 then 1 else 0)
  {
    var q4, q100, q400 := y / 4, y / 100, y / 400;
    assert y == 4 * q4 + y % 4;
    assert y == 100 * q100 + y % 100;
    assert y == 400 * q400 + y % 400;
  }

  /** A multiple of 400 is a multiple of 100, which is a multiple of 4. */
  lemma MultiplesNest(year: int)
    ensures year % 400 == 0 ==> year % 100 == 0
    ensures year % 100 == 0 ==> year % 4 == 0
  {
    if year % 400 == 0 {
      var k := year / 100 - 4 * (year / 400);
      assert year % 100 == 100 * -k;
    }
    if year % 100 == 0 {
      var k := year / 4 - 25 * (year / 100);
      assert year % 4 == 4 * -k;
    }
  }

  lemma YearStep(year: int)
    requires year >= 1
    ensures DaysBeforeYear(year + 1) == DaysBeforeYear(year) + YearLength(year)
  {
    MultiplesStep(year - 1);
    MultiplesNest(year);
  }

  /** Every day of `year` comes before every day of a later year. */
  lemma {:induction false} YearsAscend(year: int, later: int)
    requires 1 <= year < later
    ensures DaysBeforeYear(year) + YearLength(year) <= DaysBeforeYear(later)
    decreases later - year
  {
    YearStep(year);
    if later > year + 1 {
      YearsAscend(year + 1, later);
      YearStep(year + 1);
    }
  }

  lemma MonthStep(year: int, month: int)
    requires 1 <= month <= 12
    ensures month < 12 ==> DaysBeforeMonth(year, month + 1) == DaysBeforeMonth(year, month) + DaysInMonth(year, month)
    ensures month == 12 ==> DaysBeforeMonth(year, month) + DaysInMonth(year, month) == YearLength(year)
  {
  }

  /** Every day of `month` comes before every day of a later month of the
      same year. */
  lemma {:induction false} MonthsAscend(year: int, month: int, later: int)
    requires 1 <= month < later <= 12
    ensures DaysBeforeMonth(year, month) + DaysInMonth(year, month) <= DaysBeforeMonth(year, later)
    decreases later - month
  {
    MonthStep(year, month);
    if later > month + 1 {
      MonthsAscend(year, month + 1, later);
      MonthStep(year, month + 1);
    }
  }

  lemma BeforeOrdinal(a: Date, b: Date)
    requires IsValid(a) && IsValid(b) && Before(a, b)
    ensures Ordinal(a) < Ordinal(b)
  {
    MonthStep(a.year, a.month);
    if a.year < b.year {
      YearsAscend(a.year, b.year);
      if a.month < 12 {
        MonthsAscend(a.year, a.month, 12);
        MonthStep(a.year, 12);
      }
    } else if a.month < b.month {
      MonthsAscend(a.year, a.month, b.month);
    }
  }

  /** Comparing dates field by field agrees with comparing their day
      numbers: the comparison is the calendar's order. */
  lemma BeforeIffOrdinal(a: Date, b: Date)
    requires IsValid(a) && IsValid(b)
    ensures Before(a, b) <==> Ordinal(a) < Ordinal(b)
  {
    if Before(a, b) {
      BeforeOrdinal(a, b);
    } else if Before(b, a) {
      BeforeOrdinal(b, a);
    }
  }

  // ---------------------------------------------------------------------
  // Due dates
  // ---------------------------------------------------------------------

  /** `y, m, d = map(int, text.split("-"))` followed by `date(y, m, d)`;
      None where any step raises. */
  function ParseDueDate(text: string): (r: Option<Date>)
    ensures r.Some? ==> IsValid(r.value)
    ensures var p := Split(text, '-');
            r.Some? <==> && |p| == 3
                         && ParseInt(p[0]).Some? && ParseInt(p[1]).Some? && ParseInt(p[2]).Some?
                         && IsValid(Date(ParseInt(p[0]).value, ParseInt(p[1]).value, ParseInt(p[2]).value))
    ensures var p := Split(text, '-');
            r.Some? ==> |p| == 3 && r.value == Date(ParseInt(p[0]).value, ParseInt(p[1]).value, ParseInt(p[2]).value)
  {
    var parts := Split(text, '-');
    if |parts| != 3 then None
    else
      match (ParseInt(parts[0]), ParseInt(parts[1]), ParseInt(parts[2]))
      case (Some(y), Some(m), Some(d)) =>
        if IsValid(Date(y, m, d)) then Some(Date(y, m, d)) else None
      case _ => None
  }

  /** The overdue flag of the task-detail page: a truthy due date, a falsy
      `completed`, and a due text that parses to a date before today. Any
      exception on the way leaves the task not overdue. */
  function IsOverdue(task: Doc, today: Date): (r: bool)
    ensures r ==> !Truthy(Get(task, "completed", Null))
    ensures r ==> "due_date" in task && task["due_date"].Str?
                  && ParseDueDate(task["due_date"].s).Some?
                  && Before(ParseDueDate(task["due_date"].s).value, today)
    ensures ("due_date" in task && task["due_date"].Str? && ParseDueDate(task["due_date"].s).Some?
             && Before(ParseDueDate(task["due_date"].s).value, today)
             && !Truthy(Get(task, "completed", Null))) ==> r
  {
    var due := Get(task, "due_date", Null);
    if Truthy(due) && !Truthy(Get(task, "completed", Null)) then
      if due.Str? then
        match ParseDueDate(due.s)
        case Some(d) => Before(d, today)
        case None => false
      else false
    else false
  }

  // ---------------------------------------------------------------------
  // Formatting, the inverse of parsing
  // ---------------------------------------------------------------------

  function DigitChar(n: nat): (c: char)
    requires n < 10
    ensures IsDigit(c) && DigitValue(c) == n
  {
    ('0' as int + n) as char
  }

  /** `str(n)` for a natural number. */
  function NatDigits(n: nat): (s: string)
    ensures s != [] && forall i :: 0 <= i < |s| ==> IsDigit(s[i])
  {
    if n < 10 then [DigitChar(n)] else NatDigits(n / 10) + [DigitChar(n % 10)]
  }

  /** `"%0*d" % (width, n)`: the digits of `n`, zero-padded on the left. */
  function Padded(n: nat, width: nat): (s: string)
    ensures s != [] && forall i :: 0 <= i < |s| ==> IsDigit(s[i])
    ensures |s| >= width
  {
    var digits := NatDigits(n);
    if |digits| >= width then digits else seq(width - |digits|, _ => '0') + digits
  }

  /** `date.isoformat()`: `YYYY-MM-DD`. */
  function FormatDate(d: Date): (r: string)
    requires IsValid(d)
    ensures forall i :: 0 <= i < |r| ==> IsDigit(r[i]) || r[i] == '-'
    ensures ParseDueDate(r) == Some(d)
  {
    NatDigitsShort(d.year, 4);
    NatDigitsShort(d.month, 2);
    NatDigitsShort(d.day, 2);
    DueTextParses(d, 4, 2, 2);
    Padded(d.year, 4) + "-" + Padded(d.month, 2) + "-" + Padded(d.day, 2)
  }

  function Pow10(k: nat): nat {
    if k == 0 then 1 else 10 * Pow10(k - 1)
  }

  /** A number below 10^k has at most k digits. */
  lemma {:induction false} NatDigitsShort(n: nat, k: nat)
    requires 1 <= k && n < Pow10(k)
    ensures |NatDigits(n)| <= k
  {
    if n >= 10 {
      NatDigitsShort(n / 10, k - 1);
    }
  }

  lemma {:induction false} NatDigitsValue(n: nat)
    ensures DigitsValue(NatDigits(n)) == n
  {
    if n >= 10 {
      NatDigitsValue(n / 10);
      var s := NatDigits(n);
      assert s[..|s| - 1] == NatDigits(n / 10);
    }
  }

  lemma {:induction false} LeadingZeroValue(s: string)
    requires forall i :: 0 <= i < |s| ==> IsDigit(s[i])
    ensures DigitsValue(['0'] + s) == DigitsValue(s)
  {
    if s != [] {
      LeadingZeroValue(s[..|s| - 1]);
      assert (['0'] + s)[..|s|] == ['0'] + s[..|s| - 1];
    }
  }

  lemma {:induction false} ZerosValue(k: nat, s: string)
    requires forall i :: 0 <= i < |s| ==> IsDigit(s[i])
    ensures DigitsValue(seq(k, _ => '0') + s) == DigitsValue(s)
  {
    if k == 0 {
      assert seq(k, _ => '0') + s == s;
    } else {
      var rest := seq(k - 1, _ => '0') + s;
      ZerosValue(k - 1, s);
      LeadingZeroValue(rest);
      assert seq(k, _ => '0') + s == ['0'] + rest;
    }
  }

  /** `int` reads a zero-padded number back. */
  lemma PaddedParses(n: nat, width: nat)
    requires |Padded(n, width)| <= MaxIntDigits
    ensures ParseInt(Padded(n, width)) == Some(n)
  {
    var s := Padded(n, width);
    var digits := NatDigits(n);
    NatDigitsValue(n);
    DigitCountAllDigits(s);
    if |digits| < width {
      ZerosValue(width - |digits|, digits);
    }
    NoSpaceText(s);
    assert IsDigitGroups(s);
  }

  /** Splitting three dash-free texts joined by dashes gives them back. */
  lemma SplitThree(a: string, b: string, c: string)
    requires '-' !in a && '-' !in b && '-' !in c
    ensures Split(a + "-" + b + "-" + c, '-') == [a, b, c]
  {
    SplitAtSeparator(b, '-', c);
    assert a + "-" + b + "-" + c == a + ['-'] + (b + ['-'] + c);
    SplitAtSeparator(a, '-', b + ['-'] + c);
  }

  lemma NoDash(s: string)
    requires forall i :: 0 <= i < |s| ==> IsDigit(s[i])
    ensures '-' !in s
  {
  }

  /** A due text of three zero-padded numbers, of any widths, parses to
      the date they give: "2024-01-05" and "2024-1-5" alike. */
  lemma DueTextParses(d: Date, yearWidth: nat, monthWidth: nat, dayWidth: nat)
    requires IsValid(d)
    requires |Padded(d.year, yearWidth)| <= MaxIntDigits
    requires |Padded(d.month, monthWidth)| <= MaxIntDigits
    requires |Padded(d.day, dayWidth)| <= MaxIntDigits
    ensures ParseDueDate(Padded(d.year, yearWidth) + "-" + Padded(d.month, monthWidth) + "-" + Padded(d.day, dayWidth)) == Some(d)
  {
    var y, m, dd := Padded(d.year, yearWidth), Padded(d.month, monthWidth), Padded(d.day, dayWidth);
    NoDash(y);
    NoDash(m);
    NoDash(dd);
    SplitThree(y, m, dd);
    PaddedParses(d.year, yearWidth);
    PaddedParses(d.month, monthWidth);
    PaddedParses(d.day, dayWidth);
  }

  /** A due date typed without zero padding is read like the padded one. */
  lemma UnpaddedDueDate()
    ensures ParseDueDate("2024-1-5") == Some(Date(2024, 1, 5))
  {
    DueTextParses(Date(2024, 1, 5), 4, 1, 1);
    YearText();
    assert Padded(1, 1) == "1" && Padded(5, 1) == "5";
    var text := Padded(2024, 4) + "-" + Padded(1, 1) + "-" + Padded(5, 1);
    assert text == "2024-1-5";
  }

  lemma YearText()
    ensures Padded(2024, 4) == "2024"
  {
    assert DigitChar(2) == '2' && DigitChar(0) == '0' && DigitChar(4) == '4';
    assert NatDigits(20) == NatDigits(2) + "0" == "20";
    assert NatDigits(202) == NatDigits(20) + "2" == "202";
    assert NatDigits(2024) == NatDigits(202) + "4" == "2024";
  }

  /** A text without whitespace is its own stripped form, and has only
      whitespace `int` skips. */
  lemma NoSpaceText(t: string)
    requires forall i :: 0 <= i < |t| ==> !IsSpace(t[i])
    ensures Strip(t) == t && IntSpaceOnly(t)
  {
    if t != [] {
      StripTrimmed(t);
    }
  }

  /** `int` reads back the decimal text of a negative number. */
  lemma NegativeParses(m: nat)
    requires |NatDigits(m)| <= MaxIntDigits
    ensures ParseInt("-" + NatDigits(m)) == Some(-(m as int))
  {
    var digits := NatDigits(m);
    var s := "-" + digits;
    NatDigitsValue(m);
    DigitCountAllDigits(digits);
    DigitCountSign('-', digits);
    assert s[1..] == digits;
    forall i | 0 <= i < |s|
      ensures !IsSpace(s[i])
    {
      if i > 0 {
        assert s[i] == digits[i - 1];
      }
    }
    NoSpaceText(s);
  }

  /** `int` reads back the decimal text of any integer, signed or not. */
  lemma SignedParses(n: int)
    requires |NatDigits(if n < 0 then -n else n)| <= MaxIntDigits
    ensures ParseInt(if n < 0 then "-" + NatDigits(-n) else NatDigits(n)) == Some(n)
  {
    if n < 0 {
      NegativeParses(-n);
    } else {
      PaddedParses(n, 0);
    }
  }

  /** For a task whose due date is stored in ISO form and that is not
      completed, the page flags it overdue exactly when its due day comes
      before today's. */
  lemma OverdueIffEarlierDay(task: Doc, due: Date, today: Date)
    requires IsValid(due) && IsValid(today)
    requires "due_date" in task && task["due_date"] == Str(FormatDate(due))
    requires !Truthy(Get(task, "completed", Null))
    ensures IsOverdue(task, today) <==> Ordinal(due) < Ordinal(today)
  {
    BeforeIffOrdinal(due, today);
  }
}
