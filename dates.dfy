/** Calendar dates as Python's `datetime.date` has them: the proleptic
    Gregorian calendar from 0001-01-01 to 9999-12-31, compared
    lexicographically, with `replace(year=...)`, `+ timedelta(days=n)`,
    `strptime(text, "%d.%m.%Y")` and the three `strftime` layouts the
    contact book prints. */
module Dates {
  import opened Text
  import opened Errors

  datatype Date = Date(year: int, month: int, day: int)

  const MinYear := 1
  const MaxYear := 9999

  predicate IsLeapYear(y: int)
  {
    y % 4 == 0 && (y % 100 != 0 || y % 400 == 0)
  }

  function DaysInMonth(y: int, m: int): (n: int)
    requires 1 <= m <= 12
    ensures 28 <= n <= 31
  {
    if m == 2 then (if IsLeapYear(y) then 29 else 28)
    else if m == 4 || m == 6 || m == 9 || m == 11 then 30
    else 31
  }

  /** The triples `datetime.date(year, month, day)` accepts without a ValueError. */
  predicate IsValid(d: Date)
  {
    MinYear <= d.year <= MaxYear && 1 <= d.month <= 12 && 1 <= d.day <= DaysInMonth(d.year, d.month)
  }

  /** A `datetime.date` value. */
  type CalendarDate = d: Date | IsValid(d) witness Date(1, 1, 1)

  predicate IsLeapDay(d: Date)
  {
    d.month == 2 && d.day == 29
  }

  // --------------------------------------------------------------- order

  /** `a < b` on dates. */
  predicate Before(a: Date, b: Date)
  {
    a.year < b.year || (a.year == b.year && (a.month < b.month || (a.month == b.month && a.day < b.day)))
  }

  /** `a <= b` on dates. */
  predicate NoLater(a: Date, b: Date)
  {
    !Before(b, a)
  }

  // ---------------------------------------------------- day arithmetic

  /** The following day; `None` after 9999-12-31. */
  function NextDay(d: CalendarDate): (r: Option<CalendarDate>)
    ensures r.None? <==> d == Date(MaxYear, 12, 31)
    ensures r.Some? ==> Before(d, r.value)
  {
    if d.day < DaysInMonth(d.year, d.month) then Some(Date(d.year, d.month, d.day + 1))
    else if d.month < 12 then Some(Date(d.year, d.month + 1, 1))
    else if d.year < MaxYear then Some(Date(d.year + 1, 1, 1))
    else None
  }

  /** No date lies strictly between a date and the next one. */
  lemma NextDayIsSuccessor(d: CalendarDate, b: CalendarDate)
    requires NextDay(d).Some? && Before(d, b)
    ensures NoLater(NextDay(d).value, b)
  {
  }

  /** `d + timedelta(days=n)`; `None` is the OverflowError raised when the
      sum would pass 9999-12-31. */
  function AddDays(d: CalendarDate, n: nat): (r: Option<CalendarDate>)
    ensures r.Some? ==> NoLater(d, r.value)
  {
    if n == 0 then Some(d)
    else match AddDays(d, n - 1)
      case None => None
      case Some(e) => NextDay(e)
  }

  /** The dates from `d` to `d + n days`, both included, are exactly the
      dates reached from `d` by adding at most `n` days. */
  lemma {:induction false} WithinDays(d: CalendarDate, n: nat, b: CalendarDate)
    requires AddDays(d, n).Some?
    ensures NoLater(d, b) && NoLater(b, AddDays(d, n).value)
            <==> exists k :: 0 <= k <= n && AddDays(d, k) == Some(b)
  {
    if n == 0 {
      if NoLater(d, b) && NoLater(b, d) {
        assert b == d;
        assert AddDays(d, 0) == Some(b);
      }
    } else {
      var x := AddDays(d, n - 1).value;
      var e := AddDays(d, n).value;
      assert NextDay(x) == Some(e);
      WithinDays(d, n - 1, b);
      WithinDays(d, n - 1, x);
      assert NoLater(d, x) by { assert AddDays(d, n - 1) == Some(x); }
      if NoLater(d, b) && NoLater(b, e) {
        if Before(x, b) {
          NextDayIsSuccessor(x, b);
          assert b == e;
          assert AddDays(d, n) == Some(b);
        } else {
          var k :| 0 <= k <= n - 1 && AddDays(d, k) == Some(b);
          assert 0 <= k <= n;
        }
      }
      if exists k :: 0 <= k <= n && AddDays(d, k) == Some(b) {
        var k :| 0 <= k <= n && AddDays(d, k) == Some(b);
        if k == n {
          assert b == e;
        } else {
          assert 0 <= k <= n - 1;
        }
      }
    }
  }

  lemma {:induction false} AddDaysInLastMonth(dd: int, m: nat)
    requires 1 <= dd && dd + m <= 31
    ensures AddDays(Date(MaxYear, 12, dd), m) == Some(Date(MaxYear, 12, dd + m))
  {
    if m > 0 {
      AddDaysInLastMonth(dd, m - 1);
    }
  }

  lemma {:induction false} AddDaysOverflowSticks(d: CalendarDate, k: nat, m: nat)
    requires k <= m && AddDays(d, k).None?
    ensures AddDays(d, m).None?
    decreases m - k
  {
    if k < m {
      AddDaysOverflowSticks(d, k + 1, m);
    }
  }

  lemma {:induction false} AddDaysBelowLimit(d: CalendarDate, n: nat, m: nat)
    requires n <= 30 && m <= n && NoLater(d, Date(MaxYear, 12, 31 - n))
    ensures AddDays(d, m).Some? && NoLater(AddDays(d, m).value, Date(MaxYear, 12, 31 - n + m))
  {
    if m > 0 {
      AddDaysBelowLimit(d, n, m - 1);
      var x := AddDays(d, m - 1).value;
      var c: CalendarDate := Date(MaxYear, 12, 31 - n + m);
      NextDayIsSuccessor(x, c);
    }
  }

  /** `d + timedelta(days=n)` raises OverflowError exactly when `d` is
      later than the `n`-th day before 9999-12-31. */
  lemma AddDaysOverflow(d: CalendarDate, n: nat)
    requires n <= 30
    ensures AddDays(d, n).None? <==> Before(Date(MaxYear, 12, 31 - n), d)
  {
    if Before(Date(MaxYear, 12, 31 - n), d) {
      var k := 31 - d.day;
      AddDaysInLastMonth(d.day, k);
      assert AddDays(d, k + 1).None?;
      AddDaysOverflowSticks(d, k + 1, n);
    } else {
      AddDaysBelowLimit(d, n, n);
    }
  }

  // ------------------------------------------------------ date.replace

  /** `d.replace(year=y)`: the same month and day in year `y`; a ValueError
      when that day does not exist there or `y` is out of range. */
  function ReplaceYear(d: CalendarDate, y: int): (r: Result<CalendarDate>)
    ensures r.Success? <==> MinYear <= y <= MaxYear && !(IsLeapDay(d) && !IsLeapYear(y))
    ensures r.Success? ==> r.value == Date(y, d.month, d.day)
    ensures r.Failure? ==> r.error == DateOutOfRange
  {
    var e := Date(y, d.month, d.day);
    if IsValid(e) then Success(e) else Failure(DateOutOfRange)
  }

  /** The next occurrence of birthday `b` seen from `today`: the birthday in
      this year, or in the next year when this year's has already passed. */
  function Occurrence(b: CalendarDate, today: CalendarDate): (r: Result<CalendarDate>)
    ensures r.Success? ==> r.value.month == b.month && r.value.day == b.day && NoLater(today, r.value)
    ensures r.Success? ==>
              (r.value.year == today.year <==> NoLater(today, Date(today.year, b.month, b.day))) &&
              (r.value.year == today.year + 1 <==> Before(Date(today.year, b.month, b.day), today))
    ensures r.Failure? <==>
              (IsLeapDay(b) && !IsLeapYear(today.year)) ||
              (Before(Date(today.year, b.month, b.day), today) &&
               (today.year == MaxYear || (IsLeapDay(b) && !IsLeapYear(today.year + 1))))
    ensures r.Failure? ==> r.error == DateOutOfRange
  {
    match ReplaceYear(b, today.year)
    case Failure(e) => Failure(e)
    case Success(o) => if Before(o, today) then ReplaceYear(b, today.year + 1) else Success(o)
  }

  // ----------------------------------------------------------- strftime

  /** `strftime("%d.%m.%Y")`. */
  function FormatDMY(d: CalendarDate): (r: string)
    ensures |r| == 10 && r[2] == '.' && r[5] == '.'
  {
    Pad2(d.day) + "." + Pad2(d.month) + "." + Pad4(d.year)
  }

  /** `strftime("%Y.%m.%d")`. */
  function FormatYMD(d: CalendarDate): (r: string)
    ensures |r| == 10 && r[4] == '.' && r[7] == '.'
  {
    Pad4(d.year) + "." + Pad2(d.month) + "." + Pad2(d.day)
  }

  /** `str(d)`, the ISO form `YYYY-MM-DD`. */
  function FormatISO(d: CalendarDate): (r: string)
    ensures |r| == 10 && r[4] == '-' && r[7] == '-'
  {
    Pad4(d.year) + "-" + Pad2(d.month) + "-" + Pad2(d.day)
  }

  // ----------------------------------------------------------- strptime

  /** What the `%d` directive matches, `3[01]|[12]\d|0[1-9]|[1-9]| [1-9]`,
      and the day it denotes. */
  function DayField(f: string): Option<int>
  {
    if |f| == 2 && IsDigit(f[0]) && IsDigit(f[1]) &&
       ((f[0] == '3' && f[1] <= '1') || f[0] == '1' || f[0] == '2' || (f[0] == '0' && f[1] != '0'))
    then Some(10 * DigitValue(f[0]) + DigitValue(f[1]))
    else if |f| == 1 && IsDigit(f[0]) && f[0] != '0' then Some(DigitValue(f[0]))
    else if |f| == 2 && f[0] == ' ' && IsDigit(f[1]) && f[1] != '0' then Some(DigitValue(f[1]))
    else None
  }

  /** What the `%m` directive matches, `1[0-2]|0[1-9]|[1-9]`, and the month. */
  function MonthField(f: string): Option<int>
  {
    if |f| == 2 && IsDigit(f[0]) && IsDigit(f[1]) &&
       ((f[0] == '1' && f[1] <= '2') || (f[0] == '0' && f[1] != '0'))
    then Some(10 * DigitValue(f[0]) + DigitValue(f[1]))
    else if |f| == 1 && IsDigit(f[0]) && f[0] != '0' then Some(DigitValue(f[0]))
    else None
  }

  /** What the `%Y` directive matches, `\d\d\d\d`, and the year. */
  function YearField(f: string): Option<int>
  {
    if |f| == 4 && IsDigit(f[0]) && IsDigit(f[1]) && IsDigit(f[2]) && IsDigit(f[3])
    then Some(1000 * DigitValue(f[0]) + 100 * DigitValue(f[1]) + 10 * DigitValue(f[2]) + DigitValue(f[3]))
    else None
  }

  /** `Birthday(text)`: `datetime.strptime(text, "%d.%m.%Y").date()`. The
      directives are separated by the first and the second `.`, the year
      must end the text, and the triple must be a real date; every failure
      is the Birthday's ValueError. */
  function ParseBirthday(text: string): (r: Result<CalendarDate>)
    ensures r.Failure? ==> r.error == InvalidDate
  {
    var i := FirstIndex(text, '.');
    if i < 0 then Failure(InvalidDate)
    else
      var rest := text[i + 1..];
      var j := FirstIndex(rest, '.');
      if j < 0 then Failure(InvalidDate)
      else
        Assemble(DayField(text[..i]), MonthField(rest[..j]), YearField(rest[j + 1..]))
  }

  /** The date named by three read fields, when all were read and name a
      real date. */
  function Assemble(day: Option<int>, month: Option<int>, year: Option<int>): (r: Result<CalendarDate>)
    ensures r.Failure? ==> r.error == InvalidDate
  {
    match (day, month, year)
    case (Some(d), Some(m), Some(y)) =>
      var date := Date(y, m, d);
      if IsValid(date) then Success(date) else Failure(InvalidDate)
    case _ => Failure(InvalidDate)
  }

  // ------------------------------------ what strptime accepts, spelled out

  /** The spellings of day `n`: two digits, or for days 1 to 9 also one
      digit alone or after a space. */
  predicate SpellsDay(f: string, n: int)
  {
    1 <= n <= 31 && (f == Pad2(n) || (n <= 9 && (f == [DigitChar(n)] || f == [' ', DigitChar(n)])))
  }

  /** The spellings of month `n`: two digits, or for months 1 to 9 one digit. */
  predicate SpellsMonth(f: string, n: int)
  {
    1 <= n <= 12 && (f == Pad2(n) || (n <= 9 && f == [DigitChar(n)]))
  }

  /** The spelling of year `n`: exactly four digits. */
  predicate SpellsYear(f: string, n: int)
  {
    0 <= n <= 9999 && f == Pad4(n)
  }

  lemma DayFieldSpellings(f: string, n: int)
    ensures DayField(f) == Some(n) <==> SpellsDay(f, n)
  {
    if |f| == 2 && IsDigit(f[0]) && IsDigit(f[1]) {
      Pad2OfDigits(f);
    }
    if |f| == 1 && IsDigit(f[0]) {
      DigitCharOfValue(f[0]);
      assert f == [f[0]];
    }
    if |f| == 2 && IsDigit(f[1]) {
      DigitCharOfValue(f[1]);
      assert f == [f[0], f[1]];
    }
  }

  lemma MonthFieldSpellings(f: string, n: int)
    ensures MonthField(f) == Some(n) <==> SpellsMonth(f, n)
  {
    if |f| == 2 && IsDigit(f[0]) && IsDigit(f[1]) {
      Pad2OfDigits(f);
    }
    if |f| == 1 && IsDigit(f[0]) {
      DigitCharOfValue(f[0]);
      assert f == [f[0]];
    }
  }

  lemma YearFieldSpellings(f: string, n: int)
    ensures YearField(f) == Some(n) <==> SpellsYear(f, n)
  {
    if |f| == 4 && IsDigit(f[0]) && IsDigit(f[1]) && IsDigit(f[2]) && IsDigit(f[3]) {
      Pad4OfDigits(f);
    }
  }

  /** In `a + "." + b` with no dot in `a`, the first dot ends `a`. */
  lemma FirstDot(a: string, b: string)
    requires '.' !in a
    ensures FirstIndex(a + "." + b, '.') == |a|
    ensures (a + "." + b)[..|a|] == a && (a + "." + b)[|a| + 1..] == b
  {
    var s := a + "." + b;
    assert s[|a|] == '.';
    assert s[..|a|] == a;
  }

  lemma SpellingsHaveNoDot(df: string, d: int, mf: string, m: int, yf: string, y: int)
    requires SpellsDay(df, d) && SpellsMonth(mf, m) && SpellsYear(yf, y)
    ensures '.' !in df && '.' !in mf
  {
  }

  /** Where the first two dots of three joined fields lie, and what they
      cut off. */
  lemma DotsOfJoin(df: string, mf: string, yf: string)
    requires '.' !in df && '.' !in mf
    ensures var text := df + "." + mf + "." + yf;
            FirstIndex(text, '.') == |df| && text[..|df|] == df && text[|df| + 1..] == mf + "." + yf
    ensures FirstIndex(mf + "." + yf, '.') == |mf| && (mf + "." + yf)[..|mf|] == mf && (mf + "." + yf)[|mf| + 1..] == yf
  {
    var tail := mf + "." + yf;
    calc {
      df + "." + mf + "." + yf;
      (df + ".") + (mf + "." + yf);
      df + "." + tail;
    }
    FirstDot(df, tail);
    FirstDot(mf, yf);
  }

  /** With no dot in the day and month fields, the text splits back into
      the three fields. */
  lemma ParseAtDots(df: string, mf: string, yf: string)
    requires '.' !in df && '.' !in mf
    ensures ParseBirthday(df + "." + mf + "." + yf) == Assemble(DayField(df), MonthField(mf), YearField(yf))
  {
    DotsOfJoin(df, mf, yf);
  }

  /** Every spelling of a triple parses: to the date when it is a real one,
      and to the Birthday's ValueError otherwise. */
  lemma ParseSpelled(df: string, mf: string, yf: string, d: Date)
    requires SpellsDay(df, d.day) && SpellsMonth(mf, d.month) && SpellsYear(yf, d.year)
    ensures ParseBirthday(df + "." + mf + "." + yf) == if IsValid(d) then Success(d) else Failure(InvalidDate)
  {
    SpellingsHaveNoDot(df, d.day, mf, d.month, yf, d.year);
    ParseAtDots(df, mf, yf);
    DayFieldSpellings(df, d.day);
    MonthFieldSpellings(mf, d.month);
    YearFieldSpellings(yf, d.year);
  }

  /** A text cut at a dot at `i` and, after it, at a dot at `j`, is its
      three pieces joined by dots. */
  lemma CutTwice(text: string, i: int, j: int)
    requires 0 <= i < |text| && text[i] == '.'
    requires 0 <= j < |text| - i - 1 && text[i + 1 + j] == '.'
    ensures text == text[..i] + "." + text[i + 1..][..j] + "." + text[i + 1..][j + 1..]
  {
    var rest := text[i + 1..];
    assert rest == rest[..j] + "." + rest[j + 1..];
    assert text == text[..i] + "." + rest;
  }

  /** Text that parses is three fields joined by its first two dots. */
  lemma SplitAtDots(text: string) returns (df: string, mf: string, yf: string)
    requires ParseBirthday(text).Success?
    ensures text == df + "." + mf + "." + yf
    ensures ParseBirthday(text) == Assemble(DayField(df), MonthField(mf), YearField(yf))
  {
    var i := FirstIndex(text, '.');
    var rest := text[i + 1..];
    var j := FirstIndex(rest, '.');
    CutTwice(text, i, j);
    df, mf, yf := text[..i], rest[..j], rest[j + 1..];
  }

  /** Whatever parses is a spelling of the date it parses to. */
  lemma ParsedIsSpelled(text: string) returns (df: string, mf: string, yf: string)
    requires ParseBirthday(text).Success?
    ensures text == df + "." + mf + "." + yf
    ensures var d := ParseBirthday(text).value;
            SpellsDay(df, d.day) && SpellsMonth(mf, d.month) && SpellsYear(yf, d.year)
  {
    var d := ParseBirthday(text).value;
    df, mf, yf := SplitAtDots(text);
    DayFieldSpellings(df, d.day);
    MonthFieldSpellings(mf, d.month);
    YearFieldSpellings(yf, d.year);
  }

  /** A stored birthday printed with `%d.%m.%Y` parses back to itself. */
  lemma BirthdayRoundTrip(d: CalendarDate)
    ensures ParseBirthday(FormatDMY(d)) == Success(d)
  {
    ParseSpelled(Pad2(d.day), Pad2(d.month), Pad4(d.year), d);
  }

  /** Text in the zero-padded `DD.MM.YYYY` layout that parses is printed
      back, character for character, by `%d.%m.%Y`. */
  lemma PaddedTextRoundTrip(text: string)
    requires ParseBirthday(text).Success?
    requires |text| == 10 && IsDigit(text[0])
    ensures FormatDMY(ParseBirthday(text).value) == text
  {
    var df, mf, yf := ParsedIsSpelled(text);
    assert |text| == |df| + |mf| + |yf| + 2;
    assert df[0] == text[0];
  }
}
