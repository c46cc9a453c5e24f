/** Civil dates of the proleptic Gregorian calendar, as Go's time.Time and Python's datetime count them, and their
    text YYYY-MM-DD. */
module Calendar {
  import opened Basics
  import opened Text

  datatype Date = Date(year: int, month: int, day: int)

  predicate IsLeap(year: int) { year % 4 == 0 && (year % 100 != 0 || year % 400 == 0) }

  function DaysIn(year: int, month: int): (n: int)
    ensures 28 <= n <= 31
  {
    if month == 2 then (if IsLeap(year) then 29 else 28)
    else if month == 4 || month == 6 || month == 9 || month == 11 then 30
    else 31
  }

  predicate IsDate(d: Date) { 1 <= d.month <= 12 && 1 <= d.day <= DaysIn(d.year, d.month) }

  predicate Before(a: Date, b: Date) {
    a.year < b.year || (a.year == b.year && (a.month < b.month || (a.month == b.month && a.day < b.day)))
  }

  predicate AtMost(a: Date, b: Date) { a == b || Before(a, b) }

  function NextDay(d: Date): (next: Date)
    requires IsDate(d)
    ensures IsDate(next)
  {
    if d.day < DaysIn(d.year, d.month) then Date(d.year, d.month, d.day + 1)
    else if d.month < 12 then Date(d.year, d.month + 1, 1)
    else Date(d.year + 1, 1, 1)
  }

  /** The days of the years before this one, counted from year 1. */
  function YearStart(year: int): int {
    365 * (year - 1) + (year - 1) / 4 - (year - 1) / 100 + (year - 1) / 400
  }

  function MonthStart(year: int, month: int): int
    requires 1 <= month <= 12
    decreases month
  {
    if month == 1 then 0 else MonthStart(year, month - 1) + DaysIn(year, month - 1)
  }

  /** Day 1 is 0001-01-01. */
  function DayNumber(d: Date): int
    requires IsDate(d)
  {
    YearStart(d.year) + MonthStart(d.year, d.month) + d.day
  }

  lemma YearLength(year: int)
    ensures YearStart(year + 1) == YearStart(year) + if IsLeap(year) then 366 else 365
  {
    assert year / 4 == (year - 1) / 4 + if year % 4 == 0 then 1 else 0;
    assert year / 100 == (year - 1) / 100 + if year % 100 == 0 then 1 else 0;
    assert year / 400 == (year - 1) / 400 + if year % 400 == 0 then 1 else 0;
    if year % 400 == 0 {
      ByHundred(year);
    }
    if year % 100 == 0 {
      ByFour(year);
    }
  }

  lemma ByHundred(year: int)
    requires year % 400 == 0
    ensures year % 100 == 0
  {
    var q := year / 400;
    assert 100 * (4 * q) <= year < 100 * (4 * q + 1);
    assert year / 100 == 4 * q;
  }

  lemma ByFour(year: int)
    requires year % 100 == 0
    ensures year % 4 == 0
  {
    var q := year / 100;
    assert 4 * (25 * q) <= year < 4 * (25 * q + 1);
    assert year / 4 == 25 * q;
  }

  lemma MonthsFillTheYear(year: int)
    ensures MonthStart(year, 12) == if IsLeap(year) then 335 else 334
  {
    assert MonthStart(year, 3) == 31 + DaysIn(year, 2);
    assert MonthStart(year, 6) == MonthStart(year, 3) + 92;
    assert MonthStart(year, 9) == MonthStart(year, 6) + 92;
    assert MonthStart(year, 12) == MonthStart(year, 9) + 91;
  }

  lemma DayOne()
    ensures DayNumber(Date(1, 1, 1)) == 1
  {
  }

  /** Day numbers count the days one by one. */
  lemma NextDayNumber(d: Date)
    requires IsDate(d)
    ensures DayNumber(NextDay(d)) == DayNumber(d) + 1
  {
    if d.day == DaysIn(d.year, d.month) && d.month == 12 {
      YearLength(d.year);
      MonthsFillTheYear(d.year);
    }
  }

  lemma {:induction false} MonthsGrow(year: int, m: int, n: int)
    requires 1 <= m <= n <= 12
    ensures m < n ==> MonthStart(year, m) + DaysIn(year, m) <= MonthStart(year, n)
    ensures MonthStart(year, m) <= MonthStart(year, n)
    decreases n - m
  {
    if m < n {
      MonthsGrow(year, m, n - 1);
    }
  }

  lemma DayInYear(d: Date)
    requires IsDate(d)
    ensures YearStart(d.year) < DayNumber(d) <= YearStart(d.year + 1)
  {
    MonthsGrow(d.year, 1, d.month);
    MonthsGrow(d.year, d.month, 12);
    YearLength(d.year);
    MonthsFillTheYear(d.year);
  }

  /** The order of dates is the order of their numbers; so distinct dates have distinct numbers. */
  lemma DayNumberOrder(a: Date, b: Date)
    requires IsDate(a) && IsDate(b)
    ensures Before(a, b) <==> DayNumber(a) < DayNumber(b)
    ensures a == b <==> DayNumber(a) == DayNumber(b)
  {
    if a.year == b.year {
      MonthsGrow(a.year, Min(a.month, b.month), Max(a.month, b.month));
    } else {
      DayInYear(a);
      DayInYear(b);
      YearsGrow(Min(a.year, b.year) + 1, Max(a.year, b.year));
    }
  }

  lemma YearsGrow(y: int, z: int)
    requires y <= z
    ensures YearStart(y) <= YearStart(z)
  {}

  /** The date with a given number of days later. */
  function AddDays(d: Date, n: nat): (e: Date)
    requires IsDate(d)
    ensures IsDate(e) && e.year >= d.year
  {
    if n == 0 then d else NextDay(AddDays(d, n - 1))
  }

  lemma {:induction false} AddDaysNumber(d: Date, n: nat)
    requires IsDate(d)
    ensures DayNumber(AddDays(d, n)) == DayNumber(d) + n
  {
    if n > 0 {
      AddDaysNumber(d, n - 1);
      NextDayNumber(AddDays(d, n - 1));
    }
  }

  lemma {:induction false} AddDaysTwice(d: Date, m: nat, n: nat)
    requires IsDate(d)
    ensures AddDays(AddDays(d, m), n) == AddDays(d, m + n)
  {
    if n > 0 {
      AddDaysTwice(d, m, n - 1);
    }
  }

  lemma LaterIsAfter(d: Date, m: nat, n: nat)
    requires IsDate(d) && m < n
    ensures Before(AddDays(d, m), AddDays(d, n))
  {
    AddDaysNumber(d, m);
    AddDaysNumber(d, n);
    DayNumberOrder(AddDays(d, m), AddDays(d, n));
  }

  function PreviousDay(d: Date): (p: Date)
    requires IsDate(d)
    ensures IsDate(p) && NextDay(p) == d
  {
    if d.day > 1 then Date(d.year, d.month, d.day - 1)
    else if d.month > 1 then Date(d.year, d.month - 1, DaysIn(d.year, d.month - 1))
    else Date(d.year - 1, 12, 31)
  }

  /** The date with a given number of days earlier, or later when it is negative. */
  function SubtractDays(d: Date, n: int): (e: Date)
    requires IsDate(d)
    ensures IsDate(e)
    decreases Max(n, 0)
  {
    if n <= 0 then AddDays(d, -n) else SubtractDays(PreviousDay(d), n - 1)
  }

  lemma {:induction false} SubtractDaysNumber(d: Date, n: int)
    requires IsDate(d)
    ensures DayNumber(SubtractDays(d, n)) == DayNumber(d) - n
    decreases Max(n, 0)
  {
    if n <= 0 {
      AddDaysNumber(d, -n);
    } else {
      SubtractDaysNumber(PreviousDay(d), n - 1);
      NextDayNumber(PreviousDay(d));
    }
  }

  /** What AddDate(0, 1, 0) makes of the first day of a month. */
  function FirstOfNextMonth(year: int, month: int): Date {
    if month == 12 then Date(year + 1, 1, 1) else Date(year, month + 1, 1)
  }

  // Text.

  /** A year as time.Format writes it: at least four digits behind the sign. */
  function YearText(year: int): string { if year < 0 then "-" + Pad(-year, 4) else Pad(year, 4) }

  function FormatDate(d: Date): string
    requires IsDate(d)
  {
    YearText(d.year) + "-" + Pad(d.month, 2) + "-" + Pad(d.day, 2)
  }

  /** time.Parse("2006-01-02", s): four digits, two and two, and a day that the month has. */
  function ParseDate(s: string): (d: Option<Date>)
    ensures d.Some? ==> IsDate(d.value)
  {
    if |s| != 10 || s[4] != '-' || s[7] != '-' || !AllDigits(s[..4]) || !AllDigits(s[5..7]) || !AllDigits(s[8..])
    then None
    else
      var d := Date(Value(s[..4]), Value(s[5..7]), Value(s[8..]));
      if IsDate(d) then Some(d) else None
  }

  lemma TwoDigits(n: nat)
    requires n < 100
    ensures |Pad(n, 2)| == 2
  {
    assert Pow10(2) == 100;
    FitsWidth(n, 2);
  }

  lemma FourDigits(n: nat)
    ensures |Pad(n, 4)| == 4 <==> n <= 9999
  {
    assert Pow10(4) == 10 * (10 * Pow10(2)) == 10_000;
    FitsWidth(n, 4);
  }

  /** A date survives being written and read exactly when its year has at most four digits and no sign. */
  lemma DateRoundTrip(d: Date)
    requires IsDate(d)
    ensures ParseDate(FormatDate(d)) == if 0 <= d.year <= 9999 then Some(d) else None
  {
    hide Pow10, Pad, Digits, Value;
    var s := FormatDate(d);
    TwoDigits(d.month);
    TwoDigits(d.day);
    if d.year < 0 {
      assert s[..4][0] == '-';
    } else {
      FourDigits(d.year);
      if d.year <= 9999 {
        assert s[..4] == Pad(d.year, 4) && s[5..7] == Pad(d.month, 2) && s[8..] == Pad(d.day, 2);
      } else {
        assert |s| > 10;
      }
    }
  }

  lemma MonthLengths(year: int)
    ensures DaysIn(year, 1) == DaysIn(year, 3) == DaysIn(year, 5) == DaysIn(year, 7) == DaysIn(year, 8) == 31
    ensures DaysIn(year, 10) == DaysIn(year, 12) == 31
    ensures DaysIn(year, 4) == DaysIn(year, 6) == DaysIn(year, 9) == DaysIn(year, 11) == 30
    ensures DaysIn(year, 2) == if (year % 4 == 0 && year % 100 != 0) || year % 400 == 0 then 29 else 28
  {
    if year % 400 == 0 {
      ByHundred(year);
    }
    if year % 100 == 0 {
      ByFour(year);
    }
  }

  lemma MonthAndDay(m: string, d: string, n: string, e: string)
    requires AllDigits(m) && AllDigits(d) && AllDigits(n) && AllDigits(e) && |m| == |n| == |d| == |e| == 2
    ensures LexLess(("-" + m) + ("-" + d), ("-" + n) + ("-" + e)) <==>
            Value(m) < Value(n) || (Value(m) == Value(n) && Value(d) < Value(e))
  {
    hide LexLess, Value;
    SameLengthOrder(m, n);
    SameLengthOrder(d, e);
    LexSamePrefix("-", m, n);
    if m == n {
      LexSamePrefix("-" + m, "-" + d, "-" + e);
      LexSamePrefix("-", d, e);
    } else {
      assert ("-" + m)[1..] == m && ("-" + n)[1..] == n;
      LexByFront("-" + m, "-" + n, "-" + d, "-" + e);
    }
  }

  lemma Regroup(y: string, m: string, d: string)
    ensures y + "-" + m + "-" + d == y + (("-" + m) + ("-" + d))
  {
  }

  lemma SameYear(y: string, m: string, d: string, n: string, e: string)
    requires AllDigits(m) && AllDigits(d) && AllDigits(n) && AllDigits(e) && |m| == |n| == |d| == |e| == 2
    ensures LexLess(y + "-" + m + "-" + d, y + "-" + n + "-" + e) <==>
            Value(m) < Value(n) || (Value(m) == Value(n) && Value(d) < Value(e))
  {
    hide LexLess, Value, AllDigits;
    MonthAndDay(m, d, n, e);
    LexSamePrefix(y, ("-" + m) + ("-" + d), ("-" + n) + ("-" + e));
    Regroup(y, m, d);
    Regroup(y, n, e);
  }

  lemma OtherYear(y: string, m: string, d: string, z: string, n: string, e: string)
    requires AllDigits(y) && AllDigits(z) && |y| == |z| && y != z
    ensures LexLess(y + "-" + m + "-" + d, z + "-" + n + "-" + e) <==> Value(y) < Value(z)
  {
    hide LexLess, Value, AllDigits;
    SameLengthOrder(y, z);
    LexByFront(y, z, "-" + m + "-" + d, "-" + n + "-" + e);
    assert y + "-" + m + "-" + d == y + ("-" + m + "-" + d);
    assert z + "-" + n + "-" + e == z + ("-" + n + "-" + e);
  }

  /** Dates with four-digit years are in the order of their texts. */
  lemma TextOrderIsDateOrder(a: Date, b: Date)
    requires IsDate(a) && IsDate(b) && 0 <= a.year <= 9999 && 0 <= b.year <= 9999
    ensures |FormatDate(a)| == |FormatDate(b)| == 10
    ensures LexLess(FormatDate(a), FormatDate(b)) <==> Before(a, b)
  {
    hide Pad, LexLess, Value, AllDigits;
    FourDigits(a.year);
    FourDigits(b.year);
    TwoDigits(a.month);
    TwoDigits(b.month);
    TwoDigits(a.day);
    TwoDigits(b.day);
    var y, z := Pad(a.year, 4), Pad(b.year, 4);
    if y == z {
      SameYear(y, Pad(a.month, 2), Pad(a.day, 2), Pad(b.month, 2), Pad(b.day, 2));
    } else {
      OtherYear(y, Pad(a.month, 2), Pad(a.day, 2), z, Pad(b.month, 2), Pad(b.day, 2));
      SameLengthOrder(y, z);
    }
  }

  /** Both kinds of years, letter by letter. */
  lemma LabourDayAndTheIdes()
    ensures FormatDate(Date(2024, 5, 1)) == "2024-05-01"
    ensures FormatDate(Date(-44, 3, 15)) == "-0044-03-15"
  {
    hide Pad;
    PadFour('2', '0', '2', '4');
    PadTwo('0', '5');
    PadTwo('0', '1');
    PadFour('0', '0', '4', '4');
    PadTwo('0', '3');
    PadTwo('1', '5');
  }
}
