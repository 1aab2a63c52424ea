/**
 * Calendar dates as Python's `datetime` sees them: the proleptic Gregorian
 * calendar, years 1 to 9999, a day number (`toordinal`) in which 0001-01-01
 * is day 1, adding a number of days (`date + timedelta(days=n)`), and the
 * ISO text form written by `strftime("%Y-%m-%d")` and read by
 * `strptime(s, "%Y-%m-%d")`.
 */
module Dates {
  import opened Wrappers
  import opened Text

  datatype Date = Date(year: int, month: int, day: int)

  /** Python's `datetime.MAXYEAR`. */
  const MaxYear: int := 9999

  predicate IsLeap(y: int)
  {
    y % 4 == 0 && (y % 100 != 0 || y % 400 == 0)
  }

  function DaysInYear(y: int): int
  {
    if IsLeap(y) then 366 else 365
  }

  function DaysInMonth(y: int, m: int): int
    requires 1 <= m <= 12
  {
    if m == 2 then (if IsLeap(y) then 29 else 28)
    else if m == 4 || m == 6 || m == 9 || m == 11 then 30
    else 31
  }

  /** A day of the calendar, from year 1 on (no upper bound on the year). */
  predicate IsCalendarDate(d: Date)
  {
    1 <= d.year && 1 <= d.month <= 12 && 1 <= d.day <= DaysInMonth(d.year, d.month)
  }

  /** A date Python's `datetime.date` can hold. */
  predicate InRange(d: Date)
  {
    IsCalendarDate(d) && d.year <= MaxYear
  }

  /** Days in the years before year `y`. */
  function DaysBeforeYear(y: int): int
    requires y >= 1
  {
    var x := y - 1;
    x * 365 + x / 4 - x / 100 + x / 400
  }

  /** Days in the months of year `y` before month `m` (Python's `_days_before_month`). */
  function DaysBeforeMonth(y: int, m: int): int
    requires 1 <= m <= 12
  {
    var common :=
      if m == 1 then 0 else if m == 2 then 31 else if m == 3 then 59
      else if m == 4 then 90 else if m == 5 then 120 else if m == 6 then 151
      else if m == 7 then 181 else if m == 8 then 212 else if m == 9 then 243
      else if m == 10 then 273 else if m == 11 then 304 else 334;
    common + (if m > 2 && IsLeap(y) then 1 else 0)
  }

  /** Python's `date.toordinal()`: 0001-01-01 is day 1. */
  function Ordinal(d: Date): int
    requires IsCalendarDate(d)
  {
    DaysBeforeYear(d.year) + DaysBeforeMonth(d.year, d.month) + d.day
  }

  /** The leap-year rule and the day count of the years agree. */
  lemma YearLength(y: int)
    requires y >= 1
    ensures DaysBeforeYear(y + 1) == DaysBeforeYear(y) + DaysInYear(y)
  {
    StepQuotient4(y);
    StepQuotient100(y);
    StepQuotient400(y);
  }

  /** Going from `y - 1` to `y` adds one to the quotient by 4 exactly when `y` is a multiple of 4. */
  lemma StepQuotient4(y: int)
    ensures y / 4 == (y - 1) / 4 + (if y % 4 == 0 then 1 else 0)
  {
  }

  /** The same for 100. */
  lemma StepQuotient100(y: int)
    ensures y / 100 == (y - 1) / 100 + (if y % 100 == 0 then 1 else 0)
  {
  }

  /** The same for 400. */
  lemma StepQuotient400(y: int)
    ensures y / 400 == (y - 1) / 400 + (if y % 400 == 0 then 1 else 0)
  {
  }

  /** Each month starts where the one before it ends. */
  lemma MonthStep(y: int, m: int)
    requires 1 <= m < 12
    ensures DaysBeforeMonth(y, m + 1) == DaysBeforeMonth(y, m) + DaysInMonth(y, m)
  {
  }

  /** Later months start later, and every month ends within its year. */
  lemma {:induction false} MonthBounds(y: int, m: int, n: int)
    requires 1 <= m <= n <= 12
    ensures DaysBeforeMonth(y, m) + DaysInMonth(y, m) <= DaysBeforeMonth(y, n) + DaysInMonth(y, n)
    ensures m < n ==> DaysBeforeMonth(y, m) + DaysInMonth(y, m) <= DaysBeforeMonth(y, n)
    decreases n - m
  {
    if m < n {
      MonthBounds(y, m, n - 1);
      MonthStep(y, n - 1);
    }
  }

  /** Later years start later. */
  lemma {:induction false} YearsIncrease(y: int, z: int)
    requires 1 <= y <= z
    ensures DaysBeforeYear(y) + (z - y) * 365 <= DaysBeforeYear(z)
    decreases z - y
  {
    if y < z {
      YearsIncrease(y, z - 1);
      YearLength(z - 1);
      assert DaysBeforeYear(z) >= DaysBeforeYear(z - 1) + 365;
      assert (z - y) * 365 == (z - 1 - y) * 365 + 365;
    }
  }

  /** The day number of a date lies within the days of its year. */
  lemma OrdinalWithinYear(d: Date)
    requires IsCalendarDate(d)
    ensures DaysBeforeYear(d.year) < Ordinal(d) <= DaysBeforeYear(d.year + 1)
  {
    MonthBounds(d.year, d.month, 12);
    YearLength(d.year);
  }

  /** A date has year at most `z` exactly when its day number is at most the last day of year `z`. */
  lemma YearBoundByOrdinal(d: Date, z: int)
    requires IsCalendarDate(d) && z >= 1
    ensures d.year <= z <==> Ordinal(d) <= DaysBeforeYear(z + 1)
  {
    OrdinalWithinYear(d);
    if d.year <= z {
      YearsIncrease(d.year + 1, z + 1);
    } else {
      YearsIncrease(z + 1, d.year);
    }
  }

  /** Distinct dates have distinct day numbers, so a day number names one date. */
  lemma OrdinalInjective(d: Date, e: Date)
    requires IsCalendarDate(d) && IsCalendarDate(e)
    requires Ordinal(d) == Ordinal(e)
    ensures d == e
  {
    OrdinalWithinYear(d);
    OrdinalWithinYear(e);
    if d.year < e.year {
      YearsIncrease(d.year + 1, e.year);
    } else if e.year < d.year {
      YearsIncrease(e.year + 1, d.year);
    }
    assert d.year == e.year;
    if d.month < e.month {
      MonthBounds(d.year, d.month, e.month);
    } else if e.month < d.month {
      MonthBounds(d.year, e.month, d.month);
    }
  }

  /** The first day of the month after the month of `d`. */
  function FirstOfNextMonth(d: Date): Date
  {
    if d.month == 12 then Date(d.year + 1, 1, 1) else Date(d.year, d.month + 1, 1)
  }

  /**
   * `d + timedelta(days=n)` on the unbounded calendar, walking month by
   * month: the result is the calendar date whose day number is `n` more.
   */
  function AddDays(d: Date, n: nat): (r: Date)
    requires IsCalendarDate(d)
    ensures IsCalendarDate(r) && Ordinal(r) == Ordinal(d) + n
    decreases n
  {
    var left := DaysInMonth(d.year, d.month) - d.day;
    if n <= left then
      d.(day := d.day + n)
    else
      var next := FirstOfNextMonth(d);
      assert Ordinal(next) == Ordinal(d) + left + 1 by {
        if d.month == 12 {
          YearLength(d.year);
        } else {
          MonthStep(d.year, d.month);
        }
      }
      AddDays(next, n - left - 1)
  }

  /**
   * The expiration date the extractor derives: `effective + timedelta(days=365)
   * - timedelta(days=1)`. Python raises `OverflowError` when the intermediate
   * date passes year 9999; that is `None` here.
   */
  function Expiration(effective: Date): (r: Option<Date>)
    requires InRange(effective)
    ensures r.None? <==> Ordinal(effective) + 365 > DaysBeforeYear(MaxYear + 1)
    ensures r.Some? ==> InRange(r.value) && Ordinal(r.value) == Ordinal(effective) + 364
  {
    var later := AddDays(effective, 365);
    YearBoundByOrdinal(later, MaxYear);
    if later.year > MaxYear then None
    else
      var r := AddDays(effective, 364);
      YearBoundByOrdinal(r, MaxYear);
      Some(r)
  }

  /** The expiration of the first day of a month overflows only in year 9999. */
  lemma ExpirationOfFirstOfMonth(y: int, m: int)
    requires 1 <= y <= MaxYear && 1 <= m <= 12
    ensures Expiration(Date(y, m, 1)).None? <==> y == MaxYear
  {
    var d := Date(y, m, 1);
    OrdinalWithinYear(d);
    MonthBounds(y, m, 12);
    YearLength(MaxYear);
    if y < MaxYear {
      YearsIncrease(y + 1, MaxYear);
    }
  }

  /** The worked example: a term starting 2024-03-01 expires 2025-02-28. */
  lemma ExpirationExample()
    ensures Expiration(Date(2024, 3, 1)) == Some(Date(2025, 2, 28))
  {
    var r := Expiration(Date(2024, 3, 1)).value;
    assert Ordinal(Date(2025, 2, 28)) == Ordinal(Date(2024, 3, 1)) + 364 by {
      YearLength(2024);
    }
    OrdinalInjective(r, Date(2025, 2, 28));
  }

  // ---------------------------------------------------------------------------
  // ISO text form
  // ---------------------------------------------------------------------------

  /** Two zero-padded digits, as `%m` and `%d` write them. */
  function Pad2(n: nat): (s: string)
    requires n < 100
  {
    [DigitChar(n / 10), DigitChar(n % 10)]
  }

  /** Four zero-padded digits, as `%Y` writes a year. */
  function Pad4(n: nat): (s: string)
    requires n < 10000
  {
    [DigitChar(n / 1000), DigitChar(n / 100 % 10), DigitChar(n / 10 % 10), DigitChar(n % 10)]
  }

  lemma DigitsValue2(s: string)
    requires |s| == 2 && AllDigits(s)
    ensures DigitsValue(s) == DigitValue(s[0]) * 10 + DigitValue(s[1])
  {
    assert s[..1][..0] == [];
    assert DigitsValue(s[..1]) == DigitValue(s[0]);
  }

  lemma DigitsValue4(s: string)
    requires |s| == 4 && AllDigits(s)
    ensures DigitsValue(s) == DigitValue(s[0]) * 1000 + DigitValue(s[1]) * 100
                              + DigitValue(s[2]) * 10 + DigitValue(s[3])
  {
    assert s[..3][..2] == s[..2];
    DigitsValue2(s[..2]);
  }

  lemma Pad2RoundTrip(n: nat)
    requires n < 100
    ensures AllDigits(Pad2(n)) && DigitsValue(Pad2(n)) == n
  {
    DigitsValue2(Pad2(n));
  }

  lemma Pad4RoundTrip(n: nat)
    requires n < 10000
    ensures AllDigits(Pad4(n)) && DigitsValue(Pad4(n)) == n
  {
    DigitsValue4(Pad4(n));
    assert n / 100 / 10 == n / 1000;
    assert n / 10 / 10 == n / 100;
  }

  lemma DigitsPad2(s: string)
    requires |s| == 2 && AllDigits(s)
    ensures DigitsValue(s) < 100 && Pad2(DigitsValue(s)) == s
  {
    DigitsValue2(s);
  }

  lemma DigitsPad4(s: string)
    requires |s| == 4 && AllDigits(s)
    ensures DigitsValue(s) < 10000 && Pad4(DigitsValue(s)) == s
  {
    DigitsValue4(s);
    var a, b, c, d := DigitValue(s[0]), DigitValue(s[1]), DigitValue(s[2]), DigitValue(s[3]);
    var v := a * 1000 + b * 100 + c * 10 + d;
    assert v / 1000 == a;
    assert v / 100 == a * 10 + b;
    assert v / 100 % 10 == b;
    assert v / 10 == a * 100 + b * 10 + c;
    assert v / 10 % 10 == c;
    assert v % 10 == d;
    assert Pad4(v) == [DigitChar(a), DigitChar(b), DigitChar(c), DigitChar(d)];
  }

  /** `date.strftime("%Y-%m-%d")`. */
  function FormatIso(d: Date): (s: string)
    requires InRange(d)
    ensures |s| == 10 && s[4] == '-' && s[7] == '-'
  {
    Pad4(d.year) + "-" + Pad2(d.month) + "-" + Pad2(d.day)
  }

  /**
   * `datetime.strptime(s, "%Y-%m-%d")` on the text form `FormatIso` writes:
   * four digits, two digits, two digits, separated by `-`, naming a real day.
   */
  function ParseIso(s: string): (r: Option<Date>)
    ensures r.Some? ==> InRange(r.value)
  {
    if |s| == 10 && s[4] == '-' && s[7] == '-'
       && AllDigits(s[..4]) && AllDigits(s[5..7]) && AllDigits(s[8..]) then
      var d := Date(DigitsValue(s[..4]), DigitsValue(s[5..7]), DigitsValue(s[8..]));
      if InRange(d) then Some(d) else None
    else
      None
  }

  /** Parsing what was formatted gives the date back. */
  lemma ParseFormatIso(d: Date)
    requires InRange(d)
    ensures ParseIso(FormatIso(d)) == Some(d)
  {
    var s := FormatIso(d);
    assert s[..4] == Pad4(d.year);
    assert s[5..7] == Pad2(d.month);
    assert s[8..] == Pad2(d.day);
    Pad4RoundTrip(d.year);
    Pad2RoundTrip(d.month);
    Pad2RoundTrip(d.day);
  }

  /** Whatever parses is exactly the formatting of the date it parses to. */
  lemma FormatParseIso(s: string, d: Date)
    requires ParseIso(s) == Some(d)
    ensures FormatIso(d) == s
  {
    DigitsPad4(s[..4]);
    DigitsPad2(s[5..7]);
    DigitsPad2(s[8..]);
    assert s == s[..4] + "-" + s[5..7] + "-" + s[8..];
  }
}
