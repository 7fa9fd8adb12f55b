/** Calendar dates (proleptic Gregorian, as pandas Timestamps), day
    arithmetic and the `YYYYMMDD` rendering used in price ids. */
module Dates {
  import opened Text

  datatype Date = Date(year: int, month: int, day: int)

  predicate IsLeap(y: int) { y % 4 == 0 && (y % 100 != 0 || y % 400 == 0) }

  function DaysInMonth(y: int, m: int): int {
    if m == 2 then (if IsLeap(y) then 29 else 28)
    else if m == 4 || m == 6 || m == 9 || m == 11 then 30
    else 31
  }

  predicate Valid(d: Date) {
    d.year >= 1 && 1 <= d.month <= 12 && 1 <= d.day <= DaysInMonth(d.year, d.month)
  }

  /** `a < b` on timestamps. */
  predicate Before(a: Date, b: Date) {
    a.year < b.year
    || (a.year == b.year && a.month < b.month)
    || (a.year == b.year && a.month == b.month && a.day < b.day)
  }

  predicate NotAfter(a: Date, b: Date) { a == b || Before(a, b) }

  /** `d + pd.Timedelta(days=1)`. */
  function NextDay(d: Date): (r: Date)
    requires Valid(d)
    ensures Valid(r) && Before(d, r)
  {
    if d.day < DaysInMonth(d.year, d.month) then Date(d.year, d.month, d.day + 1)
    else if d.month < 12 then Date(d.year, d.month + 1, 1)
    else Date(d.year + 1, 1, 1)
  }

  /** `d - pd.Timedelta(days=1)`. */
  function PrevDay(d: Date): (r: Date)
    requires Valid(d) && d != Date(1, 1, 1)
    ensures Valid(r) && Before(r, d)
  {
    if d.day > 1 then Date(d.year, d.month, d.day - 1)
    else if d.month > 1 then Date(d.year, d.month - 1, DaysInMonth(d.year, d.month - 1))
    else Date(d.year - 1, 12, 31)
  }

  /** The day before is the day whose next day is `d`. */
  lemma NextOfPrev(d: Date)
    requires Valid(d) && d != Date(1, 1, 1)
    ensures NextDay(PrevDay(d)) == d
  {
  }

  lemma PrevOfNext(d: Date)
    requires Valid(d)
    ensures NextDay(d) != Date(1, 1, 1) && PrevDay(NextDay(d)) == d
  {
  }

  /** A valid calendar date. */
  type Dia = d: Date | Valid(d) witness Date(2000, 1, 1)

  /** The calendar day of a pandas Timestamp, no earlier than pandas' lower
      bound (year 1677). The time of day is not kept: a stamp stands for
      midnight of its day, which is what the date-only texts parse to. */
  type Stamp = d: Dia | d.year >= 1677 witness Date(2000, 1, 1)

  // ---------------------------------------------------------------------------
  // Day numbers: days since 0001-01-01
  // ---------------------------------------------------------------------------

  function YearLength(y: int): int { if IsLeap(y) then 366 else 365 }

  function DaysBeforeYear(y: int): int
    requires y >= 1
  {
    if y == 1 then 0 else DaysBeforeYear(y - 1) + YearLength(y - 1)
  }

  function DaysBeforeMonth(y: int, m: int): int
    requires 1 <= m <= 13
  {
    if m == 1 then 0 else DaysBeforeMonth(y, m - 1) + DaysInMonth(y, m - 1)
  }

  function DayNumber(d: Date): int
    requires Valid(d)
  {
    DaysBeforeYear(d.year) + DaysBeforeMonth(d.year, d.month) + d.day - 1
  }

  lemma MonthsMakeYear(y: int)
    ensures DaysBeforeMonth(y, 13) == YearLength(y)
  {
    assert DaysBeforeMonth(y, 2) == 31;
    assert DaysBeforeMonth(y, 3) == 31 + DaysInMonth(y, 2);
    assert DaysBeforeMonth(y, 4) == 62 + DaysInMonth(y, 2);
    assert DaysBeforeMonth(y, 5) == 92 + DaysInMonth(y, 2);
    assert DaysBeforeMonth(y, 6) == 123 + DaysInMonth(y, 2);
    assert DaysBeforeMonth(y, 7) == 153 + DaysInMonth(y, 2);
    assert DaysBeforeMonth(y, 8) == 184 + DaysInMonth(y, 2);
    assert DaysBeforeMonth(y, 9) == 215 + DaysInMonth(y, 2);
    assert DaysBeforeMonth(y, 10) == 245 + DaysInMonth(y, 2);
    assert DaysBeforeMonth(y, 11) == 276 + DaysInMonth(y, 2);
    assert DaysBeforeMonth(y, 12) == 306 + DaysInMonth(y, 2);
    assert DaysBeforeMonth(y, 13) == 337 + DaysInMonth(y, 2);
  }

  /** One day later is one day number more: day numbers count days. */
  lemma NextDayNumber(d: Date)
    requires Valid(d)
    ensures DayNumber(NextDay(d)) == DayNumber(d) + 1
  {
    if d.day == DaysInMonth(d.year, d.month) && d.month == 12 {
      MonthsMakeYear(d.year);
    }
  }

  /** One day earlier is one day number less. */
  lemma PrevDayNumber(d: Date)
    requires Valid(d) && d != Date(1, 1, 1)
    ensures DayNumber(PrevDay(d)) == DayNumber(d) - 1
  {
    NextOfPrev(d);
    NextDayNumber(PrevDay(d));
  }

  lemma {:induction false} MonthsMonotone(y: int, m: int, n: int)
    requires 1 <= m <= n <= 13
    ensures DaysBeforeMonth(y, m) <= DaysBeforeMonth(y, n)
    decreases n - m
  {
    if m < n {
      MonthsMonotone(y, m, n - 1);
    }
  }

  /** A date's day number lies within its month and within its year. */
  lemma DayNumberWithin(d: Date)
    requires Valid(d)
    ensures DaysBeforeYear(d.year) <= DayNumber(d)
    ensures DayNumber(d) < DaysBeforeYear(d.year) + DaysBeforeMonth(d.year, d.month + 1)
    ensures DayNumber(d) < DaysBeforeYear(d.year + 1)
  {
    var y := d.year;
    assert DaysBeforeMonth(y, d.month + 1) == DaysBeforeMonth(y, d.month) + DaysInMonth(y, d.month);
    MonthsMakeYear(y);
    MonthsMonotone(y, d.month + 1, 13);
    MonthsMonotone(y, 1, d.month);
    assert DaysBeforeYear(y + 1) == DaysBeforeYear(y) + YearLength(y);
  }

  lemma {:induction false} YearsMonotone(a: int, b: int)
    requires 1 <= a <= b
    ensures DaysBeforeYear(a) <= DaysBeforeYear(b)
    decreases b - a
  {
    if a < b {
      YearsMonotone(a, b - 1);
    }
  }

  lemma BeforeImpliesSmaller(a: Date, b: Date)
    requires Valid(a) && Valid(b) && Before(a, b)
    ensures DayNumber(a) < DayNumber(b)
  {
    DayNumberWithin(a);
    DayNumberWithin(b);
    if a.year < b.year {
      YearsMonotone(a.year + 1, b.year);
    } else if a.month < b.month {
      MonthsMonotone(a.year, a.month + 1, b.month);
    }
  }

  /** Timestamp order is day-number order. */
  lemma BeforeIsDayNumberOrder(a: Date, b: Date)
    requires Valid(a) && Valid(b)
    ensures Before(a, b) <==> DayNumber(a) < DayNumber(b)
  {
    if Before(a, b) {
      BeforeImpliesSmaller(a, b);
    } else if a != b {
      BeforeImpliesSmaller(b, a);
    }
  }

  // ---------------------------------------------------------------------------
  // `strftime('%Y%m%d')`
  // ---------------------------------------------------------------------------

  function DigitChar(k: int): char
    requires 0 <= k < 10
  {
    ('0' as int + k) as char
  }

  function Pow10(n: nat): nat { if n == 0 then 1 else 10 * Pow10(n - 1) }

  /** The decimal digits of `n`, zero-padded to `width` (`n < 10^width`). */
  function Digits(n: nat, width: nat): (r: string)
    requires n < Pow10(width)
    ensures |r| == width && AllDigits(r)
  {
    if width == 0 then ""
    else Digits(n / 10, width - 1) + [DigitChar(n % 10)]
  }

  /** The value of a digit string. */
  function DigitsValue(s: string): nat
    requires AllDigits(s)
  {
    if |s| == 0 then 0 else 10 * DigitsValue(s[..|s| - 1]) + (s[|s| - 1] as int - '0' as int)
  }

  lemma {:induction false} DigitsRoundTrip(n: nat, width: nat)
    requires n < Pow10(width)
    ensures DigitsValue(Digits(n, width)) == n
  {
    if width > 0 {
      var r := Digits(n, width);
      assert r[..|r| - 1] == Digits(n / 10, width - 1);
      DigitsRoundTrip(n / 10, width - 1);
    }
  }

  predicate FourDigitYear(d: Date) { 1000 <= d.year <= 9999 }

  function Yyyymmdd(d: Date): (r: string)
    requires Valid(d) && FourDigitYear(d)
    ensures |r| == 8 && AllDigits(r)
  {
    Digits(d.year, 4) + Digits(d.month, 2) + Digits(d.day, 2)
  }

  /** Reading back the three fields of a `YYYYMMDD` text. */
  function ParseYyyymmdd(s: string): Date
    requires |s| == 8 && AllDigits(s)
  {
    Date(DigitsValue(s[..4]), DigitsValue(s[4..6]), DigitsValue(s[6..]))
  }

  /** `YYYYMMDD` loses nothing: distinct dates render differently. */
  lemma YyyymmddRoundTrip(d: Date)
    requires Valid(d) && FourDigitYear(d)
    ensures ParseYyyymmdd(Yyyymmdd(d)) == d
  {
    var s := Yyyymmdd(d);
    assert s[..4] == Digits(d.year, 4);
    assert s[4..6] == Digits(d.month, 2);
    assert s[6..] == Digits(d.day, 2);
    DigitsRoundTrip(d.year, 4);
    DigitsRoundTrip(d.month, 2);
    DigitsRoundTrip(d.day, 2);
  }

  /** `str(n)` for a natural number: its decimal digits, without leading
      zeros. */
  function NatText(n: nat): (r: string)
    ensures |r| >= 1 && AllDigits(r)
    ensures r[0] == '0' <==> n == 0
  {
    if n < 10 then [DigitChar(n)] else NatText(n / 10) + [DigitChar(n % 10)]
  }

  /** `str(i)` for an integer. */
  function IntText(i: int): string {
    if i < 0 then "-" + NatText(-i) else NatText(i)
  }

  /** `str` loses nothing: the digits read back as the number. */
  lemma {:induction false} NatTextRoundTrip(n: nat)
    ensures DigitsValue(NatText(n)) == n
  {
    if n >= 10 {
      var r := NatText(n);
      assert r[..|r| - 1] == NatText(n / 10);
      NatTextRoundTrip(n / 10);
    }
  }

  /** The digits of `str(i)` are those of `|i|`. */
  lemma IntTextDigits(i: int)
    ensures KeepDigits(IntText(i)) == NatText(if i < 0 then -i else i)
  {
    var n: nat := if i < 0 then -i else i;
    if i < 0 {
      KeepDigitsAppend("-", NatText(n));
      assert KeepDigits("-") == "";
    }
  }
}
