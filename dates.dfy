/**
 * Calendar dates of the feed's `YYYYMMDDHHMMSS +HHMM` stamps, the clamp on the
 * requested day span and the day window a programme must overlap.
 *
 * A date is its proleptic Gregorian ordinal (Python's `date.toordinal()`), so
 * "today plus n days" is plain addition and dates compare as integers.
 */
module Dates {

  /** The grabber never looks further ahead than this many days. */
  const MaxDays: int := 5

  predicate IsDigit(c: char) {
    '0' <= c <= '9'
  }

  function DigitValue(c: char): (r: nat)
    requires IsDigit(c)
    ensures r <= 9
  {
    c as int - '0' as int
  }

  /** The value of the two-digit numeral `s[i..i + 2]`. */
  function Number2(s: string, i: nat): (r: nat)
    requires i + 2 <= |s| && IsDigit(s[i]) && IsDigit(s[i + 1])
    ensures r <= 99
  {
    10 * DigitValue(s[i]) + DigitValue(s[i + 1])
  }

  /** The value of the four-digit numeral `s[i..i + 4]`. */
  function Number4(s: string, i: nat): (r: nat)
    requires i + 4 <= |s| && forall k :: i <= k < i + 4 ==> IsDigit(s[k])
    ensures r <= 9999
  {
    100 * Number2(s, i) + Number2(s, i + 2)
  }

  predicate IsLeapYear(y: int) {
    y % 4 == 0 && (y % 100 != 0 || y % 400 == 0)
  }

  function DaysInMonth(y: int, m: int): (r: int)
    requires 1 <= m <= 12
    ensures 28 <= r <= 31
  {
    if m == 2 then (if IsLeapYear(y) then 29 else 28)
    else if m == 4 || m == 6 || m == 9 || m == 11 then 30
    else 31
  }

  /** Days in the months of year `y` before month `m`. */
  function DaysBeforeMonth(y: int, m: int): (r: nat)
    requires 1 <= m <= 13
    decreases m
  {
    if m == 1 then 0 else DaysBeforeMonth(y, m - 1) + DaysInMonth(y, m - 1)
  }

  /** Days in the years before year `y`, counted from 1 January of year 1. */
  function DaysBeforeYear(y: int): int
    requires y >= 1
  {
    var p := y - 1;
    p * 365 + p / 4 - p / 100 + p / 400
  }

  predicate ValidDate(y: int, m: int, d: int) {
    1 <= y <= 9999 && 1 <= m <= 12 && 1 <= d <= DaysInMonth(y, m)
  }

  /** `date(y, m, d).toordinal()`. */
  function Ordinal(y: int, m: int, d: int): int
    requires ValidDate(y, m, d)
  {
    DaysBeforeYear(y) + DaysBeforeMonth(y, m) + d
  }

  /**
   * The stamps `strptime(stamp, '%Y%m%d%H%M%S %z')` accepts in the form the
   * feed writes them: a valid date and time, a space, a sign and an offset
   * of less than a day.
   */
  predicate StampOk(s: string) {
    |s| == 20
    && (forall i :: 0 <= i < 14 ==> IsDigit(s[i]))
    && s[14] == ' ' && (s[15] == '+' || s[15] == '-')
    && (forall i :: 16 <= i < 20 ==> IsDigit(s[i]))
    && ValidDate(Number4(s, 0), Number2(s, 4), Number2(s, 6))
    && Number2(s, 8) < 24 && Number2(s, 10) < 60 && Number2(s, 12) < 60
    && Number2(s, 16) < 24 && Number2(s, 18) < 60
  }

  /**
   * `strptime(stamp, ...).date()`: the calendar date written in the stamp,
   * read in the stamp's own offset, i.e. its first eight digits.
   */
  function DayOf(stamp: string): (r: int)
    requires StampOk(stamp)
    ensures IsDate(r)
  {
    OrdinalBounds(Number4(stamp, 0), Number2(stamp, 4), Number2(stamp, 6));
    Ordinal(Number4(stamp, 0), Number2(stamp, 4), Number2(stamp, 6))
  }

  /**
   * The span actually fetched: `days` when the request stays within
   * `MaxDays` days from today, otherwise the longest span that does, and
   * never more than `MaxDays` days.
   */
  function ClampDays(days: int, offset: int): (r: int)
    ensures days + offset <= MaxDays ==> r == days
    ensures days + offset > MaxDays ==>
              r < days && r <= MaxDays && r + offset <= MaxDays
              && (r == MaxDays || r + offset == MaxDays)
  {
    if days + offset > MaxDays then
      (if MaxDays - offset < MaxDays then MaxDays - offset else MaxDays)
    else days
  }

  /** True when the request is clamped, which is when the grabber logs a warning. */
  predicate SpanClamped(days: int, offset: int) {
    days + offset > MaxDays
  }

  /** The inclusive range of day numbers whose programmes are wanted. */
  datatype Window = Window(first: int, last: int)

  function DayWindow(today: int, days: int, offset: int): (w: Window)
    ensures w.first == today + offset
    ensures w.last - w.first + 1 == ClampDays(days, offset)
  {
    Window(today + offset, today + ClampDays(days, offset) + offset - 1)
  }

  /** The day number of 31 December 9999, the last date Python's `date` can hold. */
  const MaxOrdinal: int := 3652059

  /** A day number Python's `date` can hold; date arithmetic outside it raises `OverflowError`. */
  predicate IsDate(n: int) {
    1 <= n <= MaxOrdinal
  }

  /** `MaxOrdinal` and 1 are the day numbers of the last and the first date. */
  lemma DateRange()
    ensures Ordinal(9999, 12, 31) == MaxOrdinal && Ordinal(1, 1, 1) == 1
  {
    YearLength(9999);
    assert DaysBeforeYear(9999) == 3651694;
  }

  /** Later years start later. */
  lemma {:induction false} YearsInOrder(y: int, z: int)
    requires 1 <= y <= z
    ensures DaysBeforeYear(y) <= DaysBeforeYear(z)
    decreases z - y
  {
    if y < z {
      LeapDays(y);
      YearsInOrder(y + 1, z);
    }
  }

  /** The months before `m` take no more days than the whole year. */
  lemma {:induction false} MonthsInOrder(y: int, m: int)
    requires 1 <= m <= 13
    ensures DaysBeforeMonth(y, m) <= DaysBeforeMonth(y, 13)
    decreases 13 - m
  {
    if m < 13 {
      MonthsInOrder(y, m + 1);
    }
  }

  /** Every valid date has a day number Python's `date` can hold. */
  lemma OrdinalBounds(y: int, m: int, d: int)
    requires ValidDate(y, m, d)
    ensures IsDate(Ordinal(y, m, d))
  {
    YearsInOrder(1, y);
    YearsInOrder(y + 1, 10000);
    MonthsInOrder(y, m + 1);
    YearLength(y);
    LeapDays(y);
    assert DaysBeforeYear(1) == 0 && DaysBeforeYear(10000) == MaxOrdinal;
  }

  /** The window's two days can both be computed: neither falls outside years 1 to 9999. */
  predicate WindowComputable(w: Window) {
    IsDate(w.first) && IsDate(w.last)
  }

  /** A programme is kept unless it stops before the window or starts after it. */
  predicate Overlaps(start: int, stop: int, w: Window) {
    !(stop < w.first || start > w.last)
  }

  predicate InWindow(d: int, w: Window) {
    w.first <= d <= w.last
  }

  /**
   * For a programme that does not end before it starts and a window of at
   * least one day, passing the test is the same as sharing a day with the window.
   */
  lemma OverlapsIffCommonDay(start: int, stop: int, w: Window)
    requires start <= stop
    requires w.first <= w.last
    ensures Overlaps(start, stop, w) <==> exists d :: InWindow(d, w) && start <= d <= stop
  {
    if Overlaps(start, stop, w) {
      var d := if start < w.first then w.first else start;
      assert InWindow(d, w) && start <= d <= stop;
    }
  }

  /** `OverlapsIffCommonDay` wherever its conditions hold. */
  lemma OverlapsMeaning(start: int, stop: int, w: Window)
    ensures start <= stop && w.first <= w.last ==>
              (Overlaps(start, stop, w) <==> exists d :: InWindow(d, w) && start <= d <= stop)
  {
    if start <= stop && w.first <= w.last {
      OverlapsIffCommonDay(start, stop, w);
    }
  }

  /**
   * The test only compares the two ends, so when the clamp leaves no day at
   * all (an offset beyond `MaxDays`) a programme running across the empty
   * window still passes.
   */
  lemma EmptyWindowCanPass(today: int)
    ensures DayWindow(today, 1, 6).last < DayWindow(today, 1, 6).first
    ensures Overlaps(today + 4, today + 6, DayWindow(today, 1, 6))
  {
  }

  /** With a non-negative offset the window never reaches past today + MaxDays - 1. */
  lemma WindowBounded(today: int, days: int, offset: int)
    requires offset >= 0
    ensures DayWindow(today, days, offset).last <= today + MaxDays - 1
  {
  }

  /** Asking for ten days from today fetches the same window as asking for five. */
  lemma TenDaysIsFive(today: int)
    ensures DayWindow(today, 10, 0) == DayWindow(today, 5, 0)
  {
  }

  /** Consecutive days of a month have consecutive ordinals, and the last day of a month is followed by the first of the next. */
  lemma {:induction false} OrdinalNextDay(y: int, m: int, d: int)
    requires ValidDate(y, m, d)
    ensures d < DaysInMonth(y, m) ==> ValidDate(y, m, d + 1) && Ordinal(y, m, d + 1) == Ordinal(y, m, d) + 1
    ensures d == DaysInMonth(y, m) && m < 12 ==> ValidDate(y, m + 1, 1) && Ordinal(y, m + 1, 1) == Ordinal(y, m, d) + 1
    ensures d == DaysInMonth(y, m) && m == 12 && y < 9999 ==> ValidDate(y + 1, 1, 1) && Ordinal(y + 1, 1, 1) == Ordinal(y, m, d) + 1
  {
    if d == DaysInMonth(y, m) && m == 12 && y < 9999 {
      DaysInYear(y);
    }
  }

  /** Adding one to a non-negative number raises its quotient by `k` exactly when the sum is a multiple of `k`. */
  lemma QuotientStep(p: int, k: int)
    requires p >= 0 && (k == 4 || k == 100 || k == 400)
    ensures (p + 1) / k - p / k == if (p + 1) % k == 0 then 1 else 0
  {
    if k == 4 {
      assert (p + 1) / 4 - p / 4 == if (p + 1) % 4 == 0 then 1 else 0;
    } else if k == 100 {
      assert (p + 1) / 100 - p / 100 == if (p + 1) % 100 == 0 then 1 else 0;
    } else {
      assert (p + 1) / 400 - p / 400 == if (p + 1) % 400 == 0 then 1 else 0;
    }
  }

  /** The months of a year add up to 366 days in a leap year and 365 otherwise. */
  lemma YearLength(y: int)
    ensures DaysBeforeMonth(y, 12) + DaysInMonth(y, 12) == if IsLeapYear(y) then 366 else 365
  {
  }

  /** Consecutive years start `DaysBeforeMonth(y, 12) + 31` days apart: the ordinal formula counts leap years right. */
  lemma DaysInYear(y: int)
    requires 1 <= y
    ensures DaysBeforeYear(y + 1) - DaysBeforeYear(y) == DaysBeforeMonth(y, 12) + DaysInMonth(y, 12)
  {
    YearLength(y);
    LeapDays(y);
  }

  /** The ordinal formula gives year `y` 366 days exactly when `y` is a leap year. */
  lemma LeapDays(y: int)
    requires 1 <= y
    ensures DaysBeforeYear(y + 1) - DaysBeforeYear(y) == if IsLeapYear(y) then 366 else 365
  {
    var p := y - 1;
    assert p + 1 == y;
    QuotientStep(p, 4);
    QuotientStep(p, 100);
    QuotientStep(p, 400);
  }
}
