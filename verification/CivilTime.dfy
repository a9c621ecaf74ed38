/** Civil time to microseconds since 1970 (`src/stx/UnixTime.cc`, with the calendar of
    `src/stx/ISO8601.cc`). */
module CivilTime {
  import opened Text

  datatype Civil = Civil(year: nat, month: nat, day: nat, hour: nat, minute: nat, second: nat, millisecond: nat,
                         offset: int)

  const MICROS_PER_SECOND := 1_000_000
  const MICROS_PER_MINUTE := 60_000_000
  const MICROS_PER_HOUR := 3_600_000_000
  const MICROS_PER_DAY := 86_400_000_000

  predicate IsLeapYear(year: nat) { (year % 4 == 0 && year % 100 != 0) || year % 400 == 0 }

  function One(b: bool): nat { if b then 1 else 0 }

  function Leap(year: nat): nat { One(IsLeapYear(year)) }

  function DaysInMonth(year: nat, month: nat): (d: int)
    requires month > 0
    ensures 28 <= d <= 31
  {
    if month == 2 then 28 + Leap(year) else 31 - (month - 1) % 7 % 2
  }

  // ------------------------------------------------------- the loops and their sums

  function DaysBeforeYear(year: nat): nat {
    if year <= 1970 then 0 else DaysBeforeYear(year - 1) + 365 + Leap(year - 1)
  }

  function DaysBeforeMonth(year: nat, month: nat): nat {
    if month <= 1 then 0 else DaysBeforeMonth(year, month - 1) + DaysInMonth(year, month - 1)
  }

  function DayNumber(c: Civil): int { DaysBeforeYear(c.year) + DaysBeforeMonth(c.year, c.month) + c.day - 1 }

  function TimeOfDay(c: Civil): nat {
    c.hour * MICROS_PER_HOUR + c.minute * MICROS_PER_MINUTE + c.second * MICROS_PER_SECOND + c.millisecond * 1000
  }

  function Exact(c: Civil): int { DayNumber(c) * MICROS_PER_DAY + TimeOfDay(c) - c.offset * MICROS_PER_SECOND }

  /** What `utc_micros_` holds. */
  function Stored(c: Civil): nat { Exact(c) % TWO64 }

  /** `UnixTime::UnixTime(const CivilTime&)`, whose unsigned arithmetic is exact modulo
      2^64. */
  method UnixMicros(c: Civil) returns (micros: nat)
    ensures micros < TWO64 && micros == Stored(c)
  {
    var days: int := c.day - 1;
    var i := 1970;
    while i < c.year
      invariant 1970 <= i && (i <= c.year || i == 1970)
      invariant days == c.day - 1 + DaysBeforeYear(i)
    {
      days := days + 365 + Leap(i);
      i := i + 1;
    }
    i := 1;
    while i < c.month
      invariant 1 <= i && (i <= c.month || i == 1)
      invariant days == c.day - 1 + DaysBeforeYear(c.year) + DaysBeforeMonth(c.year, i)
    {
      days := days + DaysInMonth(c.year, i);
      i := i + 1;
    }
    micros := (days * MICROS_PER_DAY + c.hour * MICROS_PER_HOUR + c.minute * MICROS_PER_MINUTE
               + c.second * MICROS_PER_SECOND + c.millisecond * 1000 - c.offset * MICROS_PER_SECOND) % TWO64;
  }

  // ----------------------------------------------------- the Gregorian day count

  /** Leap years from year 1 to `n`. */
  function LeapsUpTo(n: nat): int { n / 4 - n / 100 + n / 400 }

  lemma LeapStep(n: nat)
    requires n > 0
    ensures LeapsUpTo(n) == LeapsUpTo(n - 1) + Leap(n)
  {
    DivStep(n, 4);
    DivStep(n, 100);
    DivStep(n, 400);
    Divisors(n);
    Sum(n % 4 == 0, n % 100 == 0, n % 400 == 0);
  }

  lemma Divisors(n: nat)
    ensures n % 100 == 0 ==> n % 4 == 0
    ensures n % 400 == 0 ==> n % 100 == 0
  {
    if n % 100 == 0 { assert n == 4 * (25 * (n / 100)); }
    if n % 400 == 0 { assert n == 100 * (4 * (n / 400)); }
  }

  lemma Sum(four: bool, hundred: bool, fourHundred: bool)
    requires (fourHundred ==> hundred) && (hundred ==> four)
    ensures One(four) - One(hundred) + One(fourHundred) == One((four && !hundred) || fourHundred)
  {
  }

  lemma DivStep(n: nat, k: nat)
    requires n > 0 && (k == 4 || k == 100 || k == 400)
    ensures n / k == (n - 1) / k + One(n % k == 0)
  {
  }

  lemma {:induction false} YearsClosed(year: nat)
    requires year >= 1970
    ensures DaysBeforeYear(year) == 365 * (year - 1970) + LeapsUpTo(year - 1) - 477
  {
    if year > 1970 {
      YearsClosed(year - 1);
      LeapStep(year - 1);
    }
  }

  /** The days since 1970-01-01 in closed form: years begin in March, so that leap days
      come last, and months alternate by the line (153 m + 2) / 5. */
  function Gregorian(year: nat, month: nat, day: nat): int
    requires 1 <= month <= 12 && year > 0
  {
    var y := if month <= 2 then year - 1 else year;
    var m := if month <= 2 then month + 9 else month - 3;
    365 * y + LeapsUpTo(y) + (153 * m + 2) / 5 + day - 1 - 719468
  }

  /** The line gives the lengths of the months from March on. */
  lemma MonthLine(month: nat)
    requires 3 <= month <= 12
    ensures (153 * (month - 2) + 2) / 5 - (153 * (month - 3) + 2) / 5 == 31 - (month - 1) % 7 % 2
  {
  }

  lemma {:induction false} MonthTable(year: nat, month: nat)
    requires 1 <= month <= 12
    ensures DaysBeforeMonth(year, month) ==
      if month <= 2 then (153 * (month + 9) + 2) / 5 - 306 else 59 + Leap(year) + (153 * (month - 3) + 2) / 5
  {
    if month > 1 { MonthTable(year, month - 1); }
    if month > 3 { MonthLine(month - 1); }
  }

  /** The loops compute the Gregorian day count. */
  lemma LoopsAreGregorian(c: Civil)
    requires c.year >= 1970 && 1 <= c.month <= 12
    ensures DayNumber(c) == Gregorian(c.year, c.month, c.day)
  {
    YearsClosed(c.year);
    LeapStep(c.year);
    MonthTable(c.year, c.month);
  }

  /** A time of the calendar from 1970 on, without leap seconds. */
  predicate Valid(c: Civil) {
    1970 <= c.year < 65536 && 1 <= c.month <= 12 && 1 <= c.day <= DaysInMonth(c.year, c.month)
    && c.hour < 24 && c.minute < 60 && c.second < 60 && c.millisecond < 1000 && -TWO31 <= c.offset < TWO31
  }

  // ----------------------------------------------------------------- the calendar's clock

  /** The last day of each month, by the calendar's table. */
  function LastDay(year: nat, month: nat): nat
    requires 1 <= month <= 12
  {
    if month == 2 && year % 4 == 0 && (year % 100 != 0 || year % 400 == 0) then 29
    else [31, 28, 31, 30, 31, 30, 31, 31, 30, 31, 30, 31][month - 1]
  }

  lemma LastDays(year: nat, month: nat)
    requires 1 <= month <= 12
    ensures DaysInMonth(year, month) == LastDay(year, month)
  {
    Divisors(year);
    if month != 2 { EachMonth(month); }
  }

  lemma EachMonth(month: nat)
    requires 1 <= month <= 12 && month != 2
    ensures 31 - (month - 1) % 7 % 2 == [31, 28, 31, 30, 31, 30, 31, 31, 30, 31, 30, 31][month - 1]
  {
  }

  function NextDay(c: Civil): Civil
    requires 1 <= c.month <= 12
  {
    if c.day < LastDay(c.year, c.month) then c.(day := c.day + 1)
    else if c.month < 12 then c.(month := c.month + 1, day := 1)
    else c.(year := c.year + 1, month := 1, day := 1)
  }

  /** A millisecond later, with the carries of the clock and the calendar. */
  function NextMillisecond(c: Civil): Civil
    requires 1 <= c.month <= 12
  {
    if c.millisecond < 999 then c.(millisecond := c.millisecond + 1)
    else if c.second < 59 then c.(millisecond := 0, second := c.second + 1)
    else if c.minute < 59 then c.(millisecond := 0, second := 0, minute := c.minute + 1)
    else if c.hour < 23 then c.(millisecond := 0, second := 0, minute := 0, hour := c.hour + 1)
    else NextDay(c.(millisecond := 0, second := 0, minute := 0, hour := 0))
  }

  lemma NextDayCounts(c: Civil)
    requires Valid(c)
    ensures DayNumber(NextDay(c)) == DayNumber(c) + 1
  {
    LastDays(c.year, c.month);
    if c.month == 12 { MonthTable(c.year, 12); }
  }

  lemma DayChange(c: Civil)
    requires Valid(c) && c.hour == 23 && c.minute == 59 && c.second == 59 && c.millisecond == 999
    ensures Exact(NextMillisecond(c)) == Exact(c) + 1000
  {
    var midnight := c.(millisecond := 0, second := 0, minute := 0, hour := 0);
    NextDayCounts(midnight);
  }

  /** A thousand microseconds pass from each millisecond of the calendar to the next: over
      the end of a second, minute, hour, day, month or year too. */
  lemma MillisecondCounts(c: Civil)
    requires Valid(c)
    ensures Exact(NextMillisecond(c)) == Exact(c) + 1000
  {
    if c.millisecond == 999 && c.second == 59 && c.minute == 59 && c.hour == 23 { DayChange(c); }
  }

  /** The count starts at midnight of the first of January 1970 in UTC. */
  lemma CountStarts(c: Civil)
    requires c.year == 1970 && c.month == 1 && c.day == 1
    requires c.hour == c.minute == c.second == c.millisecond == 0 && c.offset == 0
    ensures Exact(c) == 0
  {
    FirstDay(c);
  }

  lemma FirstDay(c: Civil)
    requires c.year == 1970 && c.month == 1 && c.day == 1
    ensures DayNumber(c) == 0
  {
  }

  /** Clocks that show the same time a second further east showed it a second earlier. */
  lemma EastIsEarlier(c: Civil, d: Civil)
    requires d == c.(offset := c.offset + 1)
    ensures Exact(d) == Exact(c) - 1_000_000
  {
    assert DayNumber(d) == DayNumber(c) && TimeOfDay(d) == TimeOfDay(c);
  }

  // ------------------------------------------------------------------- the order

  predicate EarlierInDay(a: Civil, b: Civil) {
    a.hour < b.hour || (a.hour == b.hour && (a.minute < b.minute || (a.minute == b.minute &&
    (a.second < b.second || (a.second == b.second && a.millisecond < b.millisecond)))))
  }

  predicate EarlierDate(a: Civil, b: Civil) {
    a.year < b.year || (a.year == b.year && (a.month < b.month || (a.month == b.month && a.day < b.day)))
  }

  predicate SameDate(a: Civil, b: Civil) { a.year == b.year && a.month == b.month && a.day == b.day }

  predicate Earlier(a: Civil, b: Civil) { EarlierDate(a, b) || (SameDate(a, b) && EarlierInDay(a, b)) }

  lemma {:induction false} MonthsGrow(year: nat, m: nat, n: nat)
    requires 1 <= m < n
    ensures DaysBeforeMonth(year, m) + DaysInMonth(year, m) <= DaysBeforeMonth(year, n)
  {
    if m + 1 < n { MonthsGrow(year, m, n - 1); }
  }

  lemma {:induction false} YearsGrow(a: nat, b: nat)
    requires 1970 <= a < b
    ensures DaysBeforeYear(a) + 365 + Leap(a) <= DaysBeforeYear(b)
  {
    if a + 1 < b { YearsGrow(a, b - 1); }
  }

  lemma YearLength(c: Civil)
    requires Valid(c)
    ensures 0 <= DaysBeforeMonth(c.year, c.month) + c.day - 1 < 365 + Leap(c.year)
  {
    MonthTable(c.year, 12);
    if c.month < 12 { MonthsGrow(c.year, c.month, 12); }
  }

  lemma DatesGrow(a: Civil, b: Civil)
    requires Valid(a) && Valid(b) && EarlierDate(a, b)
    ensures DayNumber(a) < DayNumber(b)
  {
    YearLength(a);
    YearLength(b);
    if a.year < b.year {
      YearsGrow(a.year, b.year);
    } else if a.month < b.month {
      MonthsGrow(a.year, a.month, b.month);
    }
  }

  lemma DayBounds(c: Civil)
    requires Valid(c)
    ensures TimeOfDay(c) < MICROS_PER_DAY
  {
  }

  lemma TimesGrow(a: Civil, b: Civil)
    requires Valid(a) && Valid(b) && EarlierInDay(a, b)
    ensures TimeOfDay(a) < TimeOfDay(b)
  {
  }

  lemma ExactGrows(a: Civil, b: Civil)
    requires Valid(a) && Valid(b) && a.offset == b.offset && Earlier(a, b)
    ensures Exact(a) < Exact(b)
  {
    if EarlierDate(a, b) {
      DatesGrow(a, b);
      DayBounds(a);
    } else {
      TimesGrow(a, b);
    }
  }

  /** At one offset, the order of the calendar is the order of the exact numbers. */
  lemma ExactOrder(a: Civil, b: Civil)
    requires Valid(a) && Valid(b) && a.offset == b.offset
    ensures Earlier(a, b) <==> Exact(a) < Exact(b)
  {
    if Earlier(a, b) {
      ExactGrows(a, b);
    } else if Earlier(b, a) {
      ExactGrows(b, a);
    }
  }

  lemma ExactBounds(c: Civil)
    requires Valid(c)
    ensures -TWO63 < Exact(c) < TWO63
  {
    YearsClosed(c.year);
    YearLength(c);
    DayBounds(c);
    assert DayNumber(c) < 24_000_000;
  }

  const TWO63 := 0x8000_0000_0000_0000

  /** The stored number is the exact one, or 2^64 more when that is before 1970 in UTC. */
  lemma StoredIsExact(c: Civil)
    requires Valid(c)
    ensures Stored(c) == if Exact(c) >= 0 then Exact(c) else Exact(c) + TWO64
  {
    ExactBounds(c);
  }

  /** At one offset, the stored numbers are in the order of the calendar exactly when both
      times or none lie before 1970 in UTC. */
  lemma OrderKept(a: Civil, b: Civil)
    requires Valid(a) && Valid(b) && a.offset == b.offset
    ensures (Earlier(a, b) <==> Stored(a) < Stored(b)) <==> ((Exact(a) >= 0) == (Exact(b) >= 0))
  {
    ExactOrder(a, b);
    ExactBounds(a);
    ExactBounds(b);
    StoredIsExact(a);
    StoredIsExact(b);
  }

  /** Midnight and two o'clock of the first day of 1970, an hour east: the later time has
      the smaller number. */
  lemma OrderLost()
    ensures var a, b := Civil(1970, 1, 1, 0, 0, 0, 0, 3600), Civil(1970, 1, 1, 2, 0, 0, 0, 3600);
      Valid(a) && Valid(b) && Earlier(a, b) && Stored(b) < Stored(a)
  {
    var a, b := Civil(1970, 1, 1, 0, 0, 0, 0, 3600), Civil(1970, 1, 1, 2, 0, 0, 0, 3600);
    StoredIsExact(a);
    StoredIsExact(b);
    assert Exact(a) == -3600 * MICROS_PER_SECOND && Exact(b) == 3600 * MICROS_PER_SECOND;
  }
}
