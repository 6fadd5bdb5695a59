/** Proleptic Gregorian day arithmetic and ISO 8601 week dates (section 4.1.4 of ISO 8601:2004),
    standing in for PHP's `DateTimeImmutable::setISODate` and `date('o-\WW')`.
    A day is numbered by its distance from 0000-01-01. */
module Calendar {

  datatype Date = Date(year: int, month: int, day: int)

  /** An ISO week-numbering year and a week number within it. */
  datatype IsoWeek = IsoWeek(year: int, week: int)

  predicate IsLeapYear(y: int) {
    y % 4 == 0 && (y % 100 != 0 || y % 400 == 0)
  }

  function DaysInYear(y: int): int {
    if IsLeapYear(y) then 366 else 365
  }

  function DaysInMonth(y: int, m: int): int
    requires 1 <= m <= 12
  {
    if m == 2 then (if IsLeapYear(y) then 29 else 28)
    else if m == 4 || m == 6 || m == 9 || m == 11 then 30
    else 31
  }

  predicate ValidDate(d: Date) {
    1 <= d.month <= 12 && 1 <= d.day <= DaysInMonth(d.year, d.month)
  }

  /** Days from 0000-01-01 to 1 January of year `y`: 365 per year plus one per leap year before it. */
  function DaysBeforeYear(y: int): int {
    365 * y + (y + 3) / 4 - (y + 99) / 100 + (y + 399) / 400
  }

  /** Days from 1 January to the first of month `m` (the common-year table, plus the leap day
      once February is past). */
  function DaysBeforeMonth(y: int, m: int): int
    requires 1 <= m <= 12
  {
    var common :=
      if m == 1 then 0 else if m == 2 then 31 else if m == 3 then 59 else if m == 4 then 90
      else if m == 5 then 120 else if m == 6 then 151 else if m == 7 then 181
      else if m == 8 then 212 else if m == 9 then 243 else if m == 10 then 273
      else if m == 11 then 304 else 334;
    if m > 2 && IsLeapYear(y) then common + 1 else common
  }

  function DayNumber(d: Date): int
    requires 1 <= d.month <= 12
  {
    DaysBeforeYear(d.year) + DaysBeforeMonth(d.year, d.month) + d.day - 1
  }

  lemma Step4(y: int)
    ensures (y + 4) / 4 - (y + 3) / 4 == if y % 4 == 0 then 1 else 0
  {
  }

  lemma Step100(y: int)
    ensures (y + 100) / 100 - (y + 99) / 100 == if y % 100 == 0 then 1 else 0
  {
  }

  lemma Step400(y: int)
    ensures (y + 400) / 400 - (y + 399) / 400 == if y % 400 == 0 then 1 else 0
  {
  }

  lemma DivisibilityChain(y: int)
    ensures y % 400 == 0 ==> y % 100 == 0
    ensures y % 100 == 0 ==> y % 4 == 0
  {
  }

  /** Consecutive year starts are exactly one year length apart. */
  lemma YearLength(y: int)
    ensures DaysBeforeYear(y + 1) == DaysBeforeYear(y) + DaysInYear(y)
  {
    Step4(y);
    Step100(y);
    Step400(y);
    DivisibilityChain(y);
  }

  lemma {:induction false} YearsIncrease(a: int, b: int)
    requires a <= b
    ensures DaysBeforeYear(b) - DaysBeforeYear(a) >= 365 * (b - a)
    decreases b - a
  {
    if a < b {
      YearLength(a);
      YearsIncrease(a + 1, b);
    }
  }

  /** A day number lies in exactly one year. */
  lemma YearUnique(y1: int, y2: int, n: int)
    requires DaysBeforeYear(y1) <= n < DaysBeforeYear(y1 + 1)
    requires DaysBeforeYear(y2) <= n < DaysBeforeYear(y2 + 1)
    ensures y1 == y2
  {
    if y1 < y2 {
      YearsIncrease(y1 + 1, y2);
    } else if y2 < y1 {
      YearsIncrease(y2 + 1, y1);
    }
  }

  /** A day lying between the starts of years `lo` and `hi + 1` belongs to a year in `lo..hi`. */
  lemma YearBetween(y: int, n: int, lo: int, hi: int)
    requires DaysBeforeYear(y) <= n < DaysBeforeYear(y + 1)
    requires DaysBeforeYear(lo) <= n < DaysBeforeYear(hi + 1)
    ensures lo <= y <= hi
  {
    if y < lo {
      YearsIncrease(y + 1, lo);
    }
    if y > hi {
      YearsIncrease(hi + 1, y);
    }
  }

  lemma MonthsFillYear(y: int)
    ensures DaysBeforeMonth(y, 12) + DaysInMonth(y, 12) == DaysInYear(y)
    ensures forall m :: 1 <= m < 12 ==> DaysBeforeMonth(y, m + 1) == DaysBeforeMonth(y, m) + DaysInMonth(y, m)
    ensures forall m :: 1 <= m <= 12 ==> DaysBeforeMonth(y, m) + DaysInMonth(y, m) <= DaysInYear(y)
  {
  }

  /** A valid date falls inside its own year. */
  lemma DayNumberInYear(d: Date)
    requires ValidDate(d)
    ensures DaysBeforeYear(d.year) <= DayNumber(d) < DaysBeforeYear(d.year + 1)
  {
    MonthsFillYear(d.year);
    YearLength(d.year);
  }

  /** ISO day of the week of a day number: 1 is Monday, 7 is Sunday (0000-01-01 was a Saturday). */
  function IsoWeekday(n: int): (wd: int)
    ensures 1 <= wd <= 7
  {
    (n + 5) % 7 + 1
  }

  function MondayOf(n: int): int {
    n - IsoWeekday(n) + 1
  }

  lemma MondayOfProps(n: int)
    ensures IsoWeekday(MondayOf(n)) == 1
    ensures IsoWeekday(MondayOf(n) + 3) == 4
    ensures n - 6 <= MondayOf(n) <= n
  {
  }

  /** Whole weeks later it is the same day of the week. */
  lemma WeekdayShift(x: int, k: int)
    ensures IsoWeekday(x + 7 * k) == IsoWeekday(x)
  {
    assert (x + 7 * k + 5) % 7 == (x + 5) % 7;
  }

  /** Two days with the same weekday are a whole number of weeks apart. */
  lemma SameWeekday(a: int, b: int)
    requires IsoWeekday(a) == IsoWeekday(b)
    ensures (a - b) % 7 == 0
    ensures a - b == 7 * ((a - b) / 7)
  {
  }

  /** Counting whole weeks from the start of a year whose first Thursday is `thu1` to a later
      Thursday `t` gives the number of weeks between the two Thursdays. */
  lemma ThursdaysFrom(start: int, thu1: int, t: int)
    requires start <= thu1 <= start + 6 && start <= t
    requires IsoWeekday(thu1) == 4 && IsoWeekday(t) == 4
    ensures thu1 <= t
    ensures (t - start) / 7 * 7 == t - thu1
  {
    SameWeekday(t, thu1);
  }

  /** Within one seven-day window a weekday occurs once. */
  lemma OneWeekdayPerWindow(start: int, a: int, b: int)
    requires start <= a <= start + 6 && start <= b <= start + 6
    requires IsoWeekday(a) == IsoWeekday(b)
    ensures a == b
  {
    SameWeekday(a, b);
  }

  /** How far into the window the Thursday sits, read off the window's first weekday. */
  lemma ThursdayOffset(start: int, thu: int)
    requires start <= thu <= start + 6 && IsoWeekday(thu) == 4
    ensures thu == start <==> IsoWeekday(start) == 4
    ensures thu == start + 1 <==> IsoWeekday(start) == 3
  {
  }

  /** The Monday of week 1 of year `y`: the Monday of the week that holds 4 January. */
  function FirstMonday(y: int): int {
    MondayOf(DaysBeforeYear(y) + 3)
  }

  /** The first Thursday of a year lies in its first seven days. */
  lemma FirstThursday(y: int)
    ensures DaysBeforeYear(y) <= FirstMonday(y) + 3 <= DaysBeforeYear(y) + 6
    ensures IsoWeekday(FirstMonday(y) + 3) == 4
  {
    MondayOfProps(DaysBeforeYear(y) + 3);
  }

  /** Day 1 (Monday) of ISO week `w`: Monday of week 1 plus seven days per further week. */
  function MondayOfIsoWeek(w: IsoWeek): int {
    FirstMonday(w.year) + 7 * (w.week - 1)
  }

  /** A year has 53 ISO weeks when a 53rd Thursday still falls inside it. */
  function WeeksInYear(y: int): int {
    if FirstMonday(y) + 3 + 7 * 52 < DaysBeforeYear(y + 1) then 53 else 52
  }

  /** The ISO week holding day `n` of calendar year `y`: its year is the calendar year of the
      week's Thursday, its number counts Thursdays from the start of that year. */
  function WeekOf(y: int, n: int): (w: IsoWeek)
    requires DaysBeforeYear(y) <= n < DaysBeforeYear(y + 1)
    ensures w.year == y - 1 || w.year == y || w.year == y + 1
    ensures DaysBeforeYear(w.year) <= MondayOf(n) + 3 < DaysBeforeYear(w.year + 1)
    ensures 1 <= w.week <= 53
  {
    YearLength(y - 1);
    YearLength(y);
    YearLength(y + 1);
    var t := MondayOf(n) + 3;
    var wy := if t < DaysBeforeYear(y) then y - 1 else if t >= DaysBeforeYear(y + 1) then y + 1 else y;
    IsoWeek(wy, (t - DaysBeforeYear(wy)) / 7 + 1)
  }

  /** The ISO week of a calendar date. */
  function IsoWeekOfDate(d: Date): IsoWeek
    requires ValidDate(d)
  {
    DayNumberInYear(d);
    WeekOf(d.year, DayNumber(d))
  }

  /** Every ISO week starts on a Monday. */
  lemma MondayIsMonday(w: IsoWeek)
    ensures IsoWeekday(MondayOfIsoWeek(w)) == 1
  {
    MondayOfProps(DaysBeforeYear(w.year) + 3);
    WeekdayShift(FirstMonday(w.year), w.week - 1);
  }

  /** Going from a day to its ISO week and back to that week's Monday lands on the Monday of the
      day's own week. */
  lemma WeekOfThenMonday(y: int, n: int)
    requires DaysBeforeYear(y) <= n < DaysBeforeYear(y + 1)
    ensures MondayOfIsoWeek(WeekOf(y, n)) == MondayOf(n)
  {
    var w := WeekOf(y, n);
    var t := MondayOf(n) + 3;
    FirstThursday(w.year);
    MondayOfProps(n);
    ThursdaysFrom(DaysBeforeYear(w.year), FirstMonday(w.year) + 3, t);
  }

  /** The Monday of week `w` of a year, seen from whichever calendar year it falls in, is in week `w`
      again, for every week the year has. */
  lemma MondayThenWeekOf(w: IsoWeek, y: int)
    requires 1 <= w.week <= WeeksInYear(w.year)
    requires DaysBeforeYear(y) <= MondayOfIsoWeek(w) < DaysBeforeYear(y + 1)
    ensures WeekOf(y, MondayOfIsoWeek(w)) == w
  {
    var n := MondayOfIsoWeek(w);
    FirstThursday(w.year);
    MondayIsMonday(w);
    YearLength(w.year);
    assert MondayOf(n) == n;
    var t := n + 3;
    assert DaysBeforeYear(w.year) <= t < DaysBeforeYear(w.year + 1);
    var v := WeekOf(y, n);
    YearUnique(v.year, w.year, t);
  }

  /** Week 53 of a 52-week year is week 1 of the next year: `setISODate` rolls over. */
  lemma Week53RollsOver(y: int)
    requires WeeksInYear(y) == 52
    ensures MondayOfIsoWeek(IsoWeek(y, 53)) == MondayOfIsoWeek(IsoWeek(y + 1, 1))
  {
    FirstThursday(y);
    FirstThursday(y + 1);
    YearLength(y);
    var a := FirstMonday(y) + 3 + 7 * 52;
    WeekdayShift(FirstMonday(y) + 3, 52);
    OneWeekdayPerWindow(DaysBeforeYear(y + 1), a, FirstMonday(y + 1) + 3);
  }

  /** The calendar rule for long years: 1 January is a Thursday, or a Wednesday in a leap year. */
  lemma LongYearRule(y: int)
    ensures WeeksInYear(y) == 53 <==>
      IsoWeekday(DaysBeforeYear(y)) == 4 || (IsLeapYear(y) && IsoWeekday(DaysBeforeYear(y)) == 3)
  {
    YearLength(y);
    FirstThursday(y);
    ThursdayOffset(DaysBeforeYear(y), FirstMonday(y) + 3);
  }

  /** The date `k - 1` days into the year, counting from month `m` onwards. */
  function MonthDay(y: int, m: int, k: int): (d: Date)
    requires 1 <= m <= 12
    requires 1 <= k <= DaysInYear(y) - DaysBeforeMonth(y, m)
    ensures ValidDate(d) && d.year == y
    ensures DayNumber(d) == DaysBeforeYear(y) + DaysBeforeMonth(y, m) + k - 1
    decreases 12 - m
  {
    MonthsFillYear(y);
    if k <= DaysInMonth(y, m) then Date(y, m, k)
    else MonthDay(y, m + 1, k - DaysInMonth(y, m))
  }

  /** The civil date of day `k` (1-based) counted from 1 January of year `y`, spilling into later years. */
  function DateFromYearDay(y: int, k: int): (d: Date)
    requires 1 <= k
    ensures ValidDate(d)
    ensures DayNumber(d) == DaysBeforeYear(y) + k - 1
    decreases k
  {
    YearLength(y);
    if k <= DaysInYear(y) then MonthDay(y, 1, k)
    else DateFromYearDay(y + 1, k - DaysInYear(y))
  }

  /** The civil date of the Monday of ISO week `w` (weeks past the year's last one roll over). */
  function MondayDate(w: IsoWeek): (d: Date)
    requires 1 <= w.week
    ensures ValidDate(d)
    ensures DayNumber(d) == MondayOfIsoWeek(w)
  {
    FirstThursday(w.year);
    YearLength(w.year - 1);
    DateFromYearDay(w.year - 1, MondayOfIsoWeek(w) - DaysBeforeYear(w.year - 1) + 1)
  }

  /** The day numbering agrees with the calendar: 1 January 2024 was a Monday. */
  lemma Anchor2024()
    ensures IsoWeekday(DayNumber(Date(2024, 1, 1))) == 1
  {
  }
}
