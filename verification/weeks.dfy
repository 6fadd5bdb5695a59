/** The textual week and date forms the endpoints exchange: `YYYY-Www` ISO week labels and
    `YYYY-MM-DD` dates, and the conversions `isoWeekToMondayDate`, `dateToIsoWeek` (PHP's
    `date('o-\WW', strtotime($d))`) and `isValidDate`. */
module Weeks {
  import opened Wrappers
  import opened Text
  import opened Calendar

  /** `preg_match('/^\d{4}-W\d{2}$/', s)`: four digits, `-W`, two digits, nothing else. */
  predicate IsValidIsoWeek(s: string) {
    && |s| == 8 && IsDigit(s[0]) && IsDigit(s[1]) && IsDigit(s[2]) && IsDigit(s[3])
    && s[4] == '-' && s[5] == 'W' && IsDigit(s[6]) && IsDigit(s[7])
  }

  /** The week pattern's digit runs. */
  lemma WeekDigits(s: string)
    requires IsValidIsoWeek(s)
    ensures AllDigits(s[..4]) && AllDigits(s[6..])
  {
  }

  /** The `(int)` casts of the two halves of `explode('-W', s)`. */
  function WeekFields(s: string): (w: IsoWeek)
    requires IsValidIsoWeek(s)
    ensures 0 <= w.year <= 9999 && 0 <= w.week <= 99
  {
    WeekDigits(s);
    Pad4RoundTrip(0, s[..4]);
    Pad2RoundTrip(0, s[6..]);
    IsoWeek(ParseDigits(s[..4]), ParseDigits(s[6..]))
  }

  /** `preg_match('/^\d{4}-\d{2}-\d{2}$/', s)`. */
  predicate LooksLikeDate(s: string) {
    && |s| == 10 && IsDigit(s[0]) && IsDigit(s[1]) && IsDigit(s[2]) && IsDigit(s[3])
    && s[4] == '-' && IsDigit(s[5]) && IsDigit(s[6]) && s[7] == '-' && IsDigit(s[8]) && IsDigit(s[9])
  }

  /** The date pattern's digit runs. */
  lemma DateDigits(s: string)
    requires LooksLikeDate(s)
    ensures AllDigits(s[..4]) && AllDigits(s[5..7]) && AllDigits(s[8..])
  {
  }

  function DateFields(s: string): (d: Date)
    requires LooksLikeDate(s)
    ensures 0 <= d.year <= 9999 && 0 <= d.month <= 99 && 0 <= d.day <= 99
  {
    DateDigits(s);
    Pad4RoundTrip(0, s[..4]);
    Pad2RoundTrip(0, s[5..7]);
    Pad2RoundTrip(0, s[8..]);
    Date(ParseDigits(s[..4]), ParseDigits(s[5..7]), ParseDigits(s[8..]))
  }

  /** `format('Y-m-d')`: signed year of at least four digits, two-digit month and day. */
  function FormatDate(d: Date): string
    requires 0 <= d.month <= 99 && 0 <= d.day <= 99
  {
    Pad4Signed(d.year) + "-" + Pad2(d.month) + "-" + Pad2(d.day)
  }

  /** `date('o-\WW')`: the ISO year as a plain decimal, `-W`, the two-digit week. */
  function FormatIsoWeek(w: IsoWeek): string
    requires 0 <= w.week <= 99
  {
    Decimal(w.year) + "-W" + Pad2(w.week)
  }

  /** `isValidDate`: parsing with `Y-m-d` and formatting again gives back the same text, which holds
      exactly for `YYYY-MM-DD` spellings of real calendar dates. */
  predicate IsValidDate(s: string) {
    LooksLikeDate(s) && ValidDate(DateFields(s))
  }

  /** `isoWeekToMondayDate`: the Monday of the week a `YYYY-Www` label names, for weeks 1..53.
      Week 53 of a 52-week year is not refused: it lands on the next year's first Monday. */
  function IsoWeekToMondayDate(s: string): (r: Option<string>)
    ensures r.Some? <==> IsValidIsoWeek(s) && 1 <= WeekFields(s).week <= 53
    ensures r.Some? && 1 <= WeekFields(s).year <= 9998 ==>
      IsValidDate(r.value) && DayNumber(DateFields(r.value)) == MondayOfIsoWeek(WeekFields(s))
      && IsoWeekday(DayNumber(DateFields(r.value))) == 1
  {
    if !IsValidIsoWeek(s) then None
    else
      var w := WeekFields(s);
      if w.week < 1 || w.week > 53 then None
      else
        MondayDateFormatted(w);
        Some(FormatDate(MondayDate(w)))
  }

  /** The formatted Monday of a week of years 1..9998 is a valid date string naming that Monday. */
  lemma MondayDateFormatted(w: IsoWeek)
    requires 1 <= w.week <= 53
    ensures 1 <= w.year <= 9998 ==>
      IsValidDate(FormatDate(MondayDate(w))) && DateFields(FormatDate(MondayDate(w))) == MondayDate(w)
    ensures IsoWeekday(DayNumber(MondayDate(w))) == 1
  {
    MondayDateYear(w);
    MondayIsMonday(w);
    if 1 <= w.year <= 9998 {
      FormatDateRoundTrip(MondayDate(w));
    }
  }

  /** The Monday of weeks 1..53 of year `y` falls in year `y - 1`, `y` or `y + 1`. */
  lemma MondayDateYear(w: IsoWeek)
    requires 1 <= w.week <= 53
    ensures w.year - 1 <= MondayDate(w).year <= w.year + 1
  {
    var d := MondayDate(w);
    DayNumberInYear(d);
    FirstThursday(w.year);
    YearLength(w.year - 1);
    YearLength(w.year);
    YearLength(w.year + 1);
    YearBetween(d.year, DayNumber(d), w.year - 1, w.year + 1);
  }

  /** `strtotime` on a `YYYY-MM-DD` string: months 00..12 and days 00..31, where month 00 is December
      of the year before, a day past the end of its month runs on into the next month and day 00 is
      the last day of the month before. Returns the calendar year and day number of the resulting
      date. */
  function StrToTime(s: string): (r: Option<(int, int)>)
    ensures r.Some? <==> LooksLikeDate(s) && DateFields(s).month <= 12 && DateFields(s).day <= 31
    ensures r.Some? ==> DaysBeforeYear(r.value.0) <= r.value.1 < DaysBeforeYear(r.value.0 + 1)
    ensures IsValidDate(s) ==> r == Some((DateFields(s).year, DayNumber(DateFields(s))))
    ensures LooksLikeDate(s) && DateFields(s).month == 0 && 1 <= DateFields(s).day <= 31 ==>
      var d := DateFields(s);
      r == Some((d.year - 1, DayNumber(Date(d.year - 1, 12, d.day))))
  {
    if !LooksLikeDate(s) then None
    else
      var d := DateFields(s);
      if d.month > 12 || d.day > 31 then None
      else
        var y := if d.month == 0 then d.year - 1 else d.year;
        var m := if d.month == 0 then 12 else d.month;
        var n := DayNumber(Date(y, m, 1)) + d.day - 1;
        LenientDayInYear(y, m, d.day);
        Some((if n < DaysBeforeYear(y) then y - 1 else y, n))
  }

  /** Day 00 of a month is the last day of the month before, which for January is in the year
      before; days 01..31 stay in the year; and no day up to 31 runs past the end of the year. */
  lemma LenientDayInYear(y: int, m: int, day: int)
    requires 1 <= m <= 12 && 0 <= day <= 31
    ensures var n := DayNumber(Date(y, m, 1)) + day - 1;
      var year := if n < DaysBeforeYear(y) then y - 1 else y;
      && (1 <= day ==> year == y)
      && DaysBeforeYear(year) <= n < DaysBeforeYear(year + 1)
  {
    MonthsFillYear(y);
    YearLength(y - 1);
    YearLength(y);
    assert y - 1 + 1 == y;
  }

  /** `dateToIsoWeek`: the `o-\WW` label of the ISO week holding the date. */
  function DateToIsoWeek(s: string): (r: Option<string>)
    ensures r.Some? <==> StrToTime(s).Some?
  {
    match StrToTime(s)
    case None => None
    case Some((y, n)) => Some(FormatIsoWeek(WeekOf(y, n)))
  }

  /** A `Y-m-d` spelling of a date of years 0..9999 reads back as that date, and a valid date string
      is the spelling of what it reads as. */
  lemma FormatDateRoundTrip(d: Date)
    requires ValidDate(d) && 0 <= d.year <= 9999
    ensures IsValidDate(FormatDate(d)) && DateFields(FormatDate(d)) == d
  {
    var s := FormatDate(d);
    assert s[..4] == Pad4(d.year) && s[5..7] == Pad2(d.month) && s[8..] == Pad2(d.day);
    Pad4RoundTrip(d.year, s[..4]);
    Pad2RoundTrip(d.month, s[5..7]);
    Pad2RoundTrip(d.day, s[8..]);
  }

  /** What `isValidDate` tests: a valid date string is the `Y-m-d` formatting of its own fields. */
  lemma ValidDateIsFormatted(s: string)
    requires IsValidDate(s)
    ensures FormatDate(DateFields(s)) == s
  {
    var d := DateFields(s);
    Pad4RoundTrip(0, s[..4]);
    Pad2RoundTrip(0, s[5..7]);
    Pad2RoundTrip(0, s[8..]);
    assert s == s[..4] + "-" + s[5..7] + "-" + s[8..];
  }

  /** Week labels of ISO years 1000..9999 pass the week pattern and read back as the same week. */
  lemma WeekLabelRoundTrip(w: IsoWeek)
    requires 1000 <= w.year <= 9999 && 0 <= w.week <= 99
    ensures IsValidIsoWeek(FormatIsoWeek(w)) && WeekFields(FormatIsoWeek(w)) == w
  {
    var s := FormatIsoWeek(w);
    DecimalFourDigits(w.year);
    assert s[..4] == Pad4(w.year) && s[6..] == Pad2(w.week);
    Pad4RoundTrip(w.year, s[..4]);
    Pad2RoundTrip(w.week, s[6..]);
  }

  /** Labels of ISO years below 1000 are printed with fewer than four year digits, so the week pattern
      refuses them. */
  lemma ShortYearLabelRefused(w: IsoWeek)
    requires 0 <= w.year < 1000 && 0 <= w.week <= 99
    ensures !IsValidIsoWeek(FormatIsoWeek(w))
  {
    ShortDigits(w.year);
  }

  /** The Monday of a date's own week: `isoWeekToMondayDate(dateToIsoWeek(d))` is the Monday on or
      before `d`, whenever the date's ISO year has four digits. */
  lemma MondayOfDateWeek(s: string)
    requires IsValidDate(s)
    requires 1000 <= IsoWeekOfDate(DateFields(s)).year <= 9998
    ensures DateToIsoWeek(s).Some?
    ensures IsoWeekToMondayDate(DateToIsoWeek(s).value).Some?
    ensures var t := IsoWeekToMondayDate(DateToIsoWeek(s).value).value;
      IsValidDate(t) && DayNumber(DateFields(t)) == MondayOf(DayNumber(DateFields(s)))
  {
    var d := DateFields(s);
    var n := DayNumber(d);
    DayNumberInYear(d);
    WeekOfThenMonday(d.year, n);
    var w := WeekOf(d.year, n);
    assert DateToIsoWeek(s) == Some(FormatIsoWeek(w));
    LabelMonday(w);
  }

  /** The label of a week of a four-digit year names that week's Monday. */
  lemma LabelMonday(w: IsoWeek)
    requires 1000 <= w.year <= 9998 && 1 <= w.week <= 53
    ensures IsoWeekToMondayDate(FormatIsoWeek(w)).Some?
    ensures var t := IsoWeekToMondayDate(FormatIsoWeek(w)).value;
      IsValidDate(t) && DayNumber(DateFields(t)) == MondayOfIsoWeek(w)
  {
    WeekLabelRoundTrip(w);
  }

  /** A week label of a four-digit year is the `o-\WW` formatting of its own fields. */
  lemma WeekLabelCanonical(s: string)
    requires IsValidIsoWeek(s) && 1000 <= WeekFields(s).year
    ensures FormatIsoWeek(WeekFields(s)) == s
  {
    var w := WeekFields(s);
    Pad4RoundTrip(0, s[..4]);
    Pad2RoundTrip(0, s[6..]);
    DecimalFourDigits(w.year);
    assert s == s[..4] + "-W" + s[6..];
  }

  /** Every week a year really has survives the trip to its Monday and back to a week label. */
  lemma WeekThenDateThenWeek(s: string)
    requires IsValidIsoWeek(s)
    requires 1000 <= WeekFields(s).year <= 9998
    requires 1 <= WeekFields(s).week <= WeeksInYear(WeekFields(s).year)
    ensures IsoWeekToMondayDate(s).Some?
    ensures DateToIsoWeek(IsoWeekToMondayDate(s).value) == Some(s)
  {
    var w := WeekFields(s);
    var t := IsoWeekToMondayDate(s).value;
    var d := DateFields(t);
    assert IsValidDate(t) && DayNumber(d) == MondayOfIsoWeek(w);
    DayNumberInYear(d);
    MondayThenWeekOf(w, d.year);
    assert DateToIsoWeek(t) == Some(FormatIsoWeek(WeekOf(d.year, DayNumber(d))));
    WeekLabelCanonical(s);
  }

  /** Week 53 of a 52-week year is accepted and becomes week 1 of the following year. */
  lemma Week53Overflow(s: string)
    requires IsValidIsoWeek(s)
    requires 1000 <= WeekFields(s).year <= 9997
    requires WeekFields(s).week == 53 && WeeksInYear(WeekFields(s).year) == 52
    ensures IsoWeekToMondayDate(s).Some?
    ensures DateToIsoWeek(IsoWeekToMondayDate(s).value)
      == Some(FormatIsoWeek(IsoWeek(WeekFields(s).year + 1, 1)))
  {
    var w := WeekFields(s);
    var next := IsoWeek(w.year + 1, 1);
    Week53RollsOver(w.year);
    var t := IsoWeekToMondayDate(s).value;
    var d := DateFields(t);
    DayNumberInYear(d);
    MondayThenWeekOf(next, d.year);
  }

  /** `2024-12-30` lies in week 1 of ISO year 2025 ... */
  lemma ExampleDateToWeek()
    ensures DateToIsoWeek("2024-12-30") == Some("2025-W01")
  {
    LastMonday2024Reads();
    assert StrToTime("2024-12-30") == Some((2024, 739615));
    LastMonday2024Week();
  }

  lemma LastMonday2024Reads()
    ensures IsValidDate("2024-12-30") && DateFields("2024-12-30") == Date(2024, 12, 30)
    ensures DayNumber(Date(2024, 12, 30)) == 739615
  {
    var s := "2024-12-30";
    ParseFour(s[..4]);
    ParseTwo(s[..4][..2]);
    ParseTwo(s[..4][2..]);
    ParseTwo(s[5..7]);
    ParseTwo(s[8..]);
    assert DateFields(s) == Date(2024, 12, 30);
    assert DaysBeforeYear(2024) == 739251;
  }

  lemma LastMonday2024Week()
    ensures FormatIsoWeek(WeekOf(2024, 739615)) == "2025-W01"
  {
    assert DaysBeforeYear(2024) == 739251;
    assert DaysBeforeYear(2025) == 739617;
    assert IsoWeekday(739615) == 1;
    assert WeekOf(2024, 739615) == IsoWeek(2025, 1);
    DecimalFourDigits(2025);
  }

  /** ... and is that week's Monday. */
  lemma ExampleWeekToDate()
    ensures IsoWeekToMondayDate("2025-W01") == Some("2024-12-30")
  {
    var s := "2025-W01";
    ParseFour(s[..4]);
    ParseTwo(s[..4][..2]);
    ParseTwo(s[..4][2..]);
    ParseTwo(s[6..]);
    assert WeekFields(s) == IsoWeek(2025, 1);
    FirstWeek2025();
    FormatLastMonday2024();
  }

  lemma FirstWeek2025()
    ensures MondayDate(IsoWeek(2025, 1)) == Date(2024, 12, 30)
  {
    assert DaysBeforeYear(2024) == 739251;
    assert DaysBeforeYear(2025) == 739617;
    assert FirstMonday(2025) == 739615;
    assert MonthDay(2024, 12, 30) == Date(2024, 12, 30);
    assert MonthDay(2024, 11, 60) == Date(2024, 12, 30);
    assert MonthDay(2024, 10, 91) == Date(2024, 12, 30);
    assert MonthDay(2024, 9, 121) == Date(2024, 12, 30);
    assert MonthDay(2024, 8, 152) == Date(2024, 12, 30);
    assert MonthDay(2024, 7, 183) == Date(2024, 12, 30);
    assert MonthDay(2024, 6, 213) == Date(2024, 12, 30);
    assert MonthDay(2024, 5, 244) == Date(2024, 12, 30);
    assert MonthDay(2024, 4, 274) == Date(2024, 12, 30);
    assert MonthDay(2024, 3, 305) == Date(2024, 12, 30);
    assert MonthDay(2024, 2, 334) == Date(2024, 12, 30);
    assert MonthDay(2024, 1, 365) == Date(2024, 12, 30);
    assert DateFromYearDay(2024, 365) == Date(2024, 12, 30);
  }

  lemma FormatLastMonday2024()
    ensures FormatDate(Date(2024, 12, 30)) == "2024-12-30"
  {
    assert Pad2(20) == "20" && Pad2(24) == "24";
    assert Pad4(2024) == "2024";
    assert Pad4Signed(2024) == "2024";
    assert Pad2(12) == "12" && Pad2(30) == "30";
  }

  /** Month 00 is December of the year before: `2024-00-15` is 15 December 2023, in week 50. */
  lemma ExampleMonthZero()
    ensures DateToIsoWeek("2024-00-15") == Some("2023-W50")
  {
    var s := "2024-00-15";
    ParseFour(s[..4]);
    ParseTwo(s[..4][..2]);
    ParseTwo(s[..4][2..]);
    ParseTwo(s[5..7]);
    ParseTwo(s[8..]);
    assert DateFields(s) == Date(2024, 0, 15);
    assert DaysBeforeYear(2023) == 738886;
    assert StrToTime(s) == Some((2023, 739234));
    assert IsoWeekday(739234) == 5;
    assert WeekOf(2023, 739234) == IsoWeek(2023, 50);
    DecimalFourDigits(2023);
    assert Pad2(20) == "20" && Pad2(23) == "23" && Pad2(50) == "50";
    assert Pad4(2023) == "2023";
    assert FormatIsoWeek(IsoWeek(2023, 50)) == "2023-W50";
  }
}
