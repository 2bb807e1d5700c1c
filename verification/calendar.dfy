/** `get_date`: a visit time in microseconds since the Unix epoch rendered as
    `YYYY-MM-DD HH:MM` in UTC, the ISO 8601 extended calendar date and time of
    day with a space separator, to the minute, in the proleptic Gregorian
    calendar. The library's float arithmetic is replaced by integer division. */
module Calendar {
  import opened Results
  import opened Text

  // ---------------------------------------------------------------------------
  // The calendar, by counting

  predicate IsLeapYear(y: int) {
    y % 4 == 0 && (y % 100 != 0 || y % 400 == 0)
  }

  function DaysInYear(y: int): int {
    if IsLeapYear(y) then 366 else 365
  }

  function DaysInMonth(y: int, m: int): int
    requires 1 <= m <= 12
  {
    if m == 2 then (if IsLeapYear(y) then 29 else 28)
    else if m == 4 || m == 6 || m == 9 || m == 11 then 30
    else 31
  }

  predicate ValidDate(y: int, m: int, d: int) {
    1 <= m <= 12 && 1 <= d <= DaysInMonth(y, m)
  }

  const EpochYear := 1970

  /** Days from 1 January 1970 to 1 January of year `y`, year by year
      (negative before 1970). */
  function DaysBeforeYear(y: int): int
    decreases if y < EpochYear then EpochYear - y else y - EpochYear
  {
    if y == EpochYear then 0
    else if y > EpochYear then DaysBeforeYear(y - 1) + DaysInYear(y - 1)
    else DaysBeforeYear(y + 1) - DaysInYear(y)
  }

  /** Days from 1 January to the first of month `m`, month by month. */
  function DaysBeforeMonth(y: int, m: int): int
    requires 1 <= m <= 12
  {
    if m == 1 then 0 else DaysBeforeMonth(y, m - 1) + DaysInMonth(y, m - 1)
  }

  /** The day number, counted from 1970-01-01, of a calendar date. */
  function EpochDay(y: int, m: int, d: int): int
    requires 1 <= m <= 12
  {
    DaysBeforeYear(y) + DaysBeforeMonth(y, m) + d - 1
  }

  lemma DaysBeforeNextYear(y: int)
    ensures DaysBeforeYear(y + 1) == DaysBeforeYear(y) + DaysInYear(y)
  {
  }

  /** Leap years in [1, y) (negated count of [y, 1) for y < 1). */
  function LeapsBefore(y: int): int {
    (y - 1) / 4 - (y - 1) / 100 + (y - 1) / 400
  }

  lemma LeapStep(y: int)
    ensures LeapsBefore(y + 1) == LeapsBefore(y) + (if IsLeapYear(y) then 1 else 0)
  {
    DivStep(y, 4);
    DivStep(y, 100);
    DivStep(y, 400);
    MultipleOfMultiple(y, 4, 25);
    MultipleOfMultiple(y, 100, 4);
  }

  /** Passing a multiple of `d` adds one to the quotient. */
  lemma DivStep(y: int, d: int)
    requires d == 4 || d == 100 || d == 400
    ensures y / d == (y - 1) / d + (if y % d == 0 then 1 else 0)
  {
  }

  lemma MultipleOfMultiple(y: int, d: int, k: int)
    requires (d == 4 && k == 25) || (d == 100 && k == 4)
    ensures y % (d * k) == 0 ==> y % d == 0
  {
    if y % (d * k) == 0 {
      assert y == d * (k * (y / (d * k)));
    }
  }

  /** The year-by-year count in closed form. */
  lemma {:induction false} DaysBeforeYearClosed(y: int)
    ensures DaysBeforeYear(y) == 365 * (y - EpochYear) + LeapsBefore(y) - 477
    decreases if y < EpochYear then EpochYear - y else y - EpochYear
  {
    if y > EpochYear {
      DaysBeforeYearClosed(y - 1);
      LeapStep(y - 1);
    } else if y < EpochYear {
      DaysBeforeYearClosed(y + 1);
      LeapStep(y);
    }
  }

  /** Days before each month: January and February are fixed; from March on
      they are the March-based offsets below, shifted by the leap day. */
  lemma DaysBeforeMonthValues(y: int)
    ensures DaysBeforeMonth(y, 1) == 0 && DaysBeforeMonth(y, 2) == 31
    ensures forall m :: 3 <= m <= 12 ==>
      DaysBeforeMonth(y, m) == 59 + (if IsLeapYear(y) then 1 else 0) + MarchMonthStart(m - 3)
  {
    assert DaysBeforeMonth(y, 2) == 31;
    assert DaysBeforeMonth(y, 3) == 59 + (if IsLeapYear(y) then 1 else 0);
    assert DaysBeforeMonth(y, 4) == DaysBeforeMonth(y, 3) + 31;
    assert DaysBeforeMonth(y, 5) == DaysBeforeMonth(y, 4) + 30;
    assert DaysBeforeMonth(y, 6) == DaysBeforeMonth(y, 5) + 31;
    assert DaysBeforeMonth(y, 7) == DaysBeforeMonth(y, 6) + 30;
    assert DaysBeforeMonth(y, 8) == DaysBeforeMonth(y, 7) + 31;
    assert DaysBeforeMonth(y, 9) == DaysBeforeMonth(y, 8) + 31;
    assert DaysBeforeMonth(y, 10) == DaysBeforeMonth(y, 9) + 30;
    assert DaysBeforeMonth(y, 11) == DaysBeforeMonth(y, 10) + 31;
    assert DaysBeforeMonth(y, 12) == DaysBeforeMonth(y, 11) + 30;
  }

  // ---------------------------------------------------------------------------
  // From a day number back to a date, by the nested Gregorian cycles

  /** Offset of each month from 1 March, in a year that runs March to
      February; index 12 is the year's length when it ends in a leap day. */
  function MarchMonthStart(mp: int): int
    requires 0 <= mp <= 12
  {
    [0, 31, 61, 92, 122, 153, 184, 214, 245, 275, 306, 337, 366][mp]
  }

  /** The March-based month a day of that year falls in. */
  function MarchMonth(doy: int): (mp: int)
    requires 0 <= doy < 366
    ensures 0 <= mp < 12 && MarchMonthStart(mp) <= doy < MarchMonthStart(mp + 1)
  {
    if doy < 31 then 0 else if doy < 61 then 1 else if doy < 92 then 2
    else if doy < 122 then 3 else if doy < 153 then 4 else if doy < 184 then 5
    else if doy < 214 then 6 else if doy < 245 then 7 else if doy < 275 then 8
    else if doy < 306 then 9 else if doy < 337 then 10 else 11
  }

  /** A day number split along the Gregorian cycles, counted from 1 March of
      year 0: 400-year eras, then centuries, 4-year cycles, single years and
      the day within the (March-based) year. */
  datatype MarchSplit = MarchSplit(era: int, century: int, quad: int, year: int, dayOfYear: int)
  {
    /** The year the March-based year starts in. */
    function MarchYear(): int {
      400 * era + 100 * century + 4 * quad + year
    }
  }

  /** Days from 1 March 0000 to 1 January 1970. */
  const MarchEpochOffset := 719468

  function SplitDays(n: int): (s: MarchSplit)
    ensures 0 <= s.century <= 3 && 0 <= s.quad <= 24 && 0 <= s.year <= 3
    ensures 0 <= s.dayOfYear <= 365
    ensures n + MarchEpochOffset
         == 146097 * s.era + 36524 * s.century + 1461 * s.quad + 365 * s.year + s.dayOfYear
    ensures s.dayOfYear == 365 ==> s.year == 3 && (s.quad < 24 || s.century == 3)
  {
    var z := n + MarchEpochOffset;
    var era := z / 146097;
    var doe := z % 146097;
    var century := if doe / 36524 < 3 then doe / 36524 else 3;
    var r1 := doe - 36524 * century;
    var quad := r1 / 1461;
    var r2 := r1 % 1461;
    var year := if r2 / 365 < 3 then r2 / 365 else 3;
    MarchSplit(era, century, quad, year, r2 - 365 * year)
  }

  datatype Date = Date(year: int, month: int, day: int)

  /** The civil date of day number `n` (days since 1970-01-01). */
  function CivilFromDays(n: int): (date: Date)
    ensures ValidDate(date.year, date.month, date.day)
    ensures EpochDay(date.year, date.month, date.day) == n
  {
    var s := SplitDays(n);
    var mp := MarchMonth(s.dayOfYear);
    var day := s.dayOfYear - MarchMonthStart(mp) + 1;
    var date := if mp < 10 then Date(s.MarchYear(), mp + 3, day)
                else Date(s.MarchYear() + 1, mp - 9, day);
    CivilFromDaysSound(n, s, mp, date);
    date
  }

  /** The March-based year of a split begins on the day the split counts from. */
  lemma MarchFirst(s: MarchSplit)
    requires 0 <= s.century <= 3 && 0 <= s.quad <= 24 && 0 <= s.year <= 3
    ensures var y := s.MarchYear();
      DaysBeforeYear(y) + 59 + (if IsLeapYear(y) then 1 else 0)
      == 146097 * s.era + 36524 * s.century + 1461 * s.quad + 365 * s.year - MarchEpochOffset
  {
    var y := s.MarchYear();
    DaysBeforeYearClosed(y);
    LeapStep(y);
    assert y / 4 == 100 * s.era + 25 * s.century + s.quad;
    assert y / 100 == 4 * s.era + s.century;
    assert y / 400 == s.era;
  }

  /** A 366th March-based day means February of the next year has 29 days. */
  lemma LeapDayInLeapYear(s: MarchSplit)
    requires 0 <= s.century <= 3 && 0 <= s.quad <= 24 && s.year == 3
    requires s.quad < 24 || s.century == 3
    ensures IsLeapYear(s.MarchYear() + 1)
  {
    var y := s.MarchYear() + 1;
    if s.quad < 24 {
      assert y == 400 * s.era + 100 * s.century + 4 * (s.quad + 1);
      assert y % 4 == 0;
      assert y % 100 == 4 * (s.quad + 1);
    } else {
      assert y == 400 * (s.era + 1);
    }
  }

  lemma CivilFromDaysSound(n: int, s: MarchSplit, mp: int, date: Date)
    requires s == SplitDays(n)
    requires mp == MarchMonth(s.dayOfYear)
    requires date == if mp < 10 then Date(s.MarchYear(), mp + 3, s.dayOfYear - MarchMonthStart(mp) + 1)
                     else Date(s.MarchYear() + 1, mp - 9, s.dayOfYear - MarchMonthStart(mp) + 1)
    ensures ValidDate(date.year, date.month, date.day)
    ensures EpochDay(date.year, date.month, date.day) == n
  {
    var y := s.MarchYear();
    MarchFirst(s);
    var march1 := DaysBeforeYear(y) + 59 + (if IsLeapYear(y) then 1 else 0);
    assert n == march1 + s.dayOfYear;
    if mp < 10 {
      DaysBeforeMonthValues(y);
      assert DaysBeforeMonth(y, mp + 3) == march1 - DaysBeforeYear(y) + MarchMonthStart(mp);
    } else {
      DaysBeforeNextYear(y);
      DaysBeforeMonthValues(y + 1);
      if s.dayOfYear == 365 {
        LeapDayInLeapYear(s);
      }
    }
  }

  // ---------------------------------------------------------------------------
  // get_date

  const MicrosPerMinute := 60_000_000
  const MinutesPerDay := 1440

  /** The range `datetime` accepts, years 1 to 9999: 0001-01-01 00:00 and
      10000-01-01 00:00 in microseconds since the epoch. */
  const MinTimestamp := -62_135_596_800_000_000
  const MaxTimestamp := 253_402_300_800_000_000

  /** `YYYY-MM-DD HH:MM`, every field zero-filled to its width. */
  function Stamp(date: Date, hour: nat, minute: nat): (s: string)
    requires 0 <= date.year <= 9999 && ValidDate(date.year, date.month, date.day)
    requires hour < 24 && minute < 60
    ensures |s| == 16
  {
    FixedDigits(date.year, 4) + "-" + FixedDigits(date.month, 2) + "-" + FixedDigits(date.day, 2)
    + " " + FixedDigits(hour, 2) + ":" + FixedDigits(minute, 2)
  }

  /** Reads a `YYYY-MM-DD HH:MM` stamp back to minutes since the epoch; the
      inverse of `GetDate` on its range. */
  function ParseStamp(s: string): Option<int> {
    if && |s| == 16
       && s[4] == '-' && s[7] == '-' && s[10] == ' ' && s[13] == ':'
       && AllDigits(s[0..4]) && AllDigits(s[5..7]) && AllDigits(s[8..10])
       && AllDigits(s[11..13]) && AllDigits(s[14..16])
    then
      var y := DigitsValue(s[0..4]);
      var m := DigitsValue(s[5..7]);
      var d := DigitsValue(s[8..10]);
      var hh := DigitsValue(s[11..13]);
      var mm := DigitsValue(s[14..16]);
      if ValidDate(y, m, d) && hh < 24 && mm < 60
      then Some(EpochDay(y, m, d) * MinutesPerDay + hh * 60 + mm)
      else None
    else None
  }

  /** The first and last-plus-one minute `datetime` can represent. */
  const MinMinute := -1_035_593_280
  const MaxMinute := 4_223_371_680

  /** The hour of the day a minute falls in. */
  function HourOf(minute: int): (h: nat)
    ensures h < 24
  {
    minute % MinutesPerDay / 60
  }

  /** The minute within its hour. */
  function MinuteOfHour(minute: int): (m: nat)
    ensures m < 60
  {
    minute % 60
  }

  /** The date-and-time text of a minute counted from the epoch; years outside
      1..9999 have none. */
  function MinuteStamp(minute: int): (r: Option<string>)
    ensures r.Some? <==> MinMinute <= minute < MaxMinute
    ensures r.Some? ==> |r.value| == 16 && ParseStamp(r.value) == Some(minute)
  {
    var date := CivilFromDays(minute / MinutesPerDay);
    YearRange(minute, date);
    if 1 <= date.year <= 9999 then
      MinuteParses(minute, date);
      Some(Stamp(date, HourOf(minute), MinuteOfHour(minute)))
    else None
  }

  /** `get_date`: the timestamp's minute as a date and time of day; a year
      outside 1..9999 is the error `datetime` raises. Only the minute
      matters, and it can be read back from the text. */
  function GetDate(timestamp: int): (r: Option<string>)
    ensures r.Some? <==> MinTimestamp <= timestamp < MaxTimestamp
    ensures r.Some? ==> |r.value| == 16
    ensures r.Some? ==> ParseStamp(r.value) == Some(timestamp / MicrosPerMinute)
  {
    MinuteStamp(timestamp / MicrosPerMinute)
  }

  lemma MinuteParses(minute: int, date: Date)
    requires ValidDate(date.year, date.month, date.day) && 1 <= date.year <= 9999
    requires EpochDay(date.year, date.month, date.day) == minute / MinutesPerDay
    ensures ParseStamp(Stamp(date, HourOf(minute), MinuteOfHour(minute))) == Some(minute)
  {
    MinuteSplit(minute, minute / MinutesPerDay);
    StampParses(date, HourOf(minute), MinuteOfHour(minute), minute);
  }

  /** A minute is its day's first minute plus the hours and minutes into it. */
  lemma MinuteSplit(minute: int, day: int)
    requires day == minute / MinutesPerDay
    ensures day * MinutesPerDay + HourOf(minute) * 60 + MinuteOfHour(minute) == minute
  {
    var time := minute % MinutesPerDay;
    var hour := time / 60;
    assert minute == day * MinutesPerDay + time;
    assert time == hour * 60 + time % 60;
    assert minute == (day * 24 + hour) * 60 + time % 60;
    HourRemainder(minute, day * 24 + hour, time % 60);
  }

  lemma HourRemainder(a: int, q: int, r: int)
    requires 0 <= r < 60 && a == q * 60 + r
    ensures a % 60 == r
  {
  }

  lemma StampParses(date: Date, hour: nat, minute: nat, total: int)
    requires 0 <= date.year <= 9999 && ValidDate(date.year, date.month, date.day)
    requires hour < 24 && minute < 60
    requires EpochDay(date.year, date.month, date.day) * MinutesPerDay + hour * 60 + minute == total
    ensures ParseStamp(Stamp(date, hour, minute)) == Some(total)
  {
    StampFields(date, hour, minute);
  }

  /** Where each field of a stamp sits. */
  lemma StampFields(date: Date, hour: nat, minute: nat)
    requires 0 <= date.year <= 9999 && ValidDate(date.year, date.month, date.day)
    requires hour < 24 && minute < 60
    ensures var s := Stamp(date, hour, minute);
      && s[4] == '-' && s[7] == '-' && s[10] == ' ' && s[13] == ':'
      && s[0..4] == FixedDigits(date.year, 4)
      && s[5..7] == FixedDigits(date.month, 2)
      && s[8..10] == FixedDigits(date.day, 2)
      && s[11..13] == FixedDigits(hour, 2)
      && s[14..16] == FixedDigits(minute, 2)
  {
    assert 1 <= date.month <= 12 && 1 <= date.day <= 31;
    StampLayout(FixedDigits(date.year, 4), FixedDigits(date.month, 2), FixedDigits(date.day, 2),
                FixedDigits(hour, 2), FixedDigits(minute, 2));
  }

  lemma StampLayout(y4: string, m2: string, d2: string, h2: string, n2: string)
    requires |y4| == 4 && |m2| == 2 && |d2| == 2 && |h2| == 2 && |n2| == 2
    ensures var s := y4 + "-" + m2 + "-" + d2 + " " + h2 + ":" + n2;
      && s[4] == '-' && s[7] == '-' && s[10] == ' ' && s[13] == ':'
      && s[0..4] == y4 && s[5..7] == m2 && s[8..10] == d2
      && s[11..13] == h2 && s[14..16] == n2
  {
    var s := y4 + "-" + m2 + "-" + d2 + " " + h2 + ":" + n2;
    var tail := h2 + ":" + n2;
    assert s == y4 + "-" + m2 + "-" + d2 + " " + tail;
    assert tail[0..2] == h2 && tail[3..5] == n2;
    assert s[11..16] == tail;
  }

  /** Each year is the block of days from its first to the next year's first. */
  lemma DayInYear(y: int, m: int, d: int)
    requires ValidDate(y, m, d)
    ensures DaysBeforeYear(y) <= EpochDay(y, m, d) < DaysBeforeYear(y + 1)
  {
    DaysBeforeNextYear(y);
    DaysBeforeMonthValues(y);
  }

  lemma {:induction false} DaysBeforeYearMonotone(a: int, b: int)
    requires a <= b
    ensures DaysBeforeYear(a) <= DaysBeforeYear(b)
    decreases b - a
  {
    if a < b {
      DaysBeforeYearMonotone(a, b - 1);
      DaysBeforeNextYear(b - 1);
    }
  }

  /** The year of a minute's date is in 1..9999 exactly on the range. */
  lemma YearRange(minute: int, date: Date)
    requires ValidDate(date.year, date.month, date.day)
    requires EpochDay(date.year, date.month, date.day) == minute / MinutesPerDay
    ensures 1 <= date.year <= 9999 <==> MinMinute <= minute < MaxMinute
  {
    var n := minute / MinutesPerDay;
    DayInYear(date.year, date.month, date.day);
    DaysBeforeYearClosed(1);
    DaysBeforeYearClosed(10000);
    assert DaysBeforeYear(1) == -719162;
    assert DaysBeforeYear(10000) == 2932897;
    if 1 <= date.year {
      DaysBeforeYearMonotone(1, date.year);
    } else {
      DaysBeforeYearMonotone(date.year + 1, 1);
    }
    if date.year <= 9999 {
      DaysBeforeYearMonotone(date.year + 1, 10000);
    } else {
      DaysBeforeYearMonotone(10000, date.year);
    }
  }

  // ---------------------------------------------------------------------------
  // The day number is a bijection between valid dates and integers

  lemma MonthsIncrease(y: int, m: int, k: int)
    requires 1 <= m < k <= 12
    ensures DaysBeforeMonth(y, m) + DaysInMonth(y, m) <= DaysBeforeMonth(y, k)
  {
    DaysBeforeMonthValues(y);
  }

  /** Distinct valid dates have distinct day numbers. */
  lemma EpochDayInjective(a: Date, b: Date)
    requires ValidDate(a.year, a.month, a.day) && ValidDate(b.year, b.month, b.day)
    requires EpochDay(a.year, a.month, a.day) == EpochDay(b.year, b.month, b.day)
    ensures a == b
  {
    DayInYear(a.year, a.month, a.day);
    DayInYear(b.year, b.month, b.day);
    if a.year < b.year {
      DaysBeforeYearMonotone(a.year + 1, b.year);
    } else if b.year < a.year {
      DaysBeforeYearMonotone(b.year + 1, a.year);
    }
    assert a.year == b.year;
    if a.month < b.month {
      MonthsIncrease(a.year, a.month, b.month);
    } else if b.month < a.month {
      MonthsIncrease(a.year, b.month, a.month);
    }
  }

  /** Every valid date is the civil date of its own day number, so together
      with `CivilFromDays`'s contract the two are inverse bijections. */
  lemma CivilRoundTrip(date: Date)
    requires ValidDate(date.year, date.month, date.day)
    ensures CivilFromDays(EpochDay(date.year, date.month, date.day)) == date
  {
    var n := EpochDay(date.year, date.month, date.day);
    EpochDayInjective(CivilFromDays(n), date);
  }

  /** Two timestamps render alike exactly when they fall in the same minute. */
  lemma GetDateSameMinute(a: int, b: int)
    requires GetDate(a).Some?
    ensures GetDate(a) == GetDate(b) <==> a / MicrosPerMinute == b / MicrosPerMinute
  {
    if GetDate(a) == GetDate(b) {
      assert ParseStamp(GetDate(a).value) == Some(a / MicrosPerMinute);
      assert ParseStamp(GetDate(b).value) == Some(b / MicrosPerMinute);
    }
  }

  lemma CutoffDay()
    ensures EpochDay(2020, 4, 1) == 18353
  {
    DaysBeforeYearClosed(2020);
    DaysBeforeMonthValues(2020);
  }

  lemma CutoffStamp()
    ensures Stamp(Date(2020, 4, 1), 0, 0) == "2020-04-01 00:00"
  {
    assert ValidDate(2020, 4, 1) by { assert DaysInMonth(2020, 4) == 30; }
    assert Stamp(Date(2020, 4, 1), 0, 0)
        == FixedDigits(2020, 4) + "-" + FixedDigits(4, 2) + "-" + FixedDigits(1, 2)
           + " " + FixedDigits(0, 2) + ":" + FixedDigits(0, 2);
    CutoffDigits();
    CutoffPieces();
  }

  lemma CutoffPieces()
    ensures "2020" + "-" + "04" + "-" + "01" + " " + "00" + ":" + "00" == "2020-04-01 00:00"
  {
    var date := "2020" + "-" + "04" + "-" + "01";
    assert date == "2020-04-01";
    var time := "00" + ":" + "00";
    assert time == "00:00";
  }

  lemma CutoffDigits()
    ensures FixedDigits(2020, 4) == "2020"
    ensures FixedDigits(4, 2) == "04" && FixedDigits(1, 2) == "01" && FixedDigits(0, 2) == "00"
  {
    assert FixedDigits(2, 1) == "2";
    assert FixedDigits(20, 2) == "20";
    assert FixedDigits(202, 3) == "202";
  }

  /** The start of April 2020, the report's cut-off, renders as expected. */
  lemma CutoffDate()
    ensures GetDate(1_585_699_200_000_000) == Some("2020-04-01 00:00")
  {
    var minute := 1_585_699_200_000_000 / MicrosPerMinute;
    assert minute == 26428320;
    assert minute / MinutesPerDay == 18353;
    assert HourOf(minute) == 0 && MinuteOfHour(minute) == 0;
    CutoffDay();
    CivilRoundTrip(Date(2020, 4, 1));
    CutoffStamp();
  }
}
