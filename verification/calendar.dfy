/**
 Calendar decomposition of an epoch-millisecond timestamp, as the log transform
 derives the columns of the `time` table: hour, day of month, ISO 8601 week
 number, month, year and weekday (Monday = 0).  Everything is proleptic
 Gregorian in UTC; negative timestamps round towards minus infinity.

 The functions only compute; what they compute is stated by the lemmas that
 follow each of them.  An hour is 3_600_000 ms and a day 86_400_000 ms;
 719_468 is the number of days from 0000-03-01 to 1970-01-01 and 146_097 the
 number of days in 400 Gregorian years (an era).
 */
module Calendar {

  /** A calendar date. */
  datatype Date = Date(year: int, month: int, day: int)

  /** The derived columns of one `time` row (its key, the timestamp, is kept apart). */
  datatype TimeRow = TimeRow(hour: int, day: int, week: int, month: int, year: int, weekday: int)

  /** Whole days since 1970-01-01 of the day holding `ms` (floor division). */
  function DayNumber(ms: int): (r: int)
  {
    ms / 86_400_000
  }

  /** Hour of the day of `ms`. */
  function HourOf(ms: int): (r: int)
  {
    (ms % 86_400_000) / 3_600_000
  }

  /** The hour is the one whose interval of the day holds `ms`. */
  lemma HourOfSpec(ms: int)
    ensures 0 <= HourOf(ms) <= 23
    ensures DayNumber(ms) * 86_400_000 + HourOf(ms) * 3_600_000 <= ms
            < DayNumber(ms) * 86_400_000 + (HourOf(ms) + 1) * 3_600_000
  {
  }

  /** Weekday of a day number, Monday = 0 ... Sunday = 6 (1970-01-01 was a Thursday). */
  function Weekday(days: int): (r: int)
  {
    (days + 3) % 7
  }

  predicate IsLeapYear(y: int)
  {
    y % 4 == 0 && (y % 100 != 0 || y % 400 == 0)
  }

  function DaysInMonth(year: int, month: int): (r: int)
  {
    if month == 2 then (if IsLeapYear(year) then 29 else 28)
    else if month == 4 || month == 6 || month == 9 || month == 11 then 30
    else 31
  }

  /**
   A day in the shifted calendar whose years start on 1 March, so that the leap
   day is the last day of its year: `y` is the shifted year and `doy` the
   0-based day within it (0 = 1 March).
   */
  datatype ShiftedDay = ShiftedDay(y: int, doy: int)

  /** Days from the start of an era to the start of its shifted year `yoe`. */
  function YearStart(yoe: int): (r: int)
  {
    365 * yoe + yoe / 4 - yoe / 100
  }

  /** The day number of a shifted-calendar day. */
  function FromShifted(s: ShiftedDay): (r: int)
  {
    (s.y / 400) * 146_097 + YearStart(s.y % 400) + s.doy - 719_468
  }

  /**
   Splits the day `doe` of an era into the shifted year of the era and the
   day within that year.  An era holds three centuries of 36524 days and a
   last one of 36525; a century holds four-year cycles of 1461 days; a cycle
   holds three years of 365 days and a last one of 366.
   */
  function SplitEra(doe: int): (r: ShiftedDay)
  {
    var c := if doe < 3 * 36524 then doe / 36524 else 3;
    var doc := doe - 36524 * c;
    var q := doc / 1461;
    var doq := doc % 1461;
    var yq := if doq < 3 * 365 then doq / 365 else 3;
    ShiftedDay(100 * c + 4 * q + yq, doq - 365 * yq)
  }

  /** Splits a day number into the shifted year and the day within it. */
  function ToShifted(days: int): (r: ShiftedDay)
  {
    var z := days + 719_468;
    var s := SplitEra(z % 146_097);
    ShiftedDay((z / 146_097) * 400 + s.y, s.doy)
  }

  lemma RemainderBy4(n: int, q: int, r: int)
    requires n == 4 * q + r && 0 <= r < 4
    ensures n % 4 == r
  {
  }

  lemma RemainderBy100(n: int, q: int, r: int)
    requires n == 100 * q + r && 0 <= r < 100
    ensures n % 100 == r
  {
  }

  lemma RemainderBy400(n: int, q: int, r: int)
    requires n == 400 * q + r && 0 <= r < 400
    ensures n % 400 == r && n / 400 == q
  {
  }

  /** YearStart of a year given as century, four-year cycle and year within the cycle. */
  lemma {:induction false} YearStartParts(c: int, q: int, yq: int)
    requires 0 <= c <= 3 && 0 <= q <= 24 && 0 <= yq <= 3
    ensures YearStart(100 * c + 4 * q + yq) == 36524 * c + 1461 * q + 365 * yq
  {
    var yoe := 100 * c + 4 * q + yq;
    assert yoe / 4 == 25 * c + q;
    assert yoe / 100 == c;
  }

  /** The century of an era and the day within it. */
  lemma SplitCentury(doe: int)
    requires 0 <= doe < 146_097
    ensures var c := if doe < 3 * 36524 then doe / 36524 else 3;
            var doc := doe - 36524 * c;
            0 <= c <= 3 && 0 <= doc <= 36524 && (doc == 36524 ==> c == 3)
  {
  }

  /** The year of a four-year cycle and the day within it. */
  lemma SplitCycle(doq: int)
    requires 0 <= doq < 1461
    ensures var yq := if doq < 3 * 365 then doq / 365 else 3;
            0 <= yq <= 3 && 0 <= doq - 365 * yq <= 365 && (doq - 365 * yq == 365 ==> yq == 3 && doq == 1460)
  {
  }

  /**
   The year and day given by century `c`, four-year cycle `q` and day `doq`
   of the cycle add back up to the day of the era, and day 365 only ends a
   full cycle.
   */
  lemma {:induction false} EraParts(c: int, q: int, doq: int)
    requires 0 <= c <= 3 && 0 <= q <= 24 && 0 <= doq < 1461 && (doq == 1460 && q == 24 ==> c == 3)
    ensures var yq := if doq < 3 * 365 then doq / 365 else 3;
            var y, doy := 100 * c + 4 * q + yq, doq - 365 * yq;
            && 0 <= y <= 399 && 0 <= doy <= 365
            && YearStart(y) + doy == 36524 * c + 1461 * q + doq
            && (doy == 365 ==> y % 4 == 3 && (y % 100 != 99 || y == 399))
  {
    var yq := if doq < 3 * 365 then doq / 365 else 3;
    SplitCycle(doq);
    var y := 100 * c + 4 * q + yq;
    YearStartParts(c, q, yq);
    RemainderBy4(y, 25 * c + q, yq);
    RemainderBy100(y, c, 4 * q + yq);
  }

  /**
   SplitEra gives a year of the era and a day of that year that add back up
   to `doe`; only the last year of a full four-year cycle reaches day 365.
   */
  lemma {:induction false} SplitEraSpec(doe: int)
    requires 0 <= doe < 146_097
    ensures var r := SplitEra(doe);
            && 0 <= r.y <= 399 && 0 <= r.doy <= 365
            && YearStart(r.y) + r.doy == doe
            && (r.doy == 365 ==> r.y % 4 == 3 && (r.y % 100 != 99 || r.y == 399))
  {
    var c := if doe < 3 * 36524 then doe / 36524 else 3;
    var doc := doe - 36524 * c;
    SplitCentury(doe);
    var q := doc / 1461;
    var doq := doc % 1461;
    assert doc == 1461 * q + doq && 0 <= q <= 24 && 0 <= doq < 1461;
    var yq := if doq < 3 * 365 then doq / 365 else 3;
    assert SplitEra(doe) == ShiftedDay(100 * c + 4 * q + yq, doq - 365 * yq);
    EraParts(c, q, doq);
  }

  /** FromShifted of shifted year `yoe` of era `era`. */
  lemma {:induction false} FromShiftedEra(era: int, yoe: int, doy: int)
    requires 0 <= yoe <= 399
    ensures FromShifted(ShiftedDay(era * 400 + yoe, doy)) == era * 146_097 + YearStart(yoe) + doy - 719_468
  {
    RemainderBy400(era * 400 + yoe, era, yoe);
  }

  /** The calendar year after shifted year `yoe` of an era is a leap year when the cycle or the era ends there. */
  lemma {:induction false} LeapAfter(era: int, yoe: int)
    requires 0 <= yoe <= 399 && yoe % 4 == 3 && (yoe % 100 != 99 || yoe == 399)
    ensures IsLeapYear(era * 400 + yoe + 1)
  {
    var y := era * 400 + yoe + 1;
    RemainderBy4(y, era * 100 + (yoe + 1) / 4, 0);
    if yoe == 399 {
      RemainderBy400(y, era + 1, 0);
    } else {
      RemainderBy100(y, era * 4 + (yoe + 1) / 100, (yoe + 1) % 100);
    }
  }

  /**
   ToShifted is a right inverse of FromShifted, its day lies in 0..365, and
   day 365 (29 February) occurs only before a leap year.
   */
  lemma {:induction false} ToShiftedSpec(days: int)
    ensures var r := ToShifted(days);
            && 0 <= r.doy <= 365
            && (r.doy == 365 ==> IsLeapYear(r.y + 1))
            && FromShifted(r) == days
  {
    var z := days + 719_468;
    var era := z / 146_097;
    var doe := z % 146_097;
    assert z == era * 146_097 + doe;
    var s := SplitEra(doe);
    assert ToShifted(days) == ShiftedDay(era * 400 + s.y, s.doy);
    SplitEraSpec(doe);
    FromShiftedEra(era, s.y, s.doy);
    if s.doy == 365 {
      LeapAfter(era, s.y);
    }
  }

  /** Shifted year `yoe` of an era, not its last, is followed by a 29 February. */
  predicate EndsWithLeapDay(yoe: int)
  {
    (yoe + 1) % 4 == 0 && (yoe + 1) % 100 != 0
  }

  /** YearStart grows by 365 days a year, plus the leap day at the end of every fourth year but each hundredth. */
  lemma {:induction false} YearStartStep(yoe: int)
    requires 0 <= yoe < 399
    ensures YearStart(yoe + 1) - YearStart(yoe) == if EndsWithLeapDay(yoe) then 366 else 365
  {
    assert (yoe + 1) / 4 - yoe / 4 == if (yoe + 1) % 4 == 0 then 1 else 0;
    assert (yoe + 1) / 100 - yoe / 100 == if (yoe + 1) % 100 == 0 then 1 else 0;
    assert (yoe + 1) % 100 == 0 ==> (yoe + 1) % 4 == 0;
  }

  /** Within an era, the calendar year after shifted year `yoe` is a leap year exactly when that year ends with a leap day. */
  lemma {:induction false} LeapWithinEra(era: int, yoe: int)
    requires 0 <= yoe < 399
    ensures IsLeapYear(era * 400 + yoe + 1) <==> EndsWithLeapDay(yoe)
  {
    var n := era * 400 + yoe + 1;
    RemainderBy4(n, era * 100 + (yoe + 1) / 4, (yoe + 1) % 4);
    RemainderBy100(n, era * 4 + (yoe + 1) / 100, (yoe + 1) % 100);
    RemainderBy400(n, era, yoe + 1);
  }

  /** Shifted year `y` lasts 366 days exactly when the February that ends it has a 29th. */
  lemma {:induction false} ShiftedYearLength(y: int)
    ensures FromShifted(ShiftedDay(y + 1, 0)) - FromShifted(ShiftedDay(y, 0))
         == if IsLeapYear(y + 1) then 366 else 365
  {
    var yoe := y % 400;
    var era := y / 400;
    assert y == era * 400 + yoe;
    FromShiftedEra(era, yoe, 0);
    if yoe == 399 {
      EraLastYearLength(era);
    } else {
      InnerYearLength(era, yoe);
    }
  }

  lemma {:induction false} EraLastYearLength(era: int)
    ensures FromShifted(ShiftedDay(era * 400 + 400, 0)) - FromShifted(ShiftedDay(era * 400 + 399, 0)) == 366
    ensures IsLeapYear(era * 400 + 400)
  {
    FromShiftedEra(era, 399, 0);
    FromShiftedEra(era + 1, 0, 0);
    assert (era + 1) * 400 + 0 == era * 400 + 400;
    assert YearStart(399) == 145731;
    LeapAfter(era, 399);
  }

  lemma {:induction false} InnerYearLength(era: int, yoe: int)
    requires 0 <= yoe < 399
    ensures FromShifted(ShiftedDay(era * 400 + yoe + 1, 0)) - FromShifted(ShiftedDay(era * 400 + yoe, 0))
         == if IsLeapYear(era * 400 + yoe + 1) then 366 else 365
  {
    FromShiftedEra(era, yoe, 0);
    FromShiftedEra(era, yoe + 1, 0);
    YearStartStep(yoe);
    LeapWithinEra(era, yoe);
  }

  /** The day number of a calendar date (days since 1970-01-01). */
  function DaysFromCivil(d: Date): (r: int)
  {
    var y := if d.month <= 2 then d.year - 1 else d.year;
    var mp := if d.month > 2 then d.month - 3 else d.month + 9;
    FromShifted(ShiftedDay(y, (153 * mp + 2) / 5 + d.day - 1))
  }

  /** The calendar date of a shifted-calendar day. */
  function DateOfShifted(s: ShiftedDay): (r: Date)
  {
    var mp := (5 * s.doy + 2) / 153;
    var month := if mp < 10 then mp + 3 else mp - 9;
    Date(if month <= 2 then s.y + 1 else s.y, month, s.doy - (153 * mp + 2) / 5 + 1)
  }

  /** The calendar date of a day number. */
  function CivilFromDays(days: int): (r: Date)
  {
    DateOfShifted(ToShifted(days))
  }

  /**
   A shifted day in range (day 365 only before a leap year) has a valid date,
   which DaysFromCivil maps back to the same day number; its calendar year is
   the next shifted year exactly from 1 January (day 306) on.
   */
  lemma {:induction false} DateOfShiftedSpec(s: ShiftedDay)
    requires 0 <= s.doy <= 365 && (s.doy == 365 ==> IsLeapYear(s.y + 1))
    ensures var d := DateOfShifted(s);
            && 1 <= d.month <= 12 && 1 <= d.day <= DaysInMonth(d.year, d.month)
            && DaysFromCivil(d) == FromShifted(s)
            && d.year == if s.doy >= 306 then s.y + 1 else s.y
  {
    var mp := (5 * s.doy + 2) / 153;
    if s.doy < 31 { assert mp == 0; }
    else if s.doy < 61 { assert mp == 1; }
    else if s.doy < 92 { assert mp == 2; }
    else if s.doy < 122 { assert mp == 3; }
    else if s.doy < 153 { assert mp == 4; }
    else if s.doy < 184 { assert mp == 5; }
    else if s.doy < 214 { assert mp == 6; }
    else if s.doy < 245 { assert mp == 7; }
    else if s.doy < 275 { assert mp == 8; }
    else if s.doy < 306 { assert mp == 9; }
    else if s.doy < 337 { assert mp == 10; }
    else { assert mp == 11; }
  }

  /**
   CivilFromDays gives a valid date (a month 1..12 and a day that exists in
   that month) which DaysFromCivil maps back to the same day number.
   */
  lemma {:induction false} CivilFromDaysSpec(days: int)
    ensures var d := CivilFromDays(days);
            && 1 <= d.month <= 12 && 1 <= d.day <= DaysInMonth(d.year, d.month)
            && DaysFromCivil(d) == days
  {
    ToShiftedSpec(days);
    DateOfShiftedSpec(ToShifted(days));
  }

  /** 0-based day of the calendar year of a shifted-calendar day (0 = 1 January). */
  function OrdinalOfShifted(s: ShiftedDay): (r: int)
  {
    if s.doy >= 306 then s.doy - 306 else s.doy + 59 + (if IsLeapYear(s.y) then 1 else 0)
  }

  /** 0-based day of the calendar year of a day number (0 = 1 January). */
  function OrdinalDay(days: int): (r: int)
  {
    OrdinalOfShifted(ToShifted(days))
  }

  /** 1 January of `year` is day 306 of shifted year `year - 1`. */
  lemma JanuaryFirst(year: int)
    ensures DaysFromCivil(Date(year, 1, 1)) == FromShifted(ShiftedDay(year - 1, 0)) + 306
  {
  }

  /** Days of a shifted year are numbered consecutively from its first day. */
  lemma ShiftedOffset(s: ShiftedDay)
    ensures FromShifted(s) == FromShifted(ShiftedDay(s.y, 0)) + s.doy
  {
  }

  /** The ordinal day of an in-range shifted day lies in 0..365 and is its distance from 1 January. */
  lemma {:induction false} OrdinalOfShiftedSpec(s: ShiftedDay)
    requires 0 <= s.doy <= 365 && (s.doy == 365 ==> IsLeapYear(s.y + 1))
    ensures 0 <= OrdinalOfShifted(s) <= 365
    ensures OrdinalOfShifted(s) == FromShifted(s) - DaysFromCivil(Date(DateOfShifted(s).year, 1, 1))
  {
    DateOfShiftedSpec(s);
    ShiftedOffset(s);
    JanuaryFirst(DateOfShifted(s).year);
    if s.doy < 306 {
      ShiftedYearLength(s.y - 1);
    }
  }

  /** The ordinal day lies in 0..365 and is the distance from 1 January of the same year. */
  lemma {:induction false} OrdinalDaySpec(days: int)
    ensures 0 <= OrdinalDay(days) <= 365
    ensures OrdinalDay(days) == days - DaysFromCivil(Date(CivilFromDays(days).year, 1, 1))
  {
    ToShiftedSpec(days);
    OrdinalOfShiftedSpec(ToShifted(days));
  }

  /**
   The Thursday of the Monday-to-Sunday week holding `days`; ISO 8601 numbers
   a week, and gives it a year, by its Thursday.
   */
  function WeekThursday(days: int): (r: int)
  {
    days - Weekday(days) + 3
  }

  /** WeekThursday is a Thursday at most three days away, and the same for all days of one week. */
  lemma WeekThursdaySpec(days: int)
    ensures Weekday(WeekThursday(days)) == 3
    ensures days - 3 <= WeekThursday(days) <= days + 3
    ensures Weekday(days) < 6 ==> WeekThursday(days + 1) == WeekThursday(days)
  {
  }

  /**
   ISO 8601 week number: week 1 is the week holding the year's first Thursday,
   so the week of `days` is one more than the number of whole weeks between
   1 January and its Thursday.
   */
  function IsoWeek(days: int): (r: int)
  {
    OrdinalDay(WeekThursday(days)) / 7 + 1
  }

  /** The `time` row columns derived from an epoch-millisecond timestamp. */
  function Decompose(ms: int): (r: TimeRow)
  {
    var days := DayNumber(ms);
    var d := CivilFromDays(days);
    TimeRow(HourOf(ms), d.day, IsoWeek(days), d.month, d.year, Weekday(days))
  }

  /**
   Every decomposed timestamp has hour 0..23, a valid calendar date, ISO week
   1..53 and weekday 0..6; the date is the day holding the timestamp and the
   hour the hour holding it.
   */
  lemma {:induction false} DecomposeSpec(ms: int)
    ensures var r := Decompose(ms);
            && 0 <= r.hour <= 23 && 0 <= r.weekday <= 6 && 1 <= r.week <= 53
            && 1 <= r.month <= 12 && 1 <= r.day <= DaysInMonth(r.year, r.month)
            && DaysFromCivil(Date(r.year, r.month, r.day)) == DayNumber(ms)
            && DayNumber(ms) * 86_400_000 + r.hour * 3_600_000 <= ms
            && ms < DayNumber(ms) * 86_400_000 + (r.hour + 1) * 3_600_000
  {
    HourOfSpec(ms);
    CivilFromDaysSpec(DayNumber(ms));
    OrdinalDaySpec(WeekThursday(DayNumber(ms)));
  }

  /** Two days of the same Monday-to-Sunday week get the same ISO week number. */
  lemma {:induction false} IsoWeekOfNextDay(days: int)
    requires Weekday(days) < 6
    ensures IsoWeek(days + 1) == IsoWeek(days)
  {
    WeekThursdaySpec(days);
  }

  lemma RemainderByEra(n: int, q: int, r: int)
    requires n == 146_097 * q + r && 0 <= r < 146_097
    ensures n % 146_097 == r && n / 146_097 == q
  {
  }

  /** ToShifted of a day number whose era and day within the era are known. */
  lemma ToShiftedOf(days: int, era: int, doe: int, s: ShiftedDay)
    requires days + 719_468 == 146_097 * era + doe && 0 <= doe < 146_097 && SplitEra(doe) == s
    ensures ToShifted(days) == ShiftedDay(era * 400 + s.y, s.doy)
  {
    RemainderByEra(days + 719_468, era, doe);
  }

  lemma DivisionByDay(ms: int, days: int, rest: int)
    requires ms == 86_400_000 * days + rest && 0 <= rest < 86_400_000
    ensures DayNumber(ms) == days && HourOf(ms) == rest / 3_600_000
  {
  }

  /** The epoch itself: 1970-01-01 00:00, a Thursday, in ISO week 1. */
  lemma EpochDecomposition()
    ensures Decompose(0) == TimeRow(0, 1, 1, 1, 1970, 3)
  {
    DivisionByDay(0, 0, 0);
    EpochDate();
    EpochWeek();
  }

  /** Day 0 is 1970-01-01. */
  lemma EpochDate()
    ensures CivilFromDays(0) == Date(1970, 1, 1)
  {
    assert SplitEra(135080) == ShiftedDay(369, 306);
    ToShiftedOf(0, 4, 135080, ShiftedDay(369, 306));
  }

  /** Day 0 is its own week's Thursday, the first day of 1970, in ISO week 1. */
  lemma EpochWeek()
    ensures IsoWeek(0) == 1
  {
    assert WeekThursday(0) == 0;
    assert SplitEra(135080) == ShiftedDay(369, 306);
    ToShiftedOf(0, 4, 135080, ShiftedDay(369, 306));
    assert OrdinalDay(0) == 0;
  }


  /** Day 17837 after the epoch is 2018-11-02. */
  lemma SampleDate()
    ensures CivilFromDays(17837) == Date(2018, 11, 2)
  {
    assert SplitEra(6820) == ShiftedDay(18, 246);
    ToShiftedOf(17837, 5, 6820, ShiftedDay(18, 246));
  }

  /** The week of day 17837 has its Thursday on day 17836, the 305th day of 2018, in ISO week 44. */
  lemma SampleWeek()
    ensures IsoWeek(17837) == 44
  {
    assert WeekThursday(17837) == 17836;
    assert SplitEra(6819) == ShiftedDay(18, 245);
    ToShiftedOf(17836, 5, 6819, ShiftedDay(18, 245));
    assert OrdinalDay(17836) == 304;
  }

  /** 1541121934796 ms is 2018-11-02 01:25:34.796 UTC, a Friday of ISO week 44. */
  lemma SampleDecomposition()
    ensures Decompose(1541121934796) == TimeRow(1, 2, 44, 11, 2018, 4)
  {
    DivisionByDay(1541121934796, 17837, 5134796);
    SampleDate();
    SampleWeek();
  }
}
