/** Time as the share service computes it: a JavaScript `Date` is a count of
    milliseconds since 1970-01-01T00:00:00Z, read in UTC (the time zone the
    test suite forces). `getDate`/`setDate` are written out as ECMAScript
    defines them (sections 21.4.1 and 21.4.4.20 of ECMA-262): the day of the
    month is counted from the first day of the month, so setting it past the
    month's end rolls into the next month. The calendar conversions are the
    proleptic Gregorian "days from civil" / "civil from days" algorithms. */
module CivilTime {

  const MsPerDay: int := 86_400_000

  /** The day number of a time value (`Day(t)`, rounding towards minus
      infinity, which is what Dafny's `/` does for a positive divisor). */
  function Day(t: int): int {
    t / MsPerDay
  }

  function TimeWithinDay(t: int): (r: int)
    ensures 0 <= r < MsPerDay
    ensures t == Day(t) * MsPerDay + r
  {
    t % MsPerDay
  }

  /** A calendar date: year, month 1..12, day of month 1..31. */
  datatype CivilDate = CivilDate(year: int, month: int, day: int)

  /** Days from 1970-01-01 to the given date. */
  function DaysFromCivil(y: int, m: int, d: int): int {
    var y' := if m <= 2 then y - 1 else y;
    var era := y' / 400;
    var yoe := y' - era * 400;
    var mp := if m > 2 then m - 3 else m + 9;
    var doy := (153 * mp + 2) / 5 + d - 1;
    var doe := yoe * 365 + yoe / 4 - yoe / 100 + doy;
    era * 146097 + doe - 719468
  }

  /** The calendar date of a day number. */
  function CivilFromDays(days: int): CivilDate {
    var z := days + 719468;
    var era := z / 146097;
    var doe := z - era * 146097;
    var yoe := (doe - doe / 1460 + doe / 36524 - doe / 146096) / 365;
    var doy := doe - (365 * yoe + yoe / 4 - yoe / 100);
    var mp := (5 * doy + 2) / 153;
    var d := doy - (153 * mp + 2) / 5 + 1;
    var m := if mp < 10 then mp + 3 else mp - 9;
    CivilDate(yoe + era * 400 + (if m <= 2 then 1 else 0), m, d)
  }

  /** The day number of the first day of the month that contains `days`. */
  function MonthStart(days: int): int {
    var c := CivilFromDays(days);
    DaysFromCivil(c.year, c.month, 1)
  }

  /** `MakeDay(year, month, date)`: the first of the month, plus `date - 1`
      days, whatever the month's length. */
  function MakeDay(year: int, month: int, date: int): int {
    DaysFromCivil(year, month, 1) + date - 1
  }

  /** `getDate()` in UTC. */
  function DateFromTime(t: int): int {
    Day(t) - MonthStart(Day(t)) + 1
  }

  /** `setDate(date)` in UTC: same year, month and time of day, new day of
      month, normalised by `MakeDay`. */
  function SetDate(t: int, date: int): int {
    var c := CivilFromDays(Day(t));
    MakeDay(c.year, c.month, date) * MsPerDay + TimeWithinDay(t)
  }

  /** The midnight that starts a calendar date, as a time value. */
  function EpochMs(y: int, m: int, d: int): int {
    DaysFromCivil(y, m, d) * MsPerDay
  }

  /** `d.setDate(d.getDate() + n)` moves the time value by exactly `n` whole
      days, month and year rollover included. */
  lemma SetDateAddsDays(t: int, n: int)
    ensures SetDate(t, DateFromTime(t) + n) == t + n * MsPerDay
  {
    var c := CivilFromDays(Day(t));
    assert MonthStart(Day(t)) == DaysFromCivil(c.year, c.month, 1);
    assert MakeDay(c.year, c.month, DateFromTime(t) + n) == Day(t) + n;
    assert (Day(t) + n) * MsPerDay == Day(t) * MsPerDay + n * MsPerDay;
  }

  /** `d.setDate(d.getDate() + days)` applied to a copy of `t`. */
  function AddDays(t: int, days: int): (r: int)
    ensures r == t + days * MsPerDay
  {
    SetDateAddsDays(t, days);
    SetDate(t, DateFromTime(t) + days)
  }

  /** The day numbers of the dates the tests use. */
  lemma DayNumbersOfTestDates()
    ensures DaysFromCivil(1970, 1, 1) == 0
    ensures DaysFromCivil(2024, 1, 1) == 19723 && DaysFromCivil(2024, 1, 31) == 19753
    ensures DaysFromCivil(2024, 2, 1) == 19754 && DaysFromCivil(2024, 2, 28) == 19781
    ensures DaysFromCivil(2024, 2, 29) == 19782 && DaysFromCivil(2024, 3, 1) == 19783
  {
    assert 1969 / 400 == 4 && 369 / 4 == 92 && 369 / 100 == 3;
    assert 2023 / 400 == 5 && 2024 / 400 == 5 && 23 / 4 == 5 && 23 / 100 == 0 && 24 / 4 == 6 && 24 / 100 == 0;
    assert 1532 / 5 == 306 && 1685 / 5 == 337 && 2 / 5 == 0;
    assert DaysFromCivil(1970, 1, 1) == 0;
    assert DaysFromCivil(2024, 1, 1) == 19723;
    assert DaysFromCivil(2024, 1, 31) == 19753;
    assert DaysFromCivil(2024, 2, 1) == 19754;
    assert DaysFromCivil(2024, 2, 28) == 19781;
    assert DaysFromCivil(2024, 2, 29) == 19782;
    assert DaysFromCivil(2024, 3, 1) == 19783;
  }

  /** Reading day numbers back gives calendar dates: the month/day split
      that `getDate` uses is the calendar's, leap day included. */
  lemma CivilReadingOfJanuary31()
    ensures CivilFromDays(19753) == CivilDate(2024, 1, 31)
  {
    assert 739221 / 146097 == 5;
    assert 8736 / 1460 == 5 && 8736 / 36524 == 0 && 8736 / 146096 == 0;
    assert 8731 / 365 == 23 && 23 / 4 == 5 && 23 / 100 == 0;
    assert 1682 / 153 == 10 && 1532 / 5 == 306;
  }

  lemma CivilReadingOfLeapDay()
    ensures CivilFromDays(19782) == CivilDate(2024, 2, 29)
  {
    assert 739250 / 146097 == 5;
    assert 8765 / 1460 == 6 && 8765 / 36524 == 0 && 8765 / 146096 == 0;
    assert 8759 / 365 == 23 && 23 / 4 == 5 && 23 / 100 == 0;
    assert 1827 / 153 == 11 && 1685 / 5 == 337;
  }

  lemma CivilReadingOfMarch1()
    ensures CivilFromDays(19783) == CivilDate(2024, 3, 1)
  {
    assert 739251 / 146097 == 5;
    assert 8766 / 1460 == 6 && 8766 / 36524 == 0 && 8766 / 146096 == 0;
    assert 8760 / 365 == 24 && 24 / 4 == 6 && 24 / 100 == 0;
    assert 2 / 153 == 0 && 2 / 5 == 0;
  }

  /** One day after 2024-01-31 is 2024-02-01; one day after 2024-02-28 is the
      leap day 2024-02-29, and one day after that is 2024-03-01; thirty days
      after 2024-01-01 is 2024-01-31. */
  lemma RolloverExamples()
    ensures SetDate(EpochMs(2024, 1, 31), DateFromTime(EpochMs(2024, 1, 31)) + 1) == EpochMs(2024, 2, 1)
    ensures SetDate(EpochMs(2024, 2, 28), DateFromTime(EpochMs(2024, 2, 28)) + 1) == EpochMs(2024, 2, 29)
    ensures SetDate(EpochMs(2024, 2, 29), DateFromTime(EpochMs(2024, 2, 29)) + 1) == EpochMs(2024, 3, 1)
    ensures SetDate(EpochMs(2024, 1, 1), DateFromTime(EpochMs(2024, 1, 1)) + 30) == EpochMs(2024, 1, 31)
  {
    DayNumbersOfTestDates();
    SetDateAddsDays(EpochMs(2024, 1, 31), 1);
    SetDateAddsDays(EpochMs(2024, 2, 28), 1);
    SetDateAddsDays(EpochMs(2024, 2, 29), 1);
    SetDateAddsDays(EpochMs(2024, 1, 1), 30);
  }

  /** The day of the month `getDate` reports for those dates. */
  lemma DateFromTimeOfTestDates()
    ensures DateFromTime(EpochMs(2024, 1, 31)) == 31
    ensures DateFromTime(EpochMs(2024, 2, 29)) == 29
    ensures DateFromTime(EpochMs(2024, 3, 1)) == 1
  {
    DayNumbersOfTestDates();
    CivilReadingOfJanuary31();
    CivilReadingOfLeapDay();
    CivilReadingOfMarch1();
    assert Day(EpochMs(2024, 1, 31)) == 19753;
    assert Day(EpochMs(2024, 2, 29)) == 19782;
    assert Day(EpochMs(2024, 3, 1)) == 19783;
    assert MonthStart(19753) == 19723;
    assert MonthStart(19782) == 19754;
    assert MonthStart(19783) == 19783;
  }
}
