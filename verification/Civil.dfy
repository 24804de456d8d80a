// EXIF civil date-times as seconds since the epoch: the closed form against a count of
// days by the leap-year rule.
module Civil {
  import opened Tables

  // ------------------------------------------------------------ the code

  /** Rust's integer division: rounded towards zero. */
  function TruncatedDiv(a: int, b: int): int
    requires b > 0
  {
    if a >= 0 then a / b else -((-a) / b)
  }

  function Era(y: int): int {
    TruncatedDiv(if y >= 0 then y else y - 399, 400)
  }

  /** March-based: January and February belong to the year before. */
  function ShiftedYear(year: int, month: int): int {
    if month <= 2 then year - 1 else year
  }

  function YearOfEra(y: int): int {
    y - Era(y) * 400
  }

  function DayOfYear(month: int, day: int): int {
    TruncatedDiv(153 * ((month + 9) % 12) + 2, 5) + day - 1
  }

  function DayOfEra(year: int, month: int, day: int): int {
    var yoe := YearOfEra(ShiftedYear(year, month));
    yoe * 365 + TruncatedDiv(yoe, 4) - TruncatedDiv(yoe, 100) + DayOfYear(month, day)
  }

  predicate InRange(month: int, day: int, hour: nat, minute: nat, second: nat) {
    1 <= month <= 12 && 1 <= day <= 31 && hour <= 23 && minute <= 59 && second <= 60
  }

  function CivilToUnix(year: int, month: int, day: int, hour: nat, minute: nat, second: nat): Option<int> {
    if !InRange(month, day, hour, minute, second) then None else
    var era := Era(ShiftedYear(year, month));
    var days := era * 146_097 + DayOfEra(year, month, day) - 719_468;
    Some(days * 86_400 + hour * 3600 + minute * 60 + second)
  }

  // ------------------------------------------------ the Gregorian calendar

  predicate IsLeap(year: int) {
    year % 4 == 0 && (year % 100 != 0 || year % 400 == 0)
  }

  function YearLength(year: int): int {
    if IsLeap(year) then 366 else 365
  }

  function MonthLength(year: int, month: int): int
    requires 1 <= month <= 12
  {
    if month == 2 then (if IsLeap(year) then 29 else 28)
    else if month in {4, 6, 9, 11} then 30 else 31
  }

  /** Days from 1 January 1970 to 1 January of `year`, counted year by year. */
  function DaysToYear(year: int): int
    decreases if year >= 1970 then year - 1970 else 1970 - year
  {
    if year == 1970 then 0
    else if year > 1970 then DaysToYear(year - 1) + YearLength(year - 1)
    else DaysToYear(year + 1) - YearLength(year)
  }

  /** Days from 1 January to the first of `month`, counted month by month. */
  function DaysToMonth(year: int, month: int): int
    requires 1 <= month <= 12
  {
    if month == 1 then 0 else DaysToMonth(year, month - 1) + MonthLength(year, month - 1)
  }

  predicate IsDate(year: int, month: int, day: int) {
    1 <= month <= 12 && 1 <= day <= MonthLength(year, month)
  }

  function DaysSinceEpoch(year: int, month: int, day: int): int
    requires 1 <= month <= 12
  {
    DaysToYear(year) + DaysToMonth(year, month) + day - 1
  }

  // -------------------------------------------------------------- theorems

  lemma EraIsFloor(y: int)
    ensures Era(y) == y / 400 && 0 <= YearOfEra(y) <= 399
  {
  }

  /** Days before 1 March of shifted year `y`, counted from 1 March of year 0. */
  function Marches(y: int): int {
    y * 365 + y / 4 - y / 100 + y / 400
  }

  lemma ClosedFormIsMarches(year: int, month: int, day: int)
    requires 1 <= month <= 12
    ensures var y := ShiftedYear(year, month);
            Era(y) * 146_097 + DayOfEra(year, month, day) == Marches(y) + DayOfYear(month, day)
  {
    var y := ShiftedYear(year, month);
    EraIsFloor(y);
    var era := Era(y);
    var yoe := YearOfEra(y);
    assert y == era * 400 + yoe;
    assert y / 4 == era * 100 + yoe / 4;
    assert y / 100 == era * 4 + yoe / 100;
    assert y / 400 == era;
  }

  /** From one March to the next there is a 29 February exactly in a leap year. */
  lemma MarchStep(y: int)
    ensures Marches(y + 1) - Marches(y) == YearLength(y + 1)
  {
    Quotients(y);
    Multiples(y + 1);
  }

  lemma Quotients(y: int)
    ensures (y + 1) / 4 - y / 4 == if (y + 1) % 4 == 0 then 1 else 0
    ensures (y + 1) / 100 - y / 100 == if (y + 1) % 100 == 0 then 1 else 0
    ensures (y + 1) / 400 - y / 400 == if (y + 1) % 400 == 0 then 1 else 0
  {
  }

  lemma Multiples(y: int)
    ensures y % 400 == 0 ==> y % 100 == 0
    ensures y % 100 == 0 ==> y % 4 == 0
  {
  }

  lemma {:induction false} DaysToYearClosed(year: int)
    ensures DaysToYear(year) == Marches(year - 1) + 306 - 719_468
    decreases if year >= 1970 then year - 1970 else 1970 - year
  {
    if year > 1970 {
      DaysToYearClosed(year - 1);
      MarchStep(year - 2);
    } else if year < 1970 {
      DaysToYearClosed(year + 1);
      MarchStep(year - 1);
    }
  }

  /** The closed form counts the days that the leap-year rule counts. */
  lemma DaysAgree(year: int, month: int, day: int)
    requires 1 <= month <= 12
    ensures Era(ShiftedYear(year, month)) * 146_097 + DayOfEra(year, month, day) - 719_468
         == DaysSinceEpoch(year, month, day)
  {
    ClosedFormIsMarches(year, month, day);
    DaysToYearClosed(year);
    MarchStep(year - 1);
    MonthOffsets(year, month);
  }

  /** The month table hidden in (153 m + 2) / 5. */
  lemma MonthOffsets(year: int, month: int)
    requires 1 <= month <= 12
    ensures DaysToMonth(year, month) ==
              if month <= 2 then DayOfYear(month, 1) - 306 else DayOfYear(month, 1) + YearLength(year) - 306
  {
    UnrollMonths(year);
  }

  lemma UnrollMonths(year: int)
    ensures DaysToMonth(year, 1) == 0 && DaysToMonth(year, 2) == 31
    ensures var leap := if IsLeap(year) then 1 else 0;
            && DaysToMonth(year, 3) == 59 + leap && DaysToMonth(year, 4) == 90 + leap
            && DaysToMonth(year, 5) == 120 + leap && DaysToMonth(year, 6) == 151 + leap
            && DaysToMonth(year, 7) == 181 + leap && DaysToMonth(year, 8) == 212 + leap
            && DaysToMonth(year, 9) == 243 + leap && DaysToMonth(year, 10) == 273 + leap
            && DaysToMonth(year, 11) == 304 + leap && DaysToMonth(year, 12) == 334 + leap
  {
    assert DaysToMonth(year, 3) == DaysToMonth(year, 2) + MonthLength(year, 2);
    assert DaysToMonth(year, 5) == DaysToMonth(year, 4) + MonthLength(year, 4);
    assert DaysToMonth(year, 7) == DaysToMonth(year, 6) + MonthLength(year, 6);
    assert DaysToMonth(year, 9) == DaysToMonth(year, 8) + MonthLength(year, 8);
    assert DaysToMonth(year, 11) == DaysToMonth(year, 10) + MonthLength(year, 10);
  }

  /** Every accepted input yields the seconds since the epoch of that date and time; a day
      past the end of its month runs on into the next one. */
  lemma CivilToUnixCorrect(year: int, month: int, day: int, hour: nat, minute: nat, second: nat)
    ensures CivilToUnix(year, month, day, hour, minute, second) ==
              if InRange(month, day, hour, minute, second)
              then Some(DaysSinceEpoch(year, month, day) * 86_400 + hour * 3600 + minute * 60 + second) else None
  {
    if 1 <= month <= 12 {
      DaysAgree(year, month, day);
    }
  }

  /** The intermediate bounds noted in the code, for real dates. */
  lemma IntermediateBounds(year: int, month: int, day: int)
    requires IsDate(year, month, day)
    ensures 0 <= DayOfYear(month, day) <= 365
    ensures 0 <= DayOfEra(year, month, day) <= 146_096
  {
    var y := ShiftedYear(year, month);
    EraIsFloor(y);
    DayOfYearBound(year, month, day);
    LastDayOfEra(YearOfEra(y), DayOfYear(month, day), IsLeap(y + 1));
  }

  /** Day 365 is 29 February, so the shifted year ends a leap year. */
  lemma DayOfYearBound(year: int, month: int, day: int)
    requires IsDate(year, month, day)
    ensures 0 <= DayOfYear(month, day) <= 365
    ensures DayOfYear(month, day) == 365 ==> IsLeap(ShiftedYear(year, month) + 1)
    ensures IsLeap(ShiftedYear(year, month) + 1) ==> (YearOfEra(ShiftedYear(year, month)) + 1) % 4 == 0
  {
    LeapInEra(ShiftedYear(year, month));
  }

  lemma LeapInEra(y: int)
    ensures IsLeap(y + 1) ==> (YearOfEra(y) + 1) % 4 == 0
  {
    EraIsFloor(y);
    var q := y / 400;
    assert YearOfEra(y) + 1 == y + 1 - 4 * (100 * q);
  }

  lemma LastDayOfEra(yoe: int, doy: int, leap: bool)
    requires 0 <= yoe <= 399 && 0 <= doy <= 365 && (doy == 365 ==> leap) && (leap ==> (yoe + 1) % 4 == 0)
    ensures 0 <= yoe * 365 + yoe / 4 - yoe / 100 + doy <= 146_096
  {
  }

  /** Date order, most significant first. */
  predicate Earlier(y1: int, m1: int, d1: int, y2: int, m2: int, d2: int) {
    y1 < y2 || (y1 == y2 && (m1 < m2 || (m1 == m2 && d1 < d2)))
  }

  lemma {:induction false} MonthsFit(year: int, m1: int, m2: int)
    requires 1 <= m1 <= m2 <= 12
    ensures m1 < m2 ==> DaysToMonth(year, m1) + MonthLength(year, m1) <= DaysToMonth(year, m2)
    ensures DaysToMonth(year, m2) + MonthLength(year, m2) <= YearLength(year)
  {
    UnrollMonths(year);
  }

  lemma {:induction false} YearsFit(y1: int, y2: int)
    requires y1 < y2
    ensures DaysToYear(y1) + YearLength(y1) <= DaysToYear(y2)
    decreases y2 - y1
  {
    DaysToYearClosed(y1);
    DaysToYearClosed(y1 + 1);
    MarchStep(y1 - 1);
    if y1 + 1 < y2 {
      YearsFit(y1 + 1, y2);
    }
  }

  lemma DaysIncrease(y1: int, m1: int, d1: int, y2: int, m2: int, d2: int)
    requires IsDate(y1, m1, d1) && IsDate(y2, m2, d2)
    requires Earlier(y1, m1, d1, y2, m2, d2)
    ensures DaysSinceEpoch(y1, m1, d1) < DaysSinceEpoch(y2, m2, d2)
  {
    MonthsFit(y1, m1, m1);
    if y1 < y2 {
      YearsFit(y1, y2);
      MonthsFit(y2, 1, m2);
    } else if m1 < m2 {
      MonthsFit(y1, m1, m2);
    }
  }

  // ----------------------------------------------------------- whole times

  datatype Time = Time(year: int, month: int, day: int, hour: nat, minute: nat, second: nat)
  {
    /** A real date and a time of day, leap seconds included. */
    predicate IsReal() {
      IsDate(year, month, day) && hour <= 23 && minute <= 59 && second <= 60
    }

    predicate Before(u: Time) {
      || Earlier(year, month, day, u.year, u.month, u.day)
      || ((year, month, day) == (u.year, u.month, u.day)
          && (hour < u.hour || (hour == u.hour && (minute < u.minute || (minute == u.minute && second < u.second)))))
    }

    function Unix(): Option<int> {
      CivilToUnix(year, month, day, hour, minute, second)
    }

    /** The first second of the following minute, on the following day if need be. */
    function NextMinute(): Time
      requires IsReal()
    {
      if minute < 59 then Time(year, month, day, hour, minute + 1, 0)
      else if hour < 23 then Time(year, month, day, hour + 1, 0, 0)
      else if day < MonthLength(year, month) then Time(year, month, day + 1, 0, 0, 0)
      else if month < 12 then Time(year, month + 1, 1, 0, 0, 0)
      else Time(year + 1, 1, 1, 0, 0, 0)
    }
  }

  lemma YearFollows(year: int)
    ensures DaysToYear(year + 1) == DaysToYear(year) + YearLength(year)
    ensures DaysToMonth(year, 12) + MonthLength(year, 12) == YearLength(year)
  {
    UnrollMonths(year);
  }

  /** The next day of the calendar is the next day of the count. */
  lemma NextDayCounts(t: Time)
    requires t.IsReal() && t.hour == 23 && t.minute == 59
    ensures var u := t.NextMinute();
            u.IsReal() && DaysSinceEpoch(u.year, u.month, u.day) == DaysSinceEpoch(t.year, t.month, t.day) + 1
  {
    YearFollows(t.year);
  }

  /** Second 60 is the first second of the next minute, across hours, days and years. */
  lemma LeapSecondWraps(t: Time)
    requires t.IsReal() && t.second == 60
    ensures t.NextMinute().IsReal() && t.Before(t.NextMinute())
    ensures t.Unix() == t.NextMinute().Unix() && t.Unix().Some?
  {
    var u := t.NextMinute();
    CivilToUnixCorrect(t.year, t.month, t.day, t.hour, t.minute, t.second);
    if t.hour == 23 && t.minute == 59 {
      NextDayCounts(t);
    }
    CivilToUnixCorrect(u.year, u.month, u.day, u.hour, u.minute, u.second);
  }

  /** Dates are told apart by their day count. */
  lemma DaysInjective(y1: int, m1: int, d1: int, y2: int, m2: int, d2: int)
    requires IsDate(y1, m1, d1) && IsDate(y2, m2, d2)
    requires DaysSinceEpoch(y1, m1, d1) == DaysSinceEpoch(y2, m2, d2)
    ensures (y1, m1, d1) == (y2, m2, d2)
  {
    if Earlier(y1, m1, d1, y2, m2, d2) {
      DaysIncrease(y1, m1, d1, y2, m2, d2);
    } else if Earlier(y2, m2, d2, y1, m1, d1) {
      DaysIncrease(y2, m2, d2, y1, m1, d1);
    }
  }

  /** A later real time has a larger timestamp, except that a leap second shares that of the
      first second of the following minute. */
  lemma StrictlyIncreasing(t: Time, u: Time)
    requires t.IsReal() && u.IsReal() && t.Before(u)
    ensures t.Unix().Some? && u.Unix().Some? && t.Unix().value <= u.Unix().value
    ensures t.Unix() == u.Unix() <==> t.second == 60 && u == t.NextMinute()
  {
    CivilToUnixCorrect(t.year, t.month, t.day, t.hour, t.minute, t.second);
    CivilToUnixCorrect(u.year, u.month, u.day, u.hour, u.minute, u.second);
    if t.second == 60 {
      LeapSecondWraps(t);
    }
    if (t.year, t.month, t.day) != (u.year, u.month, u.day) {
      DaysIncrease(t.year, t.month, t.day, u.year, u.month, u.day);
      if t.Unix() == u.Unix() {
        SharedAcrossDays(t, u);
      }
    }
  }

  /** On different days only the last leap second and the first second share a timestamp. */
  lemma SharedAcrossDays(t: Time, u: Time)
    requires t.IsReal() && u.IsReal() && t.hour * 3600 + t.minute * 60 + t.second <= 86_400
    requires DaysSinceEpoch(t.year, t.month, t.day) < DaysSinceEpoch(u.year, u.month, u.day)
    requires DaysSinceEpoch(t.year, t.month, t.day) * 86_400 + t.hour * 3600 + t.minute * 60 + t.second
          == DaysSinceEpoch(u.year, u.month, u.day) * 86_400 + u.hour * 3600 + u.minute * 60 + u.second
    ensures t.second == 60 && u == t.NextMinute()
  {
    NextDayCounts(t);
    var v := t.NextMinute();
    DaysInjective(u.year, u.month, u.day, v.year, v.month, v.day);
  }
}
