/**
 The Gregorian calendar at a fixed offset: minutes as dates and as numbers.
 */
module Calendar {

  datatype Moment = Moment(year: int, month: int, day: int, hour: int, minute: int)

  predicate IsLeap(year: int) {
    year % 4 == 0 && (year % 100 != 0 || year % 400 == 0)
  }

  function DaysIn(year: int, month: int): (days: int)
    ensures 28 <= days <= 31
  {
    if month == 2 then (if IsLeap(year) then 29 else 28)
    else if month == 4 || month == 6 || month == 9 || month == 11 then 30
    else 31
  }

  predicate IsMoment(t: Moment) {
    && 1 <= t.month <= 12 && 1 <= t.day <= DaysIn(t.year, t.month)
    && 0 <= t.hour < 24 && 0 <= t.minute < 60
  }

  predicate Before(a: Moment, b: Moment) {
    || a.year < b.year
    || (a.year == b.year && (a.month < b.month
    || (a.month == b.month && (a.day < b.day
    || (a.day == b.day && (a.hour < b.hour
    || (a.hour == b.hour && a.minute < b.minute)))))))
  }

  predicate AtOrAfter(a: Moment, b: Moment) {
    !Before(a, b)
  }

  // The first minute of the next month, day and hour, and the next minute.

  function NextMonth(t: Moment): Moment {
    if t.month == 12 then Moment(t.year + 1, 1, 1, 0, 0) else Moment(t.year, t.month + 1, 1, 0, 0)
  }

  function NextDay(t: Moment): Moment {
    if t.day == DaysIn(t.year, t.month) then NextMonth(t) else Moment(t.year, t.month, t.day + 1, 0, 0)
  }

  function NextHour(t: Moment): Moment {
    if t.hour == 23 then NextDay(t) else t.(hour := t.hour + 1, minute := 0)
  }

  function NextMinute(t: Moment): Moment {
    if t.minute == 59 then NextHour(t) else t.(minute := t.minute + 1)
  }

  // A date whose day may be past the end of its month, put right as the Go library does.
  function Normalized(t: Moment): Moment {
    if t.day <= DaysIn(t.year, t.month) then t
    else NextMonth(t).(day := t.day - DaysIn(t.year, t.month), hour := t.hour, minute := t.minute)
  }

  // Each step leads to a moment, forward, over nothing but what it skips.
  lemma StepsSkipNothing(t: Moment, x: Moment)
    requires IsMoment(t) && IsMoment(x)
    ensures IsMoment(NextMonth(t)) && IsMoment(NextDay(t)) && IsMoment(NextHour(t)) && IsMoment(NextMinute(t))
    ensures AtOrAfter(x, t) && Before(x, NextMonth(t)) ==> (x.year, x.month) == (t.year, t.month)
    ensures AtOrAfter(x, t) && Before(x, NextDay(t)) ==> (x.year, x.month, x.day) == (t.year, t.month, t.day)
    ensures AtOrAfter(x, t) && Before(x, NextHour(t)) ==> (x.year, x.month, x.day, x.hour) == (t.year, t.month, t.day, t.hour)
    ensures AtOrAfter(x, t) && Before(x, NextMinute(t)) ==> x == t
  {}

  // ── Days and minutes as numbers ────────────────────────────────────────────

  function DaysBeforeMonth(year: int, month: nat): nat {
    if month <= 1 then 0 else DaysBeforeMonth(year, month - 1) + DaysIn(year, month - 1)
  }

  function YearLength(year: int): nat {
    DaysBeforeMonth(year, 12) + DaysIn(year, 12)
  }

  // Counted from the year 1, in both directions.
  function DaysBeforeYear(year: int): int
    decreases if year >= 1 then year - 1 else 1 - year
  {
    if year == 1 then 0
    else if year > 1 then DaysBeforeYear(year - 1) + YearLength(year - 1)
    else DaysBeforeYear(year + 1) - YearLength(year)
  }

  // 1 January of the year 1 is day 1, and a Monday.
  function DayNumber(year: int, month: int, day: int): int
    requires 1 <= month
  {
    DaysBeforeYear(year) + DaysBeforeMonth(year, month) + day
  }

  // Sunday is 0.
  function Weekday(year: int, month: int, day: int): (w: int)
    requires 1 <= month
    ensures 0 <= w < 7
  {
    DayNumber(year, month, day) % 7
  }

  function MinuteNumber(t: Moment): int
    requires IsMoment(t)
  {
    (DayNumber(t.year, t.month, t.day) * 24 + t.hour) * 60 + t.minute
  }

  lemma DaysInYear(year: int)
    ensures YearLength(year) == if IsLeap(year) then 366 else 365
  {
    assert DaysBeforeMonth(year, 2) == 31;
    assert DaysBeforeMonth(year, 3) == DaysIn(year, 2) + 31;
    assert DaysBeforeMonth(year, 5) == DaysIn(year, 2) + 92;
    assert DaysBeforeMonth(year, 7) == DaysIn(year, 2) + 153;
    assert DaysBeforeMonth(year, 9) == DaysIn(year, 2) + 215;
    assert DaysBeforeMonth(year, 11) == DaysIn(year, 2) + 276;
  }

  lemma NextYear(year: int)
    ensures DaysBeforeYear(year + 1) == DaysBeforeYear(year) + YearLength(year)
  {}

  lemma NewYearNumber(year: int)
    ensures DayNumber(year + 1, 1, 1) == DayNumber(year, 12, 1) + DaysIn(year, 12)
  {
    NextYear(year);
  }

  lemma FirstNumber(year: int, month: nat)
    requires 1 <= month
    ensures DayNumber(year, month + 1, 1) == DayNumber(year, month, 1) + DaysIn(year, month)
  {}

  lemma DayInMonth(year: int, month: nat, day: int)
    requires 1 <= month
    ensures DayNumber(year, month, day) == DayNumber(year, month, 1) + day - 1
  {}

  // One minute on is one more: the moments are the minutes, none missing, none double.
  lemma NextMinuteNumber(t: Moment)
    requires IsMoment(t)
    ensures IsMoment(NextMinute(t)) && MinuteNumber(NextMinute(t)) == MinuteNumber(t) + 1
  {
    StepsSkipNothing(t, t);
    DayInMonth(t.year, t.month, t.day);
    if t.minute == 59 && t.hour == 23 {
      if t.day < DaysIn(t.year, t.month) {
        DayInMonth(t.year, t.month, t.day + 1);
      } else if t.month < 12 {
        FirstNumber(t.year, t.month);
      } else {
        NewYearNumber(t.year);
      }
    }
  }

  lemma {:induction false} MonthsBefore(year: int, m: int, n: int)
    requires 1 <= m < n
    ensures DaysBeforeMonth(year, m) + DaysIn(year, m) <= DaysBeforeMonth(year, n)
  {
    if m < n - 1 {
      MonthsBefore(year, m, n - 1);
    }
  }

  lemma {:induction false} YearsBefore(y: int, z: int)
    requires y < z
    ensures DaysBeforeYear(y) + YearLength(y) <= DaysBeforeYear(z)
    decreases z - y
  {
    NextYear(z - 1);
    if y < z - 1 {
      YearsBefore(y, z - 1);
    }
  }

  lemma DayOfYear(t: Moment)
    requires IsMoment(t)
    ensures DaysBeforeMonth(t.year, t.month) + t.day <= YearLength(t.year)
  {
    if t.month < 12 {
      MonthsBefore(t.year, t.month, 12);
    }
  }

  // The order of dates is the order of time.
  lemma BeforeIsEarlier(a: Moment, b: Moment)
    requires IsMoment(a) && IsMoment(b)
    ensures Before(a, b) <==> MinuteNumber(a) < MinuteNumber(b)
  {
    if Before(a, b) {
      EarlierWhenBefore(a, b);
    } else if Before(b, a) {
      EarlierWhenBefore(b, a);
    } else {
      assert a == b;
    }
  }

  lemma EarlierWhenBefore(a: Moment, b: Moment)
    requires IsMoment(a) && IsMoment(b) && Before(a, b)
    ensures MinuteNumber(a) < MinuteNumber(b)
  {
    if a.year < b.year {
      DayOfYear(a);
      YearsBefore(a.year, b.year);
    } else if a.month < b.month {
      MonthsBefore(a.year, a.month, b.month);
    }
  }

  // ── Days of the week ───────────────────────────────────────────────────────

  lemma NextDayNumber(t: Moment)
    requires IsMoment(t)
    ensures var n := NextDay(t);
      1 <= n.month && DayNumber(n.year, n.month, n.day) == DayNumber(t.year, t.month, t.day) + 1
  {
    DayInMonth(t.year, t.month, t.day);
    if t.day < DaysIn(t.year, t.month) {
      DayInMonth(t.year, t.month, t.day + 1);
    } else if t.month < 12 {
      FirstNumber(t.year, t.month);
    } else {
      NewYearNumber(t.year);
    }
  }

  // A day on is a weekday on.
  lemma WeekdaysGoRound(t: Moment)
    requires IsMoment(t)
    ensures var n := NextDay(t);
      1 <= n.month && Weekday(n.year, n.month, n.day) == (Weekday(t.year, t.month, t.day) + 1) % 7
  {
    NextDayNumber(t);
  }

  // One year in four, less one in a hundred, and one in four hundred.
  function LeapYears(upTo: nat): int {
    upTo / 4 - upTo / 100 + upTo / 400
  }

  lemma {:induction false} YearsCounted(years: nat)
    ensures DaysBeforeYear(years + 1) == 365 * years + LeapYears(years)
  {
    if years > 0 {
      YearsCounted(years - 1);
      NextYear(years);
      DaysInYear(years);
      LeapYearsCounted(years);
    }
  }

  lemma LeapYearsCounted(y: nat)
    requires y >= 1
    ensures LeapYears(y) == LeapYears(y - 1) + if IsLeap(y) then 1 else 0
  {
    OneMoreIn(y, 4);
    OneMoreIn(y, 100);
    OneMoreIn(y, 400);
    Multiples(y);
  }

  lemma OneMoreIn(y: nat, n: nat)
    requires y >= 1 && n in {4, 100, 400}
    ensures y / n == (y - 1) / n + if y % n == 0 then 1 else 0
  {}

  lemma Multiples(y: nat)
    ensures y % 400 == 0 ==> y % 100 == 0
    ensures y % 100 == 0 ==> y % 4 == 0
  {
    assert y % 400 == 0 ==> y == 100 * (4 * (y / 400));
    assert y % 100 == 0 ==> y == 4 * (25 * (y / 100));
  }

  lemma DaysBeforeJune(year: int)
    ensures DaysBeforeMonth(year, 6) == 123 + DaysIn(year, 2)
  {
    assert DaysBeforeMonth(year, 2) == 31;
    assert DaysBeforeMonth(year, 3) == DaysIn(year, 2) + 31;
    assert DaysBeforeMonth(year, 5) == DaysIn(year, 2) + 92;
  }

  // 1 June 2024 was a Saturday.
  lemma AKnownSaturday(year: nat)
    requires 2023 < year < 2025
    ensures Weekday(year, 6, 1) == 6
  {
    YearsCounted(year - 1);
    DaysBeforeJune(year);
    assert IsLeap(year) && LeapYears(year - 1) == 490;
  }
}
