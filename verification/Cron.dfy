/**
 The backup schedule: a five-field expression, the minutes it matches, and the search
 for the next of them, which skips months, days and hours that cannot match.
 */
module Cron {
  import opened Basics
  import opened Calendar

  datatype Schedule = Schedule(
    minutes: set<nat>, hours: set<nat>, days: set<nat>, months: set<nat>, weekdays: set<nat>,
    domRestricted: bool, dowRestricted: bool)

  // When both day fields are restricted, either is enough; otherwise both must agree,
  // and the one left open always does.
  predicate MatchesDay(s: Schedule, t: Moment)
    requires IsMoment(t)
  {
    var dom, dow := t.day in s.days, Weekday(t.year, t.month, t.day) in s.weekdays;
    if s.domRestricted && s.dowRestricted then dom || dow else dom && dow
  }

  predicate Matches(s: Schedule, t: Moment)
    requires IsMoment(t)
  {
    t.month in s.months && MatchesDay(s, t) && t.hour in s.hours && t.minute in s.minutes
  }

  // ── The search ─────────────────────────────────────────────────────────────

  // Five years and a day on; a day that the month does not have runs into the next.
  function Limit(start: Moment): Moment {
    Normalized(start.(year := start.year + 5, day := start.day + 1))
  }

  ghost predicate Fires(s: Schedule, t: Moment) {
    IsMoment(t) && Matches(s, t)
  }

  predicate Within(after: Moment, t: Moment) {
    Before(after, t) && Before(t, Limit(NextMinute(after)))
  }

  // Nothing from `start` up to `t` matches.
  ghost predicate NoneBefore(s: Schedule, start: Moment, t: Moment) {
    forall x :: Fires(s, x) && AtOrAfter(x, start) ==> AtOrAfter(x, t)
  }

  lemma FirstIsNextMinute(after: Moment, x: Moment)
    requires IsMoment(after) && IsMoment(x)
    ensures Before(after, x) <==> AtOrAfter(x, NextMinute(after))
  {
    StepsSkipNothing(after, x);
    StepsSkipNothing(after, after);
  }

  // The least firing minute after a given one, if there is one in the window.
  ghost predicate IsNext(s: Schedule, after: Moment, next: Option<Moment>) {
    match next
    case Some(t) => Fires(s, t) && Within(after, t) && forall x :: Fires(s, x) && Before(after, x) ==> AtOrAfter(x, t)
    case None => forall x :: Within(after, x) ==> !Fires(s, x)
  }

  // `after` is the minute that an instant falls in; every minute that begins after the
  // instant comes after that minute.
  method Next(s: Schedule, after: Moment) returns (next: Option<Moment>)
    requires IsMoment(after)
    ensures IsNext(s, after, next)
  {
    var moment := NextMinute(after);
    ghost var start := moment;
    StepsSkipNothing(after, after);
    var limit := Limit(moment);
    while Before(moment, limit)
      invariant IsMoment(moment) && NoneBefore(s, start, moment)
      decreases limit.year - moment.year, 12 - moment.month, 31 - moment.day, 23 - moment.hour, 59 - moment.minute
    {
      if moment.month !in s.months {
        SkipTo(s, start, moment, NextMonth(moment));
        moment := NextMonth(moment);
        continue;
      }
      if !MatchesDay(s, moment) {
        SkipTo(s, start, moment, NextDay(moment));
        moment := NextDay(moment);
        continue;
      }
      if moment.hour !in s.hours {
        SkipTo(s, start, moment, NextHour(moment));
        moment := NextHour(moment);
        continue;
      }
      if moment.minute in s.minutes {
        assert Fires(s, moment);
        AllAfter(s, after, moment);
        FirstIsNextMinute(after, moment);
        return Some(moment);
      }
      SkipTo(s, start, moment, NextMinute(moment));
      moment := NextMinute(moment);
    }
    AllAfter(s, after, moment);
    return None;
  }

  lemma AllAfter(s: Schedule, after: Moment, t: Moment)
    requires IsMoment(after) && NoneBefore(s, NextMinute(after), t)
    ensures forall x :: Fires(s, x) && Before(after, x) ==> AtOrAfter(x, t)
  {
    forall x | Fires(s, x) && Before(after, x) ensures AtOrAfter(x, t) {
      FirstIsNextMinute(after, x);
    }
  }

  lemma SkipTo(s: Schedule, start: Moment, t: Moment, to: Moment)
    requires IsMoment(t) && NoneBefore(s, start, t)
    requires
      || (to == NextMonth(t) && t.month !in s.months)
      || (to == NextDay(t) && !MatchesDay(s, t))
      || (to == NextHour(t) && t.hour !in s.hours)
      || (to == NextMinute(t) && t.minute !in s.minutes)
    ensures IsMoment(to) && NoneBefore(s, start, to)
  {
    StepsSkipNothing(t, t);
    forall x | Fires(s, x) && AtOrAfter(x, start) ensures AtOrAfter(x, to) {
      StepsSkipNothing(t, x);
    }
  }

  // ── When the window is enough ──────────────────────────────────────────────

  predicate Proper(field: set<nat>, low: int, high: int) {
    |field| > 0 && forall v :: v in field ==> low <= v <= high
  }

  lemma Pick(field: set<nat>, low: int, high: int) returns (v: nat)
    requires Proper(field, low, high)
    ensures v in field && low <= v <= high
  {
    v :| v in field;
  }

  ghost predicate Full(field: set<nat>, low: int, high: int) {
    forall v :: v in field <==> low <= v <= high
  }

  // What parsing leaves: no field empty, none out of range, and an open day field full.
  ghost predicate WellFormed(s: Schedule) {
    && Proper(s.minutes, 0, 59) && Proper(s.hours, 0, 23) && Proper(s.days, 1, 31)
    && Proper(s.months, 1, 12) && Proper(s.weekdays, 0, 6)
    && (!s.domRestricted ==> Full(s.days, 1, 31)) && (!s.dowRestricted ==> Full(s.weekdays, 0, 6))
  }

  // Some date of the schedule is in every year.
  predicate EveryYear(s: Schedule) {
    s.dowRestricted || exists m, d :: m in s.months && d in s.days && d <= DaysIn(2001, m)
  }

  predicate OnlyOnLeapDays(s: Schedule) {
    !EveryYear(s) && 2 in s.months && 29 in s.days
  }

  predicate LeapDayWithin(s: Schedule, after: Moment) {
    exists y, h, mi | after.year <= y <= after.year + 6 && h in s.hours && mi in s.minutes ::
      IsLeap(y) && Within(after, Moment(y, 2, 29, h, mi))
  }

  lemma YearOfLimit(after: Moment)
    requires IsMoment(after)
    ensures after.year + 5 <= Limit(NextMinute(after)).year <= after.year + 6
  {
    StepsSkipNothing(after, after);
  }

  // The window ends a day after the same date five years on, at the same time of day.
  lemma WindowEnds(start: Moment)
    requires IsMoment(start)
    ensures var limit := Limit(start);
      && IsMoment(limit) && limit.hour == start.hour && limit.minute == start.minute
      && DayNumber(limit.year, limit.month, limit.day) == DayNumber(start.year + 5, start.month, start.day) + 1
  {
    var year := start.year + 5;
    DayInMonth(year, start.month, start.day);
    DayInMonth(year, start.month, start.day + 1);
    if start.day + 1 > DaysIn(year, start.month) {
      if start.month < 12 {
        FirstNumber(year, start.month);
        DayInMonth(year, start.month + 1, start.day + 1 - DaysIn(year, start.month));
      } else {
        NewYearNumber(year);
        DayInMonth(year + 1, 1, start.day + 1 - DaysIn(year, start.month));
      }
    }
  }

  lemma InNextYear(after: Moment, t: Moment)
    requires IsMoment(after) && t.year == after.year + 1
    ensures Within(after, t)
  {
    YearOfLimit(after);
  }

  // The first seven days of a month are the seven days of the week.
  lemma SomeDayIs(year: int, month: int, w: int) returns (day: int)
    requires 1 <= month <= 12 && 0 <= w < 7
    ensures 1 <= day <= 7 && Weekday(year, month, day) == w
  {
    var first := DayNumber(year, month, 1);
    var ahead := if first % 7 <= w then w - first % 7 else w - first % 7 + 7;
    day := 1 + ahead;
    WeekdayAfter(first, ahead, w);
  }

  lemma WeekdayAfter(first: int, ahead: nat, w: int)
    requires 0 <= w < 7 && (first % 7 + ahead == w || first % 7 + ahead == w + 7)
    ensures (first + ahead) % 7 == w
  {}

  lemma FourHundredsAreLeap(q: int)
    ensures IsLeap(400 * q)
  {}

  lemma FiresNextYear(s: Schedule, after: Moment) returns (t: Moment)
    requires IsMoment(after) && WellFormed(s) && EveryYear(s)
    ensures Fires(s, t) && Within(after, t)
  {
    var year := after.year + 1;
    var h := Pick(s.hours, 0, 23);
    var mi := Pick(s.minutes, 0, 59);
    if s.dowRestricted {
      var m := Pick(s.months, 1, 12);
      var w := Pick(s.weekdays, 0, 6);
      var d := SomeDayIs(year, m, w);
      t := Moment(year, m, d, h, mi);
    } else {
      var m, d :| m in s.months && d in s.days && d <= DaysIn(2001, m);
      t := Moment(year, m, d, h, mi);
    }
    InNextYear(after, t);
  }

  // With no date in every year, only 29 February is left.
  lemma OtherwiseOnALeapDay(s: Schedule, t: Moment)
    requires WellFormed(s) && !EveryYear(s) && Fires(s, t)
    ensures OnlyOnLeapDays(s) && t.month == 2 && t.day == 29 && IsLeap(t.year)
  {
    assert t.month in s.months && t.day in s.days;
  }

  lemma SomeLeapDayAfter(s: Schedule, after: Moment) returns (t: Moment)
    requires IsMoment(after) && WellFormed(s) && OnlyOnLeapDays(s)
    ensures Fires(s, t) && Before(after, t)
  {
    var h := Pick(s.hours, 0, 23);
    var mi := Pick(s.minutes, 0, 59);
    var q := after.year / 400 + 1;
    FourHundredsAreLeap(q);
    t := Moment(400 * q, 2, 29, h, mi);
    OnSomeWeekday(s, t);
  }

  lemma OnSomeWeekday(s: Schedule, t: Moment)
    requires WellFormed(s) && !s.dowRestricted && IsMoment(t)
    ensures MatchesDay(s, t) <==> t.day in s.days
  {
    assert Weekday(t.year, t.month, t.day) in s.weekdays;
  }

  // A schedule fires after any given time unless it names no date at all: the search
  // misses that in one case, a schedule of 29 February alone with none in its window.
  lemma WindowIsEnough(s: Schedule, after: Moment)
    requires IsMoment(after) && WellFormed(s)
    ensures (exists t :: Fires(s, t) && Before(after, t)) <==> EveryYear(s) || OnlyOnLeapDays(s)
    ensures (exists t :: Fires(s, t) && Within(after, t)) <==>
      EveryYear(s) || (OnlyOnLeapDays(s) && LeapDayWithin(s, after))
  {
    if EveryYear(s) {
      var t := FiresNextYear(s, after);
    } else {
      if OnlyOnLeapDays(s) {
        var t := SomeLeapDayAfter(s, after);
        if LeapDayWithin(s, after) {
          var y, h, mi :| after.year <= y <= after.year + 6 && h in s.hours && mi in s.minutes
            && IsLeap(y) && Within(after, Moment(y, 2, 29, h, mi));
          assert Fires(s, Moment(y, 2, 29, h, mi));
        }
      }
      if t :| Fires(s, t) && Before(after, t) {
        OtherwiseOnALeapDay(s, t);
      }
      if t :| Fires(s, t) && Within(after, t) {
        OtherwiseOnALeapDay(s, t);
        YearOfLimit(after);
        assert t == Moment(t.year, 2, 29, t.hour, t.minute);
      }
    }
  }

  // ── When both day fields are restricted ────────────────────────────────────

  // Month, hour and minute are listed.
  predicate TimeListed(s: Schedule, t: Moment) {
    t.month in s.months && t.hour in s.hours && t.minute in s.minutes
  }

  // A day field left open has no say; when both are restricted, either is enough.
  lemma FiresOn(s: Schedule, t: Moment)
    requires WellFormed(s) && IsMoment(t)
    ensures var day, weekday := t.day in s.days, Weekday(t.year, t.month, t.day) in s.weekdays;
      Fires(s, t) <==> (TimeListed(s, t) &&
                        if s.domRestricted && s.dowRestricted then day || weekday
                        else if s.domRestricted then day
                        else if s.dowRestricted then weekday
                        else true)
  {}

  function Span(low: nat, high: nat): (field: set<nat>)
    ensures Full(field, low, high)
    decreases high + 1 - low
  {
    if low > high then {} else {low} + Span(low + 1, high)
  }

  // The same schedule with one of the day fields left open.
  function ByDay(s: Schedule): Schedule {
    s.(weekdays := Span(0, 6), dowRestricted := false)
  }

  function ByWeekday(s: Schedule): Schedule {
    s.(days := Span(1, 31), domRestricted := false)
  }

  // With both restricted it fires when either of the two would, otherwise when both.
  lemma EitherDayOrBoth(s: Schedule, t: Moment)
    requires WellFormed(s)
    ensures Fires(s, t) <==>
      if s.domRestricted && s.dowRestricted then Fires(ByDay(s), t) || Fires(ByWeekday(s), t)
      else Fires(ByDay(s), t) && Fires(ByWeekday(s), t)
  {
    if IsMoment(t) {
      assert 1 <= t.day <= 31;
    }
  }

  function Earlier(a: Option<Moment>, b: Option<Moment>): Option<Moment> {
    if a == None then b else if b == None || AtOrAfter(b.value, a.value) then a else b
  }

  // Then the next run is the earlier of the next by day and the next by weekday.
  method NextOfEither(s: Schedule, after: Moment) returns (next: Option<Moment>, byDay: Option<Moment>, byWeekday: Option<Moment>)
    requires IsMoment(after) && WellFormed(s) && s.domRestricted && s.dowRestricted
    ensures next == Earlier(byDay, byWeekday)
    ensures byDay.Some? ==> TimeListed(s, byDay.value) && byDay.value.day in s.days
    ensures byWeekday.Some? ==>
      var t := byWeekday.value;
      IsMoment(t) && TimeListed(s, t) && Weekday(t.year, t.month, t.day) in s.weekdays
  {
    next := Next(s, after);
    byDay := Next(ByDay(s), after);
    byWeekday := Next(ByWeekday(s), after);
    forall t ensures Fires(s, t) <==> Fires(ByDay(s), t) || Fires(ByWeekday(s), t) { EitherDayOrBoth(s, t); }
    EarlierIsFirst(s, after, next, byDay, byWeekday);
  }

  lemma EarlierIsFirst(s: Schedule, after: Moment, next: Option<Moment>, a: Option<Moment>, b: Option<Moment>)
    requires forall t :: Fires(s, t) <==> Fires(ByDay(s), t) || Fires(ByWeekday(s), t)
    requires IsNext(s, after, next) && IsNext(ByDay(s), after, a) && IsNext(ByWeekday(s), after, b)
    ensures next == Earlier(a, b)
  {
    var first := Earlier(a, b);
    if first.Some? {
      assert Fires(s, first.value);
    }
    if next.Some? {
      assert Fires(ByDay(s), next.value) || Fires(ByWeekday(s), next.value);
    }
    if first.Some? && next.Some? {
      OneOrder(first.value, next.value);
    }
  }

  lemma OneOrder(a: Moment, b: Moment)
    requires AtOrAfter(a, b) && AtOrAfter(b, a)
    ensures a == b
  {}

  // "0 0 29 2 *"
  const LEAP_DAYS := Schedule({0}, {0}, {29}, {2}, {0, 1, 2, 3, 4, 5, 6}, true, false)

  lemma LeapDaysIsWellFormed()
    ensures WellFormed(LEAP_DAYS) && OnlyOnLeapDays(LEAP_DAYS)
  {}

  const IN_THE_LAST_CENTURY := Moment(2096, 2, 29, 0, 0)

  lemma NoneUntil2101(y: int)
    requires IsLeap(y) && 2096 <= y <= 2102
    ensures !Within(IN_THE_LAST_CENTURY, Moment(y, 2, 29, 0, 0))
  {
    assert y == 2096;
  }

  lemma NoLeapDayUntil2101()
    ensures IsMoment(IN_THE_LAST_CENTURY) && !LeapDayWithin(LEAP_DAYS, IN_THE_LAST_CENTURY)
  {
    forall y | IsLeap(y) && 2096 <= y <= 2102 ensures !Within(IN_THE_LAST_CENTURY, Moment(y, 2, 29, 0, 0)) {
      NoneUntil2101(y);
    }
  }

  // Asked on 29 February 2096: not in five years, and then in 2104.
  lemma ACenturyIsMissed(later: Moment)
    requires later == Moment(2104, 2, 29, 0, 0)
    ensures IsMoment(IN_THE_LAST_CENTURY) && Fires(LEAP_DAYS, later) && Before(IN_THE_LAST_CENTURY, later)
    ensures forall x :: Within(IN_THE_LAST_CENTURY, x) ==> !Fires(LEAP_DAYS, x)
  {
    LeapDaysIsWellFormed();
    OnSomeWeekday(LEAP_DAYS, later);
    NoLeapDayUntil2101();
    WindowIsEnough(LEAP_DAYS, IN_THE_LAST_CENTURY);
  }
}
