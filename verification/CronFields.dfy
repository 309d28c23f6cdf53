/**
 The five fields of a schedule, from their parts: lists, ranges and steps. Splitting the
 text into parts and reading its numbers come before this.
 */
module CronFields {
  import opened Basics
  import opened Cron

  datatype Span = Star | Value(value: int) | FromTo(first: int, last: int)

  // One part of a comma-separated list, and what follows its slash.
  datatype Part = Part(span: Span, step: Option<int>)

  function Step(part: Part): int {
    if part.step == None then 1 else part.step.value
  }

  function Start(part: Part, low: int): int {
    match part.span case Star => low case Value(v) => v case FromTo(first, _) => first
  }

  // A single value with a step runs on to the end of the field.
  function End(part: Part, high: int): int {
    match part.span case Star => high case FromTo(_, last) => last
    case Value(v) => if Step(part) > 1 then high else v
  }

  // from, from + step, from + 2 * step and so on.
  predicate OnStep(from: int, step: int, v: int)
    requires step >= 1
    decreases v - from
  {
    v == from || (v > from && OnStep(from, step, v - step))
  }

  predicate Denotes(part: Part, low: int, high: int, v: int)
    requires Step(part) >= 1
  {
    v <= End(part, high) && OnStep(Start(part, low), Step(part), v)
  }

  predicate Accepted(part: Part, low: int, high: int) {
    && Step(part) >= 1
    && (part.span.FromTo? ==> part.span.first <= part.span.last)
    && low <= Start(part, low) && End(part, high) <= high
  }

  predicate AllAccepted(parts: seq<Part>, low: int, high: int) {
    forall i :: 0 <= i < |parts| ==> Accepted(parts[i], low, high)
  }

  predicate Listed(parts: seq<Part>, low: int, high: int, v: int)
    requires AllAccepted(parts, low, high)
  {
    exists i :: 0 <= i < |parts| && Denotes(parts[i], low, high, v)
  }

  lemma {:induction false} NoneBetween(from: int, step: int, value: int, v: int)
    requires step >= 1 && OnStep(from, step, value) && value < v < value + step
    ensures !OnStep(from, step, v)
    decreases value - from
  {
    if value > from {
      NoneBetween(from, step, value - step, v - step);
    }
  }

  method AddValues(before: set<nat>, start: nat, end: int, step: int) returns (values: set<nat>)
    requires step >= 1
    ensures forall v: nat :: v in values <==> v in before || (v <= end && OnStep(start, step, v))
  {
    values := before;
    var value := start;
    while value <= end
      invariant start <= value && OnStep(start, step, value)
      invariant forall v: nat :: v in values <==> v in before || (v <= end && v < value && OnStep(start, step, v))
      decreases end - value
    {
      forall v: nat | value < v < value + step ensures !OnStep(start, step, v) {
        NoneBetween(start, step, value, v);
      }
      values := values + {value};
      value := value + step;
    }
  }

  // An error is None. Otherwise the values are those some part denotes, and no others.
  method ParseField(parts: seq<Part>, low: nat, high: nat) returns (values: Option<set<nat>>)
    ensures values.Some? ==>
      && AllAccepted(parts, low, high) && Proper(values.value, low, high)
      && forall v: nat :: v in values.value <==> Listed(parts, low, high, v)
    ensures values == None ==> AllAccepted(parts, low, high) ==> forall v: nat :: !Listed(parts, low, high, v)
  {
    var found: set<nat> := {};
    var i := 0;
    while i < |parts|
      invariant 0 <= i <= |parts| && AllAccepted(parts[..i], low, high)
      invariant forall v: nat :: v in found <==> Listed(parts[..i], low, high, v)
    {
      var part := parts[i];
      assert parts[..i + 1] == parts[..i] + [part];
      if part.step.Some? && part.step.value < 1 {
        return None;
      }
      var start, end;
      match part.span {
        case Star =>
          start, end := low, high;
        case FromTo(first, last) =>
          start, end := first, last;
          if start > end {
            return None;
          }
        case Value(value) =>
          start, end := value, value;
          if Step(part) > 1 {
            end := high;
          }
      }
      if start < low || end > high {
        return None;
      }
      assert Accepted(part, low, high);
      ghost var before := found;
      found := AddValues(found, start, end, Step(part));
      ListedOneMore(parts[..i], part, low, high);
      i := i + 1;
    }
    assert parts[..i] == parts;
    if found == {} {
      return None;
    }
    AllInRange(parts, low, high);
    return Some(found);
  }

  lemma ListedOneMore(parts: seq<Part>, part: Part, low: int, high: int)
    requires AllAccepted(parts, low, high) && Accepted(part, low, high)
    ensures AllAccepted(parts + [part], low, high)
    ensures forall v :: Listed(parts + [part], low, high, v) <==> Listed(parts, low, high, v) || Denotes(part, low, high, v)
  {
    var more := parts + [part];
    forall v ensures Listed(more, low, high, v) <==> Listed(parts, low, high, v) || Denotes(part, low, high, v) {
      if Listed(parts, low, high, v) {
        var i :| 0 <= i < |parts| && Denotes(parts[i], low, high, v);
        assert Denotes(more[i], low, high, v);
      }
      if Denotes(part, low, high, v) {
        assert Denotes(more[|parts|], low, high, v);
      }
    }
  }

  lemma AllInRange(parts: seq<Part>, low: int, high: int)
    requires AllAccepted(parts, low, high)
    ensures forall v :: Listed(parts, low, high, v) ==> low <= v <= high
  {}

  // A star alone, and only that, leaves a day field open.
  const OPEN_FIELD := [Part(Star, None)]

  method ParseSchedule(minute: seq<Part>, hour: seq<Part>, dom: seq<Part>, month: seq<Part>, dow: seq<Part>)
    returns (schedule: Option<Schedule>)
    ensures schedule.Some? ==> WellFormed(schedule.value)
    ensures schedule.Some? ==> var s := schedule.value;
      && AllAccepted(minute, 0, 59) && AllAccepted(hour, 0, 23) && AllAccepted(dom, 1, 31)
      && AllAccepted(month, 1, 12) && AllAccepted(dow, 0, 7)
      && (forall v: nat :: v in s.minutes <==> Listed(minute, 0, 59, v))
      && (forall v: nat :: v in s.hours <==> Listed(hour, 0, 23, v))
      && (forall v: nat :: v in s.days <==> Listed(dom, 1, 31, v))
      && (forall v: nat :: v in s.months <==> Listed(month, 1, 12, v))
      && (forall v: nat :: v in s.weekdays <==> v < 7 && (Listed(dow, 0, 7, v) || (v == 0 && Listed(dow, 0, 7, 7))))
      && s.domRestricted == (dom != OPEN_FIELD) && s.dowRestricted == (dow != OPEN_FIELD)
  {
    var minutes := ParseField(minute, 0, 59);
    var hours := ParseField(hour, 0, 23);
    var days := ParseField(dom, 1, 31);
    var months := ParseField(month, 1, 12);
    var raw := ParseField(dow, 0, 7);
    if minutes == None || hours == None || days == None || months == None || raw == None {
      return None;
    }
    var weekdays := FoldSunday(raw.value);
    if dom == OPEN_FIELD {
      OpenIsFull(1, 31);
    }
    if dow == OPEN_FIELD {
      OpenIsFull(0, 7);
    }
    schedule := Some(Schedule(minutes.value, hours.value, days.value, months.value, weekdays, dom != OPEN_FIELD, dow != OPEN_FIELD));
  }

  lemma {:induction false} EveryOne(from: int, v: int)
    ensures OnStep(from, 1, v) <==> from <= v
    decreases v - from
  {
    if v > from {
      EveryOne(from, v - 1);
    }
  }

  lemma OpenIsFull(low: int, high: int)
    ensures AllAccepted(OPEN_FIELD, low, high) && forall v :: Listed(OPEN_FIELD, low, high, v) <==> low <= v <= high
  {
    forall v ensures Listed(OPEN_FIELD, low, high, v) <==> low <= v <= high {
      EveryOne(low, v);
      assert Denotes(OPEN_FIELD[0], low, high, v) <==> low <= v <= high;
    }
  }

  // 0 and 7 are both Sunday.
  method FoldSunday(raw: set<nat>) returns (weekdays: set<nat>)
    requires Proper(raw, 0, 7)
    ensures Proper(weekdays, 0, 6)
    ensures forall v: nat :: v in weekdays <==> v < 7 && (v in raw || (v == 0 && 7 in raw))
  {
    weekdays := {};
    var left := raw;
    while left != {}
      invariant left <= raw
      invariant forall v: nat :: v in weekdays <==> v < 7 && (v in raw - left || (v == 0 && 7 in raw - left))
      decreases left
    {
      var day :| day in left;
      weekdays := weekdays + {day % 7};
      left := left - {day};
    }
    assert 7 in raw ==> 0 in weekdays;
    assert weekdays != {};
  }

  // Every part of an accepted field counts for something, except a single value beyond
  // the field that has a step: that one is dropped without a word.
  lemma AcceptedPartsCount(part: Part, low: int, high: int)
    requires Accepted(part, low, high) && low <= high
    ensures (exists v :: Denotes(part, low, high, v)) <==> !(part.span.Value? && Step(part) > 1 && part.span.value > high)
  {
    if Start(part, low) <= End(part, high) {
      assert Denotes(part, low, high, Start(part, low));
    }
  }

  // "5,70/10" in the minute field is accepted, and means 5.
  lemma AValueIsDropped()
    ensures var parts := [Part(Value(5), None), Part(Value(70), Some(10))];
      AllAccepted(parts, 0, 59) && forall v :: Listed(parts, 0, 59, v) <==> v == 5
  {
    var parts := [Part(Value(5), None), Part(Value(70), Some(10))];
    assert Denotes(parts[0], 0, 59, 5);
  }

  // What is accepted: a step of one or more; a value at or above the lowest, and without a
  // step in the field; a range that is not upside down and lies in the field.
  lemma AcceptedWhen(part: Part, low: int, high: int)
    requires low <= high
    ensures var step := if part.step == None then 1 else part.step.value;
      Accepted(part, low, high) <==> (step >= 1 &&
        match part.span
        case Star => true
        case FromTo(first, last) => low <= first <= last <= high
        case Value(value) => low <= value && (step == 1 ==> value <= high))
  {}

  lemma {:induction false} OnStepIsAMultiple(from: int, step: int, v: int)
    requires step >= 1
    ensures OnStep(from, step, v) <==> v >= from && (v - from) % step == 0
    decreases v - from
  {
    if v > from {
      if v >= from + step {
        OnStepIsAMultiple(from, step, v - step);
        OneStepBack(v - from, step);
      } else {
        assert !OnStep(from, step, v - step);
        SmallRemainder(v - from, step);
      }
    } else if v == from {
      SmallRemainder(0, step);
    }
  }

  lemma OneStepBack(n: nat, step: int)
    requires 1 <= step <= n
    ensures n % step == (n - step) % step
  {
    assert n == step * (n / step) + n % step;
    assert n - step == step * (n / step - 1) + n % step;
    SameRemainder(n - step, step, n / step - 1, n % step);
  }

  lemma SameRemainder(n: int, step: int, q: int, r: int)
    requires step >= 1 && n == step * q + r && 0 <= r < step
    ensures n % step == r
  {
    var e := n / step - q;
    assert step * e == r - n % step by {
      assert step * (n / step - q) == step * (n / step) - step * q;
    }
    assert e >= 1 ==> step * e >= step;
    assert e <= -1 ==> step * e <= -step;
  }

  lemma SmallRemainder(n: nat, step: int)
    requires n < step
    ensures n % step == n
  {
    SameRemainder(n, step, 0, n);
  }

  // What a part stands for: a value, a range, or everything, in steps from where it
  // starts; a single value with a step goes on to the end of the field.
  lemma PartsMean(part: Part, low: int, high: int, v: int)
    requires Accepted(part, low, high)
    ensures var step := if part.step == None then 1 else part.step.value;
      Denotes(part, low, high, v) <==>
        match part.span
        case Star => low <= v <= high && (v - low) % step == 0
        case FromTo(first, last) => first <= v <= last && (v - first) % step == 0
        case Value(value) => if step == 1 then v == value else value <= v <= high && (v - value) % step == 0
  {
    OnStepIsAMultiple(Start(part, low), Step(part), v);
    if part.span.Value? && Step(part) == 1 && v == part.span.value {
      SmallRemainder(0, 1);
    }
  }
}
