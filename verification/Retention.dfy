/**
 Which snapshots are kept: the newest few, the newest of each of the last weeks and the
 newest of each of the last months; and what deleting the rest after every run leaves.
 */
module Retention {
  import opened Basics

  datatype Tier = Daily | Weekly | Monthly

  datatype Config = Config(daily: nat, weekly: nat, monthly: nat)

  datatype Snapshot = Snapshot(name: string, tiers: seq<Tier>, kept: bool)

  // Which names are real dates, and the ISO week of each.
  datatype Dating = Dating(isDate: string -> bool, week: string -> string)

  datatype Rules = Rules(cfg: Config, dating: Dating)

  // A name is YYYY-MM-DD.
  function Month(name: string): string {
    if |name| < 7 then name else name[..7]
  }

  // ── The rule, snapshot by snapshot ─────────────────────────────────────────

  // The weeks, or months, of the real dates before one in the list.
  function Earlier(dating: Dating, key: string -> string, names: seq<string>, i: nat): set<string>
    requires i <= |names|
  {
    set j | 0 <= j < i && dating.isDate(names[j]) :: key(names[j])
  }

  // The newest of its week, or month, with fewer than `most` of them before it.
  predicate Claims(dating: Dating, key: string -> string, most: nat, names: seq<string>, i: nat)
    requires i < |names|
  {
    && dating.isDate(names[i])
    && key(names[i]) !in Earlier(dating, key, names, i)
    && |Earlier(dating, key, names, i)| < most
  }

  function Listed(daily: bool, weekly: bool, monthly: bool): seq<Tier> {
    (if daily then [Daily] else []) + (if weekly then [Weekly] else []) + (if monthly then [Monthly] else [])
  }

  function Verdict(rules: Rules, names: seq<string>, i: nat): Snapshot
    requires i < |names|
  {
    var tiers := Listed(i < rules.cfg.daily,
                        Claims(rules.dating, rules.dating.week, rules.cfg.weekly, names, i),
                        Claims(rules.dating, Month, rules.cfg.monthly, names, i));
    Snapshot(names[i], tiers, tiers != [])
  }

  // The whole list judged.
  function Verdicts(rules: Rules, names: seq<string>, upTo: nat): (all: seq<Snapshot>)
    requires upTo <= |names|
    ensures |all| == upTo && forall i :: 0 <= i < upTo ==> all[i] == Verdict(rules, names, i)
  {
    if upTo == 0 then [] else Verdicts(rules, names, upTo - 1) + [Verdict(rules, names, upTo - 1)]
  }

  function Names(snapshots: seq<Snapshot>): (names: seq<string>)
    ensures |names| == |snapshots|
  {
    seq(|snapshots|, i requires 0 <= i < |snapshots| => snapshots[i].name)
  }

  // ── The walk ───────────────────────────────────────────────────────────────

  // What the walk remembers of one kind of key: those that were claimed.
  ghost predicate Remembers(dating: Dating, key: string -> string, most: nat, names: seq<string>, i: nat, seen: set<string>)
    requires i <= |names|
  {
    |seen| <= most && if |seen| < most then seen == Earlier(dating, key, names, i) else |Earlier(dating, key, names, i)| >= most
  }

  lemma EarlierGrows(dating: Dating, key: string -> string, names: seq<string>, i: nat)
    requires i < |names|
    ensures Earlier(dating, key, names, i + 1)
      == Earlier(dating, key, names, i) + if dating.isDate(names[i]) then {key(names[i])} else {}
    ensures |Earlier(dating, key, names, i)| <= |Earlier(dating, key, names, i + 1)|
  {
    var before, after := Earlier(dating, key, names, i), Earlier(dating, key, names, i + 1);
    assert after == before + if dating.isDate(names[i]) then {key(names[i])} else {};
    assert before + {key(names[i])} == before || |before + {key(names[i])}| == |before| + 1;
  }

  lemma RemembersOn(dating: Dating, key: string -> string, most: nat, names: seq<string>, i: nat, seen: set<string>)
    requires i < |names| && Remembers(dating, key, most, names, i, seen)
    ensures Claims(dating, key, most, names, i) <==> dating.isDate(names[i]) && |seen| < most && key(names[i]) !in seen
    ensures Remembers(dating, key, most, names, i + 1, if Claims(dating, key, most, names, i) then seen + {key(names[i])} else seen)
  {
    EarlierGrows(dating, key, names, i);
  }

  // One kind of key: claimed by the snapshot, or not, and remembered if it is.
  method Claim(dating: Dating, key: string -> string, most: nat, ghost names: seq<string>, ghost i: nat, name: string, seen: set<string>)
    returns (claimed: bool, after: set<string>)
    requires i < |names| && name == names[i] && dating.isDate(name) && Remembers(dating, key, most, names, i, seen)
    ensures claimed == Claims(dating, key, most, names, i) && Remembers(dating, key, most, names, i + 1, after)
  {
    RemembersOn(dating, key, most, names, i, seen);
    if |seen| < most {
      var k := key(name);
      if k !in seen {
        return true, seen + {k};
      }
    }
    return false, seen;
  }

  lemma NoDateIsClaimed(rules: Rules, names: seq<string>, i: nat, weeks: set<string>, months: set<string>)
    requires i < |names| && !rules.dating.isDate(names[i])
    requires Remembers(rules.dating, rules.dating.week, rules.cfg.weekly, names, i, weeks)
    requires Remembers(rules.dating, Month, rules.cfg.monthly, names, i, months)
    ensures Verdict(rules, names, i) == Snapshot(names[i], Listed(i < rules.cfg.daily, false, false), i < rules.cfg.daily)
    ensures Remembers(rules.dating, rules.dating.week, rules.cfg.weekly, names, i + 1, weeks)
    ensures Remembers(rules.dating, Month, rules.cfg.monthly, names, i + 1, months)
  {
    RemembersOn(rules.dating, rules.dating.week, rules.cfg.weekly, names, i, weeks);
    RemembersOn(rules.dating, Month, rules.cfg.monthly, names, i, months);
  }

  method ClassifyOne(rules: Rules, ghost names: seq<string>, i: nat, name: string, weeks: set<string>, months: set<string>)
    returns (snapshot: Snapshot, seenWeeks: set<string>, seenMonths: set<string>)
    requires i < |names| && name == names[i]
    requires Remembers(rules.dating, rules.dating.week, rules.cfg.weekly, names, i, weeks)
    requires Remembers(rules.dating, Month, rules.cfg.monthly, names, i, months)
    ensures snapshot == Verdict(rules, names, i)
    ensures Remembers(rules.dating, rules.dating.week, rules.cfg.weekly, names, i + 1, seenWeeks)
    ensures Remembers(rules.dating, Month, rules.cfg.monthly, names, i + 1, seenMonths)
  {
    seenWeeks, seenMonths := weeks, months;
    var tiers: seq<Tier> := [];
    if i < rules.cfg.daily {
      tiers := tiers + [Daily];
    }
    if !rules.dating.isDate(name) {
      NoDateIsClaimed(rules, names, i, weeks, months);
      return Snapshot(name, tiers, |tiers| > 0), seenWeeks, seenMonths;
    }
    var claimed;
    claimed, seenWeeks := Claim(rules.dating, rules.dating.week, rules.cfg.weekly, names, i, name, seenWeeks);
    if claimed {
      tiers := tiers + [Weekly];
    }
    claimed, seenMonths := Claim(rules.dating, Month, rules.cfg.monthly, names, i, name, seenMonths);
    if claimed {
      tiers := tiers + [Monthly];
    }
    snapshot := Snapshot(name, tiers, |tiers| > 0);
  }

  method Classify(snapshots: array<Snapshot>, rules: Rules)
    modifies snapshots
    ensures snapshots[..] == Verdicts(rules, Names(old(snapshots[..])), snapshots.Length)
  {
    ghost var names := Names(snapshots[..]);
    var seenWeeks: set<string>, seenMonths: set<string> := {}, {};
    for i := 0 to snapshots.Length
      invariant snapshots[..i] == Verdicts(rules, names, i)
      invariant snapshots[i..] == old(snapshots[..])[i..]
      invariant Remembers(rules.dating, rules.dating.week, rules.cfg.weekly, names, i, seenWeeks)
      invariant Remembers(rules.dating, Month, rules.cfg.monthly, names, i, seenMonths)
    {
      assert snapshots[i] == snapshots[i..][0] == old(snapshots[..])[i];
      var snapshot;
      snapshot, seenWeeks, seenMonths := ClassifyOne(rules, names, i, snapshots[i].name, seenWeeks, seenMonths);
      Place(snapshots, i, snapshot);
    }
  }

  method Place(snapshots: array<Snapshot>, i: nat, snapshot: Snapshot)
    requires i < snapshots.Length
    modifies snapshots
    ensures snapshots[..i + 1] == old(snapshots[..i]) + [snapshot]
    ensures snapshots[i + 1..] == old(snapshots[i..])[1..]
  {
    snapshots[i] := snapshot;
  }

  // ── What is left after the deletions ───────────────────────────────────────

  function Kept(rules: Rules, names: seq<string>, upTo: nat): seq<string>
    requires upTo <= |names|
  {
    if upTo == 0 then []
    else Kept(rules, names, upTo - 1) + if Verdict(rules, names, upTo - 1).kept then [names[upTo - 1]] else []
  }

  // What classifying a list once and deleting what nothing claims leaves of it.
  function Keep(rules: Rules, names: seq<string>): seq<string> {
    Kept(rules, names, |names|)
  }

  // What is deleted of a list from some place on, oldest first.
  function Dropped(rules: Rules, names: seq<string>, from: nat): seq<string>
    requires from <= |names|
    decreases |names| - from
  {
    if from == |names| then []
    else Dropped(rules, names, from + 1) + if Verdict(rules, names, from).kept then [] else [names[from]]
  }

  // Backwards, so that the oldest go first.
  method Prune(snapshots: array<Snapshot>, rules: Rules, ghost names: seq<string>) returns (left: seq<string>, removed: seq<string>)
    requires |names| == snapshots.Length
    requires snapshots[..] == Verdicts(rules, names, |names|)
    ensures left == Keep(rules, names) && removed == Dropped(rules, names, 0)
  {
    left, removed := [], [];
    var i := snapshots.Length;
    while i > 0
      invariant 0 <= i <= |names|
      invariant Kept(rules, names, i) + left == Keep(rules, names) && removed == Dropped(rules, names, i)
    {
      i := i - 1;
      assert snapshots[i] == snapshots[..][i];
      if snapshots[i].kept {
        left := [snapshots[i].name] + left;
      } else {
        removed := removed + [snapshots[i].name];
      }
    }
  }

  // What is left of a list from some place on.
  function LeftOf(rules: Rules, names: seq<string>, from: nat): seq<string>
    requires from <= |names|
    decreases |names| - from
  {
    if from == |names| then []
    else (if Verdict(rules, names, from).kept then [names[from]] else []) + LeftOf(rules, names, from + 1)
  }

  lemma {:induction false} KeptAndLeft(rules: Rules, names: seq<string>, from: nat)
    requires from <= |names|
    ensures Kept(rules, names, from) + LeftOf(rules, names, from) == Keep(rules, names)
    decreases |names| - from
  {
    if from < |names| {
      var one := if Verdict(rules, names, from).kept then [names[from]] else [];
      KeptAndLeft(rules, names, from + 1);
      Regroup(Kept(rules, names, from), one, LeftOf(rules, names, from + 1));
    }
  }

  ghost predicate AddUp(left: seq<string>, dropped: seq<string>, all: seq<string>) {
    multiset(left) + multiset(dropped) == multiset(all)
  }

  lemma OnOneSide(kept: bool, name: string, left: seq<string>, dropped: seq<string>, rest: seq<string>)
    requires AddUp(left, dropped, rest)
    ensures AddUp((if kept then [name] else []) + left, dropped + if kept then [] else [name], [name] + rest)
  {}

  lemma OneMoreFrom(rules: Rules, names: seq<string>, from: nat, kept: bool)
    requires from < |names| && kept == Verdict(rules, names, from).kept
    ensures LeftOf(rules, names, from) == (if kept then [names[from]] else []) + LeftOf(rules, names, from + 1)
    ensures Dropped(rules, names, from) == Dropped(rules, names, from + 1) + if kept then [] else [names[from]]
    ensures names[from..] == [names[from]] + names[from + 1..]
  {}

  lemma {:induction false} LeftAndDropped(rules: Rules, names: seq<string>, from: nat)
    requires from <= |names|
    ensures AddUp(LeftOf(rules, names, from), Dropped(rules, names, from), names[from..])
    decreases |names| - from
  {
    if from < |names| {
      var kept := Verdict(rules, names, from).kept;
      LeftAndDropped(rules, names, from + 1);
      OneMoreFrom(rules, names, from, kept);
      OnOneSide(kept, names[from], LeftOf(rules, names, from + 1), Dropped(rules, names, from + 1), names[from + 1..]);
    }
  }

  // Every snapshot is left or removed, once.
  lemma EachIsLeftOrRemoved(rules: Rules, names: seq<string>)
    ensures multiset(Keep(rules, names)) + multiset(Dropped(rules, names, 0)) == multiset(names)
  {
    KeptAndLeft(rules, names, 0);
    LeftAndDropped(rules, names, 0);
    assert names[0..] == names && [] + LeftOf(rules, names, 0) == LeftOf(rules, names, 0);
  }

  // The end of every run.
  method ApplyRetention(snapshots: array<Snapshot>, rules: Rules) returns (left: seq<string>, removed: seq<string>)
    modifies snapshots
    ensures left == Keep(rules, Names(old(snapshots[..]))) && removed == Dropped(rules, Names(old(snapshots[..])), 0)
    ensures multiset(left) + multiset(removed) == multiset(Names(old(snapshots[..])))
  {
    ghost var names := Names(snapshots[..]);
    Classify(snapshots, rules);
    left, removed := Prune(snapshots, rules, names);
    EachIsLeftOrRemoved(rules, names);
  }

  // ── The walk as a function ─────────────────────────────────────────────────

  // Daily places left, and the weeks and months claimed so far.
  datatype Seen = Seen(left: nat, weeks: set<string>, months: set<string>)

  predicate Takes(dating: Dating, key: string -> string, most: nat, name: string, seen: set<string>) {
    dating.isDate(name) && |seen| < most && key(name) !in seen
  }

  function With(dating: Dating, key: string -> string, most: nat, name: string, seen: set<string>): set<string> {
    if Takes(dating, key, most, name, seen) then seen + {key(name)} else seen
  }

  predicate Stays(rules: Rules, name: string, seen: Seen) {
    || seen.left > 0
    || Takes(rules.dating, rules.dating.week, rules.cfg.weekly, name, seen.weeks)
    || Takes(rules.dating, Month, rules.cfg.monthly, name, seen.months)
  }

  function After(rules: Rules, name: string, seen: Seen): Seen {
    Seen(if seen.left > 0 then seen.left - 1 else 0,
         With(rules.dating, rules.dating.week, rules.cfg.weekly, name, seen.weeks),
         With(rules.dating, Month, rules.cfg.monthly, name, seen.months))
  }

  function Walk(rules: Rules, names: seq<string>, seen: Seen): seq<string>
    decreases |names|
  {
    if names == [] then []
    else (if Stays(rules, names[0], seen) then [names[0]] else []) + Walk(rules, names[1..], After(rules, names[0], seen))
  }

  function Start(rules: Rules): Seen {
    Seen(rules.cfg.daily, {}, {})
  }

  ghost predicate InStep(rules: Rules, names: seq<string>, i: nat, seen: Seen)
    requires i <= |names|
  {
    && seen.left == (if i < rules.cfg.daily then rules.cfg.daily - i else 0)
    && Remembers(rules.dating, rules.dating.week, rules.cfg.weekly, names, i, seen.weeks)
    && Remembers(rules.dating, Month, rules.cfg.monthly, names, i, seen.months)
  }

  lemma StepOn(rules: Rules, names: seq<string>, i: nat, seen: Seen)
    requires i < |names| && InStep(rules, names, i, seen)
    ensures InStep(rules, names, i + 1, After(rules, names[i], seen))
    ensures Verdict(rules, names, i).kept <==> Stays(rules, names[i], seen)
  {
    RemembersOn(rules.dating, rules.dating.week, rules.cfg.weekly, names, i, seen.weeks);
    RemembersOn(rules.dating, Month, rules.cfg.monthly, names, i, seen.months);
  }

  lemma {:induction false} WalkFrom(rules: Rules, names: seq<string>, i: nat, seen: Seen)
    requires i <= |names| && InStep(rules, names, i, seen)
    ensures Kept(rules, names, i) + Walk(rules, names[i..], seen) == Keep(rules, names)
    decreases |names| - i
  {
    if i < |names| {
      StepOn(rules, names, i, seen);
      var next := After(rules, names[i], seen);
      WalkFrom(rules, names, i + 1, next);
      assert names[i..][0] == names[i] && names[i..][1..] == names[i + 1..];
      var one := if Stays(rules, names[i], seen) then [names[i]] else [];
      Regroup(Kept(rules, names, i), one, Walk(rules, names[i + 1..], next));
      assert Walk(rules, names[i..], seen) == one + Walk(rules, names[i + 1..], next);
      assert Kept(rules, names, i + 1) == Kept(rules, names, i) + one;
    }
  }

  lemma WalkIsKeep(rules: Rules, names: seq<string>)
    ensures Walk(rules, names, Start(rules)) == Keep(rules, names)
  {
    assert Earlier(rules.dating, rules.dating.week, names, 0) == {} && Earlier(rules.dating, Month, names, 0) == {};
    WalkFrom(rules, names, 0, Start(rules));
    assert names[0..] == names;
  }

  // ── Whole runs ─────────────────────────────────────────────────────────────

  // The second walk has no claim left that the first had not.
  predicate Wants(most: nat, less: set<string>, more: set<string>) {
    |less| >= most || more <= less
  }

  predicate WantsLess(rules: Rules, b: Seen, a: Seen) {
    && b.left <= a.left
    && Wants(rules.cfg.weekly, b.weeks, a.weeks) && Wants(rules.cfg.monthly, b.months, a.months)
  }

  lemma WantsOn(dating: Dating, key: string -> string, most: nat, name: string, b: set<string>, a: set<string>)
    requires Wants(most, b, a)
    ensures Takes(dating, key, most, name, b) ==> Takes(dating, key, most, name, a)
    ensures Wants(most, With(dating, key, most, name, b), With(dating, key, most, name, a))
    ensures !Takes(dating, key, most, name, a) ==> With(dating, key, most, name, b) == b
  {
    if a <= b {
      SubsetIsSmaller(a, b);
    }
    assert key(name) !in b ==> |b + {key(name)}| == |b| + 1;
  }

  // A walk over what an earlier walk left finds what it would have found in the whole.
  lemma {:induction false} WalkAbsorbs(rules: Rules, names: seq<string>, a: Seen, b: Seen)
    requires WantsLess(rules, b, a)
    ensures Walk(rules, Walk(rules, names, a), b) == Walk(rules, names, b)
    decreases |names|
  {
    if names != [] {
      var name := names[0];
      WantsOn(rules.dating, rules.dating.week, rules.cfg.weekly, name, b.weeks, a.weeks);
      WantsOn(rules.dating, Month, rules.cfg.monthly, name, b.months, a.months);
      WalkAbsorbs(rules, names[1..], After(rules, name, a), After(rules, name, b));
      var rest := Walk(rules, names[1..], After(rules, name, a));
      if Stays(rules, name, a) {
        assert Walk(rules, names, a) == [name] + rest;
        assert ([name] + rest)[1..] == rest;
      } else {
        assert Walk(rules, names, a) == rest;
        assert After(rules, name, b) == b;
      }
    }
  }

  // keep(n + keep(xs)) = keep(n + xs), and keep(keep(xs)) = keep(xs).
  lemma KeepAbsorbs(rules: Rules, name: string, names: seq<string>)
    ensures Keep(rules, [name] + Keep(rules, names)) == Keep(rules, [name] + names)
    ensures Keep(rules, Keep(rules, names)) == Keep(rules, names)
  {
    var start := Start(rules);
    WalkIsKeep(rules, names);
    WalkIsKeep(rules, Keep(rules, names));
    WalkIsKeep(rules, [name] + names);
    WalkIsKeep(rules, [name] + Keep(rules, names));
    WalkAbsorbs(rules, names, start, start);
    WalkAbsorbs(rules, names, start, After(rules, name, start));
    assert ([name] + names)[1..] == names && ([name] + Keep(rules, names))[1..] == Keep(rules, names);
  }

  // A run writes a snapshot for its day, unless it is a second run on the same day, and
  // then classifies and prunes.
  function Run(rules: Rules, snapshots: seq<string>, day: string): seq<string> {
    Keep(rules, if day in snapshots then snapshots else [day] + snapshots)
  }

  function Runs(rules: Rules, days: seq<string>): seq<string> {
    if days == [] then [] else Run(rules, Runs(rules, days[..|days| - 1]), days[|days| - 1])
  }

  // Every snapshot ever written, newest first.
  function History(days: seq<string>): seq<string> {
    if days == [] then []
    else
      var before, day := History(days[..|days| - 1]), days[|days| - 1];
      if before != [] && before[0] == day then before else [day] + before
  }

  // The clock does not go back to a day that has passed.
  predicate Chronological(days: seq<string>) {
    forall i, j, k :: 0 <= i < j < k < |days| && days[i] == days[k] ==> days[j] == days[i]
  }

  lemma {:induction false} HistoryIsTheDays(days: seq<string>)
    ensures forall d :: d in History(days) <==> d in days
    ensures days != [] ==> History(days) != [] && History(days)[0] == days[|days| - 1]
  {
    if days != [] {
      assert days == days[..|days| - 1] + [days[|days| - 1]];
      HistoryIsTheDays(days[..|days| - 1]);
    }
  }

  lemma {:induction false} WalkIsOfTheList(rules: Rules, names: seq<string>, seen: Seen)
    ensures forall n :: n in Walk(rules, names, seen) ==> n in names
    decreases |names|
  {
    if names != [] {
      WalkIsOfTheList(rules, names[1..], After(rules, names[0], seen));
    }
  }

  lemma NewestIsKept(rules: Rules, names: seq<string>)
    requires names != [] && 0 < rules.cfg.daily
    ensures names[0] in Keep(rules, names)
  {
    WalkIsKeep(rules, names);
    assert Walk(rules, names, Start(rules))[0] == names[0];
  }

  // Pruning after every run leaves exactly what classifying the whole history once
  // would keep.
  lemma {:induction false} PruningEveryRunIsPruningOnce(rules: Rules, days: seq<string>)
    requires Chronological(days) && 0 < rules.cfg.daily
    ensures Runs(rules, days) == Keep(rules, History(days))
    decreases |days|
  {
    if days != [] {
      var before, day := days[..|days| - 1], days[|days| - 1];
      PruningEveryRunIsPruningOnce(rules, before);
      var history := History(before);
      HistoryIsTheDays(before);
      KeepAbsorbs(rules, day, history);
      WalkIsKeep(rules, history);
      WalkIsOfTheList(rules, history, Start(rules));
      if before != [] && history[0] == day {
        NewestIsKept(rules, history);
      }
    }
  }

  // ── How many ───────────────────────────────────────────────────────────────

  function Open(most: nat, seen: set<string>): nat {
    if |seen| < most then most - |seen| else 0
  }

  lemma {:induction false} WalkBound(rules: Rules, names: seq<string>, seen: Seen)
    ensures |Walk(rules, names, seen)|
      <= seen.left + Open(rules.cfg.weekly, seen.weeks) + Open(rules.cfg.monthly, seen.months)
    decreases |names|
  {
    if names != [] {
      WalkBound(rules, names[1..], After(rules, names[0], seen));
      OneLess(rules.dating, rules.dating.week, rules.cfg.weekly, names[0], seen.weeks);
      OneLess(rules.dating, Month, rules.cfg.monthly, names[0], seen.months);
    }
  }

  lemma OneLess(dating: Dating, key: string -> string, most: nat, name: string, seen: set<string>)
    ensures Open(most, With(dating, key, most, name, seen)) + One(Takes(dating, key, most, name, seen)) == Open(most, seen)
  {
    assert key(name) !in seen ==> |seen + {key(name)}| == |seen| + 1;
  }

  lemma KeepBound(rules: Rules, names: seq<string>)
    ensures |Keep(rules, names)| <= rules.cfg.daily + rules.cfg.weekly + rules.cfg.monthly
  {
    WalkIsKeep(rules, names);
    WalkBound(rules, names, Start(rules));
  }

  // Each week, or month, has one newest snapshot. It has the tag exactly if fewer than
  // `most` others are newer, and no other snapshot of that week or month has it.
  lemma {:induction false} TagIsOnTheNewest(dating: Dating, key: string -> string, most: nat, names: seq<string>, i: nat) returns (newest: nat)
    requires i < |names| && dating.isDate(names[i])
    ensures newest <= i && dating.isDate(names[newest]) && key(names[newest]) == key(names[i])
    ensures Claims(dating, key, most, names, newest) <==> |Earlier(dating, key, names, newest)| < most
    ensures forall j :: newest < j < |names| && key(names[j]) == key(names[i]) ==> !Claims(dating, key, most, names, j)
    decreases i
  {
    if key(names[i]) in Earlier(dating, key, names, i) {
      var j :| 0 <= j < i && dating.isDate(names[j]) && key(names[j]) == key(names[i]);
      newest := TagIsOnTheNewest(dating, key, most, names, j);
    } else {
      newest := i;
      forall j | i < j < |names| && key(names[j]) == key(names[i]) ensures !Claims(dating, key, most, names, j) {
        assert key(names[i]) in Earlier(dating, key, names, j);
      }
    }
  }

  // ── The verdict in the words of the configuration ──────────────────────────

  // The keys of the real dates before one in the list, and whether its own is among them.
  ghost predicate NewestOfItsKey(dating: Dating, key: string -> string, names: seq<string>, i: nat)
    requires i < |names|
  {
    dating.isDate(names[i]) && forall j :: 0 <= j < i && dating.isDate(names[j]) ==> key(names[j]) != key(names[i])
  }

  // The newest few have the daily tag; the newest of each of the last weeks has the
  // weekly tag, and the newest of each of the last months the monthly tag. What has a
  // tag is kept.
  lemma TagsMean(rules: Rules, names: seq<string>, i: nat)
    requires i < |names|
    ensures var verdict, dating := Verdict(rules, names, i), rules.dating;
      var weeks := set j | 0 <= j < i && dating.isDate(names[j]) :: dating.week(names[j]);
      var months := set j | 0 <= j < i && dating.isDate(names[j]) :: Month(names[j]);
      && (Daily in verdict.tiers <==> i < rules.cfg.daily)
      && (Weekly in verdict.tiers <==> NewestOfItsKey(dating, dating.week, names, i) && |weeks| < rules.cfg.weekly)
      && (Monthly in verdict.tiers <==> NewestOfItsKey(dating, Month, names, i) && |months| < rules.cfg.monthly)
      && (verdict.kept <==> Daily in verdict.tiers || Weekly in verdict.tiers || Monthly in verdict.tiers)
  {
    var dating := rules.dating;
    assert Earlier(dating, dating.week, names, i) == set j | 0 <= j < i && dating.isDate(names[j]) :: dating.week(names[j]);
    assert Earlier(dating, Month, names, i) == set j | 0 <= j < i && dating.isDate(names[j]) :: Month(names[j]);
    NewestIsFirst(dating, dating.week, names, i);
    NewestIsFirst(dating, Month, names, i);
  }

  lemma NewestIsFirst(dating: Dating, key: string -> string, names: seq<string>, i: nat)
    requires i < |names|
    ensures NewestOfItsKey(dating, key, names, i) <==> dating.isDate(names[i]) && key(names[i]) !in Earlier(dating, key, names, i)
  {
    if key(names[i]) in Earlier(dating, key, names, i) {
      var j :| 0 <= j < i && dating.isDate(names[j]) && key(names[j]) == key(names[i]);
    }
    if j :| 0 <= j < i && dating.isDate(names[j]) && key(names[j]) == key(names[i]) {
      assert key(names[j]) in Earlier(dating, key, names, i);
    }
  }

  // The names that are flagged, in order.
  function Flagged(names: seq<string>, flags: seq<bool>): seq<string>
    requires |names| == |flags|
  {
    if names == [] then []
    else Flagged(names[..|names| - 1], flags[..|names| - 1]) + if flags[|names| - 1] then [names[|names| - 1]] else []
  }

  lemma {:induction false} FlaggedAreIn(names: seq<string>, flags: seq<bool>, name: string)
    requires |names| == |flags|
    ensures name in Flagged(names, flags) <==> exists i :: 0 <= i < |names| && names[i] == name && flags[i]
  {
    if names != [] {
      var n := |names| - 1;
      FlaggedAreIn(names[..n], flags[..n], name);
      if i :| 0 <= i < |names| && names[i] == name && flags[i] {
        assert i < n ==> names[..n][i] == name && flags[..n][i];
      }
    }
  }

  function KeptFlags(rules: Rules, names: seq<string>, upTo: nat): (flags: seq<bool>)
    requires upTo <= |names|
    ensures |flags| == upTo && forall i :: 0 <= i < upTo ==> flags[i] == Verdict(rules, names, i).kept
  {
    seq(upTo, i requires 0 <= i < upTo => Verdict(rules, names, i).kept)
  }

  lemma {:induction false} KeptAreFlagged(rules: Rules, names: seq<string>, upTo: nat)
    requires upTo <= |names|
    ensures Kept(rules, names, upTo) == Flagged(names[..upTo], KeptFlags(rules, names, upTo))
  {
    if upTo > 0 {
      KeptAreFlagged(rules, names, upTo - 1);
      assert names[..upTo][..upTo - 1] == names[..upTo - 1];
      assert KeptFlags(rules, names, upTo)[..upTo - 1] == KeptFlags(rules, names, upTo - 1);
    }
  }

  // A snapshot is left exactly if its verdict keeps it; so at least the newest few are.
  lemma KeepMeans(rules: Rules, names: seq<string>, name: string)
    ensures name in Keep(rules, names) <==> exists i :: 0 <= i < |names| && names[i] == name && Verdict(rules, names, i).kept
  {
    KeptAreFlagged(rules, names, |names|);
    assert names[..|names|] == names;
    FlaggedAreIn(names, KeptFlags(rules, names, |names|), name);
  }

  lemma NewestFewAreKept(rules: Rules, names: seq<string>, i: nat)
    requires i < |names| && i < rules.cfg.daily
    ensures names[i] in Keep(rules, names)
  {
    TagsMean(rules, names, i);
    KeepMeans(rules, names, names[i]);
  }

  // ── Names that are dates ───────────────────────────────────────────────────

  function Digit(n: nat): char
    requires n < 10
  {
    ('0' as int + n) as char
  }

  function TwoDigits(n: nat): (text: string)
    requires n < 100
    ensures |text| == 2
  {
    [Digit(n / 10), Digit(n % 10)]
  }

  // YYYY-MM-DD
  function DateName(year: nat, month: nat, day: nat): (name: string)
    requires year < 10000 && month < 100 && day < 100
    ensures |name| == 10
  {
    TwoDigits(year / 100) + TwoDigits(year % 100) + "-" + TwoDigits(month) + "-" + TwoDigits(day)
  }

  lemma TwoDigitsTell(m: nat, n: nat)
    requires m < 100 && n < 100 && TwoDigits(m) == TwoDigits(n)
    ensures m == n
  {
    assert TwoDigits(m)[0] == TwoDigits(n)[0] && TwoDigits(m)[1] == TwoDigits(n)[1];
  }

  lemma KeyOfDate(year: nat, month: nat, day: nat)
    requires year < 10000 && month < 100 && day < 100
    ensures Month(DateName(year, month, day)) == TwoDigits(year / 100) + TwoDigits(year % 100) + "-" + TwoDigits(month)
  {}

  lemma SameParts(a: string, b: string, c: string, a': string, b': string, c': string)
    requires |a| == |a'| == 2 && |b| == |b'| == 2
    ensures a + b + "-" + c == a' + b' + "-" + c' <==> a == a' && b == b' && c == c'
  {
    var key, key' := a + b + "-" + c, a' + b' + "-" + c';
    assert key[..2] == a && key[2..4] == b && key[5..] == c;
    assert key'[..2] == a' && key'[2..4] == b' && key'[5..] == c';
  }

  // Two dates have the same month key exactly if year and month agree.
  lemma MonthIsYearAndMonth(year: nat, month: nat, day: nat, year': nat, month': nat, day': nat)
    requires year < 10000 && month < 100 && day < 100 && year' < 10000 && month' < 100 && day' < 100
    ensures Month(DateName(year, month, day)) == Month(DateName(year', month', day')) <==> (year, month) == (year', month')
  {
    KeyOfDate(year, month, day);
    KeyOfDate(year', month', day');
    SameParts(TwoDigits(year / 100), TwoDigits(year % 100), TwoDigits(month),
              TwoDigits(year' / 100), TwoDigits(year' % 100), TwoDigits(month'));
    if Month(DateName(year, month, day)) == Month(DateName(year', month', day')) {
      TwoDigitsTell(year / 100, year' / 100);
      TwoDigitsTell(year % 100, year' % 100);
      TwoDigitsTell(month, month');
    }
  }
}
