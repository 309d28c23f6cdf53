/**
 The size cache at work: one run at a time, deletions between runs, requests to measure
 again that wait their turn, and one background walker that nothing waits for.
 */
module SizeCacheRuns {
  import opened Basics
  import opened SizeCache

  // A change whose neighbours are still to be marked; then, the list it is marked by.
  datatype Debt = Debt(touched: set<Name>, listing: Option<set<Name>>)

  // Released is the moment between giving up the disk and ceasing to be the run.
  datatype Running = NoRun | Waiting | Writing(day: Name, touched: set<Name>) | Released(touched: set<Name>)

  // What the walk will report, unless something near changed while it was going.
  datatype Walk = Walk(name: Name, reading: Size, disturbed: bool)

  datatype State = State(
    disk: Disk, newest: Name, sizes: map<Name, Size>, pending: set<Name>, measuring: bool,
    walking: Option<Walk>, run: Running, deleting: Option<Name>, debts: seq<Debt>)

  const INITIAL := State(map[], 0, map[], {}, false, None, NoRun, None, [])

  datatype Step =
    | RunStarts
    | RunLocks(day: Name)
    | RunWrites(inodes: set<Inode>)
    | RunCondemns(name: Name)       // retention begins to remove it
    | RunRemoves(name: Name)
    | RunUnlocks
    | RunEnds
    | DeleteBegins(name: Name)
    | DeleteEnds
    | Asks                          // queueSizes at startup, for no change at all
    | Lists(debt: nat)              // queueSizes reads the directory
    | Marks(debt: nat)              // and then takes the lock
    | Picks
    | Rests
    | Skips
    | Stores(size: Size)            // what a disturbed walk happened to add up to

  // What is being changed at this moment.
  function Active(s: State): set<Name> {
    (match s.run case Writing(_, touched) => touched case Released(touched) => touched case _ => {})
    + if s.deleting == None then {} else {s.deleting.value}
  }

  function Listing(s: State, debt: Debt): set<Name> {
    if debt.listing == None then s.disk.Keys else debt.listing.value
  }

  predicate IsNewest(names: set<Name>, x: Name) {
    x in names && forall y :: y in names ==> y <= x
  }

  ghost predicate Enabled(s: State, step: Step) {
    match step
    case RunStarts => s.run.NoRun?
    case RunLocks(day) => s.run.Waiting? && s.deleting == None && s.newest <= day
    case RunWrites(inodes) => s.run.Writing? && Writes(s.disk, s.run.day, inodes)
    case RunCondemns(x) => s.run.Writing? && x in s.disk
    case RunRemoves(x) => s.run.Writing? && x in s.disk && x in s.run.touched
    case RunUnlocks => s.run.Writing?
    case RunEnds => s.run.Released?
    case DeleteBegins(x) => !s.run.Writing? && s.deleting == None && x in s.disk
    case DeleteEnds => s.deleting.Some?
    case Asks => true
    case Lists(i) => i < |s.debts| && s.debts[i].listing == None
    case Marks(i) => i < |s.debts| && s.debts[i].listing.Some?
    case Picks => s.measuring && s.walking == None && s.run.NoRun? && s.pending != {}
    case Rests => s.measuring && s.walking == None && (!s.run.NoRun? || s.pending == {})
    case Skips => s.walking.Some? && s.walking.value.name !in s.disk
    case Stores(_) => s.walking.Some?
  }

  function Marked(s: State, debt: Debt, y: Name): bool {
    y in Listing(s, debt) && ((y !in s.sizes) || Near(Listing(s, debt), debt.touched, y))
  }

  // queueSizes under the lock: forgets what is gone, adds what may have moved, and
  // starts the walker unless it is at work or a run is going.
  function Mark(s: State, debt: Debt): State {
    var names := Listing(s, debt);
    var pending := s.pending + set y | y in names && Marked(s, debt, y);
    s.(sizes := map y | y in s.sizes && y in names :: s.sizes[y],
       pending := pending,
       measuring := s.measuring || (s.run.NoRun? && pending != {}))
  }

  ghost function Pick(s: State, x: Name): State
    requires x in s.pending
  {
    s.(pending := s.pending - {x},
       walking := Some(Walk(x, if x in s.disk then Measure(s.disk, x) else Size({}, {}), false)))
  }

  ghost function Newest(names: set<Name>): Name
    requires names != {}
    ensures IsNewest(names, Newest(names))
  {
    NewestExists(names);
    var x :| IsNewest(names, x);
    x
  }

  lemma {:induction false} NewestExists(names: set<Name>)
    requires names != {}
    ensures exists x :: IsNewest(names, x)
    decreases names
  {
    var n :| n in names;
    if names == {n} {
      assert IsNewest(names, n);
    } else {
      NewestExists(names - {n});
      var x :| IsNewest(names - {n}, x);
      assert names == names - {n} + {n};
      assert IsNewest(names, if n < x then x else n);
    }
  }

  ghost function Act(s: State, step: Step): State
    requires Enabled(s, step)
  {
    match step
    case RunStarts => s.(run := Waiting)
    case RunLocks(day) => s.(run := Writing(day, {day}), newest := day)
    case RunWrites(inodes) => s.(disk := s.disk[s.run.day := inodes])
    case RunCondemns(x) => s.(run := Writing(s.run.day, s.run.touched + {x}))
    case RunRemoves(x) => s.(disk := s.disk - {x})
    case RunUnlocks => s.(run := Released(s.run.touched))
    case RunEnds => s.(run := NoRun, debts := s.debts + [Debt(s.run.touched, None)])
    case DeleteBegins(x) => s.(deleting := Some(x))
    case DeleteEnds =>
      s.(disk := s.disk - {s.deleting.value}, deleting := None, debts := s.debts + [Debt({s.deleting.value}, None)])
    case Asks => s.(debts := s.debts + [Debt({}, None)])
    case Lists(i) => s.(debts := s.debts[i := Debt(s.debts[i].touched, Some(s.disk.Keys))])
    case Marks(i) => Mark(s, s.debts[i]).(debts := s.debts[..i] + s.debts[i + 1..])
    case Picks => Pick(s, Newest(s.pending))
    case Rests => s.(measuring := false)
    case Skips => s.(walking := None)
    case Stores(size) =>
      var w := s.walking.value;
      s.(walking := None, sizes := s.sizes[w.name := if w.disturbed then size else w.reading])
  }

  // A walk of a snapshot near a change that is going on cannot be relied upon.
  function Disturbed(s: State): State {
    if s.walking.Some? && Near(s.disk.Keys, Active(s), s.walking.value.name)
    then s.(walking := Some(s.walking.value.(disturbed := true)))
    else s
  }

  ghost function Do(s: State, step: Step): State
    requires Enabled(s, step)
  {
    Disturbed(Act(s, step))
  }

  ghost function Run(s: State, steps: seq<Step>): State
    decreases |steps|
  {
    if steps == [] then s
    else Run(if Enabled(s, steps[0]) then Do(s, steps[0]) else s, steps[1..])
  }

  // ── The invariant ──────────────────────────────────────────────────────────

  predicate OwedBy(s: State, debt: Debt, y: Name) {
    Near(Listing(s, debt), debt.touched, y)
  }

  // The snapshot is, or is going to be, on the list of what to walk.
  ghost predicate Owed(s: State, y: Name) {
    || y in s.pending
    || Near(s.disk.Keys, Active(s), y)
    || exists i :: 0 <= i < |s.debts| && OwedBy(s, s.debts[i], y)
  }

  ghost predicate Accounted(s: State, y: Name) {
    y in s.disk && y in s.sizes && s.sizes[y] != Measure(s.disk, y) ==>
      Owed(s, y) || (s.walking.Some? && s.walking.value.name == y)
  }

  // A walk that nothing disturbed has the measure of the snapshot as it is now.
  ghost predicate WalkHolds(s: State) {
    s.walking.Some? ==>
      var w := s.walking.value;
      && s.measuring
      && (Near(s.disk.Keys, Active(s), w.name) ==> w.disturbed)
      && (w.name in s.disk ==> if w.disturbed then Owed(s, w.name) else w.reading == Measure(s.disk, w.name))
  }

  ghost predicate UpTo(names: set<Name>, newest: Name) {
    forall x :: x in names ==> x <= newest
  }

  ghost predicate InOrder(s: State) {
    && Contiguous(s.disk) && UpTo(s.disk.Keys, s.newest) && UpTo(Active(s), s.newest)
    && (forall i :: 0 <= i < |s.debts| ==> UpTo(s.debts[i].touched, s.newest))
    && (s.run.Writing? ==> s.run.day == s.newest && s.run.day in s.run.touched && s.deleting == None)
  }

  // Work on the list is never left with nobody to do it.
  predicate NotStranded(s: State) {
    s.pending != {} ==> s.measuring || !s.run.NoRun? || s.debts != []
  }

  ghost predicate Sound(s: State) {
    && InOrder(s) && WalkHolds(s) && NotStranded(s)
    && forall y {:trigger Accounted(s, y)} :: Accounted(s, y)
  }

  // ── Its preservation ───────────────────────────────────────────────────────

  lemma NearAfterRemoval(names: set<Name>, x: Name, touched: set<Name>, y: Name)
    requires y != x && Near(names, touched, y)
    ensures Near(names - {x}, touched, y)
  {
    var t :| t in touched && NearOne(names, t, y);
    assert NearOne(names - {x}, t, y);
  }

  lemma NearAfterWriting(names: set<Name>, day: Name, touched: set<Name>, y: Name)
    requires UpTo(names, day) && UpTo(touched, day) && Near(names, touched, y)
    ensures Near(names + {day}, touched, y)
  {
    var t :| t in touched && NearOne(names, t, y);
    assert NearOne(names + {day}, t, y);
  }

  lemma NearMore(names: set<Name>, touched: set<Name>, more: set<Name>, y: Name)
    requires touched <= more && Near(names, touched, y)
    ensures Near(names, more, y)
  {
    var t :| t in touched && NearOne(names, t, y);
    assert t in more;
  }

  // What was owed before a step of the run or of a deletion is owed after it.
  lemma StaysOwed(s: State, s': State, y: Name)
    requires Owed(s, y) && s.pending <= s'.pending && Active(s) <= Active(s')
    requires |s.debts| <= |s'.debts| && s.debts == s'.debts[..|s.debts|]
    requires
      || s'.disk.Keys == s.disk.Keys
      || (exists x :: y != x && s'.disk.Keys == s.disk.Keys - {x})
      || (s'.disk.Keys == s.disk.Keys + {s.newest} && InOrder(s))
    ensures Owed(s', y)
  {
    if y in s.pending {
    } else if Near(s.disk.Keys, Active(s), y) {
      NearStays(s, s', Active(s), y);
      NearMore(s'.disk.Keys, Active(s), Active(s'), y);
    } else {
      var i :| 0 <= i < |s.debts| && OwedBy(s, s.debts[i], y);
      assert s'.debts[i] == s.debts[i];
      if s.debts[i].listing == None {
        NearStays(s, s', s.debts[i].touched, y);
      }
      assert OwedBy(s', s'.debts[i], y);
    }
  }

  lemma NearStays(s: State, s': State, touched: set<Name>, y: Name)
    requires Near(s.disk.Keys, touched, y)
    requires
      || s'.disk.Keys == s.disk.Keys
      || (exists x :: y != x && s'.disk.Keys == s.disk.Keys - {x})
      || (s'.disk.Keys == s.disk.Keys + {s.newest} && UpTo(s.disk.Keys, s.newest) && UpTo(touched, s.newest))
    ensures Near(s'.disk.Keys, touched, y)
  {
    if s'.disk.Keys == s.disk.Keys {
    } else if x :| y != x && s'.disk.Keys == s.disk.Keys - {x} {
      NearAfterRemoval(s.disk.Keys, x, touched, y);
    } else {
      NearAfterWriting(s.disk.Keys, s.newest, touched, y);
    }
  }

  // The invariant before a walk is marked as disturbed.
  ghost predicate WalkAlmostHolds(s: State) {
    s.walking.Some? ==>
      var w := s.walking.value;
      && s.measuring
      && (w.name in s.disk ==>
            if w.disturbed then Owed(s, w.name)
            else Near(s.disk.Keys, Active(s), w.name) || w.reading == Measure(s.disk, w.name))
  }

  ghost predicate AllAccounted(s: State) {
    forall y {:trigger Accounted(s, y)} :: Accounted(s, y)
  }

  lemma DisturbingCompletes(s: State)
    requires InOrder(s) && NotStranded(s) && AllAccounted(s) && WalkAlmostHolds(s)
    ensures Sound(Disturbed(s))
  {
    var s' := Disturbed(s);
    forall y ensures Owed(s', y) <==> Owed(s, y) {
      SameOwed(s, s', y);
    }
    forall y ensures Accounted(s', y) { assert Accounted(s, y); }
  }

  lemma SameOwed(s: State, s': State, y: Name)
    requires s'.disk.Keys == s.disk.Keys && s'.pending == s.pending && s'.debts == s.debts && Active(s') == Active(s)
    ensures Owed(s', y) <==> Owed(s, y)
  {
    forall i | 0 <= i < |s.debts| ensures OwedBy(s', s.debts[i], y) == OwedBy(s, s.debts[i], y) {}
  }

  // Steps that touch neither the disk nor what is owed.
  lemma QuietStep(s: State, step: Step)
    requires Sound(s) && Enabled(s, step)
    requires step.RunStarts? || step.RunUnlocks? || step.Rests? || step.Skips?
    ensures Sound(Do(s, step))
  {
    var s' := Act(s, step);
    forall y ensures Accounted(s', y) {
      assert Accounted(s, y);
      SameOwed(s, s', y);
    }
    if s'.walking.Some? {
      SameOwed(s, s', s'.walking.value.name);
    }
    DisturbingCompletes(s');
  }

  // Steps that announce a change: the disk is as it was, and more is near it.
  lemma Announced(s: State, step: Step)
    requires Sound(s) && Enabled(s, step)
    requires step.RunLocks? || step.RunCondemns? || step.DeleteBegins? || step.Asks?
    ensures Sound(Do(s, step))
  {
    var s' := Act(s, step);
    forall y | Owed(s, y) ensures Owed(s', y) {
      StaysOwed(s, s', y);
    }
    forall y ensures Accounted(s', y) { assert Accounted(s, y); }
    DisturbingCompletes(s');
  }

  // Steps that change the disk: what moves is near, and what is near is owed.
  lemma Written(s: State, inodes: set<Inode>)
    requires Sound(s) && Enabled(s, RunWrites(inodes))
    ensures Sound(Do(s, RunWrites(inodes)))
  {
    var day := s.run.day;
    var s' := Act(s, RunWrites(inodes));
    WritingMovesNeighbours(s.disk, day, inodes);
    assert s'.disk.Keys == s.disk.Keys + {day};
    forall y | Owed(s, y) ensures Owed(s', y) {
      StaysOwed(s, s', y);
    }
    forall y ensures Accounted(s', y) {
      assert Accounted(s, y);
      NearTheWriting(s, s', y);
    }
    if s'.walking.Some? {
      NearTheWriting(s, s', s'.walking.value.name);
    }
    DisturbingCompletes(s');
  }

  lemma NearTheWriting(s: State, s': State, y: Name)
    requires s.run.Writing? && s.run.day in s.run.touched && s'.run == s.run && s'.deleting == s.deleting
    requires s'.disk.Keys == s.disk.Keys + {s.run.day} && UpTo(s.disk.Keys, s.run.day)
    ensures y == s.run.day || NextOlder(s.disk.Keys, s.run.day, y) ==> Near(s'.disk.Keys, Active(s'), y)
  {
    if y == s.run.day || NextOlder(s.disk.Keys, s.run.day, y) {
      assert s.run.day in Active(s') && NearOne(s'.disk.Keys, s.run.day, y);
    }
  }

  lemma Removed(s: State, x: Name)
    requires Sound(s) && Enabled(s, RunRemoves(x))
    ensures Sound(Do(s, RunRemoves(x)))
  {
    var s' := Act(s, RunRemoves(x));
    RemovalMovesNeighbours(s.disk, x);
    forall y | y != x && Owed(s, y) ensures Owed(s', y) {
      StaysOwed(s, s', y);
    }
    forall y | y != x && NearOne(s.disk.Keys, x, y) ensures Near(s'.disk.Keys, Active(s'), y) {
      assert x in Active(s') && NearOne(s'.disk.Keys, x, y);
    }
    forall y ensures Accounted(s', y) { assert Accounted(s, y); }
    DisturbingCompletes(s');
  }

  // Steps that hand a finished change over to be marked.
  lemma HandedOver(s: State, s': State, touched: set<Name>, y: Name)
    requires Owed(s, y) && s'.pending == s.pending && s'.debts == s.debts + [Debt(touched, None)]
    requires Active(s) <= Active(s') + touched
    requires s'.disk.Keys == s.disk.Keys || exists x :: y != x && s'.disk.Keys == s.disk.Keys - {x}
    ensures Owed(s', y)
  {
    if y in s.pending {
    } else if Near(s.disk.Keys, Active(s), y) {
      NearStays(s, s', Active(s), y);
      var t :| t in Active(s) && NearOne(s'.disk.Keys, t, y);
      if t in touched {
        assert OwedBy(s', s'.debts[|s.debts|], y);
      } else {
        assert t in Active(s');
      }
    } else {
      var i :| 0 <= i < |s.debts| && OwedBy(s, s.debts[i], y);
      assert s'.debts[i] == s.debts[i];
      if s.debts[i].listing == None {
        NearStays(s, s', s.debts[i].touched, y);
      }
      assert OwedBy(s', s'.debts[i], y);
    }
  }

  lemma RunEnded(s: State)
    requires Sound(s) && Enabled(s, RunEnds)
    ensures Sound(Do(s, RunEnds))
  {
    var s' := Act(s, RunEnds);
    forall y | Owed(s, y) ensures Owed(s', y) {
      HandedOver(s, s', s.run.touched, y);
    }
    forall y ensures Accounted(s', y) { assert Accounted(s, y); }
    DisturbingCompletes(s');
  }

  lemma DeleteEnded(s: State)
    requires Sound(s) && Enabled(s, DeleteEnds)
    ensures Sound(Do(s, DeleteEnds))
  {
    var x := s.deleting.value;
    var s' := Act(s, DeleteEnds);
    RemovalMovesNeighbours(s.disk, x);
    forall y | y != x && Owed(s, y) ensures Owed(s', y) {
      HandedOver(s, s', {x}, y);
    }
    forall y | y != x && NearOne(s.disk.Keys, x, y) ensures Owed(s', y) {
      assert x in Active(s) && Near(s.disk.Keys, Active(s), y);
      HandedOver(s, s', {x}, y);
    }
    forall y | y != x && NearOne(s.disk.Keys, x, y) ensures Near(s.disk.Keys, Active(s), y) {
      assert x in Active(s);
    }
    forall y ensures Accounted(s', y) { assert Accounted(s, y); }
    DisturbingCompletes(s');
  }

  lemma Listed(s: State, i: nat)
    requires Sound(s) && Enabled(s, Lists(i))
    ensures Sound(Do(s, Lists(i)))
  {
    var s' := Act(s, Lists(i));
    forall y | Owed(s, y) ensures Owed(s', y) {
      if !(y in s.pending) && !Near(s.disk.Keys, Active(s), y) {
        var j :| 0 <= j < |s.debts| && OwedBy(s, s.debts[j], y);
        assert OwedBy(s', s'.debts[j], y);
      }
    }
    forall y ensures Accounted(s', y) { assert Accounted(s, y); }
    DisturbingCompletes(s');
  }

  // Marking: what this debt owed goes on the list.
  lemma MarkedIsOwed(s: State, i: nat, y: Name)
    requires Enabled(s, Marks(i)) && Owed(s, y)
    ensures Owed(Act(s, Marks(i)), y)
  {
    var s' := Act(s, Marks(i));
    if y in s.pending || Near(s.disk.Keys, Active(s), y) {
    } else {
      var j :| 0 <= j < |s.debts| && OwedBy(s, s.debts[j], y);
      if j == i {
        NearIsListed(Listing(s, s.debts[i]), s.debts[i].touched, y);
        assert Marked(s, s.debts[i], y);
      } else {
        var k := if j < i then j else j - 1;
        assert s'.debts[k] == s.debts[j];
        assert OwedBy(s', s'.debts[k], y);
      }
    }
  }

  lemma NearIsListed(names: set<Name>, touched: set<Name>, y: Name)
    requires Near(names, touched, y)
    ensures y in names
  {}

  lemma DebtMarked(s: State, i: nat)
    requires Sound(s) && Enabled(s, Marks(i))
    ensures Sound(Do(s, Marks(i)))
  {
    var s' := Act(s, Marks(i));
    forall y | Owed(s, y) ensures Owed(s', y) {
      MarkedIsOwed(s, i, y);
    }
    forall y ensures Accounted(s', y) { assert Accounted(s, y); }
    DisturbingCompletes(s');
  }

  lemma Picked(s: State)
    requires Sound(s) && Enabled(s, Picks)
    ensures Sound(Do(s, Picks))
  {
    var s' := Act(s, Picks);
    var x := Newest(s.pending);
    forall y | y != x && Owed(s, y) ensures Owed(s', y) {
      if !(y in s.pending) && !Near(s.disk.Keys, Active(s), y) {
        var j :| 0 <= j < |s.debts| && OwedBy(s, s.debts[j], y);
        assert OwedBy(s', s'.debts[j], y);
      }
    }
    forall y ensures Accounted(s', y) { assert Accounted(s, y); }
    DisturbingCompletes(s');
  }

  lemma Stored(s: State, size: Size)
    requires Sound(s) && Enabled(s, Stores(size))
    ensures Sound(Do(s, Stores(size)))
  {
    var s' := Act(s, Stores(size));
    forall y ensures Owed(s', y) <==> Owed(s, y) {
      SameOwed(s, s', y);
    }
    forall y ensures Accounted(s', y) { assert Accounted(s, y); }
    DisturbingCompletes(s');
  }

  lemma StepIsSound(s: State, step: Step)
    requires Sound(s) && Enabled(s, step)
    ensures Sound(Do(s, step))
  {
    match step
    case RunWrites(inodes) => Written(s, inodes);
    case RunRemoves(x) => Removed(s, x);
    case RunEnds => RunEnded(s);
    case DeleteEnds => DeleteEnded(s);
    case Lists(i) => Listed(s, i);
    case Marks(i) => DebtMarked(s, i);
    case Picks => Picked(s);
    case Stores(size) => Stored(s, size);
    case RunStarts => QuietStep(s, step);
    case RunUnlocks => QuietStep(s, step);
    case Rests => QuietStep(s, step);
    case Skips => QuietStep(s, step);
    case _ => Announced(s, step);
  }

  lemma {:induction false} EveryRunIsSound(s: State, steps: seq<Step>)
    requires Sound(s)
    ensures Sound(Run(s, steps))
    decreases |steps|
  {
    if steps != [] {
      if Enabled(s, steps[0]) {
        StepIsSound(s, steps[0]);
        EveryRunIsSound(Do(s, steps[0]), steps[1..]);
      } else {
        EveryRunIsSound(s, steps[1..]);
      }
    }
  }

  // Nothing is being changed, marked or walked, and nothing is on the list.
  predicate AtRest(s: State) {
    s.run.NoRun? && s.deleting == None && s.debts == [] && s.walking == None && s.pending == {}
  }

  // Whatever runs, prunes, deletions, walks and requests came before, and however they
  // overlapped: at rest, every stored size is what measuring the snapshot now would say.
  // And work that is on the list has someone to do it, or someone who will see to it.
  lemma StoredSizesAreTrue(steps: seq<Step>, x: Name)
    ensures var s := Run(INITIAL, steps);
      && (AtRest(s) && x in s.disk && x in s.sizes ==> s.sizes[x] == Measure(s.disk, x))
      && (s.pending != {} ==> s.measuring || !s.run.NoRun? || s.debts != [])
  {
    InitialIsSound();
    EveryRunIsSound(INITIAL, steps);
    var s := Run(INITIAL, steps);
    assert Accounted(s, x);
  }

  // ── Whether every snapshot is measured ─────────────────────────────────────

  // A snapshot without a size is on the list, will be, or is being walked.
  ghost predicate Provided(s: State, y: Name) {
    y in s.disk && y !in s.sizes ==> Owed(s, y) || (s.walking.Some? && s.walking.value.name == y)
  }

  ghost predicate AllProvided(s: State) {
    forall y {:trigger Provided(s, y)} :: Provided(s, y)
  }

  function WithoutDebt(s: State, i: nat): State
    requires i < |s.debts|
  {
    s.(debts := s.debts[..i] + s.debts[i + 1..])
  }

  // The list that is acted on was read before the snapshot was there, and nothing else is
  // going to have it measured.
  ghost predicate ForgetsOne(s: State, i: nat, y: Name)
    requires i < |s.debts|
  {
    && y in s.disk && y in s.sizes && y !in Listing(s, s.debts[i])
    && !Owed(WithoutDebt(s, i), y) && !(s.walking.Some? && s.walking.value.name == y)
  }

  ghost predicate Forgets(s: State, step: Step) {
    step.Marks? && step.debt < |s.debts| && exists y :: ForgetsOne(s, step.debt, y)
  }

  lemma OwedAfterListing(s: State, i: nat, y: Name)
    requires Enabled(s, Lists(i)) && Owed(s, y)
    ensures Owed(Act(s, Lists(i)), y)
  {
    var s' := Act(s, Lists(i));
    if !(y in s.pending) && !Near(s.disk.Keys, Active(s), y) {
      var j :| 0 <= j < |s.debts| && OwedBy(s, s.debts[j], y);
      assert OwedBy(s', s'.debts[j], y);
    }
  }

  lemma OwedAfterPicking(s: State, y: Name)
    requires Enabled(s, Picks) && Owed(s, y) && y != Newest(s.pending)
    ensures Owed(Act(s, Picks), y)
  {
    var s' := Act(s, Picks);
    if !(y in s.pending) && !Near(s.disk.Keys, Active(s), y) {
      var j :| 0 <= j < |s.debts| && OwedBy(s, s.debts[j], y);
      assert OwedBy(s', s'.debts[j], y);
    }
  }

  // What is owed stays owed, or is walked.
  lemma OwedOrWalked(s: State, step: Step, y: Name)
    requires Sound(s) && Enabled(s, step) && Owed(s, y) && y in Act(s, step).disk
    ensures var s' := Act(s, step); Owed(s', y) || (s'.walking.Some? && s'.walking.value.name == y)
  {
    var s' := Act(s, step);
    match step
    case RunEnds => HandedOver(s, s', s.run.touched, y);
    case DeleteEnds => HandedOver(s, s', {s.deleting.value}, y);
    case Lists(i) => OwedAfterListing(s, i, y);
    case Marks(i) => MarkedIsOwed(s, i, y);
    case Picks =>
      if y != Newest(s.pending) {
        OwedAfterPicking(s, y);
      }
    case RunStarts => SameOwed(s, s', y);
    case RunUnlocks => SameOwed(s, s', y);
    case Rests => SameOwed(s, s', y);
    case Skips => SameOwed(s, s', y);
    case Stores(_) => SameOwed(s, s', y);
    case _ => StaysOwed(s, s', y);
  }

  lemma DisturbingProvides(s: State)
    ensures AllProvided(Disturbed(s)) <==> AllProvided(s)
  {
    forall y ensures Provided(Disturbed(s), y) <==> Provided(s, y) { SameOwed(s, Disturbed(s), y); }
    if AllProvided(s) {
      forall y ensures Provided(Disturbed(s), y) { assert Provided(s, y); }
    }
    if AllProvided(Disturbed(s)) {
      forall y ensures Provided(s, y) { assert Provided(Disturbed(s), y); }
    }
  }

  lemma ProvidedAfter(s: State, step: Step, y: Name)
    requires Sound(s) && Enabled(s, step) && Provided(s, y)
    requires !(step.Marks? && ForgetsOne(s, step.debt, y))
    ensures Provided(Act(s, step), y)
  {
    var s' := Act(s, step);
    if y in s'.disk && y !in s'.sizes {
      if y !in s.disk {
        NearTheWriting(s, s', y);
      } else if y !in s.sizes {
        if Owed(s, y) {
          OwedOrWalked(s, step, y);
        }
      } else {
        OwedWithout(s, step.debt, y);
      }
    }
  }

  // After a mark, what the other debts owe is owed.
  lemma OwedWithout(s: State, i: nat, y: Name)
    requires Enabled(s, Marks(i)) && y !in Listing(s, s.debts[i])
    ensures Owed(Act(s, Marks(i)), y) <==> Owed(WithoutDebt(s, i), y)
  {
    var s', w := Act(s, Marks(i)), WithoutDebt(s, i);
    forall k | 0 <= k < |w.debts| ensures OwedBy(s', w.debts[k], y) == OwedBy(w, w.debts[k], y) {}
  }

  // A step leaves every snapshot provided for exactly unless it forgets one.
  lemma StepProvidesUnless(s: State, step: Step)
    requires Sound(s) && Enabled(s, step) && AllProvided(s)
    ensures AllProvided(Do(s, step)) <==> !Forgets(s, step)
  {
    DisturbingProvides(Act(s, step));
    if Forgets(s, step) {
      var y :| ForgetsOne(s, step.debt, y);
      OwedWithout(s, step.debt, y);
      assert !Provided(Act(s, step), y);
    } else {
      forall y ensures Provided(Act(s, step), y) {
        assert Provided(s, y);
        ProvidedAfter(s, step, y);
      }
    }
  }

  ghost predicate NeverForgets(s: State, steps: seq<Step>)
    decreases |steps|
  {
    steps == [] || (if Enabled(s, steps[0]) then !Forgets(s, steps[0]) && NeverForgets(Do(s, steps[0]), steps[1..])
                    else NeverForgets(s, steps[1..]))
  }

  lemma {:induction false} RunProvides(s: State, steps: seq<Step>)
    requires Sound(s) && AllProvided(s) && NeverForgets(s, steps)
    ensures AllProvided(Run(s, steps))
    decreases |steps|
  {
    if steps != [] {
      if Enabled(s, steps[0]) {
        StepIsSound(s, steps[0]);
        StepProvidesUnless(s, steps[0]);
        RunProvides(Do(s, steps[0]), steps[1..]);
      } else {
        RunProvides(s, steps[1..]);
      }
    }
  }

  lemma InitialIsSound()
    ensures Sound(INITIAL) && AllProvided(INITIAL)
  {
    forall a, b, c ensures NoGap(INITIAL.disk, a, b, c) {}
    forall y ensures Accounted(INITIAL, y) && Provided(INITIAL, y) {}
  }

  // At rest every snapshot has a size, and a true one, if no step has forgotten one.
  lemma AllAreMeasured(steps: seq<Step>, x: Name)
    requires NeverForgets(INITIAL, steps)
    ensures var s := Run(INITIAL, steps);
      AtRest(s) && x in s.disk ==> x in s.sizes && s.sizes[x] == Measure(s.disk, x)
  {
    InitialIsSound();
    RunProvides(INITIAL, steps);
    StoredSizesAreTrue(steps, x);
    assert Provided(Run(INITIAL, steps), x);
  }

  // A list of the empty directory is read, and before it is acted on a run writes the
  // first snapshot, which is listed.
  const A_STALE_LIST := [Asks, Lists(0), RunStarts, RunLocks(1), RunWrites({}), RunUnlocks, RunEnds, Lists(1)]

  // The snapshot is marked and measured, and the early list is acted on at last.
  const MEASURED_THEN_MARKED := [Marks(1), Picks, Stores(Size({}, {})), Marks(0)]

  const EARLY := Debt({}, Some({}))

  const WRITTEN := State(map[1 := {}], 1, map[], {}, false, None, NoRun, None, [EARLY, Debt({1}, Some({1}))])

  const MEASURED := State(map[1 := {}], 1, map[1 := Size({}, {})], {}, true, None, NoRun, None, [EARLY])

  ghost predicate Leads(s: State, step: Step, s': State) {
    Enabled(s, step) && Do(s, step) == s'
  }

  lemma {:induction false} Chain(states: seq<State>, steps: seq<Step>)
    requires |states| == |steps| + 1
    requires forall i :: 0 <= i < |steps| ==> Leads(states[i], steps[i], states[i + 1])
    ensures Run(states[0], steps) == states[|steps|]
    decreases |steps|
  {
    if steps != [] {
      forall i | 0 <= i < |steps| - 1 ensures Leads(states[1..][i], steps[1..][i], states[1..][i + 1]) {
        assert Leads(states[i + 1], steps[i + 1], states[i + 2]);
      }
      Chain(states[1..], steps[1..]);
    }
  }

  lemma {:induction false} RunBoth(s: State, a: seq<Step>, b: seq<Step>)
    ensures Run(s, a + b) == Run(Run(s, a), b)
    decreases |a|
  {
    if a == [] {
      assert [] + b == b;
    } else {
      assert (a + b)[1..] == a[1..] + b;
      RunBoth(if Enabled(s, a[0]) then Do(s, a[0]) else s, a[1..], b);
    }
  }

  lemma AnEarlyList(s: State)
    requires s == INITIAL
    ensures var s1, s2 := s.(debts := [Debt({}, None)]), s.(debts := [EARLY]);
      Leads(s, Asks, s1) && Leads(s1, Lists(0), s2)
  {
    assert s.disk.Keys == {} && [Debt({}, None)][0 := EARLY] == [EARLY];
  }

  lemma TheRunWrites(s: State)
    requires s == INITIAL.(debts := [EARLY])
    ensures var s' := s.(run := Writing(1, {1}), newest := 1);
      && Leads(s, RunStarts, s.(run := Waiting)) && Leads(s.(run := Waiting), RunLocks(1), s')
      && Leads(s', RunWrites({}), s'.(disk := map[1 := {}]))
  {}

  lemma TheRunEnds(s: State)
    requires s == INITIAL.(debts := [EARLY], run := Writing(1, {1}), newest := 1, disk := map[1 := {}])
    ensures var s' := s.(run := Released({1}));
      Leads(s, RunUnlocks, s') && Leads(s', RunEnds, WRITTEN.(debts := [EARLY, Debt({1}, None)]))
  {}

  lemma TheRunIsListed(s: State)
    requires s == WRITTEN.(debts := [EARLY, Debt({1}, None)])
    ensures Leads(s, Lists(1), WRITTEN)
  {
    assert s.disk.Keys == {1} && s.debts[1 := WRITTEN.debts[1]] == WRITTEN.debts;
  }

  lemma TheFirstIsMarked(s: State)
    requires s == WRITTEN
    ensures Leads(s, Marks(1), s.(debts := [EARLY], pending := {1}, measuring := true))
  {
    assert Marked(s, s.debts[1], 1);
    assert (set y | y in Listing(s, s.debts[1]) && Marked(s, s.debts[1], y)) == {1};
    assert s.pending + {1} == {1};
    assert s.debts[..1] + s.debts[2..] == [EARLY];
    assert Mark(s, s.debts[1]).sizes == map[];
  }

  lemma TheFirstIsMeasured(s: State)
    requires s == WRITTEN.(debts := [EARLY], pending := {1}, measuring := true)
    ensures var s' := s.(pending := {}, walking := Some(Walk(1, Size({}, {}), false)));
      Leads(s, Picks, s') && Leads(s', Stores(Size({}, {})), MEASURED)
  {
    assert Newest(s.pending) == 1 && Measure(s.disk, 1) == Size({}, {}) && {1} - {1} == {};
    assert s.sizes[1 := Size({}, {})] == map[1 := Size({}, {})];
  }

  lemma TheLateMark(s: State)
    requires s == MEASURED
    ensures Leads(s, Marks(0), s.(sizes := map[], debts := []))
  {
    assert (set y | y in Listing(s, EARLY) && Marked(s, EARLY, y)) == {};
    assert Mark(s, EARLY).sizes == map[];
    assert s.debts[..0] + s.debts[1..] == [];
    assert s.pending + {} == {};
  }

  lemma ListedTwice(steps: seq<Step>)
    requires steps == A_STALE_LIST
    ensures Run(INITIAL, steps) == WRITTEN
  {
    var s2 := INITIAL.(debts := [EARLY]);
    var s4 := s2.(run := Writing(1, {1}), newest := 1);
    var s5 := s4.(disk := map[1 := {}]);
    var s7 := WRITTEN.(debts := [EARLY, Debt({1}, None)]);
    AnEarlyList(INITIAL);
    TheRunWrites(s2);
    TheRunEnds(s5);
    TheRunIsListed(s7);
    Chain([INITIAL, INITIAL.(debts := [Debt({}, None)]), s2, s2.(run := Waiting), s4, s5, s5.(run := Released({1})), s7,
           WRITTEN], steps);
  }

  lemma MarkedTwice(steps: seq<Step>)
    requires steps == MEASURED_THEN_MARKED
    ensures Run(WRITTEN, steps) == MEASURED.(sizes := map[], debts := [])
  {
    var s1 := WRITTEN.(debts := [EARLY], pending := {1}, measuring := true);
    var s2 := s1.(pending := {}, walking := Some(Walk(1, Size({}, {}), false)));
    TheFirstIsMarked(WRITTEN);
    TheFirstIsMeasured(s1);
    TheLateMark(MEASURED);
    Chain([WRITTEN, s1, s2, MEASURED, MEASURED.(sizes := map[], debts := [])], steps);
  }

  // The early list makes the manager forget the size it has just measured: everything is
  // at rest, and the snapshot has none.
  lemma AStaleListForgets(first: seq<Step>, second: seq<Step>)
    requires first == A_STALE_LIST && second == MEASURED_THEN_MARKED
    ensures var s := Run(INITIAL, first + second);
      AtRest(s) && 1 in s.disk && 1 !in s.sizes
  {
    ListedTwice(first);
    MarkedTwice(second);
    RunBoth(INITIAL, first, second);
  }

  // ── What the steps are ─────────────────────────────────────────────────────

  // Sizes may be asked for at any moment; a run starts when none is going, also a second
  // one on the same day; and a snapshot is deleted unless one is being written or another
  // deleted.
  lemma NothingElseHoldsUp(s: State, name: Name)
    ensures Enabled(s, Asks)
    ensures Enabled(s, RunStarts) <==> s.run.NoRun?
    ensures s.run.Waiting? && s.deleting == None ==> Enabled(s, RunLocks(s.newest))
    ensures Enabled(s, DeleteBegins(name)) <==> name in s.disk && !s.run.Writing? && s.deleting == None
    ensures s.run.Writing? && name in s.disk ==>
      Enabled(s, RunCondemns(name)) && Enabled(Act(s, RunCondemns(name)), RunRemoves(name))
  {}

  // A walker that is not walking has one way to go: on to the newest that is pending, or
  // to rest, and to rest exactly when a run is going or nothing is pending.
  lemma TheWalkerHasOneWay(s: State)
    requires s.measuring && s.walking == None
    ensures Enabled(s, Rests) <==> !Enabled(s, Picks)
    ensures Enabled(s, Rests) <==> !s.run.NoRun? || s.pending == {}
    ensures Enabled(s, Picks) ==> var walk := Act(s, Picks).walking;
      walk.Some? && IsNewest(s.pending, walk.value.name) && Act(s, Picks).pending == s.pending - {walk.value.name}
  {}
}
