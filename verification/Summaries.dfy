/**
 What a cycle reports is what it did: each number of the summary counts paths.
 */
module Summaries {
  import opened Basics
  import opened Index
  import opened Server
  import opened ClientModel
  import opened Cursor
  import opened NoLoss
  import opened Convergence
  import opened Merge
  import Listing
  import Protocol

  // ── The pull ───────────────────────────────────────────────────────────────

  // The server has moved to a file that is not the one here.
  predicate Fetched(s: State, c: Client, p: Path) {
    Theirs(s, p).Some? && !Unmoved(s, c, p) && Mine(c, p) != Theirs(s, p)
  }

  // The server has deleted the file that is here as it was.
  predicate Dropped(s: State, c: Client, p: Path) {
    p in s.table.rows && s.table.rows[p].deleted && Unedited(c, p)
  }

  // What the entry of a path adds.
  function Told(s: State, c: Client, p: Path): Summary {
    Summary(One(Fetched(s, c, p)), 0, One(Dropped(s, c, p)), 0, One(Displaced(s, c, p)))
  }

  function Plus(a: Summary, b: Summary): Summary {
    Summary(a.downloaded + b.downloaded, a.uploaded + b.uploaded, a.deletedLocally + b.deletedLocally,
            a.deletedRemotely + b.deletedRemotely, a.conflicts + b.conflicts)
  }

  lemma EntryTells(s: State, c: Client, e: Entry, clock: Clock, summary: Summary, excluded: Path -> bool)
    requires Consistent(s) && Current(s, excluded, e) && Knows(s, c, e.path)
    requires LiveFile(s.table, e.path) ==> Serves(s, e.path)
    ensures ApplyEntry(s, c, e, clock, summary).summary == Plus(summary, Told(s, c, e.path))
  {
    assert Described(s, e.path) && RowIsNewest(s.table, e.path);
    if e.path in c.records && c.records[e.path].rev == e.rev {
      assert Issued(s, c, e.path);
    }
  }

  function IsFetched(s: State, c: Client): Path -> bool { p => Fetched(s, c, p) }

  function IsDropped(s: State, c: Client): Path -> bool { p => Dropped(s, c, p) }

  function IsDisplaced(s: State, c: Client): Path -> bool { p => Displaced(s, c, p) }

  function Sum(entries: seq<Entry>, told: Path -> Summary): Summary {
    if entries == [] then NOTHING_DONE else Plus(told(entries[0].path), Sum(entries[1..], told))
  }

  lemma {:induction false} SumDependsOn(entries: seq<Entry>, told: Path -> Summary, told': Path -> Summary)
    requires forall i {:trigger entries[i]} :: 0 <= i < |entries| ==> told(entries[i].path) == told'(entries[i].path)
    ensures Sum(entries, told) == Sum(entries, told')
  {
    if entries != [] {
      assert forall i :: 0 <= i < |entries| - 1 ==> entries[1..][i] == entries[i + 1];
      SumDependsOn(entries[1..], told, told');
    }
  }

  function ToldOf(s: State, c: Client): Path -> Summary { p => Told(s, c, p) }

  function AllTold(s: State, c: Client, entries: seq<Entry>): Summary {
    Sum(entries, ToldOf(s, c))
  }

  lemma SameIsToldTheSame(s: State, c: Client, c': Client, p: Path)
    requires SameAt(c, c', p)
    ensures ToldOf(s, c)(p) == ToldOf(s, c')(p)
  {}

  lemma ToldDependsOn(s: State, c: Client, c': Client, entries: seq<Entry>)
    requires forall i {:trigger entries[i]} :: 0 <= i < |entries| ==> SameAt(c, c', entries[i].path)
    ensures AllTold(s, c, entries) == AllTold(s, c', entries)
  {
    forall i | 0 <= i < |entries| ensures ToldOf(s, c)(entries[i].path) == ToldOf(s, c')(entries[i].path) {
      SameIsToldTheSame(s, c, c', entries[i].path);
    }
    SumDependsOn(entries, ToldOf(s, c), ToldOf(s, c'));
  }

  lemma FirstTold(s: State, c: Client, entries: seq<Entry>)
    requires entries != []
    ensures AllTold(s, c, entries) == Plus(Told(s, c, entries[0].path), AllTold(s, c, entries[1..]))
  {}

  lemma PlusRegroups(a: Summary, b: Summary, c: Summary)
    ensures Plus(a, Plus(b, c)) == Plus(Plus(a, b), c)
  {}

  // What is known of a path, and stays known while others are applied.
  ghost predicate AllListedKnown(s: State, c: Client, excluded: Path -> bool, entries: seq<Entry>) {
    forall i {:trigger entries[i]} :: 0 <= i < |entries| ==>
      && Current(s, excluded, entries[i]) && Knows(s, c, entries[i].path)
      && (LiveFile(s.table, entries[i].path) ==> Serves(s, entries[i].path))
  }

  lemma KnownElsewhere(s: State, c: Client, excluded: Path -> bool, entries: seq<Entry>, clock: Clock, summary: Summary)
    requires entries != [] && AllListedKnown(s, c, excluded, entries) && DistinctPaths(entries) && ParkedApart(entries, clock)
    ensures var c' := ApplyEntry(s, c, entries[0], clock, summary).client;
      && AllListedKnown(s, c', excluded, entries[1..])
      && forall i :: 0 <= i < |entries| - 1 ==> SameAt(c, c', entries[1..][i].path)
  {
    var c' := ApplyEntry(s, c, entries[0], clock, summary).client;
    forall i | 0 <= i < |entries| - 1
      ensures SameAt(c, c', entries[1..][i].path) && Knows(s, c', entries[1..][i].path)
    {
      assert entries[1..][i] == entries[i + 1];
      ApplyElsewhere(s, c, entries[0], clock, summary, entries[i + 1].path);
      assert Knows(s, c, entries[i + 1].path);
    }
    assert forall i :: 0 <= i < |entries| - 1 ==> entries[1..][i] == entries[i + 1];
  }

  lemma FirstOfThePull(s: State, c: Client, entries: seq<Entry>, clock: Clock, summary: Summary)
    requires entries != []
    ensures var first := ApplyEntry(s, c, entries[0], clock, summary);
      ApplyAll(Still(s, |entries|), c, entries, clock, summary) ==
      if first.result == Failed then first
      else ApplyAll(Still(s, |entries[1..]|), first.client, entries[1..], clock, first.summary)
  {
    assert Still(s, |entries|)[1..] == Still(s, |entries[1..]|);
  }

  lemma {:induction false} PullAddsUp(s: State, c: Client, excluded: Path -> bool, entries: seq<Entry>, clock: Clock, summary: Summary)
    requires Consistent(s) && AllListedKnown(s, c, excluded, entries) && DistinctPaths(entries) && ParkedApart(entries, clock)
    requires ApplyAll(Still(s, |entries|), c, entries, clock, summary).result != Failed
    ensures ApplyAll(Still(s, |entries|), c, entries, clock, summary).summary == Plus(summary, AllTold(s, c, entries))
    decreases |entries|
  {
    if entries != [] {
      var first, rest := ApplyEntry(s, c, entries[0], clock, summary), entries[1..];
      FirstOfThePull(s, c, entries, clock, summary);
      EntryTells(s, c, entries[0], clock, summary, excluded);
      KnownElsewhere(s, c, excluded, entries, clock, summary);
      ParkedApartRest(entries, clock);
      DistinctRest(entries);
      ToldDependsOn(s, c, first.client, rest);
      PullAddsUp(s, first.client, excluded, rest, clock, first.summary);
      FirstTold(s, c, entries);
      PlusRegroups(summary, Told(s, c, entries[0].path), AllTold(s, c, rest));
    }
  }

  lemma DistinctRest(entries: seq<Entry>)
    requires entries != [] && DistinctPaths(entries)
    ensures DistinctPaths(entries[1..])
  {
    assert forall i :: 0 <= i < |entries| - 1 ==> entries[1..][i] == entries[i + 1];
  }

  // ── Sums of ones are numbers of paths ──────────────────────────────────────

  function Chosen(entries: seq<Entry>, which: Path -> bool): set<Path> {
    set i | 0 <= i < |entries| && which(entries[i].path) :: entries[i].path
  }

  lemma FirstChosen(entries: seq<Entry>, which: Path -> bool)
    requires entries != [] && DistinctPaths(entries)
    ensures entries[0].path !in Chosen(entries[1..], which)
    ensures Chosen(entries, which) == Chosen(entries[1..], which) + if which(entries[0].path) then {entries[0].path} else {}
  {
    var rest := Chosen(entries[1..], which);
    assert forall i :: 0 <= i < |entries| - 1 ==> entries[1..][i] == entries[i + 1];
    forall p | p in Chosen(entries, which) && p != entries[0].path ensures p in rest {
      var i :| 0 <= i < |entries| && which(entries[i].path) && entries[i].path == p;
      assert entries[1..][i - 1].path == p;
    }
  }

  // A number of the summary, which adds up.
  ghost predicate IsField(field: Summary -> nat) {
    && field(NOTHING_DONE) == 0
    && forall a, b {:trigger field(Plus(a, b))} :: field(Plus(a, b)) == field(a) + field(b)
  }

  predicate Counts(told: Path -> Summary, field: Summary -> nat, which: Path -> bool, p: Path) {
    field(told(p)) == One(which(p))
  }

  // Where each entry adds one or nothing, the sum is the number of paths that add one.
  lemma {:induction false} FieldIsChosen(entries: seq<Entry>, told: Path -> Summary, field: Summary -> nat, which: Path -> bool)
    requires IsField(field) && DistinctPaths(entries)
    requires forall i {:trigger entries[i]} :: 0 <= i < |entries| ==> Counts(told, field, which, entries[i].path)
    ensures field(Sum(entries, told)) == |Chosen(entries, which)|
  {
    if entries != [] {
      assert Counts(told, field, which, entries[0].path);
      assert forall i :: 0 <= i < |entries| - 1 ==> entries[1..][i] == entries[i + 1];
      FieldIsChosen(entries[1..], told, field, which);
      FirstChosen(entries, which);
      assert field(Plus(told(entries[0].path), Sum(entries[1..], told))) == One(which(entries[0].path)) + |Chosen(entries[1..], which)|;
    }
  }

  // The rows that are for this client, and of which something holds.
  function Rows(s: State, excluded: Path -> bool, which: Path -> bool): set<Path> {
    set p | p in s.table.rows && !excluded(p) && which(p)
  }

  // A path of which one of the three holds is listed.
  lemma ChosenAreRows(settings: Protocol.Settings, s: State, c: Client, entries: seq<Entry>, which: Path -> bool)
    requires Consistent(s) && CursorHolds(s, settings.excluded, c) && c.records.Keys <= s.table.rows.Keys
    requires ChangeList(s, c.lastRev, entries) && AllKnown(s, c, settings.excluded)
    requires forall p :: which(p) ==> Fetched(s, c, p) || Dropped(s, c, p)
    ensures Chosen(Protocol.Relevant(settings.excluded, entries), which) == Rows(s, settings.excluded, which)
  {
    var relevant := Protocol.Relevant(settings.excluded, entries);
    RelevantAreRows(settings, s, c.lastRev, entries);
    forall p | p in Chosen(relevant, which) ensures p in Rows(s, settings.excluded, which) {
      var i :| 0 <= i < |relevant| && which(relevant[i].path) && relevant[i].path == p;
      assert Current(s, settings.excluded, relevant[i]);
    }
    forall p | p in Rows(s, settings.excluded, which) ensures p in Chosen(relevant, which) {
      assert Knows(s, c, p);
      assert SettledUpTo(s, settings.excluded, c, c.lastRev, p) && RowIsNewest(s.table, p);
      assert CollectedAt(s, c.lastRev, |s.table.log|, entries, p);
      Protocol.RelevantKeeps(settings.excluded, entries, s.table.rows[p]);
      var i :| 0 <= i < |relevant| && relevant[i] == s.table.rows[p];
    }
  }

  lemma CountedRows(settings: Protocol.Settings, s: State, c: Client, entries: seq<Entry>, field: Summary -> nat, which: Path -> bool)
    requires Consistent(s) && CursorHolds(s, settings.excluded, c) && c.records.Keys <= s.table.rows.Keys
    requires ChangeList(s, c.lastRev, entries) && AllKnown(s, c, settings.excluded)
    requires forall p :: which(p) ==> Fetched(s, c, p) || Dropped(s, c, p)
    requires IsField(field) && forall p :: Counts(ToldOf(s, c), field, which, p)
    ensures field(AllTold(s, c, Protocol.Relevant(settings.excluded, entries))) == |Rows(s, settings.excluded, which)|
  {
    var relevant := Protocol.Relevant(settings.excluded, entries);
    Listing.ChangeListNamesPathsOnce(s, c.lastRev, entries, settings.excluded);
    FieldIsChosen(relevant, ToldOf(s, c), field, which);
    ChosenAreRows(settings, s, c, entries, which);
  }

  // After an undisturbed pull that is not refused: downloads are the paths where the
  // server has moved to another file than is here, local deletions the unedited files it
  // has deleted, conflicts the edits that had to make way.
  lemma PullTells(settings: Protocol.Settings, s: State, c: Client, entries: seq<Entry>, clock: Clock, world: set<Path>)
    requires Starts(settings, s, c, clock, world) && ChangeList(s, c.lastRev, entries)
    requires !GuardTrips(c, Protocol.Relevant(settings.excluded, entries), settings.limits)
    requires FreshNames(c, Protocol.Relevant(settings.excluded, entries), clock)
    ensures PullOnce(settings, s, c, entries, clock).summary == Summary(
      |Rows(s, settings.excluded, IsFetched(s, c))|, 0,
      |Rows(s, settings.excluded, IsDropped(s, c))|, 0,
      |Rows(s, settings.excluded, IsDisplaced(s, c))|)
  {
    var excluded, relevant := settings.excluded, Protocol.Relevant(settings.excluded, entries);
    StartsKnowing(settings, s, c, clock, world);
    Listing.ChangeListNamesPathsOnce(s, c.lastRev, entries, excluded);
    RelevantAreRows(settings, s, c.lastRev, entries);
    PullMirrors(settings, s, c, entries, clock, world);
    PullIsItsEntries(settings, s, c, entries, clock);
    if entries != [] {
      WhatIsTold(s, c, excluded, relevant, clock);
    }
    assert PullOnce(settings, s, c, entries, clock).summary == AllTold(s, c, relevant);
    CountedRows(settings, s, c, entries, (told: Summary) => told.downloaded, IsFetched(s, c));
    CountedRows(settings, s, c, entries, (told: Summary) => told.deletedLocally, IsDropped(s, c));
    CountedRows(settings, s, c, entries, (told: Summary) => told.conflicts, IsDisplaced(s, c));
    CountedRows(settings, s, c, entries, (told: Summary) => told.uploaded, p => false);
    CountedRows(settings, s, c, entries, (told: Summary) => told.deletedRemotely, p => false);
    assert Rows(s, excluded, p => false) == {};
  }

  lemma WhatIsTold(s: State, c: Client, excluded: Path -> bool, relevant: seq<Entry>, clock: Clock)
    requires Consistent(s) && AllKnown(s, c, excluded) && AllCurrent(s, excluded, relevant)
    requires FreshNames(c, relevant, clock) && DistinctPaths(relevant)
    requires ApplyAll(Still(s, |relevant|), c, relevant, clock, NOTHING_DONE).result != Failed
    ensures ApplyAll(Still(s, |relevant|), c, relevant, clock, NOTHING_DONE).summary == AllTold(s, c, relevant)
  {
    FreshIsApart(c, relevant, clock);
    ListedAreKnown(s, c, excluded, relevant);
    PullAddsUp(s, c, excluded, relevant, clock, NOTHING_DONE);
  }

  lemma PullIsItsEntries(settings: Protocol.Settings, s: State, c: Client, entries: seq<Entry>, clock: Clock)
    requires PullOnce(settings, s, c, entries, clock).result == Fine
    ensures var relevant := Protocol.Relevant(settings.excluded, entries);
      if entries == [] then relevant == [] && PullOnce(settings, s, c, entries, clock).summary == NOTHING_DONE
      else
        var all := ApplyAll(Still(s, |relevant|), c, relevant, clock, NOTHING_DONE);
        all.result != Failed && PullOnce(settings, s, c, entries, clock).summary == all.summary
  {}

  lemma ListedAreKnown(s: State, c: Client, excluded: Path -> bool, entries: seq<Entry>)
    requires AllKnown(s, c, excluded) && AllCurrent(s, excluded, entries)
    ensures AllListedKnown(s, c, excluded, entries)
  {
    forall i | 0 <= i < |entries|
      ensures Knows(s, c, entries[i].path) && (LiveFile(s.table, entries[i].path) ==> Serves(s, entries[i].path))
    {
      assert Current(s, excluded, entries[i]);
    }
  }

  lemma FreshIsApart(c: Client, entries: seq<Entry>, clock: Clock)
    requires FreshNames(c, entries, clock)
    ensures ParkedApart(entries, clock)
  {
    forall i, j | 0 <= i < |entries| && 0 <= j < |entries| ensures clock.parked(entries[i].path) != entries[j].path {
      assert NameIsFree(c, entries, clock, i);
    }
  }

  // ── The push ───────────────────────────────────────────────────────────────

  lemma PushFileTells(s: State, c: Client, p: Path, clock: Clock, summary: Summary, excluded: Path -> bool, world: set<Path>)
    requires Pushing(s, c, excluded, world) && p in c.local && !excluded(p)
    ensures PushFile(s, c, p, clock, summary).1.summary == summary.(uploaded := summary.uploaded + One(Differs(s, c, p)))
  {
    assert MirrorAt(s, c, p) && Described(s, p) && StatHonestAt(c, p) && RowIsNewest(s.table, p);
    if !(p in c.records && (SameStat(c.local[p], c.records[p]) || c.records[p].sha == Sha256(c.local[p].body))) {
      UploadIsStored(s, c, p, clock, excluded, world);
    }
  }

  predicate Differs(s: State, c: Client, p: Path) {
    Mine(c, p) != Theirs(s, p)
  }

  // The files that are not what the server has.
  function Ahead(s: State, c: Client, files: seq<Path>): set<Path> {
    set p | p in files && Differs(s, c, p)
  }

  lemma {:induction false} PushFilesTell(s: State, c: Client, files: seq<Path>, clock: Clock, summary: Summary, excluded: Path -> bool, world: set<Path>)
    requires Pushing(s, c, excluded, world) && Distinct(files)
    requires forall i :: 0 <= i < |files| ==> files[i] in c.local && !excluded(files[i])
    ensures PushFiles(s, c, files, clock, summary).1.summary == summary.(uploaded := summary.uploaded + |Ahead(s, c, files)|)
    decreases |files|
  {
    if files != [] {
      var (s1, first) := PushFile(s, c, files[0], clock, summary);
      PushFileMirrors(s, c, files[0], clock, summary, excluded, world);
      PushFileTells(s, c, files[0], clock, summary, excluded, world);
      assert forall i :: 0 <= i < |files| - 1 ==> files[1..][i] == files[i + 1];
      PushFilesTell(s1, first.client, files[1..], clock, first.summary, excluded, world);
      forall q | q in files[1..] ensures Differs(s1, first.client, q) <==> Differs(s, c, q) {
        assert q != files[0];
        PushFileSpends(s, c, files[0], clock, summary, excluded, world, q);
      }
      AheadOneMore(s, c, s1, first.client, files);
    }
  }

  lemma AheadOneMore(s: State, c: Client, s1: State, c1: Client, files: seq<Path>)
    requires files != [] && Distinct(files)
    requires forall q :: q in files[1..] ==> (Differs(s1, c1, q) <==> Differs(s, c, q))
    ensures |Ahead(s, c, files)| == One(Differs(s, c, files[0])) + |Ahead(s1, c1, files[1..])|
  {
    var first, rest := if Differs(s, c, files[0]) then {files[0]} else {}, Ahead(s1, c1, files[1..]);
    assert files == [files[0]] + files[1..];
    assert files[0] !in files[1..];
    forall p ensures p in Ahead(s, c, files) <==> p in first + rest {}
    assert Ahead(s, c, files) == first + rest;
  }

  lemma {:induction false} PushDeletionsTell(s: State, c: Client, gone: seq<Path>, clock: Clock, summary: Summary, excluded: Path -> bool, world: set<Path>)
    requires Pushing(s, c, excluded, world) && Distinct(gone)
    requires forall i :: 0 <= i < |gone| ==> gone[i] in c.records
    ensures PushDeletions(s, c, gone, clock, summary).1.summary == summary.(deletedRemotely := summary.deletedRemotely + |gone|)
    decreases |gone|
  {
    if gone != [] {
      var p := gone[0];
      var (s1, first) := PushDeletion(s, c, p, clock, summary);
      PushDeletionMirrors(s, c, p, clock, summary, excluded, world);
      assert MirrorAt(s, c, p) && RowIsNewest(s.table, p) && Issued(s, c, p);
      assert DeleteFile(s, DeletionOf(c, p, clock)).1 == Deleted(|s.table.log| + 1);
      assert forall i :: 0 <= i < |gone| - 1 ==> gone[1..][i] == gone[i + 1];
      PushDeletionsTell(s1, first.client, gone[1..], clock, first.summary, excluded, world);
    }
  }

  // After an undisturbed push: uploads are the files that the server did not have as
  // they are here, remote deletions the recorded paths without a file.
  lemma PushTells(s: State, c: Client, files: seq<Path>, gone: seq<Path>, clock: Clock, summary: Summary, excluded: Path -> bool, world: set<Path>)
    requires Pushing(s, c, excluded, world) && PushLists(c, excluded, files, gone)
    ensures PushOnce(s, c, files, gone, clock, summary).1.summary == summary.(
      uploaded := summary.uploaded + |Ahead(s, c, files)|,
      deletedRemotely := summary.deletedRemotely + |c.records.Keys - Scanned(c, excluded)|)
  {
    var (s1, uploaded) := PushFiles(s, c, files, clock, summary);
    forall i | 0 <= i < |files| ensures files[i] in c.local && !excluded(files[i]) { assert files[i] in AsSet(files); }
    PushFilesMirror(s, c, files, clock, summary, excluded, world);
    PushFilesTell(s, c, files, clock, summary, excluded, world);
    forall i | 0 <= i < |gone| ensures gone[i] in uploaded.client.records {
      assert gone[i] in AsSet(gone) && gone[i] !in AsSet(files) && PushedAt(c, uploaded.client, files, gone[i]);
    }
    PushDeletionsTell(s1, uploaded.client, gone, clock, uploaded.summary, excluded, world);
    AsManyAsListed(gone);
  }

  lemma {:induction false} AsManyAsListed(paths: seq<Path>)
    requires Distinct(paths)
    ensures |AsSet(paths)| == |paths|
  {
    if paths != [] {
      AsManyAsListed(paths[1..]);
      assert paths == [paths[0]] + paths[1..];
      assert AsSet(paths) == {paths[0]} + AsSet(paths[1..]) && paths[0] !in AsSet(paths[1..]);
    }
  }
}
