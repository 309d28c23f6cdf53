/**
 What a cycle makes of each path: the file here, the file there and the record decide,
 and nothing else. Said of bodies, hashes and revisions, not of the engine's own tests.
 */
module Merge {
  import opened Basics
  import opened Index
  import opened Server
  import opened ClientModel
  import opened Cursor
  import opened NoLoss
  import opened Convergence
  import Listing
  import Protocol
  import Conservation
  import Outcomes
  import opened Concurrency

  // ── The rule ───────────────────────────────────────────────────────────────

  function Mine(c: Client, p: Path): Option<Body> {
    if p in c.local then Some(c.local[p].body) else None
  }

  function Theirs(s: State, p: Path): Option<Body> {
    if LiveFile(s.table, p) && p in s.disk then Some(s.disk[p].body) else None
  }

  // The revision there is that of the last sync.
  predicate Unmoved(s: State, c: Client, p: Path) {
    p in s.table.rows && p in c.records && c.records[p].rev == s.table.rows[p].rev
  }

  // Where the server has not moved, what is here goes, an edit, a deletion or neither.
  // Where it has, its file goes; and where it has none, what is here stays unless it is
  // what was synced.
  function Merged(s: State, c: Client, p: Path): Option<Body> {
    if Theirs(s, p).Some? then (if Unmoved(s, c, p) then Mine(c, p) else Theirs(s, p))
    else if Unedited(c, p) then None
    else Mine(c, p)
  }

  // Both have moved, apart: the edit is kept under another name.
  predicate Displaced(s: State, c: Client, p: Path) {
    && Theirs(s, p).Some? && !Unmoved(s, c, p) && Mine(c, p) != Theirs(s, p)
    && p in c.local && p in c.records && !Unedited(c, p)
  }

  // ── One entry ──────────────────────────────────────────────────────────────

  // A tombstone removes a file if and only if it is the one that was synced, whatever
  // its time says now.
  lemma TombstoneRemovesTheUnedited(s: State, c: Client, e: Entry, clock: Clock, summary: Summary)
    requires e.deleted && StatHonestAt(c, e.path)
    ensures var c' := ApplyEntry(s, c, e, clock, summary).client;
      && (e.path in c'.local <==> e.path in c.local && !Unedited(c, e.path))
      && (e.path in c'.local ==> c'.local[e.path] == c.local[e.path])
      && e.path !in c'.records
  {}

  // What has to be known of a client about one path.
  ghost predicate Knows(s: State, c: Client, p: Path) {
    && StatHonestAt(c, p) && Issued(s, c, p)
    && (LiveDirectory(s.table, p) ==> p !in c.local && p !in c.records)
  }

  ghost predicate MergedAt(s: State, c: Client, c': Client, p: Path, parked: Path) {
    && Mine(c', p) == Merged(s, c, p)
    && (Displaced(s, c, p) ==> parked in c'.local && c'.local[parked] == c.local[p])
    && (p in c'.local && Mine(c', p) == Mine(c, p) ==> c'.local[p] == c.local[p])
    && (p in c'.local && Mine(c', p) != Mine(c, p) && s.table.rows[p].mtime > 0 ==> c'.local[p].mtime == s.table.rows[p].mtime)
  }

  // The row of a path, applied.
  lemma EntryMerges(s: State, c: Client, e: Entry, clock: Clock, summary: Summary, excluded: Path -> bool)
    requires Consistent(s) && Current(s, excluded, e) && Knows(s, c, e.path) && clock.parked(e.path) != e.path
    requires LiveFile(s.table, e.path) ==> Serves(s, e.path)
    ensures MergedAt(s, c, ApplyEntry(s, c, e, clock, summary).client, e.path, clock.parked(e.path))
  {
    assert Described(s, e.path) && RowIsNewest(s.table, e.path);
    if e.path in c.records && c.records[e.path].rev == e.rev {
      assert Issued(s, c, e.path);
    }
  }

  // An entry is taken for one's own only with its content: another hash under a revision
  // on record is fetched.
  lemma OtherContentIsFetched(s: State, c: Client, e: Entry, clock: Clock, summary: Summary)
    requires !e.deleted && e.kind == RegularFile && clock.parked(e.path) != e.path
    requires e.path in c.records && c.records[e.path].rev == e.rev && e.sha != NoDigest
    requires e.sha != c.records[e.path].sha
    requires Serves(s, e.path) && Sha256(GetFile(s, e.path).body) == e.sha
    ensures var c' := ApplyEntry(s, c, e, clock, summary).client;
      && e.path in c'.local && Sha256(c'.local[e.path].body) == e.sha
      && c'.records[e.path].sha == e.sha && (e.rev != 0 ==> c'.records[e.path].rev == e.rev)
  {}

  // ── A whole pull ───────────────────────────────────────────────────────────

  ghost predicate SameFile(c: Client, c': Client, p: Path) {
    (p in c.local <==> p in c'.local) && (p in c.local ==> c.local[p] == c'.local[p])
  }

  ghost predicate SameFor(d: Progress, d': Progress, p: Path, parked: Path) {
    d.result == d'.result && SameAt(d.client, d'.client, p) && SameFile(d.client, d'.client, parked)
  }

  lemma DownloadDependsOn(c: Client, c': Client, e: Entry, download: Download, now: int, summary: Summary, summary': Summary, parked: Path)
    requires SameAt(c, c', e.path) && SameFile(c, c', parked) && parked != e.path
    ensures SameFor(AfterDownload(c, e, download, now, summary), AfterDownload(c', e, download, now, summary'), e.path, parked)
  {}

  lemma FileDependsOn(s: State, c: Client, c': Client, e: Entry, clock: Clock, summary: Summary, summary': Summary)
    requires SameAt(c, c', e.path) && SameFile(c, c', clock.parked(e.path)) && clock.parked(e.path) != e.path
    ensures SameFor(ApplyFile(s, c, e, clock, summary), ApplyFile(s, c', e, clock, summary'), e.path, clock.parked(e.path))
  {
    var p, parked, download := e.path, clock.parked(e.path), GetFile(s, e.path);
    if !Identical(c, e) {
      if Edited(c, p) {
        DownloadDependsOn(Park(c, p, parked), Park(c', p, parked), e, download, clock.now,
                          summary.(conflicts := summary.conflicts + 1), summary'.(conflicts := summary'.conflicts + 1), parked);
      } else {
        DownloadDependsOn(c, c', e, download, clock.now, summary, summary', parked);
      }
    }
  }

  // An entry looks at its own path only.
  lemma EntryDependsOn(s: State, c: Client, c': Client, e: Entry, clock: Clock, summary: Summary, summary': Summary)
    requires SameAt(c, c', e.path) && SameFile(c, c', clock.parked(e.path)) && clock.parked(e.path) != e.path
    ensures SameFor(ApplyEntry(s, c, e, clock, summary), ApplyEntry(s, c', e, clock, summary'), e.path, clock.parked(e.path))
  {
    FileDependsOn(s, c, c', e, clock, summary, summary');
  }

  // What a pull makes of a path listed once is what its entry makes of it.
  lemma {:induction false} ItsEntryDecides(servers: seq<State>, c: Client, entries: seq<Entry>, clock: Clock, summary: Summary, i: nat)
    requires |servers| == |entries| && i < |entries|
    requires var p := entries[i].path; OnItsOwn(entries, clock, p) && ListedOnce(entries, p) && clock.parked(p) != p
    requires ApplyAll(servers, c, entries, clock, summary).result != Failed
    ensures var own, final := ApplyEntry(servers[i], c, entries[i], clock, NOTHING_DONE).client, ApplyAll(servers, c, entries, clock, summary).client;
      SameAt(own, final, entries[i].path) && SameFile(own, final, clock.parked(entries[i].path))
    decreases |entries|
  {
    var p, parked := entries[i].path, clock.parked(entries[i].path);
    var first := ApplyEntry(servers[0], c, entries[0], clock, summary);
    if i == 0 {
      EntryDependsOn(servers[0], c, c, entries[0], clock, NOTHING_DONE, summary);
      AfterItsEntry(servers, c, entries, clock, summary, p);
    } else {
      ApplyElsewhere(servers[0], c, entries[0], clock, summary, p);
      ApplyElsewhere(servers[0], c, entries[0], clock, summary, parked);
      EntryDependsOn(servers[i], c, first.client, entries[i], clock, NOTHING_DONE, NOTHING_DONE);
      OnItsOwnRest(entries, clock, p);
      ItsEntryDecides(servers[1..], first.client, entries[1..], clock, first.summary, i - 1);
    }
  }

  // Not a name that any listed path would be parked under.
  ghost predicate NotParked(entries: seq<Entry>, clock: Clock, p: Path) {
    forall j {:trigger entries[j]} :: 0 <= j < |entries| ==> clock.parked(entries[j].path) != p
  }

  // Where the list says nothing, the cursor has seen to it that there is nothing to say.
  lemma UnlistedMerges(s: State, c: Client, excluded: Path -> bool, entries: seq<Entry>, p: Path)
    requires Consistent(s) && CursorHolds(s, excluded, c) && c.records.Keys <= s.table.rows.Keys
    requires ChangeList(s, c.lastRev, entries) && !excluded(p) && Knows(s, c, p)
    requires LiveFile(s.table, p) ==> Serves(s, p)
    requires forall i :: 0 <= i < |entries| ==> entries[i].path != p
    ensures Mine(c, p) == Merged(s, c, p) && !Displaced(s, c, p)
  {
    assert CollectedAt(s, c.lastRev, |s.table.log|, entries, p) && SettledUpTo(s, excluded, c, c.lastRev, p);
    assert RowIsNewest(s.table, p);
  }

  ghost predicate AllKnown(s: State, c: Client, excluded: Path -> bool) {
    forall p {:trigger Knows(s, c, p)} :: !excluded(p) ==> Knows(s, c, p) && (LiveFile(s.table, p) ==> Serves(s, p))
  }

  lemma StartsKnowing(settings: Protocol.Settings, s: State, c: Client, clock: Clock, world: set<Path>)
    requires Starts(settings, s, c, clock, world)
    ensures AllKnown(s, c, settings.excluded)
  {
    forall p | !settings.excluded(p) ensures Knows(s, c, p) && (LiveFile(s.table, p) ==> Serves(s, p)) {
      assert StatHonestAt(c, p) && Issued(s, c, p);
    }
  }

  lemma ListedMerges(s: State, c: Client, excluded: Path -> bool, relevant: seq<Entry>, clock: Clock, i: nat)
    requires Consistent(s) && AllKnown(s, c, excluded) && AllCurrent(s, excluded, relevant) && i < |relevant|
    requires ListedOnce(relevant, relevant[i].path) && FreshNames(c, relevant, clock)
    requires ApplyAll(Still(s, |relevant|), c, relevant, clock, NOTHING_DONE).result != Failed
    ensures var p := relevant[i].path;
      MergedAt(s, c, ApplyAll(Still(s, |relevant|), c, relevant, clock, NOTHING_DONE).client, p, clock.parked(p))
  {
    assert Current(s, excluded, relevant[i]) && Knows(s, c, relevant[i].path);
    FreshMeansOnItsOwn(c, relevant, clock, i);
    EntryMerges(s, c, relevant[i], clock, NOTHING_DONE, excluded);
    ItsEntryDecides(Still(s, |relevant|), c, relevant, clock, NOTHING_DONE, i);
  }

  // What a pull may do to a path it is told nothing of.
  lemma UntoldStays(s: State, c: Client, relevant: seq<Entry>, clock: Clock, p: Path)
    requires NotParked(relevant, clock, p) && forall i :: 0 <= i < |relevant| ==> relevant[i].path != p
    ensures SameAt(c, ApplyAll(Still(s, |relevant|), c, relevant, clock, NOTHING_DONE).client, p)
  {
    forall i | 0 <= i < |relevant| ensures p != clock.parked(relevant[i].path) {}
    ApplyAllElsewhere(Still(s, |relevant|), c, relevant, clock, NOTHING_DONE, p);
  }

  // After an undisturbed pull that is not refused every path holds what the rule says,
  // and what the rules keep out is as it was.
  lemma PullMerges(settings: Protocol.Settings, s: State, c: Client, entries: seq<Entry>, clock: Clock, world: set<Path>, p: Path)
    requires Starts(settings, s, c, clock, world) && ChangeList(s, c.lastRev, entries)
    requires !GuardTrips(c, Protocol.Relevant(settings.excluded, entries), settings.limits)
    requires FreshNames(c, Protocol.Relevant(settings.excluded, entries), clock)
    requires NotParked(Protocol.Relevant(settings.excluded, entries), clock, p)
    ensures var c' := PullOnce(settings, s, c, entries, clock).client;
      if settings.excluded(p) then SameFile(c, c', p) else MergedAt(s, c, c', p, clock.parked(p))
  {
    var excluded, relevant := settings.excluded, Protocol.Relevant(settings.excluded, entries);
    StartsKnowing(settings, s, c, clock, world);
    PullMirrors(settings, s, c, entries, clock, world);
    forall i | 0 <= i < |relevant| ensures Current(s, excluded, relevant[i]) && relevant[i] in entries {
      Protocol.RelevantKeeps(excluded, entries, relevant[i]);
    }
    if i :| 0 <= i < |relevant| && relevant[i].path == p {
      Listing.ChangeListNamesPathsOnce(s, c.lastRev, entries, excluded);
      ListedMerges(s, c, excluded, relevant, clock, i);
    } else {
      UntoldStays(s, c, relevant, clock, p);
      if !excluded(p) {
        assert Knows(s, c, p);
        forall i | 0 <= i < |entries| ensures entries[i].path != p { Protocol.RelevantKeeps(excluded, entries, entries[i]); }
        UnlistedMerges(s, c, excluded, entries, p);
      }
    }
  }

  // ── The push ───────────────────────────────────────────────────────────────

  // The server has of a path what it had: row, revision and file.
  ghost predicate Untouched(s: State, s': State, p: Path) {
    && (p in s.table.rows <==> p in s'.table.rows) && (p in s.table.rows ==> s.table.rows[p] == s'.table.rows[p])
    && (p in s.disk <==> p in s'.disk) && (p in s.disk ==> s.disk[p] == s'.disk[p])
  }

  // A push changes what the server has of a path if and only if it is one of those
  // pushed, and something else is here.
  ghost predicate PushedTo(s: State, c: Client, s': State, paths: seq<Path>, q: Path) {
    Untouched(s, s', q) <==> (q !in paths || Mine(c, q) == Theirs(s, q))
  }

  lemma PushFileSpends(s: State, c: Client, p: Path, clock: Clock, summary: Summary, excluded: Path -> bool, world: set<Path>, q: Path)
    requires Pushing(s, c, excluded, world) && p in c.local && !excluded(p)
    ensures PushedTo(s, c, PushFile(s, c, p, clock, summary).0, [p], q)
  {
    assert MirrorAt(s, c, p) && Described(s, p) && StatHonestAt(c, p) && RowIsNewest(s.table, p);
    if !(p in c.records && (SameStat(c.local[p], c.records[p]) || c.records[p].sha == Sha256(c.local[p].body))) {
      UploadIsStored(s, c, p, clock, excluded, world);
    }
  }

  lemma SpentInTurn(s0: State, c0: Client, s1: State, c1: Client, s2: State, paths: seq<Path>, q: Path)
    requires paths != [] && Distinct(paths) && c1.local == c0.local
    requires PushedTo(s0, c0, s1, [paths[0]], q) && PushedTo(s1, c1, s2, paths[1..], q)
    ensures PushedTo(s0, c0, s2, paths, q)
  {
    assert paths == [paths[0]] + paths[1..];
    assert q == paths[0] ==> q !in paths[1..];
  }

  lemma {:induction false} PushFilesSpend(s: State, c: Client, files: seq<Path>, clock: Clock, summary: Summary, excluded: Path -> bool, world: set<Path>, q: Path)
    requires Pushing(s, c, excluded, world) && Distinct(files)
    requires forall i :: 0 <= i < |files| ==> files[i] in c.local && !excluded(files[i])
    ensures PushedTo(s, c, PushFiles(s, c, files, clock, summary).0, files, q)
    decreases |files|
  {
    if files != [] {
      var (s1, first) := PushFile(s, c, files[0], clock, summary);
      PushFileMirrors(s, c, files[0], clock, summary, excluded, world);
      PushFileSpends(s, c, files[0], clock, summary, excluded, world, q);
      assert forall i :: 0 <= i < |files| - 1 ==> files[1..][i] == files[i + 1];
      PushFilesSpend(s1, first.client, files[1..], clock, first.summary, excluded, world, q);
      SpentInTurn(s, c, s1, first.client, PushFiles(s, c, files, clock, summary).0, files, q);
    }
  }

  lemma PushDeletionSpends(s: State, c: Client, p: Path, clock: Clock, summary: Summary, excluded: Path -> bool, world: set<Path>, q: Path)
    requires Pushing(s, c, excluded, world) && p in c.records && p !in c.local
    ensures PushedTo(s, c, PushDeletion(s, c, p, clock, summary).0, [p], q)
  {
    assert MirrorAt(s, c, p) && RowIsNewest(s.table, p) && Issued(s, c, p);
    assert DeleteFile(s, DeletionOf(c, p, clock)).1 == Deleted(|s.table.log| + 1);
  }

  lemma {:induction false} PushDeletionsSpend(s: State, c: Client, gone: seq<Path>, clock: Clock, summary: Summary, excluded: Path -> bool, world: set<Path>, q: Path)
    requires Pushing(s, c, excluded, world) && Distinct(gone)
    requires forall i :: 0 <= i < |gone| ==> gone[i] in c.records && gone[i] !in c.local
    ensures PushedTo(s, c, PushDeletions(s, c, gone, clock, summary).0, gone, q)
    decreases |gone|
  {
    if gone != [] {
      var (s1, first) := PushDeletion(s, c, gone[0], clock, summary);
      PushDeletionMirrors(s, c, gone[0], clock, summary, excluded, world);
      PushDeletionSpends(s, c, gone[0], clock, summary, excluded, world, q);
      assert forall i :: 0 <= i < |gone| - 1 ==> gone[1..][i] == gone[i + 1];
      PushDeletionsSpend(s1, first.client, gone[1..], clock, first.summary, excluded, world, q);
      SpentInTurn(s, c, s1, first.client, PushDeletions(s, c, gone, clock, summary).0, gone, q);
    }
  }

  lemma PushMerges(s: State, c: Client, files: seq<Path>, gone: seq<Path>, clock: Clock, summary: Summary, excluded: Path -> bool, world: set<Path>, q: Path)
    requires Pushing(s, c, excluded, world) && PushLists(c, excluded, files, gone)
    ensures var (s', progress) := PushOnce(s, c, files, gone, clock, summary);
      && progress.client.local == c.local
      && (Untouched(s, s', q) <==> (excluded(q) || Mine(c, q) == Theirs(s, q)))
      && (!excluded(q) ==> Mine(c, q) == Theirs(s', q))
  {
    var (s1, uploaded) := PushFiles(s, c, files, clock, summary);
    var s2 := PushOnce(s, c, files, gone, clock, summary).0;
    forall i | 0 <= i < |files| ensures files[i] in c.local && !excluded(files[i]) { assert files[i] in AsSet(files); }
    PushFilesMirror(s, c, files, clock, summary, excluded, world);
    PushFilesSpend(s, c, files, clock, summary, excluded, world, q);
    forall i | 0 <= i < |gone| ensures gone[i] in uploaded.client.records && gone[i] !in uploaded.client.local && !excluded(gone[i]) {
      assert gone[i] in AsSet(gone) && gone[i] !in AsSet(files) && PushedAt(c, uploaded.client, files, gone[i]);
    }
    PushDeletionsSpend(s1, uploaded.client, gone, clock, uploaded.summary, excluded, world, q);
    PushBringsTogether(s, c, files, gone, clock, summary, excluded, world);
    SpentByBoth(s, c, s1, uploaded.client, s2, files, gone, excluded, q);
    if !excluded(q) {
      assert TogetherAt(s2, PushOnce(s, c, files, gone, clock, summary).1.client, q);
    }
  }

  lemma SpentByBoth(s: State, c: Client, s1: State, c1: Client, s2: State, files: seq<Path>, gone: seq<Path>, excluded: Path -> bool, q: Path)
    requires Mirror(s, c, excluded) && PushLists(c, excluded, files, gone) && c1.local == c.local
    requires PushedTo(s, c, s1, files, q) && PushedTo(s1, c1, s2, gone, q)
    requires q in gone ==> !excluded(q) && q !in c.local
    ensures Untouched(s, s2, q) <==> (excluded(q) || Mine(c, q) == Theirs(s, q))
  {
    assert q in AsSet(files) <==> q in Scanned(c, excluded);
    assert q in AsSet(gone) <==> q in c.records.Keys - Scanned(c, excluded);
    assert !excluded(q) ==> MirrorAt(s, c, q);
  }

  // ── A cycle ────────────────────────────────────────────────────────────────

  ghost predicate DoneAt(settings: Protocol.Settings, s: State, c: Client, clock: Clock, s': State, c': Client, p: Path) {
    if settings.excluded(p) then SameFile(c, c', p) && Untouched(s, s', p)
    else
      && Mine(c', p) == Theirs(s', p) == Merged(s, c, p)
      && (Untouched(s, s', p) <==> Merged(s, c, p) == Theirs(s, p))
      && (Displaced(s, c, p) ==>
            && Mine(c', clock.parked(p)) == Mine(c, p)
            && (!settings.excluded(clock.parked(p)) ==> Theirs(s', clock.parked(p)) == Mine(c, p)))
  }

  // One undisturbed cycle leaves at every path, on both sides, what the rule says; the
  // server is written to only where that is not what it has. An edit displaced by
  // another is on both sides under its new name. What the rules keep out is untouched
  // on both.
  lemma CycleMerges(settings: Protocol.Settings, s: State, c: Client, entries: seq<Entry>,
                    files: seq<Path>, gone: seq<Path>, clock: Clock, world: set<Path>, p: Path)
    requires Starts(settings, s, c, clock, world) && ChangeList(s, c.lastRev, entries)
    requires !GuardTrips(c, Protocol.Relevant(settings.excluded, entries), settings.limits)
    requires FreshNames(c, Protocol.Relevant(settings.excluded, entries), clock)
    requires PushLists(PullOnce(settings, s, c, entries, clock).client, settings.excluded, files, gone)
    requires NotParked(Protocol.Relevant(settings.excluded, entries), clock, p)
    ensures var pulled := PullOnce(settings, s, c, entries, clock);
      var (s', progress) := PushOnce(s, pulled.client, files, gone, clock, pulled.summary);
      DoneAt(settings, s, c, clock, s', progress.client, p)
  {
    var pulled := PullOnce(settings, s, c, entries, clock);
    PullMirrors(settings, s, c, entries, clock, world);
    PullMerges(settings, s, c, entries, clock, world, p);
    PushMerges(s, pulled.client, files, gone, clock, pulled.summary, settings.excluded, world, p);
    PushMerges(s, pulled.client, files, gone, clock, pulled.summary, settings.excluded, world, clock.parked(p));
  }

  // ── An upload that is refused ──────────────────────────────────────────────

  // When the server has moved on, the file here becomes the server's, and is recorded as
  // that; what was here is served under the name the server gave it.
  lemma RefusedUploadTakesTheirs(s: State, c: Client, p: Path, clock: Clock, summary: Summary)
    requires Consistent(s) && p in c.local && Serves(s, p) && !Unmoved(s, c, p) && !Unedited(c, p)
    requires StatHonestAt(c, p) && s.table.rows[p].rev != 0
    requires !Clash(s.table, clock.conflict(p)) && !LiveDirectory(s.table, clock.conflict(p)) && clock.conflict(p) != p
    ensures var (s', progress) := PushFile(s, c, p, clock, summary);
      && progress.result == Fine && progress.summary == summary.(conflicts := summary.conflicts + 1, downloaded := summary.downloaded + 1)
      && Mine(progress.client, p) == Theirs(s, p) == Theirs(s', p)
      && Unmoved(s', progress.client, p) && Unedited(progress.client, p)
      && progress.client.local[p].mtime == clock.now
      && Theirs(s', clock.conflict(p)) == Mine(c, p)
  {
    assert Described(s, p);
    LiveHasNoTwin(s.table, p);
    Conservation.FoldsMeet();
  }

  // What an entry comes to, against whatever the server has become: there is something to
  // fetch unless the version is on record or already here; then a path that is gone is
  // stepped over, and one that is a directory by now ends the pull.
  lemma EntryOutcome(s: State, c: Client, e: Entry, clock: Clock, summary: Summary)
    ensures var result := ApplyEntry(s, c, e, clock, summary).result;
      var here := e.path in c.local && e.sha == Sha256(c.local[e.path].body);
      var recorded := e.path in c.records && c.records[e.path].rev == e.rev
        && (e.sha == NoDigest || c.records[e.path].sha == e.sha);
      if e.deleted || e.kind == Directory || here || recorded then result == Fine
      else
        && (result == Fine <==> Serves(s, e.path))
        && (result == Failed <==> LiveDirectory(s.table, e.path))
  {}

  // An edited file is pushed unless a directory or a case twin is in the way of it, or,
  // when the server has moved on, of its copy, or nothing can be taken in its place.
  lemma PushOutcome(s: State, c: Client, p: Path, clock: Clock, summary: Summary)
    requires Consistent(s)
    requires p in c.local && !Unedited(c, p) && StatHonestAt(c, p) && (p in c.records ==> c.records[p].rev != 0)
    ensures var (s', progress) := PushFile(s, c, p, clock, summary);
      var copy := clock.conflict(p);
      var moved := if Live(s.table, p) then !Unmoved(s, c, p) else p in c.records;
      progress.result == Fine <==>
        && !LiveDirectory(s.table, p) && !Clash(s.table, p)
        && (moved ==> !LiveDirectory(s.table, copy) && !Clash(s.table, copy) && Serves(s', p))
  {
    assert RowIsNewest(s.table, p);
  }

  // An edit that has made way for a file that is gone by then is under its new name, and
  // nothing is on record for a push to delete.
  lemma ParkedForNothing(s: State, c: Client, e: Entry, clock: Clock, summary: Summary)
    requires !e.deleted && e.kind == RegularFile && Edited(c, e.path) && Sha256(c.local[e.path].body) != e.sha
    requires c.records[e.path].rev != e.rev && GetFile(s, e.path) == Missing && clock.parked(e.path) != e.path
    ensures var progress := ApplyEntry(s, c, e, clock, summary);
      && progress.result == NotThere
      && e.path !in progress.client.local && e.path !in progress.client.records
      && Mine(progress.client, clock.parked(e.path)) == Mine(c, e.path)
  {}

  // A deletion here is carried out there exactly if the server has not moved on, and a
  // directory only if nothing lies below. Whatever the answer, the record goes, but of a
  // directory that has to stay; no file here is touched.
  lemma DeletionOutcome(s: State, c: Client, p: Path, clock: Clock, summary: Summary)
    requires p in c.records && c.records[p].rev != 0
    ensures var (s', progress) := PushDeletion(s, c, p, clock, summary);
      var current := Live(s.table, p) && Unmoved(s, c, p);
      var stuck := current && LiveDirectory(s.table, p) && Outcomes.SomethingBelow(s, p);
      && progress.result == Fine && progress.client.local == c.local
      && progress.client.records == (if stuck then c.records else c.records - {p})
      && (if current && !stuck then !Live(s'.table, p) && progress.summary == summary.(deletedRemotely := summary.deletedRemotely + 1)
          else s' == s && progress.summary == summary)
  {
    Outcomes.DeleteOutcome(s, p, c.records[p].rev, clock.stamp);
  }

  // ── All paths at once ──────────────────────────────────────────────────────

  // The names an edit may be parked under are new here and there, and differ.
  ghost predicate NamesAreNew(s: State, c: Client, clock: Clock) {
    && (forall p :: p in s.table.rows ==> clock.parked(p) !in c.local && clock.parked(p) !in s.table.rows)
    && (forall p, q :: p in s.table.rows && q in s.table.rows && p != q ==> clock.parked(p) != clock.parked(q))
  }

  ghost predicate ParkingName(s: State, clock: Clock, p: Path) {
    exists q :: q in s.table.rows && clock.parked(q) == p
  }

  ghost predicate Done(settings: Protocol.Settings, s: State, c: Client, clock: Clock, s': State, c': Client) {
    forall p {:trigger DoneAt(settings, s, c, clock, s', c', p)} ::
      !ParkingName(s, clock, p) ==> DoneAt(settings, s, c, clock, s', c', p)
  }

  lemma RelevantAreRows(settings: Protocol.Settings, s: State, since: nat, entries: seq<Entry>)
    requires ChangeList(s, since, entries)
    ensures AllCurrent(s, settings.excluded, Protocol.Relevant(settings.excluded, entries))
  {
    var relevant := Protocol.Relevant(settings.excluded, entries);
    forall i | 0 <= i < |relevant| ensures Current(s, settings.excluded, relevant[i]) {
      Protocol.RelevantKeeps(settings.excluded, entries, relevant[i]);
    }
  }

  lemma NewMeansFresh(s: State, c: Client, clock: Clock, excluded: Path -> bool, relevant: seq<Entry>)
    requires NamesAreNew(s, c, clock) && AllCurrent(s, excluded, relevant)
    ensures FreshNames(c, relevant, clock)
    ensures forall p :: !ParkingName(s, clock, p) ==> NotParked(relevant, clock, p)
  {
    forall i: nat ensures NameIsFree(c, relevant, clock, i) {
      if i < |relevant| {
        assert Current(s, excluded, relevant[i]);
        assert forall j :: 0 <= j < |relevant| ==> Current(s, excluded, relevant[j]);
      }
    }
    forall p, j | !ParkingName(s, clock, p) && 0 <= j < |relevant| ensures clock.parked(relevant[j].path) != p {
      assert Current(s, excluded, relevant[j]);
    }
  }

  lemma CycleIsDone(settings: Protocol.Settings, s: State, c: Client, entries: seq<Entry>,
                    files: seq<Path>, gone: seq<Path>, clock: Clock, world: set<Path>)
    requires Starts(settings, s, c, clock, world) && NamesAreNew(s, c, clock) && ChangeList(s, c.lastRev, entries)
    requires !GuardTrips(c, Protocol.Relevant(settings.excluded, entries), settings.limits)
    requires PushLists(PullOnce(settings, s, c, entries, clock).client, settings.excluded, files, gone)
    ensures var pulled := PullOnce(settings, s, c, entries, clock);
      var (s', progress) := PushOnce(s, pulled.client, files, gone, clock, pulled.summary);
      Done(settings, s, c, clock, s', progress.client)
  {
    var pulled := PullOnce(settings, s, c, entries, clock);
    var (s', progress) := PushOnce(s, pulled.client, files, gone, clock, pulled.summary);
    RelevantAreRows(settings, s, c.lastRev, entries);
    NewMeansFresh(s, c, clock, settings.excluded, Protocol.Relevant(settings.excluded, entries));
    forall p | !ParkingName(s, clock, p) ensures DoneAt(settings, s, c, clock, s', progress.client, p) {
      CycleMerges(settings, s, c, entries, files, gone, clock, world, p);
    }
  }

  // ── The guard ──────────────────────────────────────────────────────────────

  // Recorded files as they were last synced that the server has deleted.
  function Doomed(s: State, c: Client): set<Path> {
    set p | p in c.records && p in s.table.rows && s.table.rows[p].deleted && Unedited(c, p)
  }

  // A pull of an undisturbed server is refused exactly if those are beyond the limit.
  lemma RefusedForTheDoomed(settings: Protocol.Settings, s: State, c: Client, entries: seq<Entry>, clock: Clock, world: set<Path>, refused: bool)
    requires Starts(settings, s, c, clock, world) && ChangeList(s, c.lastRev, entries)
    requires RefusedWhen(c, Protocol.Relevant(settings.excluded, entries), settings.limits, refused)
    ensures refused <==> !WithinLimit(|c.records|, settings.limits, |Doomed(s, c)|)
  {
    var relevant := Protocol.Relevant(settings.excluded, entries);
    forall p ensures p in c.local && p in c.records && SameStat(c.local[p], c.records[p]) ==>
      Sha256(c.local[p].body) == c.records[p].sha
    {
      assert StatHonestAt(c, p);
    }
    Listing.ChangeListNamesPathsOnce(s, c.lastRev, entries, settings.excluded);
    ToldGoneAreDoomed(settings, s, c, entries);
  }

  lemma ToldGoneAreDoomed(settings: Protocol.Settings, s: State, c: Client, entries: seq<Entry>)
    requires Consistent(s) && CursorHolds(s, settings.excluded, c) && OnlyIncluded(c, settings.excluded)
    requires ChangeList(s, c.lastRev, entries)
    ensures ToldGone(c, Protocol.Relevant(settings.excluded, entries)) == Doomed(s, c)
  {
    var relevant := Protocol.Relevant(settings.excluded, entries);
    RelevantAreRows(settings, s, c.lastRev, entries);
    forall p | p in ToldGone(c, relevant) ensures p in Doomed(s, c) {
      var i :| 0 <= i < |relevant| && relevant[i].deleted && Unedited(c, relevant[i].path) && relevant[i].path == p;
      assert Current(s, settings.excluded, relevant[i]);
    }
    forall p | p in Doomed(s, c) ensures p in ToldGone(c, relevant) {
      assert SettledUpTo(s, settings.excluded, c, c.lastRev, p) && RowIsNewest(s.table, p);
      assert CollectedAt(s, c.lastRev, |s.table.log|, entries, p);
      Protocol.RelevantKeeps(settings.excluded, entries, s.table.rows[p]);
      var i :| 0 <= i < |relevant| && relevant[i] == s.table.rows[p];
    }
  }
}
