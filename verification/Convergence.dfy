/**
 One undisturbed cycle brings a client and the server together, and the next one
 finds nothing to do.
 */
module Convergence {
  import opened Basics
  import opened Index
  import opened Server
  import opened ClientModel
  import opened Cursor
  import Protocol
  import opened NoLoss

  // ── What the hypotheses say ────────────────────────────────────────────────

  // The server and this client's record agree about a path.
  ghost predicate MirrorAt(s: State, c: Client, p: Path) {
    && (LiveFile(s.table, p) <==> p in c.records)
    && (LiveFile(s.table, p) ==>
          && Serves(s, p)
          && c.records[p].rev == s.table.rows[p].rev
          && c.records[p].sha == s.table.rows[p].sha)
  }

  ghost predicate Mirror(s: State, c: Client, excluded: Path -> bool) {
    forall p {:trigger MirrorAt(s, c, p)} :: !excluded(p) ==> MirrorAt(s, c, p)
  }

  // No two paths in play are one file on a case-insensitive volume.
  ghost predicate NoFoldClash(world: set<Path>) {
    forall p, q :: p in world && q in world && Fold(p) == Fold(q) ==> p == q
  }

  // What is live on the server and what the rules let through of the folder.
  ghost predicate Within(s: State, c: Client, excluded: Path -> bool, world: set<Path>) {
    && (forall p :: Live(s.table, p) ==> p in world)
    && (forall p :: p in c.local && !excluded(p) ==> p in world)
  }

  // No file of this client, and none it has a record of, is a directory on the server.
  ghost predicate NoneInTheWay(s: State, c: Client) {
    forall p :: LiveDirectory(s.table, p) ==> p !in c.local && p !in c.records
  }

  ghost predicate OnlyIncluded(c: Client, excluded: Path -> bool) {
    forall p :: p in c.records ==> !excluded(p)
  }

  // Every live file the rules let through can be downloaded.
  ghost predicate AllServed(s: State, excluded: Path -> bool) {
    forall p :: LiveFile(s.table, p) && !excluded(p) ==> Serves(s, p)
  }

  // A name an edit would be parked under is new to the server, and in the world.
  ghost predicate ParkedIsNew(s: State, clock: Clock, world: set<Path>, p: Path) {
    clock.parked(p) !in s.table.rows && clock.parked(p) in world
  }

  ghost predicate ParkedAreNew(s: State, clock: Clock, world: set<Path>) {
    forall p {:trigger ParkedIsNew(s, clock, world, p)} :: LiveFile(s.table, p) ==> ParkedIsNew(s, clock, world, p)
  }

  // ── Pull ───────────────────────────────────────────────────────────────────

  ghost predicate StatHonestAt(c: Client, p: Path) {
    p in c.local && p in c.records && SameStat(c.local[p], c.records[p]) ==>
      Sha256(c.local[p].body) == c.records[p].sha
  }

  // The entries are rows as they stand, all let through by the rules.
  ghost predicate Current(s: State, excluded: Path -> bool, e: Entry) {
    e.path in s.table.rows && s.table.rows[e.path] == e && !excluded(e.path)
  }

  ghost predicate AllCurrent(s: State, excluded: Path -> bool, entries: seq<Entry>) {
    forall i :: 0 <= i < |entries| ==> Current(s, excluded, entries[i])
  }

  // What a pull keeps besides the cursor invariant.
  ghost predicate Tidy(s: State, c: Client, excluded: Path -> bool, world: set<Path>) {
    && (forall p {:trigger StatHonestAt(c, p)} :: StatHonestAt(c, p))
    && c.records.Keys <= s.table.rows.Keys
    && OnlyIncluded(c, excluded)
    && Within(s, c, excluded, world)
    && NoneInTheWay(s, c)
  }

  lemma ApplyIsTidy(s: State, c: Client, e: Entry, clock: Clock, summary: Summary, excluded: Path -> bool, world: set<Path>)
    requires Consistent(s) && Tidy(s, c, excluded, world) && Current(s, excluded, e)
    requires ParkedAreNew(s, clock, world) && AllServed(s, excluded)
    ensures var progress := ApplyEntry(s, c, e, clock, summary);
      progress.result == Fine && Tidy(s, progress.client, excluded, world)
  {
    var c' := ApplyEntry(s, c, e, clock, summary).client;
    assert Described(s, e.path) && RowIsNewest(s.table, e.path);
    assert LiveFile(s.table, e.path) ==> ParkedIsNew(s, clock, world, e.path);
    forall p ensures StatHonestAt(c', p) {
      assert StatHonestAt(c, p);
    }
  }

  ghost predicate Pulls(s: State, settings: Protocol.Settings, c: Client, todo: seq<Entry>, world: set<Path>, clock: Clock) {
    && Consistent(s)
    && NodeHolds(s, settings.excluded, Node(c, Applying(todo, |s.table.log|)))
    && AllCurrent(s, settings.excluded, todo)
    && Tidy(s, c, settings.excluded, world)
    && AllServed(s, settings.excluded)
    && ParkedAreNew(s, clock, world)
  }

  function Still(s: State, n: nat): seq<State> {
    seq(n, _ => s)
  }

  // Applying every entry with nobody else writing settles every row.
  lemma {:induction false} PullSettles(s: State, settings: Protocol.Settings, c: Client, todo: seq<Entry>, world: set<Path>, clock: Clock, summary: Summary)
    requires Pulls(s, settings, c, todo, world, clock)
    ensures var progress := ApplyAll(Still(s, |todo|), c, todo, clock, summary);
      progress.result == Fine && Pulls(s, settings, progress.client, [], world, clock)
    decreases |todo|
  {
    if todo != [] {
      var e, rest := todo[0], todo[1..];
      var first := ApplyEntry(s, c, e, clock, summary);
      assert Current(s, settings.excluded, e);
      ApplyIsTidy(s, c, e, clock, summary, settings.excluded, world);
      assert first.client == ApplyEntry(s, c, e, clock, NOTHING_DONE).client
        && first.result == ApplyEntry(s, c, e, clock, NOTHING_DONE).result;
      Protocol.AppliedHolds(settings, s, c, Applying(todo, |s.table.log|), clock);
      forall i | 0 <= i < |rest| ensures Current(s, settings.excluded, rest[i]) {
        assert Current(s, settings.excluded, todo[i + 1]);
      }
      assert Still(s, |todo|)[1..] == Still(s, |rest|);
      PullSettles(s, settings, first.client, rest, world, clock, first.summary);
    }
  }

  // A client whose cursor has reached the server's counter mirrors it.
  lemma CaughtUpIsMirror(s: State, c: Client, excluded: Path -> bool)
    requires Consistent(s) && AllServed(s, excluded) && NoneInTheWay(s, c)
    requires CursorHolds(s, excluded, c) && c.lastRev == |s.table.log|
    ensures Mirror(s, c, excluded)
  {
    forall p | !excluded(p) ensures MirrorAt(s, c, p) {
      assert SettledUpTo(s, excluded, c, c.lastRev, p) && Issued(s, c, p) && RowIsNewest(s.table, p);
      if p in c.records {
        assert VersionIsListed(s.table, c.records[p].rev - 1);
      }
    }
  }

  // ── Push ───────────────────────────────────────────────────────────────────

  // The file is recorded exactly as it stands.
  predicate UpToDate(c: Client, p: Path) {
    p in c.local && p in c.records && SameStat(c.local[p], c.records[p]) && Sha256(c.local[p].body) == c.records[p].sha
  }

  // What every step of an undisturbed push keeps.
  ghost predicate Pushing(s: State, c: Client, excluded: Path -> bool, world: set<Path>) {
    && Consistent(s)
    && CursorHolds(s, excluded, c)
    && Mirror(s, c, excluded)
    && Tidy(s, c, excluded, world)
    && NoFoldClash(world)
  }

  lemma NothingClashes(s: State, p: Path, world: set<Path>)
    requires NoFoldClash(world) && p in world && forall q :: Live(s.table, q) ==> q in world
    ensures !Clash(s.table, p)
  {
  }

  // The revision sent is the one the server has, so the upload is stored in place.
  lemma UploadIsStored(s: State, c: Client, p: Path, clock: Clock, excluded: Path -> bool, world: set<Path>)
    requires Pushing(s, c, excluded, world) && p in c.local && !excluded(p)
    ensures var (s', response) := PutFile(s, UploadOf(c, p, c.local[p].body, clock));
      && response == Stored(|s.table.log| + 1, !Live(s.table, p))
      && s'.table == Upserted(s.table, FileEntry(p, File(c.local[p].body, clock.now)))
      && s'.disk == s.disk[p := File(c.local[p].body, clock.now)]
  {
    assert MirrorAt(s, c, p);
    NothingClashes(s, p, world);
    var s1 := if Live(s.table, p) then MoveToTrash(s, p, clock.stamp) else s;
    assert s1.disk[p := File(c.local[p].body, clock.now)] == s.disk[p := File(c.local[p].body, clock.now)];
  }

  lemma UploadMirrors(s: State, c: Client, p: Path, clock: Clock, excluded: Path -> bool, world: set<Path>)
    requires Pushing(s, c, excluded, world) && p in c.local && !excluded(p)
    ensures var (s', response) := PutFile(s, UploadOf(c, p, c.local[p].body, clock));
      var c' := Record(c, p, SyncedAs(c.local[p], |s.table.log| + 1));
      Pushing(s', c', excluded, world) && UpToDate(c', p)
  {
    UploadIsStored(s, c, p, clock, excluded, world);
    Protocol.UploadHolds(s, excluded, c, p, c.local[p], clock);
    var (s', response) := PutFile(s, UploadOf(c, p, c.local[p].body, clock));
    var c' := Record(c, p, SyncedAs(c.local[p], |s.table.log| + 1));
    forall q | !excluded(q) ensures MirrorAt(s', c', q) { assert MirrorAt(s, c, q); }
    forall q ensures StatHonestAt(c', q) { assert StatHonestAt(c, q); }
  }

  // A pushed file ends up recorded as it stands, and stays so; the others keep
  // their file and their record.
  ghost predicate PushedAt(c: Client, c': Client, files: seq<Path>, q: Path) {
    && (q in files || UpToDate(c, q) ==> UpToDate(c', q))
    && (q !in files ==> SameAt(c, c', q))
  }

  ghost predicate Pushed(c: Client, c': Client, files: seq<Path>) {
    c'.local == c.local && forall q {:trigger PushedAt(c, c', files, q)} :: PushedAt(c, c', files, q)
  }

  lemma PushFileMirrors(s: State, c: Client, p: Path, clock: Clock, summary: Summary, excluded: Path -> bool, world: set<Path>)
    requires Pushing(s, c, excluded, world) && p in c.local && !excluded(p)
    ensures var (s', progress) := PushFile(s, c, p, clock, summary);
      && progress.result == Fine
      && Pushing(s', progress.client, excluded, world)
      && Pushed(c, progress.client, [p])
  {
    var file := c.local[p];
    if p in c.records && SameStat(file, c.records[p]) {
      assert StatHonestAt(c, p);
    } else if p in c.records && c.records[p].sha == Sha256(file.body) {
      var c' := Record(c, p, SyncedAs(file, c.records[p].rev));
      Protocol.RestatHolds(s, excluded, c, p, file);
      forall q | !excluded(q) ensures MirrorAt(s, c', q) { assert MirrorAt(s, c, q); }
      forall q ensures StatHonestAt(c', q) { assert StatHonestAt(c, q); }
    } else {
      UploadIsStored(s, c, p, clock, excluded, world);
      UploadMirrors(s, c, p, clock, excluded, world);
    }
  }

  lemma {:induction false} PushFilesMirror(s: State, c: Client, files: seq<Path>, clock: Clock, summary: Summary, excluded: Path -> bool, world: set<Path>)
    requires Pushing(s, c, excluded, world)
    requires forall i :: 0 <= i < |files| ==> files[i] in c.local && !excluded(files[i])
    ensures var (s', progress) := PushFiles(s, c, files, clock, summary);
      && progress.result == Fine
      && Pushing(s', progress.client, excluded, world)
      && Pushed(c, progress.client, files)
    decreases |files|
  {
    if files != [] {
      var (s1, first) := PushFile(s, c, files[0], clock, summary);
      PushFileMirrors(s, c, files[0], clock, summary, excluded, world);
      forall i | 0 <= i < |files| - 1 ensures files[1..][i] in first.client.local && !excluded(files[1..][i]) {
        assert files[1..][i] == files[i + 1];
      }
      PushFilesMirror(s1, first.client, files[1..], clock, first.summary, excluded, world);
      assert files[..1] == [files[0]];
      PushedInTurn(c, first.client, PushFiles(s, c, files, clock, summary).1.client, files);
    }
  }

  lemma PushedInTurn(c0: Client, c1: Client, c2: Client, files: seq<Path>)
    requires files != [] && Pushed(c0, c1, files[..1]) && Pushed(c1, c2, files[1..])
    ensures Pushed(c0, c2, files)
  {
    forall q ensures PushedAt(c0, c2, files, q) {
      assert PushedAt(c0, c1, files[..1], q) && PushedAt(c1, c2, files[1..], q);
      assert files == files[..1] + files[1..];
    }
  }

  // ── Deletions ──────────────────────────────────────────────────────────────

  // The record is current, so the deletion is carried out and the record dropped.
  lemma PushDeletionMirrors(s: State, c: Client, p: Path, clock: Clock, summary: Summary, excluded: Path -> bool, world: set<Path>)
    requires Pushing(s, c, excluded, world) && p in c.records
    ensures var (s', progress) := PushDeletion(s, c, p, clock, summary);
      && progress.result == Fine
      && Pushing(s', progress.client, excluded, world)
      && progress.client.local == c.local
      && progress.client.records == c.records - {p}
  {
    assert MirrorAt(s, c, p) && RowIsNewest(s.table, p);
    var r := DeletionOf(c, p, clock);
    var (s', progress) := PushDeletion(s, c, p, clock, summary);
    assert c.records[p].rev != 0 by { assert Issued(s, c, p); }
    assert DeleteFile(s, r).1 == Deleted(|s.table.log| + 1);
    assert s'.disk == s.disk - {p} && s'.table == Tombstoned(s.table, p);
    Protocol.DeleteHolds(s, excluded, c, p, clock);
    assert progress.client == AfterDelete(c, p, DeleteFile(s, r).1, NOTHING_DONE).client;
    var c' := progress.client;
    forall q | !excluded(q) ensures MirrorAt(s', c', q) { assert MirrorAt(s, c, q); }
    forall q ensures StatHonestAt(c', q) { assert StatHonestAt(c, q); }
  }

  ghost predicate Distinct(paths: seq<Path>) {
    forall i, j :: 0 <= i < j < |paths| ==> paths[i] != paths[j]
  }

  lemma {:induction false} PushDeletionsMirror(s: State, c: Client, gone: seq<Path>, clock: Clock, summary: Summary, excluded: Path -> bool, world: set<Path>)
    requires Pushing(s, c, excluded, world) && Distinct(gone) && AsSet(gone) <= c.records.Keys
    ensures var (s', progress) := PushDeletions(s, c, gone, clock, summary);
      && progress.result == Fine
      && Pushing(s', progress.client, excluded, world)
      && progress.client.local == c.local
      && progress.client.records == c.records - AsSet(gone)
    decreases |gone|
  {
    if gone != [] {
      assert gone[0] in AsSet(gone);
      var (s1, first) := PushDeletion(s, c, gone[0], clock, summary);
      PushDeletionMirrors(s, c, gone[0], clock, summary, excluded, world);
      forall p | p in AsSet(gone[1..]) ensures p in first.client.records {
        assert p in AsSet(gone);
        assert p != gone[0];
      }
      PushDeletionsMirror(s1, first.client, gone[1..], clock, first.summary, excluded, world);
      assert AsSet(gone) == {gone[0]} + AsSet(gone[1..]) by { assert gone == [gone[0]] + gone[1..]; }
    }
  }

  // ── A whole cycle ──────────────────────────────────────────────────────────

  // Every row newer than the cursor, oldest first: what following the pages of an
  // undisturbed server collects.
  ghost predicate ChangeList(s: State, since: nat, entries: seq<Entry>) {
    && Batch(s, since, entries)
    && Complete(s, since, |s.table.log|, entries)
    && OnlyRows(s.table.rows, since, entries)
  }

  function PullOnce(settings: Protocol.Settings, s: State, c: Client, entries: seq<Entry>, clock: Clock): Progress {
    var relevant := Protocol.Relevant(settings.excluded, entries);
    if entries == [] then Progress(c.(lastRev := |s.table.log|), NOTHING_DONE, Fine)
    else if GuardTrips(c, relevant, settings.limits) then Progress(c, NOTHING_DONE, Failed)
    else
      var pulled := ApplyAll(Still(s, |relevant|), c, relevant, clock, NOTHING_DONE);
      if pulled.result == Failed then pulled
      else pulled.(client := pulled.client.(lastRev := |s.table.log|))
  }

  function PushOnce(s: State, c: Client, files: seq<Path>, gone: seq<Path>, clock: Clock, summary: Summary): (State, Progress) {
    var (s1, uploaded) := PushFiles(s, c, files, clock, summary);
    if uploaded.result == Failed then (s1, uploaded)
    else PushDeletions(s1, uploaded.client, gone, clock, uploaded.summary)
  }

  // What the scan of the folder finds.
  function Scanned(c: Client, excluded: Path -> bool): set<Path> {
    set p | p in c.local && !excluded(p)
  }

  ghost predicate Enumerates(paths: seq<Path>, members: set<Path>) {
    Distinct(paths) && AsSet(paths) == members
  }

  // The two lists a push works through, in any order.
  ghost predicate PushLists(c: Client, excluded: Path -> bool, files: seq<Path>, gone: seq<Path>) {
    Enumerates(files, Scanned(c, excluded)) && Enumerates(gone, c.records.Keys - Scanned(c, excluded))
  }

  // What a cycle may start from, and leaves behind.
  ghost predicate InOrder(settings: Protocol.Settings, s: State, c: Client, world: set<Path>) {
    && Consistent(s)
    && CursorHolds(s, settings.excluded, c)
    && Tidy(s, c, settings.excluded, world)
    && AllServed(s, settings.excluded)
    && NoFoldClash(world)
  }

  ghost predicate Starts(settings: Protocol.Settings, s: State, c: Client, clock: Clock, world: set<Path>) {
    InOrder(settings, s, c, world) && ParkedAreNew(s, clock, world)
  }

  // The folder and the server hold the same files, and the record says so.
  ghost predicate TogetherAt(s: State, c: Client, p: Path) {
    && (p in c.local <==> LiveFile(s.table, p))
    && (p in c.local ==> Serves(s, p) && GetFile(s, p).body == c.local[p].body && UpToDate(c, p))
  }

  ghost predicate Together(s: State, c: Client, excluded: Path -> bool) {
    forall p {:trigger TogetherAt(s, c, p)} :: !excluded(p) ==> TogetherAt(s, c, p)
  }

  lemma PullMirrors(settings: Protocol.Settings, s: State, c: Client, entries: seq<Entry>, clock: Clock, world: set<Path>)
    requires Starts(settings, s, c, clock, world) && ChangeList(s, c.lastRev, entries)
    requires !GuardTrips(c, Protocol.Relevant(settings.excluded, entries), settings.limits)
    ensures var pulled := PullOnce(settings, s, c, entries, clock);
      pulled.result == Fine && Pushing(s, pulled.client, settings.excluded, world)
  {
    var excluded := settings.excluded;
    var relevant := Protocol.Relevant(excluded, entries);
    var pulled := PullOnce(settings, s, c, entries, clock);
    Protocol.CollectedHolds(settings, s, c, entries, |s.table.log|);
    if entries != [] {
      forall i | 0 <= i < |relevant| ensures Current(s, excluded, relevant[i]) {
        Protocol.RelevantKeeps(excluded, entries, relevant[i]);
      }
      PullSettles(s, settings, c, relevant, world, clock, NOTHING_DONE);
      Protocol.AdvanceHolds(s, excluded, ApplyAll(Still(s, |relevant|), c, relevant, clock, NOTHING_DONE).client, |s.table.log|);
    }
    TidyIgnoresTheCursor(s, c, excluded, world, pulled.client.lastRev);
    if entries != [] {
      TidyIgnoresTheCursor(s, ApplyAll(Still(s, |relevant|), c, relevant, clock, NOTHING_DONE).client, excluded, world, |s.table.log|);
    }
    CaughtUpIsMirror(s, pulled.client, excluded);
  }

  lemma TidyIgnoresTheCursor(s: State, c: Client, excluded: Path -> bool, world: set<Path>, lastRev: nat)
    requires Tidy(s, c, excluded, world)
    ensures Tidy(s, c.(lastRev := lastRev), excluded, world)
  {
    forall p ensures StatHonestAt(c.(lastRev := lastRev), p) { assert StatHonestAt(c, p); }
  }

  lemma PushBringsTogether(s: State, c: Client, files: seq<Path>, gone: seq<Path>, clock: Clock, summary: Summary, excluded: Path -> bool, world: set<Path>)
    requires Pushing(s, c, excluded, world) && PushLists(c, excluded, files, gone)
    ensures var (s', progress) := PushOnce(s, c, files, gone, clock, summary);
      && progress.result == Fine
      && progress.client.local == c.local
      && Pushing(s', progress.client, excluded, world)
      && Together(s', progress.client, excluded)
  {
    forall i | 0 <= i < |files| ensures files[i] in c.local && !excluded(files[i]) {
      assert files[i] in AsSet(files);
    }
    var (s1, uploaded) := PushFiles(s, c, files, clock, summary);
    PushFilesMirror(s, c, files, clock, summary, excluded, world);
    forall p | p in AsSet(gone) ensures p in uploaded.client.records {
      assert PushedAt(c, uploaded.client, files, p);
      assert p !in AsSet(files);
    }
    PushDeletionsMirror(s1, uploaded.client, gone, clock, uploaded.summary, excluded, world);
    var (s2, progress) := PushOnce(s, c, files, gone, clock, summary);
    forall p | !excluded(p) ensures TogetherAt(s2, progress.client, p) {
      assert MirrorAt(s2, progress.client, p) && PushedAt(c, uploaded.client, files, p);
      assert Described(s2, p) && RowIsNewest(s2.table, p);
      assert p in AsSet(files) <==> p in c.local;
      assert p in AsSet(gone) <==> p in c.records && p !in c.local;
    }
  }

  // One cycle with nobody else writing, from any state the cursor invariant allows:
  // afterwards the folder holds exactly the server's live files.
  lemma OneCycleConverges(settings: Protocol.Settings, s: State, c: Client, entries: seq<Entry>,
                          files: seq<Path>, gone: seq<Path>, clock: Clock, world: set<Path>)
    requires Starts(settings, s, c, clock, world) && ChangeList(s, c.lastRev, entries)
    requires !GuardTrips(c, Protocol.Relevant(settings.excluded, entries), settings.limits)
    requires PushLists(PullOnce(settings, s, c, entries, clock).client, settings.excluded, files, gone)
    ensures var pulled := PullOnce(settings, s, c, entries, clock);
      var (s', progress) := PushOnce(s, pulled.client, files, gone, clock, pulled.summary);
      && pulled.result == Fine && progress.result == Fine
      && progress.client.local == pulled.client.local
      && Together(s', progress.client, settings.excluded)
      && Pushing(s', progress.client, settings.excluded, world)
  {
    var pulled := PullOnce(settings, s, c, entries, clock);
    PullMirrors(settings, s, c, entries, clock, world);
    PushBringsTogether(s, pulled.client, files, gone, clock, pulled.summary, settings.excluded, world);
  }

  // ── The cycle after ────────────────────────────────────────────────────────

  lemma NothingToApply(s: State, c: Client, e: Entry, clock: Clock, summary: Summary, excluded: Path -> bool, world: set<Path>)
    requires Pushing(s, c, excluded, world) && Together(s, c, excluded) && Current(s, excluded, e)
    ensures ApplyEntry(s, c, e, clock, summary) == Progress(c, summary, Fine)
    ensures !WouldDelete(c, e)
  {
    assert MirrorAt(s, c, e.path) && TogetherAt(s, c, e.path);
    assert e.path !in c.records ==> c.records - {e.path} == c.records;
  }

  lemma {:induction false} NothingToPull(s: State, c: Client, entries: seq<Entry>, clock: Clock, excluded: Path -> bool, world: set<Path>)
    requires Pushing(s, c, excluded, world) && Together(s, c, excluded) && AllCurrent(s, excluded, entries)
    ensures ApplyAll(Still(s, |entries|), c, entries, clock, NOTHING_DONE) == Progress(c, NOTHING_DONE, Fine)
    ensures Deletions(c, entries) == 0
    decreases |entries|
  {
    if entries != [] {
      assert Current(s, excluded, entries[0]);
      NothingToApply(s, c, entries[0], clock, NOTHING_DONE, excluded, world);
      forall i | 0 <= i < |entries| - 1 ensures Current(s, excluded, entries[1..][i]) {
        assert Current(s, excluded, entries[i + 1]);
      }
      assert Still(s, |entries|)[1..] == Still(s, |entries[1..]|);
      NothingToPull(s, c, entries[1..], clock, excluded, world);
    }
  }

  lemma {:induction false} NothingToUpload(s: State, c: Client, files: seq<Path>, clock: Clock, summary: Summary)
    requires forall i :: 0 <= i < |files| ==> UpToDate(c, files[i])
    ensures PushFiles(s, c, files, clock, summary) == (s, Progress(c, summary, Fine))
    decreases |files|
  {
    if files != [] {
      forall i | 0 <= i < |files| - 1 ensures UpToDate(c, files[1..][i]) {
        assert files[1..][i] == files[i + 1];
      }
      NothingToUpload(s, c, files[1..], clock, summary);
    }
  }

  lemma NextPullFindsNothing(settings: Protocol.Settings, s: State, c: Client, entries: seq<Entry>, clock: Clock, world: set<Path>)
    requires Pushing(s, c, settings.excluded, world) && Together(s, c, settings.excluded)
    requires ChangeList(s, c.lastRev, entries)
    ensures PullOnce(settings, s, c, entries, clock) == Progress(c.(lastRev := |s.table.log|), NOTHING_DONE, Fine)
  {
    var relevant := Protocol.Relevant(settings.excluded, entries);
    forall i | 0 <= i < |relevant| ensures Current(s, settings.excluded, relevant[i]) {
      Protocol.RelevantKeeps(settings.excluded, entries, relevant[i]);
    }
    NothingToPull(s, c, relevant, clock, settings.excluded, world);
  }

  // The cycle after that one moves nothing: no download, upload, deletion or parked
  // copy, no revision spent, no record changed; only the cursor catches up.
  lemma NextCycleDoesNothing(settings: Protocol.Settings, s: State, c: Client, entries: seq<Entry>,
                             files: seq<Path>, gone: seq<Path>, clock: Clock, world: set<Path>)
    requires Pushing(s, c, settings.excluded, world) && Together(s, c, settings.excluded)
    requires ChangeList(s, c.lastRev, entries)
    requires PushLists(c, settings.excluded, files, gone)
    ensures var c' := c.(lastRev := |s.table.log|);
      && PullOnce(settings, s, c, entries, clock) == Progress(c', NOTHING_DONE, Fine)
      && PushOnce(s, c', files, gone, clock, NOTHING_DONE) == (s, Progress(c', NOTHING_DONE, Fine))
  {
    var excluded := settings.excluded;
    var c' := c.(lastRev := |s.table.log|);
    NextPullFindsNothing(settings, s, c, entries, clock, world);
    ScannedIsUpToDate(s, c, c', files, excluded);
    NothingToUpload(s, c', files, clock, NOTHING_DONE);
    NoneIsGone(s, c, gone, excluded, world);
  }

  lemma ScannedIsUpToDate(s: State, c: Client, c': Client, files: seq<Path>, excluded: Path -> bool)
    requires Together(s, c, excluded) && Enumerates(files, Scanned(c, excluded))
    requires c'.local == c.local && c'.records == c.records
    ensures forall i :: 0 <= i < |files| ==> UpToDate(c', files[i])
  {
    forall i | 0 <= i < |files| ensures UpToDate(c', files[i]) {
      assert files[i] in AsSet(files);
      assert TogetherAt(s, c, files[i]);
    }
  }

  lemma EmptyList(paths: seq<Path>)
    ensures AsSet(paths) == {} ==> paths == []
  {
    if paths != [] {
      assert paths[0] in AsSet(paths);
    }
  }

  lemma NoneIsGone(s: State, c: Client, gone: seq<Path>, excluded: Path -> bool, world: set<Path>)
    requires Pushing(s, c, excluded, world) && Together(s, c, excluded)
    requires Enumerates(gone, c.records.Keys - Scanned(c, excluded))
    ensures gone == []
  {
    forall p | p in c.records ensures p in Scanned(c, excluded) {
      assert MirrorAt(s, c, p) && TogetherAt(s, c, p);
    }
    EmptyList(gone);
  }
}
