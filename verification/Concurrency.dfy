/**
 Optimistic concurrency: a version is only ever replaced by somebody who names its
 revision, and so, among clients, only by one that has it on record.
 */
module Concurrency {
  import opened Basics
  import opened Index
  import opened Server
  import opened ClientModel
  import opened Cursor
  import opened Protocol
  import Conservation
  import TrashNames

  // ── One request ────────────────────────────────────────────────────────────

  // An upload gets as far as being written: its path is no directory and no other's
  // twin, and its body is what it says it is.
  predicate Writable(s: State, r: Request)
    requires r.Put?
  {
    Conservation.Writes(s, r) && Declares(r.declared, r.body)
  }

  // It takes the path exactly if it names the revision that is there. Otherwise the
  // path is as it was, and the body is served under the generated name.
  lemma UploadOutcome(s: State, r: Request)
    requires Consistent(s) && r.Put? && Writable(s, r)
    requires LiveRev(s.table, r.path) != r.base ==> r.conflict != r.path && !Clash(s.table, r.conflict)
    ensures var (s', response) := PutFile(s, r);
      if LiveRev(s.table, r.path) == r.base then
        && response == Stored(|s'.table.log|, !Live(s.table, r.path))
        && GetFile(s', r.path) == Content(r.body, |s'.table.log|, Sha256(r.body))
      else
        && response == Conflict(r.conflict, |s'.table.log|)
        && GetFile(s', r.path) == GetFile(s, r.path)
        && GetFile(s', r.conflict) == Content(r.body, |s'.table.log|, Sha256(r.body))
  {
    Conservation.FoldsMeet();
  }

  // The requests that may change what is served at a path.
  predicate Replaces(s: State, r: Request, p: Path)
    requires Live(s.table, p)
  {
    match r
    case Put(path, base, _, _, conflict, _, _) =>
      if LiveRev(s.table, path) == base then p == path else p == conflict
    case Delete(path, base, _) => p == path && base == s.table.rows[p].rev
    case Restore(_) => false
    case Purge(paths, _) => p in paths
    case MakeDir(_, _) => false
  }

  lemma {:induction false} PurgeTouchesItsPaths(s: State, paths: seq<Path>, stamp: string, p: Path)
    requires p !in paths
    ensures GetFile(PurgeIgnored(s, paths, stamp), p) == GetFile(s, p)
    decreases |paths|
  {
    if paths != [] {
      PurgeTouchesItsPaths(PurgeOne(s, paths[0], stamp), paths[1..], stamp, p);
    }
  }

  // What is served at a path stays, content, revision and hash, through every request
  // but one that names its revision, purges it, or was given its name for a conflict.
  lemma OnlyANamedVersionIsReplaced(s: State, r: Request, p: Path)
    requires Consistent(s) && Serves(s, p) && !Replaces(s, r, p)
    ensures GetFile(Handle(s, r).0, p) == GetFile(s, p)
  {
    match r
    case Purge(paths, stamp) => PurgeTouchesItsPaths(s, paths, stamp, p);
    case _ =>
  }

  // ── What a restore undoes ──────────────────────────────────────────────────

  // A deleted file that is restored is served as before, at a new revision; disk and
  // trash are what they were. That is so if and only if its path has no two dots in a
  // row; with them it stays in the trash.
  lemma RestoreUndoesDelete(s: State, p: Path, stamp: string)
    requires Consistent(s) && Serves(s, p) && EncodeId(stamp, p) !in s.trash
    requires '/' !in stamp && '\\' !in stamp && !TwoDots(stamp)
    ensures var (s1, deleted) := DeleteFile(s, Delete(p, s.table.rows[p].rev, stamp));
      var (s2, restored) := RestoreTrash(s1, EncodeId(stamp, p));
      && deleted.Deleted? && GetFile(s1, p) == Missing
      && (restored.Restored? <==> !TwoDots(p))
      && if TwoDots(p) then restored == NotFound && s2 == s1
         else
           && s2.disk == s.disk && s2.trash == s.trash
           && GetFile(s2, p) == Content(GetFile(s, p).body, |s.table.log| + 2, GetFile(s, p).sha)
  {
    assert Described(s, p);
    TrashNames.RefusedForTwoDots(stamp, p);
    Conservation.TrashedUnderItsName(s, p, stamp);
    var s1 := DeleteFile(s, Delete(p, s.table.rows[p].rev, stamp)).0;
    assert s1.trash - {EncodeId(stamp, p)} == s.trash;
    assert s1.disk[p := s.disk[p]] == s.disk;
    LiveHasNoTwin(s.table, p);
    SameTwins(s.table, s1.table, p);
  }

  lemma LiveHasNoTwin(t: Table, p: Path)
    requires Valid(t) && Live(t, p)
    ensures !Clash(t, p)
  {
    if Clash(t, p) {
      ClashIsNotLive(t, p);
    }
  }

  lemma SameTwins(t: Table, t': Table, p: Path)
    requires t.rows.Keys == t'.rows.Keys && forall q :: q in t.rows && q != p ==> t.rows[q] == t'.rows[q]
    ensures Clash(t, p) <==> Clash(t', p)
  {}

  // ── Clients ────────────────────────────────────────────────────────────────

  // The client has this very version on record.
  predicate OnRecord(s: State, c: Client, p: Path)
    requires p in s.table.rows
  {
    p in c.records && c.records[p].rev == s.table.rows[p].rev && c.records[p].sha == s.table.rows[p].sha
  }

  lemma RevisionMeansVersion(s: State, excluded: Path -> bool, c: Client, p: Path)
    requires Consistent(s) && CursorHolds(s, excluded, c) && Live(s.table, p)
    requires p in c.records && c.records[p].rev == s.table.rows[p].rev
    ensures OnRecord(s, c, p)
  {
    assert Issued(s, c, p) && RowIsNewest(s.table, p);
  }

  predicate NamedForConflict(action: Action, p: Path) {
    action.Upload? && p == action.clock.conflict(action.path)
  }

  lemma StepReplacesOnlyWhatItHas(settings: Settings, s: State, n: Node, action: Action, p: Path)
    requires Consistent(s) && CursorHolds(s, settings.excluded, n.client) && Serves(s, p)
    requires GetFile(Act(settings, s, n, action).0, p) != GetFile(s, p)
    ensures OnRecord(s, n.client, p) || NamedForConflict(action, p)
  {
    var c := n.client;
    assert RowIsNewest(s.table, p);
    match action
    case Upload(q, snapshot, clock) =>
      OnlyANamedVersionIsReplacedBy(s, UploadOf(c, q, snapshot.body, clock), p);
      if p == q && LiveRev(s.table, q) == KnownRev(c, q) {
        RevisionMeansVersion(s, settings.excluded, c, p);
      }
    case DeleteRemotely(q, clock) =>
      OnlyANamedVersionIsReplacedBy(s, DeletionOf(c, q, clock), p);
      RevisionMeansVersion(s, settings.excluded, c, p);
    case _ =>
  }

  // In any run from the beginning: a client's step that changes what is served at a
  // path finds the version it replaces in that client's records. The one exception is
  // the name a losing upload is stored under.
  lemma ClientsReplaceOnlyWhatTheyHave(settings: Settings, sys: System, moves: seq<Label>, id: NodeId, action: Action, p: Path)
    requires Fresh(sys)
    requires var now := Run(settings, sys, moves);
      && id in now.nodes && Serves(now.server, p)
      && GetFile(Step(settings, now, ByClient(id, action)).server, p) != GetFile(now.server, p)
    ensures var now := Run(settings, sys, moves);
      OnRecord(now.server, now.nodes[id].client, p) || NamedForConflict(action, p)
  {
    FreshHolds(settings, sys);
    EveryRunHolds(settings, sys, moves);
    var now := Run(settings, sys, moves);
    assert NodeHolds(now.server, settings.excluded, now.nodes[id]);
    StepReplacesOnlyWhatItHas(settings, now.server, now.nodes[id], action, p);
  }

  lemma OnlyANamedVersionIsReplacedBy(s: State, r: Request, p: Path)
    requires Consistent(s) && Serves(s, p) && GetFile(Handle(s, r).0, p) != GetFile(s, p)
    ensures Replaces(s, r, p)
  {
    if !Replaces(s, r, p) {
      OnlyANamedVersionIsReplaced(s, r, p);
    }
  }

  // Pushing a file loses nothing either: its bytes are still in the folder, or they
  // are served under the name the server gave them.
  lemma PushLosesNothing(s: State, c: Client, p: Path, clock: Clock, summary: Summary)
    requires Consistent(s) && p in c.local
    requires clock.conflict(p) != p && !Clash(s.table, clock.conflict(p))
    ensures var (s', progress) := PushFile(s, c, p, clock, summary);
      || (p in progress.client.local && progress.client.local[p].body == c.local[p].body)
      || (Serves(s', clock.conflict(p)) && GetFile(s', clock.conflict(p)).body == c.local[p].body)
  {
    var r := UploadOf(c, p, c.local[p].body, clock);
    if Writable(s, r) {
      UploadOutcome(s, r);
    }
  }
}
