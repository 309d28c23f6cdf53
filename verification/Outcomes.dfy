/**
 What each request answers and does, said of paths, files and rows rather than of the
 handlers' own tests.
 */
module Outcomes {
  import opened Basics
  import opened Index
  import opened Server

  // Row and file of a path.
  ghost predicate SamePath(s: State, s': State, q: Path) {
    && (q in s.table.rows <==> q in s'.table.rows) && (q in s.table.rows ==> s.table.rows[q] == s'.table.rows[q])
    && (q in s.disk <==> q in s'.disk) && (q in s.disk ==> s.disk[q] == s'.disk[q])
  }

  // A file on disk, or a directory.
  ghost predicate Present(s: State, q: Path) {
    q in s.disk || LiveDirectory(s.table, q)
  }

  ghost predicate SomethingBelow(s: State, dir: Path) {
    exists rest: string :: Present(s, dir + "/" + rest)
  }

  lemma BelowIsUnder(s: State, dir: Path)
    ensures SomethingBelow(s, dir) <==> NonEmpty(s, dir)
  {
    if rest: string :| Present(s, dir + "/" + rest) {
      var q := dir + "/" + rest;
      assert Under(dir, q);
    }
    if p :| (p in s.disk || (p in s.table.rows && LiveDirectory(s.table, p))) && Under(dir, p) {
      assert p == dir + "/" + p[|dir| + 1..];
      assert Present(s, dir + "/" + p[|dir| + 1..]);
    }
  }

  // A deletion answers by what is there, and only one that is carried out changes
  // anything, at its own path. Of a directory it is refused exactly if something lies
  // below, so nothing is ever left below one that is deleted.
  lemma DeleteOutcome(s: State, p: Path, base: nat, stamp: string)
    ensures var (s', response) := DeleteFile(s, Delete(p, base, stamp));
      var current := Live(s.table, p) && s.table.rows[p].rev == base;
      && (response == NotFound <==> !Live(s.table, p))
      && (response == Stale <==> Live(s.table, p) && !current)
      && (response == NotEmpty <==> current && LiveDirectory(s.table, p) && SomethingBelow(s, p))
      && (if response.Deleted? then !Live(s'.table, p) && response.rev == |s'.table.log| == |s.table.log| + 1
          else s' == s && response in {NotFound, Stale, NotEmpty})
      && (response.Deleted? && LiveDirectory(s.table, p) ==> !SomethingBelow(s', p))
      && (response.Deleted? && LiveFile(s.table, p) ==> p !in s'.disk)
      && (forall q :: q != p ==> SamePath(s, s', q))
  {
    BelowIsUnder(s, p);
    BelowIsUnder(DeleteFile(s, Delete(p, base, stamp)).0, p);
  }

  // A restore answers by what is at the path the item came from. Only one that finds
  // nothing there moves the file back.
  lemma RestoreOutcome(s: State, id: string)
    ensures var (s', response) := RestoreTrash(s, id);
      if Rejected(id) || id !in s.trash then response == NotFound && s' == s
      else
        var item := s.trash[id];
        && (response == Occupied <==> Present(s, item.path))
        && (response == CaseCollision <==> !Present(s, item.path) && Clash(s.table, item.path))
        && (if response == Occupied then s' == s
            else id !in s'.trash && item.path in s'.disk && s'.disk[item.path] == item.file)
        && (response !in {Occupied, CaseCollision} ==>
              && response == Restored(|s'.table.log|)
              && GetFile(s', item.path) == Content(item.file.body, |s'.table.log|, Sha256(item.file.body)))
        && (forall q :: q != item.path ==> SamePath(s, s', q))
  {}

  // A directory is made where nothing is; made again it is what it was; and whatever
  // else is there is left alone.
  lemma MakeDirectoryOutcome(s: State, p: Path, now: int)
    requires Consistent(s)
    ensures var (s', response) := MakeDirectory(s, p, now);
      && (LiveDirectory(s.table, p) ==> response == Made(s.table.rows[p].rev, false))
      && (LiveFile(s.table, p) ==> response == IsFile)
      && (!Live(s.table, p) && !Clash(s.table, p) && p !in s.disk ==>
            && response == Made(|s'.table.log|, true)
            && |s'.table.log| == |s.table.log| + 1
            && p in s'.table.rows && s'.table.rows[p] == Entry(p, Directory, 0, now, NoDigest, |s'.table.log|, false))
      && (!(response.Made? && response.created) ==> s' == s)
      && (response.Made? <==> LiveDirectory(s'.table, p))
      && s'.disk == s.disk && s'.trash == s.trash && forall q :: q != p ==> SamePath(s, s', q)
  {
    assert RowIsNewest(s.table, p);
  }

  // ── Purges ─────────────────────────────────────────────────────────────────

  // The file of a path is in the trash, and was not before.
  ghost predicate Trashed(s: State, s': State, p: Path)
    requires p in s.disk
  {
    exists id :: id in s'.trash && id !in s.trash && s'.trash[id].file == s.disk[p]
  }

  // What a purge does to one path: a live one is deleted, and its file is kept in the
  // trash; nothing else changes.
  ghost predicate PurgedAt(s: State, s': State, paths: seq<Path>, p: Path) {
    if p in paths && Live(s.table, p) then
      && !Live(s'.table, p)
      && (LiveFile(s.table, p) ==> p !in s'.disk && (p in s.disk ==> Trashed(s, s', p)))
    else SamePath(s, s', p)
  }

  lemma PurgeOneOutcome(s: State, p: Path, stamp: string, q: Path)
    ensures PurgedAt(s, PurgeOne(s, p, stamp), [p], q)
    ensures forall id :: id in s.trash ==> id in PurgeOne(s, p, stamp).trash && PurgeOne(s, p, stamp).trash[id] == s.trash[id]
  {
    if q == p && LiveFile(s.table, p) && p in s.disk {
      var id := EncodeId(stamp, p) + FreshSuffix(s.trash.Keys, EncodeId(stamp, p), 1);
      assert PurgeOne(s, p, stamp).trash[id].file == s.disk[p];
    }
  }

  lemma {:induction false} PurgeOutcome(s: State, paths: seq<Path>, stamp: string, p: Path)
    ensures PurgedAt(s, PurgeIgnored(s, paths, stamp), paths, p)
    ensures forall id :: id in s.trash ==>
      id in PurgeIgnored(s, paths, stamp).trash && PurgeIgnored(s, paths, stamp).trash[id] == s.trash[id]
    decreases |paths|
  {
    if paths != [] {
      var s1, s2 := PurgeOne(s, paths[0], stamp), PurgeIgnored(s, paths, stamp);
      PurgeOneOutcome(s, paths[0], stamp, p);
      PurgeOutcome(s1, paths[1..], stamp, p);
      assert p in paths <==> p == paths[0] || p in paths[1..];
      PurgedInTurn(s, s1, s2, paths, p);
    }
  }

  lemma PurgedInTurn(s: State, s1: State, s2: State, paths: seq<Path>, p: Path)
    requires paths != [] && PurgedAt(s, s1, [paths[0]], p) && PurgedAt(s1, s2, paths[1..], p)
    requires forall id :: id in s.trash ==> id in s1.trash && s1.trash[id] == s.trash[id]
    requires forall id :: id in s1.trash ==> id in s2.trash && s2.trash[id] == s1.trash[id]
    ensures PurgedAt(s, s2, paths, p)
  {
    if p == paths[0] && LiveFile(s.table, p) && p in s.disk {
      var id :| id in s1.trash && id !in s.trash && s1.trash[id].file == s.disk[p];
      assert id in s2.trash && s2.trash[id].file == s.disk[p];
    } else if p in paths[1..] && LiveFile(s.table, p) && p in s.disk {
      var id :| id in s2.trash && id !in s1.trash && s2.trash[id].file == s1.disk[p];
      assert id !in s.trash && s2.trash[id].file == s.disk[p];
    }
  }

  // ── Uploads ────────────────────────────────────────────────────────────────

  // What an upload is answered: over a directory and beside a case twin nothing is
  // written; a body other than declared is refused; at the revision that is there, or
  // with none where nothing is, it is stored, and at any other under the conflict name.
  lemma UploadAnswers(s: State, r: Request)
    requires r.Put?
    ensures var (s', response) := PutFile(s, r);
      var stale := r.base != if Live(s.table, r.path) then s.table.rows[r.path].rev else 0;
      var target := if stale then r.conflict else r.path;
      if LiveDirectory(s.table, r.path) then response == IsDirectory && s' == s
      else if Clash(s.table, r.path) then response == CaseCollision && s' == s
      else if LiveDirectory(s.table, target) then response == Unwritable && s' == s
      else if r.declared.Some? && r.declared.value != Sha256(r.body) then
        response == HashMismatch && s'.table == s.table
      else if Clash(s.table, target) then response == CaseCollision && s'.table == s.table
      else
        && s'.disk.Keys == s.disk.Keys + {target} && s'.disk[target] == File(r.body, r.now)
        && LiveFile(s'.table, target) && s'.table.rows[target].mtime == r.now
        && response == if stale then Conflict(target, |s'.table.log|) else Stored(|s'.table.log|, !Live(s.table, r.path))
  {}
}
