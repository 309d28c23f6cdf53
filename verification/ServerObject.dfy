/**
 The server as it runs: an index whose transactions update rows and a counter, and
 handlers that look up, move to the trash, write and record, in that order. Each is
 proved against its value in Index and Server.
 */
module ServerObject {
  import opened Basics
  import opened Index
  import opened Server

  class IndexStore {
    var rows: map<Path, Entry>
    var currentRev: nat
    ghost var log: seq<Entry>

    ghost function Contents(): Table
      reads this
    {
      Table(log, rows)
    }

    ghost predicate Counts()
      reads this
    {
      currentRev == |log|
    }

    constructor ()
      ensures Counts() && Contents() == EMPTY_TABLE
    {
      rows, currentRev, log := map[], 0, [];
    }

    method Lookup(p: Path) returns (found: Option<Entry>)
      ensures found == if p in rows then Some(rows[p]) else None
    {
      if p in rows {
        return Some(rows[p]);
      }
      return None;
    }

    method CheckCaseCollision(p: Path) returns (collides: bool)
      ensures collides == Clash(Contents(), p)
    {
      collides := exists q :: q in rows && q != p && !rows[q].deleted && Fold(q) == Fold(p);
    }

    method NextRev() returns (rev: nat)
      modifies this`currentRev
      ensures currentRev == rev == old(currentRev) + 1
    {
      currentRev := currentRev + 1;
      rev := currentRev;
    }

    // The transaction is rolled back, counter and all, when the path collides.
    method Upsert(e: Entry) returns (rev: Option<nat>)
      requires Counts()
      modifies this
      ensures Counts()
      ensures Clash(old(Contents()), e.path) ==> rev == None && Contents() == old(Contents())
      ensures !Clash(old(Contents()), e.path) ==>
        rev == Some(currentRev) && Contents() == Upserted(old(Contents()), e)
    {
      var collides := CheckCaseCollision(e.path);
      if collides {
        return None;
      }
      var next := NextRev();
      var row := e.(rev := next, deleted := false);
      rows := rows[e.path := row];
      log := log + [row];
      rev := Some(next);
    }

    method MarkDeleted(p: Path) returns (rev: nat)
      requires Counts()
      modifies this
      ensures Counts() && rev == currentRev && Contents() == Tombstoned(old(Contents()), p)
    {
      rev := NextRev();
      if p in rows {
        var row := rows[p].(rev := rev, deleted := true, sha := NoDigest, size := 0);
        rows := rows[p := row];
        log := log + [row];
      } else {
        log := log + [Entry(p, RegularFile, 0, 0, NoDigest, rev, true)];
      }
    }

    // Rows newer than `since`, oldest first; a limit of zero means no limit.
    method Changes(since: nat, limit: nat) returns (entries: seq<Entry>)
      requires Index.Valid(Contents())
      ensures entries == Page(rows, since, if limit == 0 then |rows| else limit)
    {
      entries := [];
      var left: nat := if limit == 0 then |rows| else limit;
      ghost var most := left;
      var cursor: nat := since;
      while left > 0 && exists p :: p in rows && cursor < rows[p].rev
        invariant left <= most
        invariant Page(rows, since, most) == entries + Page(rows, cursor, left)
        decreases left
      {
        var p := NextRow(cursor);
        PageGoesOn(Contents(), cursor, left, p, entries);
        entries := entries + [rows[p]];
        cursor := rows[p].rev;
        left := left - 1;
      }
      PageEnds(rows, cursor, left);
      assert entries + [] == entries;
    }

    method NextRow(cursor: nat) returns (p: Path)
      requires exists q :: q in rows && cursor < rows[q].rev
      ensures Oldest(rows, cursor, p)
    {
      ghost var above :| above in rows && cursor < rows[above].rev;
      OldestExists(rows, cursor, above);
      ghost var q :| Oldest(rows, cursor, q);
      assert q in rows && cursor < rows[q].rev && forall r | r in rows && cursor < rows[r].rev :: rows[q].rev <= rows[r].rev by {
        forall r | r in rows && cursor < rows[r].rev ensures rows[q].rev <= rows[r].rev {
          assert Above(rows, cursor, r);
        }
      }
      p :| p in rows && cursor < rows[p].rev && forall r | r in rows && cursor < rows[r].rev :: rows[p].rev <= rows[r].rev;
    }
  }

  lemma PageGoesOn(t: Table, cursor: nat, left: nat, p: Path, before: seq<Entry>)
    requires Index.Valid(t) && left > 0 && Oldest(t.rows, cursor, p)
    ensures before + Page(t.rows, cursor, left) == before + [t.rows[p]] + Page(t.rows, t.rows[p].rev, left - 1)
  {
    PageStartsWith(t, cursor, left, p);
    Regroup(before, [t.rows[p]], Page(t.rows, t.rows[p].rev, left - 1));
  }

  lemma PageEnds(rows: map<Path, Entry>, cursor: nat, left: nat)
    requires left == 0 || forall p :: p in rows ==> rows[p].rev <= cursor
    ensures Page(rows, cursor, left) == []
  {
    assert !exists p :: left > 0 && Oldest(rows, cursor, p);
  }

  // A name that is taken gets the next number appended, and is not met again.
  lemma NextSuffix(taken: set<string>, base: string, suffix: string, i: nat)
    requires base + suffix in taken
    ensures var id, more := base + suffix, "." + Digits(i);
      && id + more == base + (suffix + more) && |id + more| > |id|
      && suffix + FreshSuffix(taken, id, i) == (suffix + more) + FreshSuffix(taken - {id}, id + more, i + 1)
  {
    var id, more := base + suffix, "." + Digits(i);
    var rest := FreshSuffix(taken - {id}, id + more, i + 1);
    Regroup(suffix, more, rest);
    Regroup(base, suffix, more);
  }

  class HomeServer {
    const index: IndexStore
    var disk: map<Path, File>
    var trash: map<string, Item>

    ghost function View(): State
      reads this, index
    {
      State(index.Contents(), disk, trash)
    }

    ghost predicate Ready()
      reads this, index
    {
      index.Counts() && Consistent(View())
    }

    constructor ()
      ensures Ready() && View() == EMPTY_STATE && fresh(index)
    {
      index := new IndexStore();
      disk, trash := map[], map[];
      new;
      assert Valid(EMPTY_TABLE);
    }

    // Two deletions of one path inside a millisecond would collide.
    method TrashPut(p: Path, stamp: string)
      requires p in disk && index.Counts()
      modifies this`disk, this`trash
      ensures View() == MoveToTrash(old(View()), p, stamp)
    {
      var id := EncodeId(stamp, p);
      var suffix := "";
      var i := 1;
      ghost var taken := trash.Keys;
      assert id + "" == id;
      while id in trash
        invariant id == EncodeId(stamp, p) + suffix && i >= 1
        invariant forall x :: |x| >= |id| ==> (x in taken <==> x in trash)
        invariant FreshSuffix(trash.Keys, EncodeId(stamp, p), 1) == suffix + FreshSuffix(taken, id, i)
        decreases |taken|
        modifies {}
      {
        var more := "." + Digits(i);
        NextSuffix(taken, EncodeId(stamp, p), suffix, i);
        taken := taken - {id};
        id, suffix, i := id + more, suffix + more, i + 1;
      }
      assert suffix + "" == suffix;
      trash := trash[id := Item(p + suffix, disk[p])];
      disk := disk - {p};
    }

    // The file that is about to go, if there is one, is kept under a fresh trash name.
    method PreserveOld(p: Path, stamp: string)
      requires index.Counts()
      modifies this`disk, this`trash
      ensures View() == MoveToTrash(old(View()), p, stamp)
    {
      if p in disk {
        TrashPut(p, stamp);
      }
    }

    method Store(p: Path, body: Body, declared: Option<Digest>, now: int) returns (response: Response)
      requires index.Counts()
      modifies this, index
      ensures index.Counts() && (View(), response) == StoreFile(old(View()), p, body, declared, now)
    {
      if p in index.rows && !index.rows[p].deleted && index.rows[p].kind == Directory {
        return Unwritable;
      }
      var created := p !in index.rows || index.rows[p].deleted;
      var file := File(body, now);
      disk := disk[p := file];
      if declared.Some? && declared.value != Sha256(body) {
        disk := disk - {p};
        assert disk == old(disk) - {p};
        return HashMismatch;
      }
      var rev := index.Upsert(FileEntry(p, file));
      if rev == None {
        return CaseCollision;
      }
      response := Stored(rev.value, created);
    }

    method HandlePut(r: Request) returns (response: Response)
      requires r.Put? && Ready()
      modifies this, index
      ensures Ready() && Evolves(old(View()), View()) && (View(), response) == PutFile(old(View()), r)
    {
      RequestKeeps(View(), r);
      var found := index.Lookup(r.path);
      if found.Some? && found.value.kind == Directory && !found.value.deleted {
        return IsDirectory;
      }
      var collides := index.CheckCaseCollision(r.path);
      if collides {
        return CaseCollision;
      }
      var live := found.Some? && !found.value.deleted;
      if (if live then found.value.rev else 0) != r.base {
        response := Store(r.conflict, r.body, r.declared, r.now);
        if response.Stored? {
          response := Conflict(r.conflict, response.rev);
        }
        return;
      }
      if live {
        PreserveOld(r.path, r.stamp);
      }
      response := Store(r.path, r.body, r.declared, r.now);
    }

    method HasChildren(dir: Path) returns (some: bool)
      ensures some == NonEmpty(View(), dir)
    {
      some := exists p :: p in disk && Under(dir, p);
      if !some {
        some := exists p :: p in index.rows && !index.rows[p].deleted && index.rows[p].kind == Directory && Under(dir, p);
      }
    }

    method HandleDelete(r: Request) returns (response: Response)
      requires r.Delete? && Ready()
      modifies this, index
      ensures Ready() && Evolves(old(View()), View()) && (View(), response) == DeleteFile(old(View()), r)
    {
      RequestKeeps(View(), r);
      var found := index.Lookup(r.path);
      if found == None || found.value.deleted {
        return NotFound;
      }
      if found.value.rev != r.base {
        return Stale;
      }
      if found.value.kind == RegularFile {
        PreserveOld(r.path, r.stamp);
      } else {
        var some := HasChildren(r.path);
        if some {
          return NotEmpty;
        }
      }
      var rev := index.MarkDeleted(r.path);
      response := Deleted(rev);
    }

    method HandleGet(p: Path) returns (download: Download)
      requires index.Counts()
      ensures download == GetFile(View(), p)
    {
      var found := index.Lookup(p);
      if found == None || found.value.deleted {
        return Missing;
      }
      if found.value.kind == Directory {
        return NotAFile;
      }
      if p !in disk {
        return Missing;
      }
      download := Content(disk[p].body, found.value.rev, found.value.sha);
    }

    method HandleRestore(id: string) returns (response: Response)
      requires Ready()
      modifies this, index
      ensures Ready() && Evolves(old(View()), View()) && (View(), response) == RestoreTrash(old(View()), id)
    {
      RequestKeeps(View(), Restore(id));
      if Rejected(id) || id !in trash {
        return NotFound;
      }
      var item := trash[id];
      var found := index.Lookup(item.path);
      if item.path in disk || (found.Some? && found.value.kind == Directory && !found.value.deleted) {
        return Occupied;
      }
      disk, trash := disk[item.path := item.file], trash - {id};
      var rev := index.Upsert(FileEntry(item.path, item.file));
      if rev == None {
        return CaseCollision;
      }
      response := Restored(rev.value);
    }

    // Every live path the saved rules exclude, one after the other.
    method HandlePurge(paths: seq<Path>, stamp: string)
      requires Ready()
      modifies this, index
      ensures Ready() && Evolves(old(View()), View()) && View() == PurgeIgnored(old(View()), paths, stamp)
    {
      PurgeKeeps(View(), paths, stamp);
      ghost var start := View();
      var i := 0;
      while i < |paths|
        invariant 0 <= i <= |paths|
        invariant index.Counts()
        invariant PurgeIgnored(start, paths, stamp) == PurgeIgnored(View(), paths[i..], stamp)
        modifies this, index
      {
        var found := index.Lookup(paths[i]);
        if found.Some? && !found.value.deleted {
          if found.value.kind == RegularFile {
            PreserveOld(paths[i], stamp);
          }
          var rev := index.MarkDeleted(paths[i]);
        }
        assert paths[i..][1..] == paths[i + 1..];
        i := i + 1;
      }
    }

    method HandleMakeDir(p: Path, now: int) returns (response: Response)
      requires Ready()
      modifies this, index
      ensures Ready() && Evolves(old(View()), View()) && (View(), response) == MakeDirectory(old(View()), p, now)
    {
      RequestKeeps(View(), MakeDir(p, now));
      var found := index.Lookup(p);
      if found.Some? && !found.value.deleted {
        return if found.value.kind == RegularFile then IsFile else Made(found.value.rev, false);
      }
      var collides := index.CheckCaseCollision(p);
      if collides {
        return CaseCollision;
      }
      if p in disk {
        return Unwritable;
      }
      var rev := index.Upsert(Entry(p, Directory, 0, now, NoDigest, 0, false));
      response := Made(rev.value, true);
    }

    method Serve(r: Request) returns (response: Response)
      requires Ready()
      modifies this, index
      ensures Ready() && Evolves(old(View()), View()) && (View(), response) == Handle(old(View()), r)
    {
      match r
      case Put(_, _, _, _, _, _, _) => response := HandlePut(r);
      case Delete(_, _, _) => response := HandleDelete(r);
      case Restore(id) => response := HandleRestore(id);
      case Purge(paths, stamp) => HandlePurge(paths, stamp); response := Purged;
      case MakeDir(p, now) => response := HandleMakeDir(p, now);
    }

    // Anybody else's requests, one after the other.
    method ServeAll(requests: seq<Request>)
      requires Ready()
      modifies this, index
      ensures Ready() && Evolves(old(View()), View()) && View() == HandleAll(old(View()), requests)
    {
      RequestsKeep(View(), requests);
      ghost var start := View();
      var i := 0;
      while i < |requests|
        invariant 0 <= i <= |requests|
        invariant Ready()
        invariant HandleAll(start, requests) == HandleAll(View(), requests[i..])
        modifies this, index
      {
        var response := Serve(requests[i]);
        assert requests[i..][1..] == requests[i + 1..];
        i := i + 1;
      }
    }
  }
}
