/**
 The server as a value: its index, the files in the data directory and the trash,
 and what each request handler makes of them. One request is handled at a time.
 */
module Server {
  import opened Basics
  import opened Index

  // One entry of the trash, under the path its name decodes to.
  datatype Item = Item(path: Path, file: File)

  datatype State = State(table: Table, disk: map<Path, File>, trash: map<string, Item>)

  const EMPTY_STATE := State(EMPTY_TABLE, map[], map[])

  // `now` is the clock, `stamp` the clock as the trash spells it, and `conflict`
  // the name this server would generate for a losing write.
  datatype Request =
    | Put(path: Path, base: nat, body: Body, declared: Option<Digest>, conflict: Path, now: int, stamp: string)
    | Delete(path: Path, base: nat, stamp: string)
    | Restore(id: string)
    | Purge(paths: seq<Path>, stamp: string)
    | MakeDir(path: Path, now: int)

  datatype Response =
    | Stored(rev: nat, created: bool)
    | Conflict(name: Path, rev: nat)
    | HashMismatch
    | CaseCollision
    | IsDirectory
    | Deleted(rev: nat)
    | NotFound
    | Stale
    | NotEmpty
    | Restored(rev: nat)
    | Occupied
    | Purged
    | Made(rev: nat, created: bool)
    | IsFile
    | Unwritable

  datatype Download = Missing | NotAFile | Content(body: Body, rev: nat, sha: Digest)

  // ── The trash ──────────────────────────────────────────────────────────────

  function Digits(n: nat): string {
    if n < 10 then [('0' as int + n) as char] else Digits(n / 10) + Digits(n % 10)
  }

  function EncodeId(stamp: string, p: Path): string {
    stamp + "_" + Escape(p)
  }

  // What a URL path segment may hold as it is.
  predicate Unreserved(ch: char) {
    'a' <= ch <= 'z' || 'A' <= ch <= 'Z' || '0' <= ch <= '9' || ch in "-_.~$&+:=@"
  }

  function HexDigit(n: nat): char
    requires n < 16
  {
    if n < 10 then ('0' as int + n) as char else ('A' as int + n - 10) as char
  }

  // One byte of a name. A character that is no byte is left as it is.
  function EscapeChar(ch: char): string {
    if Unreserved(ch) || ch as int >= 256 then [ch]
    else ['%', HexDigit(ch as int / 16), HexDigit(ch as int % 16)]
  }

  function Escape(p: Path): string {
    if p == "" then "" else EscapeChar(p[0]) + Escape(p[1..])
  }

  predicate TwoDots(text: string) {
    |text| >= 2 && ((text[0] == '.' && text[1] == '.') || TwoDots(text[1..]))
  }

  // The names that are not looked up: they might lead out of the trash.
  predicate Rejected(id: string) {
    id == "" || '/' in id || '\\' in id || TwoDots(id)
  }

  // What has to be appended to `id` until no item has that name.
  function FreshSuffix(taken: set<string>, id: string, i: nat): (suffix: string)
    ensures id + suffix !in taken
    decreases |taken|
  {
    if id !in taken then
      assert id + "" == id;
      ""
    else
      var more := "." + Digits(i);
      var rest := FreshSuffix(taken - {id}, id + more, i + 1);
      assert id + more + rest == id + (more + rest);
      assert |id + (more + rest)| > |id|;
      more + rest
  }

  function MoveToTrash(s: State, p: Path, stamp: string): State {
    if p !in s.disk then s
    else
      var suffix := FreshSuffix(s.trash.Keys, EncodeId(stamp, p), 1);
      s.(disk := s.disk - {p},
         trash := s.trash[EncodeId(stamp, p) + suffix := Item(p + suffix, s.disk[p])])
  }

  // ── Handlers ───────────────────────────────────────────────────────────────

  function LiveRev(t: Table, p: Path): nat {
    if Live(t, p) then t.rows[p].rev else 0
  }

  predicate Declares(declared: Option<Digest>, body: Body) {
    declared == None || declared.value == Sha256(body)
  }

  function FileEntry(p: Path, file: File): Entry {
    Entry(p, RegularFile, |file.body|, file.mtime, Sha256(file.body), 0, false)
  }

  // The write happens before the hash is compared and before the row is made, so
  // a mismatch undoes it and a collision leaves it on disk without a row. Nothing is
  // renamed over a directory.
  function StoreFile(s: State, p: Path, body: Body, declared: Option<Digest>, now: int): (State, Response) {
    var file := File(body, now);
    if LiveDirectory(s.table, p) then (s, Unwritable)
    else if !Declares(declared, body) then (s.(disk := s.disk - {p}), HashMismatch)
    else if Clash(s.table, p) then (s.(disk := s.disk[p := file]), CaseCollision)
    else
      (s.(disk := s.disk[p := file], table := Upserted(s.table, FileEntry(p, file))),
       Stored(|s.table.log| + 1, !Live(s.table, p)))
  }

  predicate LiveDirectory(t: Table, p: Path) {
    Live(t, p) && t.rows[p].kind == Directory
  }

  predicate LiveFile(t: Table, p: Path) {
    Live(t, p) && t.rows[p].kind == RegularFile
  }

  function PutFile(s: State, r: Request): (State, Response)
    requires r.Put?
  {
    if LiveDirectory(s.table, r.path) then (s, IsDirectory)
    else if Clash(s.table, r.path) then (s, CaseCollision)
    else if LiveRev(s.table, r.path) != r.base then
      var (s', response) := StoreFile(s, r.conflict, r.body, r.declared, r.now);
      (s', if response.Stored? then Conflict(r.conflict, response.rev) else response)
    else
      var s1 := if Live(s.table, r.path) then MoveToTrash(s, r.path, r.stamp) else s;
      StoreFile(s1, r.path, r.body, r.declared, r.now)
  }

  predicate Under(dir: Path, p: Path) {
    dir + "/" <= p
  }

  // Something is in a directory: a file, or another directory.
  predicate NonEmpty(s: State, dir: Path) {
    || (exists p :: p in s.disk && Under(dir, p))
    || (exists p :: p in s.table.rows && LiveDirectory(s.table, p) && Under(dir, p))
  }

  function DeleteFile(s: State, r: Request): (State, Response)
    requires r.Delete?
  {
    if !Live(s.table, r.path) then (s, NotFound)
    else if s.table.rows[r.path].rev != r.base then (s, Stale)
    else if LiveDirectory(s.table, r.path) && NonEmpty(s, r.path) then (s, NotEmpty)
    else
      var s1 := if LiveDirectory(s.table, r.path) then s else MoveToTrash(s, r.path, r.stamp);
      (s1.(table := Tombstoned(s1.table, r.path)), Deleted(|s.table.log| + 1))
  }

  // The rename comes before the row, so a collision leaves the file in place.
  function RestoreTrash(s: State, id: string): (State, Response) {
    if Rejected(id) || id !in s.trash then (s, NotFound)
    else
      var item := s.trash[id];
      if item.path in s.disk || LiveDirectory(s.table, item.path) then (s, Occupied)
      else
        var moved := s.(disk := s.disk[item.path := item.file], trash := s.trash - {id});
        if Clash(s.table, item.path) then (moved, CaseCollision)
        else (moved.(table := Upserted(s.table, FileEntry(item.path, item.file))), Restored(|s.table.log| + 1))
  }

  // One path the ignore rules now exclude.
  function PurgeOne(s: State, p: Path, stamp: string): State {
    if !Live(s.table, p) then s
    else
      var s1 := if LiveDirectory(s.table, p) then s else MoveToTrash(s, p, stamp);
      s1.(table := Tombstoned(s1.table, p))
  }

  function PurgeIgnored(s: State, paths: seq<Path>, stamp: string): State
    decreases |paths|
  {
    if paths == [] then s else PurgeIgnored(PurgeOne(s, paths[0], stamp), paths[1..], stamp)
  }

  // Made again, a directory is what it was. A file on disk that no row names is in
  // the way.
  function MakeDirectory(s: State, p: Path, now: int): (State, Response) {
    if Live(s.table, p) then (s, if LiveDirectory(s.table, p) then Made(s.table.rows[p].rev, false) else IsFile)
    else if Clash(s.table, p) then (s, CaseCollision)
    else if p in s.disk then (s, Unwritable)
    else
      (s.(table := Upserted(s.table, Entry(p, Directory, 0, now, NoDigest, 0, false))), Made(|s.table.log| + 1, true))
  }

  function Handle(s: State, r: Request): (State, Response) {
    match r
    case Put(_, _, _, _, _, _, _) => PutFile(s, r)
    case Delete(_, _, _) => DeleteFile(s, r)
    case Restore(id) => RestoreTrash(s, id)
    case Purge(paths, stamp) =>
      (PurgeIgnored(s, paths, stamp), Purged)
    case MakeDir(p, now) => MakeDirectory(s, p, now)
  }

  function HandleAll(s: State, requests: seq<Request>): State
    decreases |requests|
  {
    if requests == [] then s else HandleAll(Handle(s, requests[0]).0, requests[1..])
  }

  predicate Serves(s: State, p: Path) {
    GetFile(s, p).Content?
  }

  // A live row whose file is gone answers exactly like a path that is not there.
  function GetFile(s: State, p: Path): Download {
    if !Live(s.table, p) then Missing
    else if LiveDirectory(s.table, p) then NotAFile
    else if p !in s.disk then Missing
    else Content(s.disk[p].body, s.table.rows[p].rev, s.table.rows[p].sha)
  }

  // ── What every request keeps ───────────────────────────────────────────────

  // The row of a live path describes the file that is there, if one is.
  ghost predicate Described(s: State, p: Path) {
    Live(s.table, p) && p in s.disk ==>
      && s.table.rows[p].kind == RegularFile
      && s.table.rows[p].sha == Sha256(s.disk[p].body)
      && s.table.rows[p].size == |s.disk[p].body|
      && s.table.rows[p].mtime == s.disk[p].mtime
  }

  // Every live file version carries a hash.
  ghost predicate Hashed(t: Table, i: nat) {
    i < |t.log| && !t.log[i].deleted && t.log[i].kind == RegularFile ==> t.log[i].sha != NoDigest
  }

  ghost predicate Consistent(s: State) {
    && Valid(s.table)
    && (forall i: nat {:trigger Hashed(s.table, i)} :: Hashed(s.table, i))
    && (forall p {:trigger Described(s, p)} :: Described(s, p))
  }

  // While a row stays, its file may be lost but cannot come back.
  ghost predicate FileStays(s: State, s': State, p: Path) {
    Live(s'.table, p) && p in s.table.rows && s.table.rows[p] == s'.table.rows[p] ==>
      (p in s'.disk ==> p in s.disk)
  }

  // What any number of requests by anybody leaves true.
  ghost predicate Evolves(s: State, s': State) {
    && Extends(s.table, s'.table)
    && forall p {:trigger FileStays(s, s', p)} :: FileStays(s, s', p)
  }

  lemma EvolvesTransitive(s0: State, s1: State, s2: State)
    requires Consistent(s0) && Consistent(s1) && Consistent(s2)
    requires Evolves(s0, s1) && Evolves(s1, s2)
    ensures Evolves(s0, s2)
  {
    ExtendsTransitive(s0.table, s1.table, s2.table);
    forall p ensures FileStays(s0, s2, p) {
      assert FileStays(s0, s1, p) && FileStays(s1, s2, p);
      OldRowsAreUnchanged(s0.table, s1.table, p);
      OldRowsAreUnchanged(s1.table, s2.table, p);
      assert RowIsNewest(s0.table, p) && RowIsNewest(s1.table, p) && RowIsNewest(s2.table, p);
    }
  }

  lemma TrashKeeps(s: State, p: Path, stamp: string)
    requires Consistent(s)
    ensures Consistent(MoveToTrash(s, p, stamp)) && Evolves(s, MoveToTrash(s, p, stamp))
  {
    var s' := MoveToTrash(s, p, stamp);
    forall i: nat ensures Hashed(s'.table, i) { assert Hashed(s.table, i); }
    forall q ensures Described(s', q) && FileStays(s, s', q) { assert Described(s, q); }
  }

  // A file the disk holds already may only be replaced where no live row names it,
  // unless the row is replaced with it.
  lemma StoreKeeps(s: State, p: Path, body: Body, declared: Option<Digest>, now: int)
    requires Consistent(s)
    ensures var s' := StoreFile(s, p, body, declared, now).0; Consistent(s') && Evolves(s, s')
  {
    var s' := StoreFile(s, p, body, declared, now).0;
    var e := FileEntry(p, File(body, now));
    Unchanged(s);
    if !Clash(s.table, p) {
      UpsertKeepsValid(s.table, e);
    } else {
      ClashIsNotLive(s.table, p);
    }
    forall i: nat ensures Hashed(s'.table, i) { assert Hashed(s.table, i); }
    forall q ensures Described(s', q) && FileStays(s, s', q) {
      assert Described(s, q) && RowIsNewest(s.table, q);
    }
  }

  lemma MakeDirectoryKeeps(s: State, p: Path, now: int)
    requires Consistent(s)
    ensures var s' := MakeDirectory(s, p, now).0; Consistent(s') && Evolves(s, s')
  {
    var s' := MakeDirectory(s, p, now).0;
    Unchanged(s);
    if s' != s {
      UpsertKeepsValid(s.table, Entry(p, Directory, 0, now, NoDigest, 0, false));
      forall i: nat ensures Hashed(s'.table, i) { assert Hashed(s.table, i); }
      forall q ensures Described(s', q) && FileStays(s, s', q) {
        assert Described(s, q) && RowIsNewest(s.table, q);
      }
    }
  }

  lemma ClashIsNotLive(t: Table, p: Path)
    requires Valid(t) && Clash(t, p)
    ensures !Live(t, p)
  {
    var q :| q in t.rows && q != p && !t.rows[q].deleted && Fold(q) == Fold(p);
    assert FoldsApart(t, p, q);
  }

  lemma TombstoneKeeps(s: State, p: Path)
    requires Consistent(s)
    ensures var s' := s.(table := Tombstoned(s.table, p)); Consistent(s') && Evolves(s, s')
  {
    var s' := s.(table := Tombstoned(s.table, p));
    TombstoneKeepsValid(s.table, p);
    forall i: nat ensures Hashed(s'.table, i) { assert Hashed(s.table, i); }
    forall q ensures Described(s', q) && FileStays(s, s', q) { assert Described(s, q); }
  }

  lemma RestoreKeeps(s: State, id: string)
    requires Consistent(s)
    ensures var s' := RestoreTrash(s, id).0; Consistent(s') && Evolves(s, s')
  {
    var s' := RestoreTrash(s, id).0;
    if s' != s {
      var item := s.trash[id];
      if Clash(s.table, item.path) {
        ClashIsNotLive(s.table, item.path);
      } else {
        UpsertKeepsValid(s.table, FileEntry(item.path, item.file));
      }
      forall i: nat ensures Hashed(s'.table, i) { assert Hashed(s.table, i); }
      forall q ensures Described(s', q) && FileStays(s, s', q) {
        assert Described(s, q) && RowIsNewest(s.table, q);
      }
    } else {
      Unchanged(s);
    }
  }

  lemma Unchanged(s: State)
    ensures Evolves(s, s)
  {
    forall q ensures FileStays(s, s, q) {}
  }

  lemma PurgeOneKeeps(s: State, p: Path, stamp: string)
    requires Consistent(s)
    ensures var s' := PurgeOne(s, p, stamp); Consistent(s') && Evolves(s, s')
  {
    Unchanged(s);
    if Live(s.table, p) {
      var s1 := if LiveDirectory(s.table, p) then s else MoveToTrash(s, p, stamp);
      TrashKeeps(s, p, stamp);
      TombstoneKeeps(s1, p);
      EvolvesTransitive(s, s1, PurgeOne(s, p, stamp));
    }
  }

  lemma {:induction false} PurgeKeeps(s: State, paths: seq<Path>, stamp: string)
    requires Consistent(s)
    ensures var s' := PurgeIgnored(s, paths, stamp); Consistent(s') && Evolves(s, s')
    decreases |paths|
  {
    Unchanged(s);
    if paths != [] {
      var s1 := PurgeOne(s, paths[0], stamp);
      PurgeOneKeeps(s, paths[0], stamp);
      PurgeKeeps(s1, paths[1..], stamp);
      EvolvesTransitive(s, s1, PurgeIgnored(s, paths, stamp));
    }
  }

  // Every request keeps the server consistent, and no revision is ever taken back.
  lemma RequestKeeps(s: State, r: Request)
    requires Consistent(s)
    ensures var s' := Handle(s, r).0; Consistent(s') && Evolves(s, s')
  {
    Unchanged(s);
    match r
    case Put(p, base, body, declared, conflict, now, stamp) =>
      if !LiveDirectory(s.table, p) && !Clash(s.table, p) {
        if LiveRev(s.table, p) != base {
          StoreKeeps(s, conflict, body, declared, now);
        } else {
          var s1 := if Live(s.table, p) then MoveToTrash(s, p, stamp) else s;
          TrashKeeps(s, p, stamp);
          StoreKeeps(s1, p, body, declared, now);
          EvolvesTransitive(s, s1, Handle(s, r).0);
        }
      }
    case Delete(p, base, stamp) =>
      if Handle(s, r).0 != s {
        var s1 := if LiveDirectory(s.table, p) then s else MoveToTrash(s, p, stamp);
        TrashKeeps(s, p, stamp);
        TombstoneKeeps(s1, p);
        EvolvesTransitive(s, s1, Handle(s, r).0);
      }
    case Restore(id) =>
      RestoreKeeps(s, id);
    case Purge(paths, stamp) =>
      PurgeKeeps(s, paths, stamp);
    case MakeDir(p, now) =>
      MakeDirectoryKeeps(s, p, now);
  }

  lemma {:induction false} RequestsKeep(s: State, requests: seq<Request>)
    requires Consistent(s)
    ensures var s' := HandleAll(s, requests); Consistent(s') && Evolves(s, s')
    decreases |requests|
  {
    Unchanged(s);
    if requests != [] {
      var s1 := Handle(s, requests[0]).0;
      RequestKeeps(s, requests[0]);
      RequestsKeep(s1, requests[1..]);
      EvolvesTransitive(s, s1, HandleAll(s, requests));
    }
  }
}
