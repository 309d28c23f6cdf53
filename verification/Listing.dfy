/**
 Which lists a pull applies: when each path is on it once, and what happens to local
 bytes when one is not.
 */
module Listing {
  import opened Basics
  import opened Index
  import opened Server
  import opened ClientModel
  import opened Cursor
  import opened NoLoss
  import opened Convergence
  import Protocol
  import Repeats

  // ── Lists that name a path once ────────────────────────────────────────────

  // Nobody committed a version of the path between two moments.
  ghost predicate Unwritten(s: State, s': State, p: Path) {
    forall i :: |s.table.log| <= i < |s'.table.log| ==> s'.table.log[i].path != p
  }

  // An entry that is no newer than a moment was the row of its path then.
  ghost predicate WasRow(s: State, e: Entry) {
    e.rev <= |s.table.log| ==> e.path in s.table.rows && s.table.rows[e.path] == e
  }

  ghost predicate WereRows(s: State, entries: seq<Entry>) {
    forall i {:trigger entries[i]} :: 0 <= i < |entries| ==> WasRow(s, entries[i])
  }

  lemma RowsWereRows(s: State, s': State, since: nat, page: seq<Entry>)
    requires Consistent(s) && Consistent(s') && Evolves(s, s') && OnlyRows(s'.table.rows, since, page)
    ensures WereRows(s, page)
  {
    forall i | 0 <= i < |page| ensures WasRow(s, page[i]) {
      OldRowsAreUnchanged(s.table, s'.table, page[i].path);
    }
  }

  lemma PageWasRows(s: State, s': State, collected: seq<Entry>, cursor: nat, limit: nat)
    requires Consistent(s) && Consistent(s') && Evolves(s, s') && WereRows(s, collected)
    ensures WereRows(s, collected + Taken(Page(s'.table.rows, cursor, limit + 1), limit))
  {
    var taken := Taken(Page(s'.table.rows, cursor, limit + 1), limit);
    PageIsComplete(s'.table, cursor, limit + 1);
    RowsWereRows(s, s', cursor, taken);
    var all := collected + taken;
    forall i | 0 <= i < |all| ensures WasRow(s, all[i]) {
      assert all[i] == if i < |collected| then collected[i] else taken[i - |collected|];
    }
  }

  // A path nobody writes while the list is read is on it at most once.
  lemma OnceIfUnwritten(s: State, s': State, since: nat, entries: seq<Entry>, p: Path)
    requires Consistent(s') && Batch(s', since, entries) && WereRows(s, entries) && Unwritten(s, s', p)
    ensures ListedOnce(entries, p)
  {
    forall i, j | 0 <= i < j < |entries| && entries[i].path == p ensures entries[j].path != p {
      assert Listed(s', since, entries[i]) && Listed(s', since, entries[j]);
      assert entries[i].rev < entries[j].rev;
      assert WasRow(s, entries[i]) && WasRow(s, entries[j]);
    }
  }

  lemma {:induction false} RelevantListsOnce(excluded: Path -> bool, entries: seq<Entry>, p: Path)
    requires ListedOnce(entries, p)
    ensures ListedOnce(Protocol.Relevant(excluded, entries), p)
  {
    if entries != [] {
      var rest := Protocol.Relevant(excluded, entries[1..]);
      assert forall i :: 0 <= i < |entries| - 1 ==> entries[1..][i] == entries[i + 1];
      RelevantListsOnce(excluded, entries[1..], p);
      forall i | 0 <= i < |rest| && entries[0].path == p ensures rest[i].path != p {
        Protocol.RelevantKeeps(excluded, entries[1..], rest[i]);
        var k :| 0 <= k < |entries| - 1 && entries[1..][k] == rest[i];
        assert entries[k + 1].path != p;
      }
    }
  }

  // Of a list, once filtered: a path is on it again only if somebody wrote it while the
  // list was read, or since. Then every edit of it is safe.
  ghost predicate NamesOnce(s: State, s': State, relevant: seq<Entry>) {
    forall p {:trigger ListedOnce(relevant, p)} ::
      Unwritten(s, s', p) ==> ListedOnce(relevant, p) && Repeats.OnlyTheFirstIsLive(relevant, p)
  }

  lemma ReadListNamesOnce(s: State, read: State, now: State, since: nat, entries: seq<Entry>, excluded: Path -> bool)
    requires Consistent(read) && Evolves(read, now) && Batch(read, since, entries) && WereRows(s, entries)
    ensures NamesOnce(s, now, Protocol.Relevant(excluded, entries))
  {
    var relevant := Protocol.Relevant(excluded, entries);
    forall p | Unwritten(s, now, p) ensures ListedOnce(relevant, p) && Repeats.OnlyTheFirstIsLive(relevant, p) {
      assert forall i :: 0 <= i < |read.table.log| ==> read.table.log[i] == now.table.log[i];
      OnceIfUnwritten(s, read, since, entries, p);
      RelevantListsOnce(excluded, entries, p);
      Repeats.OnceIsSafe(relevant, p);
    }
  }

  // No path is listed twice, so every removal is counted.
  ghost predicate NamesEachOnce(entries: seq<Entry>) {
    DistinctPaths(entries) && NoTombstoneAfterAnything(entries) && Uncounted(entries) == {}
  }

  // What an undisturbed server answers names no path twice, filtered or not, so what
  // is said of such lists is said of every quiet pull.
  lemma ChangeListNamesPathsOnce(s: State, since: nat, entries: seq<Entry>, excluded: Path -> bool)
    requires ChangeList(s, since, entries)
    ensures DistinctPaths(entries) && NamesEachOnce(Protocol.Relevant(excluded, entries))
  {
    var relevant := Protocol.Relevant(excluded, entries);
    forall i, j | 0 <= i < j < |entries| ensures entries[i].path != entries[j].path {
      assert entries[i].rev < entries[j].rev;
    }
    forall i, j | 0 <= i < j < |relevant| ensures relevant[i].path != relevant[j].path {
      RelevantListsOnce(excluded, entries, relevant[i].path);
    }
    DistinctMeansNoneAfter(relevant);
    NoneAfterAnythingIsStricter(relevant);
    forall p ensures !DeletedAgain(relevant, p) { NoneIsDeletedAgain(relevant, p); }
  }

  // ── A path listed twice ────────────────────────────────────────────────────

  // One path, five commits: two versions, a deletion, two versions again.
  const FIRST_PUT := Put("a", 0, [1], None, "x", 11, "T")
  const SECOND_PUT := Put("a", 1, [2], None, "x", 12, "U")
  const DROP := Delete("a", 2, "V")
  const THIRD_PUT := Put("a", 0, [3], None, "x", 14, "W")
  const FOURTH_PUT := Put("a", 4, [4], None, "x", 15, "X")

  const MINE: Body := [9]
  const NAMES := Clock(p => p + ".parked", p => p + ".conflict", 7, "T")
  const EDITOR := Client(map["a" := File(MINE, 5)], map["a" := Synced(1, 4, Sha256([1]), 1)], 1)
  const NEWCOMER := Client(map["a" := File(MINE, 5)], map[], 0)

  function Version(rev: nat, body: Body, mtime: int): Entry {
    Entry("a", RegularFile, |body|, mtime, Sha256(body), rev, false)
  }

  const TOMBSTONE := Entry("a", RegularFile, 0, 12, NoDigest, 3, true)

  lemma EmptyIsConsistent()
    ensures Consistent(EMPTY_STATE)
  {
    forall i: nat ensures Hashed(EMPTY_TABLE, i) {}
    assert Valid(EMPTY_TABLE);
  }

  lemma UpToTheSecond() returns (s: State)
    ensures s == Handle(Handle(EMPTY_STATE, FIRST_PUT).0, SECOND_PUT).0
    ensures s.table == Table([Version(1, [1], 11), Version(2, [2], 12)], map["a" := Version(2, [2], 12)])
    ensures s.disk == map["a" := File([2], 12)]
  {
    var s1 := Handle(EMPTY_STATE, FIRST_PUT).0;
    assert s1.table == Table([Version(1, [1], 11)], map["a" := Version(1, [1], 11)]);
    s := Handle(s1, SECOND_PUT).0;
  }

  lemma UpToTheDeletion() returns (s: State)
    ensures s == HandleAll(EMPTY_STATE, [FIRST_PUT, SECOND_PUT, DROP]) && Consistent(s)
    ensures s.table == Table([Version(1, [1], 11), Version(2, [2], 12), TOMBSTONE], map["a" := TOMBSTONE])
    ensures s.disk == map[]
  {
    EmptyIsConsistent();
    RequestsKeep(EMPTY_STATE, [FIRST_PUT, SECOND_PUT, DROP]);
    var s1 := Handle(EMPTY_STATE, FIRST_PUT).0;
    var s2 := UpToTheSecond();
    s := Handle(s2, DROP).0;
    assert [SECOND_PUT, DROP][1..] == [DROP] && [FIRST_PUT, SECOND_PUT, DROP][1..] == [SECOND_PUT, DROP];
    assert HandleAll(s2, [DROP]) == HandleAll(s, []) == s;
    assert HandleAll(s1, [SECOND_PUT, DROP]) == s;
  }

  // The server when a list was read, before it, and when the entries are applied.
  lemma BusyServer() returns (before: State, read: State, now: State)
    ensures before == HandleAll(EMPTY_STATE, [FIRST_PUT, SECOND_PUT, DROP])
    ensures read == Handle(before, THIRD_PUT).0 && now == Handle(read, FOURTH_PUT).0
    ensures Consistent(before) && Consistent(read) && Consistent(now)
    ensures before.table == Table([Version(1, [1], 11), Version(2, [2], 12), TOMBSTONE], map["a" := TOMBSTONE])
    ensures read.table == Table(before.table.log + [Version(4, [3], 14)], map["a" := Version(4, [3], 14)])
    ensures now.table.rows == map["a" := Version(5, [4], 15)] && now.disk == map["a" := File([4], 15)]
  {
    before := UpToTheDeletion();
    read := Handle(before, THIRD_PUT).0;
    assert read.disk == map["a" := File([3], 14)];
    now := Handle(read, FOURTH_PUT).0;
    RequestKeeps(before, THIRD_PUT);
    RequestKeeps(read, FOURTH_PUT);
  }

  lemma TwoEntries(s: State, since: nat, first: Entry, second: Entry)
    requires since < first.rev < second.rev <= |s.table.log|
    requires s.table.log[first.rev - 1] == first && s.table.log[second.rev - 1] == second
    requires s.table.rows == map["a" := second]
    ensures Batch(s, since, [first, second]) && Complete(s, since, |s.table.log|, [first, second])
  {
    var entries := [first, second];
    forall i | 0 <= i < |entries| ensures Listed(s, since, entries[i]) {}
    assert entries[1] == second;
    forall p ensures CollectedAt(s, since, |s.table.log|, entries, p) {}
  }

  lemma NamesAreFresh(c: Client, first: Entry, second: Entry)
    requires first.path == second.path == "a" && c.local.Keys == {"a"}
    ensures FreshNames(c, [first, second], NAMES)
  {
    assert |NAMES.parked("a")| > |"a"|;
    forall i: nat ensures NameIsFree(c, [first, second], NAMES, i) {}
  }

  lemma OneThenTheOther(s: State, c: Client, first: Entry, second: Entry)
    requires ApplyEntry(s, c, first, NAMES, NOTHING_DONE).result == Fine
    requires var once := ApplyEntry(s, c, first, NAMES, NOTHING_DONE);
      ApplyEntry(s, once.client, second, NAMES, once.summary).result == Fine
    ensures var once := ApplyEntry(s, c, first, NAMES, NOTHING_DONE);
      ApplyAll([s, s], c, [first, second], NAMES, NOTHING_DONE) == ApplyEntry(s, once.client, second, NAMES, once.summary)
  {
    var once := ApplyEntry(s, c, first, NAMES, NOTHING_DONE);
    assert [s, s][1..] == [s] && [first, second][1..] == [second] && [s][1..] == [] && [second][1..] == [];
    assert ApplyAll([s], once.client, [second], NAMES, once.summary) == ApplyEntry(s, once.client, second, NAMES, once.summary);
  }

  // The server that answers the downloads.
  ghost predicate Answers(s: State) {
    s.table.rows == map["a" := Version(5, [4], 15)] && s.disk == map["a" := File([4], 15)]
  }

  lemma ParkedElsewhere()
    ensures NAMES.parked("a") != "a"
  {
    assert |NAMES.parked("a")| > |"a"|;
  }

  lemma ForgottenThenReplaced(s: State)
    requires Answers(s)
    ensures ApplyAll([s, s], EDITOR, [TOMBSTONE, Version(4, [3], 14)], NAMES, NOTHING_DONE).client.local == map["a" := File([4], 14)]
  {
    var listed := Version(4, [3], 14);
    var once := ApplyEntry(s, EDITOR, TOMBSTONE, NAMES, NOTHING_DONE);
    assert once.client == Client(EDITOR.local, map[], 1);
    var twice := ApplyEntry(s, once.client, listed, NAMES, once.summary);
    assert twice.client.local == map["a" := File([4], 14)];
    OneThenTheOther(s, EDITOR, TOMBSTONE, listed);
  }

  // An edited file, listed as deleted and then as made again: the tombstone only drops
  // its record, and then nothing protects it from the download.
  lemma ADeletionTakesTheRecordAway() returns (read: State, now: State)
    ensures Consistent(read) && Consistent(now) && Evolves(read, now)
    ensures Batch(read, 1, [TOMBSTONE, Version(4, [3], 14)]) && Complete(read, 1, 4, [TOMBSTONE, Version(4, [3], 14)])
    ensures Edited(EDITOR, "a") && StatHonest(EDITOR) && FreshNames(EDITOR, [TOMBSTONE, Version(4, [3], 14)], NAMES)
    ensures var final := ApplyAll([now, now], EDITOR, [TOMBSTONE, Version(4, [3], 14)], NAMES, NOTHING_DONE).client;
      !Survives(final, "a", NAMES.parked("a"), MINE)
  {
    var before;
    before, read, now := BusyServer();
    RequestKeeps(read, FOURTH_PUT);
    TwoEntries(read, 1, TOMBSTONE, Version(4, [3], 14));
    NamesAreFresh(EDITOR, TOMBSTONE, Version(4, [3], 14));
    ForgottenThenReplaced(now);
    ParkedElsewhere();
  }

  lemma ParkedTwice(s: State)
    requires Answers(s)
    ensures ApplyAll([s, s], EDITOR, [Version(2, [2], 12), Version(4, [3], 14)], NAMES, NOTHING_DONE).client.local
      == map[NAMES.parked("a") := File([4], 12), "a" := File([4], 14)]
  {
    var older, newer, parked := Version(2, [2], 12), Version(4, [3], 14), NAMES.parked("a");
    ParkedElsewhere();
    var once := ApplyEntry(s, EDITOR, older, NAMES, NOTHING_DONE);
    assert once.client.local == map[parked := File(MINE, 5), "a" := File([4], 12)];
    assert once.client.records == map["a" := Synced(1, 12, Sha256([2]), 2)];
    var twice := ApplyEntry(s, once.client, newer, NAMES, once.summary);
    assert twice.client.local == map[parked := File([4], 12), "a" := File([4], 14)];
    OneThenTheOther(s, EDITOR, older, newer);
  }

  // Listed with two versions while a third is there to download: what was downloaded
  // under the first is taken for an edit at the second, and is parked over the edit.
  lemma ASecondParkingTakesItsPlace() returns (read: State, now: State)
    ensures Consistent(read) && Consistent(now) && Evolves(read, now)
    ensures Batch(read, 1, [Version(2, [2], 12), Version(4, [3], 14)])
    ensures Complete(read, 1, 4, [Version(2, [2], 12), Version(4, [3], 14)])
    ensures Edited(EDITOR, "a") && StatHonest(EDITOR) && FreshNames(EDITOR, [Version(2, [2], 12), Version(4, [3], 14)], NAMES)
    ensures var final := ApplyAll([now, now], EDITOR, [Version(2, [2], 12), Version(4, [3], 14)], NAMES, NOTHING_DONE).client;
      !Survives(final, "a", NAMES.parked("a"), MINE)
  {
    var before;
    before, read, now := BusyServer();
    RequestKeeps(read, FOURTH_PUT);
    TwoEntries(read, 1, Version(2, [2], 12), Version(4, [3], 14));
    NamesAreFresh(EDITOR, Version(2, [2], 12), Version(4, [3], 14));
    ParkedTwice(now);
    ParkedElsewhere();
  }

  lemma RecordedThenRemoved(s: State)
    requires Answers(s)
    ensures Deletions(NEWCOMER, [Version(2, [2], 12), TOMBSTONE]) == 0
    ensures var progress := ApplyAll([s, s], NEWCOMER, [Version(2, [2], 12), TOMBSTONE], NAMES, NOTHING_DONE);
      progress.summary.deletedLocally == 1 && progress.client.local == map[]
  {
    var older := Version(2, [2], 12);
    assert [older, TOMBSTONE][1..] == [TOMBSTONE] && [TOMBSTONE][1..] == [];
    assert Deletions(NEWCOMER, [TOMBSTONE]) == 0;
    var once := ApplyEntry(s, NEWCOMER, older, NAMES, NOTHING_DONE);
    assert once.client.local == map["a" := File([4], 12)];
    assert once.client.records == map["a" := Synced(1, 12, Sha256([2]), 2)];
    var twice := ApplyEntry(s, once.client, TOMBSTONE, NAMES, once.summary);
    assert twice.client.local == map[];
    OneThenTheOther(s, NEWCOMER, older, TOMBSTONE);
  }

  // A file without a record, listed with a version and then as deleted: the count made
  // beforehand is nought, and the file goes.
  lemma ARemovalIsNotCounted() returns (read: State, now: State)
    ensures Consistent(read) && Consistent(now) && Evolves(read, now)
    ensures Batch(read, 0, [Version(2, [2], 12), TOMBSTONE]) && Complete(read, 0, 3, [Version(2, [2], 12), TOMBSTONE])
    ensures Deletions(NEWCOMER, [Version(2, [2], 12), TOMBSTONE]) == 0
    ensures StatHonest(NEWCOMER) && FreshNames(NEWCOMER, [Version(2, [2], 12), TOMBSTONE], NAMES)
    ensures var progress := ApplyAll([now, now], NEWCOMER, [Version(2, [2], 12), TOMBSTONE], NAMES, NOTHING_DONE);
      progress.summary.deletedLocally == 1 && Gone(NEWCOMER, progress.client, NAMES) == {"a"}
  {
    var later;
    read, later, now := BusyServer();
    RequestKeeps(read, THIRD_PUT);
    RequestKeeps(later, FOURTH_PUT);
    EvolvesTransitive(read, later, now);
    TwoEntries(read, 0, Version(2, [2], 12), TOMBSTONE);
    NamesAreFresh(NEWCOMER, Version(2, [2], 12), TOMBSTONE);
    RecordedThenRemoved(now);
    assert Gone(NEWCOMER, NEWCOMER.(local := map[]), NAMES) == {"a"};
  }
}
