/**
 The server's index as a value: one row per path, and the list of every version
 that was ever given a revision. The counter is the length of that list.
 */
module Index {
  import opened Basics

  datatype Kind = RegularFile | Directory

  // One row: the state of one path at one revision.
  datatype Entry = Entry(path: Path, kind: Kind, size: nat, mtime: int, sha: Digest, rev: nat, deleted: bool)

  // log[r - 1] is the version revision r was spent on. The source keeps only the
  // counter, which is |log|; the list itself is a history variable.
  datatype Table = Table(log: seq<Entry>, rows: map<Path, Entry>)

  const EMPTY_TABLE := Table([], map[])

  // A different live path that would be the same file on a case-insensitive volume.
  predicate Clash(t: Table, p: Path) {
    exists q :: q in t.rows && q != p && !t.rows[q].deleted && Fold(q) == Fold(p)
  }

  predicate Live(t: Table, p: Path) {
    p in t.rows && !t.rows[p].deleted
  }

  function Upserted(t: Table, e: Entry): Table {
    var row := e.(rev := |t.log| + 1, deleted := false);
    Table(t.log + [row], t.rows[e.path := row])
  }

  // A revision is spent even when the path has no row to turn into a tombstone.
  function Tombstoned(t: Table, p: Path): Table {
    if p in t.rows then
      var row := t.rows[p].(rev := |t.log| + 1, deleted := true, sha := NoDigest, size := 0);
      Table(t.log + [row], t.rows[p := row])
    else
      t.(log := t.log + [Entry(p, RegularFile, 0, 0, NoDigest, |t.log| + 1, true)])
  }

  // The row of a path is the newest version of that path.
  ghost predicate RowIsNewest(t: Table, p: Path) {
    p in t.rows ==>
      && t.rows[p].path == p
      && 1 <= t.rows[p].rev <= |t.log|
      && t.log[t.rows[p].rev - 1] == t.rows[p]
      && (t.rows[p].deleted ==> t.rows[p].sha == NoDigest)
  }

  // A version carries its own revision, and the row of its path is at least as new.
  ghost predicate VersionIsListed(t: Table, i: nat) {
    i < |t.log| ==>
      && t.log[i].rev == i + 1
      && (!t.log[i].deleted ==> t.log[i].path in t.rows)
      && (t.log[i].path in t.rows ==> i + 1 <= t.rows[t.log[i].path].rev)
  }

  ghost predicate FoldsApart(t: Table, p: Path, q: Path) {
    Live(t, p) && Live(t, q) && Fold(p) == Fold(q) ==> p == q
  }

  ghost predicate Valid(t: Table) {
    && (forall p {:trigger RowIsNewest(t, p)} :: RowIsNewest(t, p))
    && (forall i: nat {:trigger VersionIsListed(t, i)} :: VersionIsListed(t, i))
    && (forall p, q {:trigger FoldsApart(t, p, q)} :: FoldsApart(t, p, q))
  }

  // What any number of commits by anybody leaves true. Pruning is the one
  // operation that drops a row, and it is not part of this model.
  ghost predicate Extends(t: Table, t': Table) {
    && t.log <= t'.log
    && t.rows.Keys <= t'.rows.Keys
    && (forall p :: p in t'.rows && p !in t.rows ==> |t.log| < t'.rows[p].rev)
  }

  lemma UpsertKeepsValid(t: Table, e: Entry)
    requires Valid(t) && !Clash(t, e.path)
    ensures Valid(Upserted(t, e)) && Extends(t, Upserted(t, e))
  {
    var t' := Upserted(t, e);
    forall p ensures RowIsNewest(t', p) { assert RowIsNewest(t, p); }
    forall i: nat ensures VersionIsListed(t', i) {
      assert VersionIsListed(t, i);
      assert i < |t.log| ==> t'.log[i] == t.log[i];
    }
    forall p, q ensures FoldsApart(t', p, q) { assert FoldsApart(t, p, q); }
  }

  lemma TombstoneKeepsValid(t: Table, p: Path)
    requires Valid(t)
    ensures Valid(Tombstoned(t, p)) && Extends(t, Tombstoned(t, p))
  {
    var t' := Tombstoned(t, p);
    assert RowIsNewest(t, p);
    forall q ensures RowIsNewest(t', q) { assert RowIsNewest(t, q); }
    forall i: nat ensures VersionIsListed(t', i) {
      assert VersionIsListed(t, i);
      assert i < |t.log| ==> t'.log[i] == t.log[i];
    }
    forall q, r ensures FoldsApart(t', q, r) { assert FoldsApart(t, q, r); }
  }

  // A row whose revision is not newer than a moment in the past was there, the
  // same, at that moment.
  lemma OldRowsAreUnchanged(t: Table, t': Table, p: Path)
    requires Valid(t) && Valid(t') && Extends(t, t')
    ensures p in t.rows ==> p in t'.rows && (t'.rows[p] == t.rows[p] || |t.log| < t'.rows[p].rev)
    ensures p in t'.rows && t'.rows[p].rev <= |t.log| ==> p in t.rows && t.rows[p] == t'.rows[p]
  {
    assert RowIsNewest(t, p) && RowIsNewest(t', p);
    if p in t.rows && t'.rows[p].rev <= |t.log| {
      assert t.log[t'.rows[p].rev - 1] == t'.rows[p];
      assert VersionIsListed(t, t'.rows[p].rev - 1);
      assert VersionIsListed(t', t.rows[p].rev - 1);
    }
  }

  lemma RevisionsAreDistinct(t: Table, p: Path, q: Path)
    requires Valid(t) && p in t.rows && q in t.rows && t.rows[p].rev == t.rows[q].rev
    ensures p == q
  {
    assert RowIsNewest(t, p) && RowIsNewest(t, q);
  }

  lemma ExtendsTransitive(t0: Table, t1: Table, t2: Table)
    requires Valid(t0) && Valid(t1) && Valid(t2)
    requires Extends(t0, t1) && Extends(t1, t2)
    ensures Extends(t0, t2)
  {
    forall p | p in t2.rows && p !in t0.rows
      ensures |t0.log| < t2.rows[p].rev
    {
      OldRowsAreUnchanged(t1, t2, p);
    }
  }

  // ── The change query ───────────────────────────────────────────────────────

  ghost predicate Above(rows: map<Path, Entry>, since: nat, p: Path) {
    p in rows && since < rows[p].rev
  }

  ghost predicate Oldest(rows: map<Path, Entry>, since: nat, p: Path) {
    && Above(rows, since, p)
    && forall q :: Above(rows, since, q) ==> rows[p].rev <= rows[q].rev
  }

  lemma {:induction false} OldestExists(rows: map<Path, Entry>, since: nat, p: Path)
    requires Above(rows, since, p)
    ensures exists q :: Oldest(rows, since, q)
    decreases rows[p].rev
  {
    if q :| Above(rows, since, q) && rows[q].rev < rows[p].rev {
      OldestExists(rows, since, q);
    } else {
      assert Oldest(rows, since, p);
    }
  }

  // The rows a query for `rev > since`, ordered by revision and cut at `limit`, answers.
  ghost function Page(rows: map<Path, Entry>, since: nat, limit: nat): seq<Entry>
    decreases limit
  {
    if limit == 0 || !exists p :: Oldest(rows, since, p) then []
    else
      var p :| Oldest(rows, since, p);
      [rows[p]] + Page(rows, rows[p].rev, limit - 1)
  }

  lemma PageStartsWith(t: Table, since: nat, limit: nat, p: Path)
    requires Valid(t) && limit > 0 && Oldest(t.rows, since, p)
    ensures Page(t.rows, since, limit) == [t.rows[p]] + Page(t.rows, t.rows[p].rev, limit - 1)
  {
    var q :| Oldest(t.rows, since, q) && Page(t.rows, since, limit) == [t.rows[q]] + Page(t.rows, t.rows[q].rev, limit - 1);
    assert Oldest(t.rows, since, q);
    assert t.rows[p].rev <= t.rows[q].rev <= t.rows[p].rev;
    RevisionsAreDistinct(t, p, q);
  }

  ghost predicate Ascending(entries: seq<Entry>) {
    forall i, j :: 0 <= i < j < |entries| ==> entries[i].rev < entries[j].rev
  }

  // Everything on the page is a row, newer than `since`.
  ghost predicate OnlyRows(rows: map<Path, Entry>, since: nat, page: seq<Entry>) {
    forall i :: 0 <= i < |page| ==>
      since < page[i].rev && page[i].path in rows && rows[page[i].path] == page[i]
  }

  // No row newer than `since` and up to `upto` is missing from the page.
  ghost predicate NoneMissing(rows: map<Path, Entry>, since: nat, upto: nat, page: seq<Entry>) {
    forall p :: Above(rows, since, p) && rows[p].rev <= upto ==> rows[p] in page
  }

  // How far a page of at most `limit` rows reaches: all the way when it is short.
  function Covered(t: Table, since: nat, limit: nat, page: seq<Entry>): nat {
    if |page| < limit then |t.log| else if page == [] then since else page[|page| - 1].rev
  }

  // What a caller may read off a page: it holds rows, oldest first, all newer than
  // `since`, and skips none up to its last; a short page skips none at all.
  lemma {:induction false} PageIsComplete(t: Table, since: nat, limit: nat)
    requires Valid(t)
    ensures var page := Page(t.rows, since, limit);
      && |page| <= limit
      && Ascending(page)
      && OnlyRows(t.rows, since, page)
      && NoneMissing(t.rows, since, Covered(t, since, limit, page), page)
    decreases limit
  {
    if limit != 0 && exists p :: Oldest(t.rows, since, p) {
      var p :| Oldest(t.rows, since, p) && Page(t.rows, since, limit) == [t.rows[p]] + Page(t.rows, t.rows[p].rev, limit - 1);
      PageIsComplete(t, t.rows[p].rev, limit - 1);
      OldestThenTheRest(t, since, limit, p, Page(t.rows, t.rows[p].rev, limit - 1));
    } else {
      forall q | Above(t.rows, since, q) && limit != 0
        ensures false
      {
        OldestExists(t.rows, since, q);
      }
    }
  }

  lemma OldestThenTheRest(t: Table, since: nat, limit: nat, p: Path, rest: seq<Entry>)
    requires Valid(t) && Oldest(t.rows, since, p) && |rest| < limit
    requires Ascending(rest) && OnlyRows(t.rows, t.rows[p].rev, rest)
    requires NoneMissing(t.rows, t.rows[p].rev, Covered(t, t.rows[p].rev, limit - 1, rest), rest)
    ensures Ascending([t.rows[p]] + rest) && OnlyRows(t.rows, since, [t.rows[p]] + rest)
    ensures NoneMissing(t.rows, since, Covered(t, since, limit, [t.rows[p]] + rest), [t.rows[p]] + rest)
  {
    var page := [t.rows[p]] + rest;
    assert RowIsNewest(t, p);
    forall q | Above(t.rows, since, q) && t.rows[q].rev <= Covered(t, since, limit, page)
      ensures t.rows[q] in page
    {
      if t.rows[q].rev == t.rows[p].rev {
        RevisionsAreDistinct(t, p, q);
        assert page[0] == t.rows[q];
      } else {
        assert Above(t.rows, t.rows[p].rev, q);
        assert t.rows[q] in rest;
      }
    }
  }
}
