/**
 What one client's cursor and records promise about the server, whatever anybody
 else does between two of its requests.
 */
module Cursor {
  import opened Basics
  import opened Index
  import opened Server
  import opened ClientModel

  // Where the client program stands between two requests.
  datatype Phase =
    | Idle
    | Paging(cursor: nat, collected: seq<Entry>)
    | Counted(cursor: nat, collected: seq<Entry>, counter: nat)
    | Applying(todo: seq<Entry>, target: nat)

  datatype Node = Node(client: Client, phase: Phase)

  // A row has reached the client: a file that can be downloaded is recorded at that
  // revision with that hash, and a tombstone has no record.
  ghost predicate Settled(s: State, c: Client, row: Entry) {
    if row.deleted then row.path !in c.records
    else Serves(s, row.path) ==>
      row.path in c.records && c.records[row.path].rev == row.rev && c.records[row.path].sha == row.sha
  }

  ghost predicate SettledUpTo(s: State, excluded: Path -> bool, c: Client, upto: nat, p: Path) {
    p in s.table.rows && s.table.rows[p].rev <= upto && !excluded(p) ==> Settled(s, c, s.table.rows[p])
  }

  // A record is a version the server really issued.
  ghost predicate Issued(s: State, c: Client, p: Path) {
    p in c.records ==>
      var r := c.records[p].rev;
      && 1 <= r <= |s.table.log|
      && s.table.log[r - 1].path == p
      && !s.table.log[r - 1].deleted
      && s.table.log[r - 1].sha == c.records[p].sha
  }

  // The cursor invariant.
  ghost predicate CursorHolds(s: State, excluded: Path -> bool, c: Client) {
    && c.lastRev <= |s.table.log|
    && (forall p {:trigger SettledUpTo(s, excluded, c, c.lastRev, p)} :: SettledUpTo(s, excluded, c, c.lastRev, p))
    && (forall p {:trigger Issued(s, c, p)} :: Issued(s, c, p))
  }

  // Every entry of a batch is a version the server issued after `since`.
  ghost predicate Listed(s: State, since: nat, e: Entry) {
    since < e.rev <= |s.table.log| && s.table.log[e.rev - 1] == e
  }

  ghost predicate Batch(s: State, since: nat, entries: seq<Entry>) {
    && Ascending(entries)
    && forall i :: 0 <= i < |entries| ==> Listed(s, since, entries[i])
  }

  ghost predicate CollectedAt(s: State, since: nat, upto: nat, collected: seq<Entry>, p: Path) {
    Above(s.table.rows, since, p) && s.table.rows[p].rev <= upto ==> s.table.rows[p] in collected
  }

  // Every row newer than `since` and up to `upto` is in the list.
  ghost predicate Complete(s: State, since: nat, upto: nat, collected: seq<Entry>) {
    forall p {:trigger CollectedAt(s, since, upto, collected, p)} :: CollectedAt(s, since, upto, collected, p)
  }

  function Reach(since: nat, entries: seq<Entry>): nat {
    if entries == [] then since else entries[|entries| - 1].rev
  }

  // Rows older than the first entry still to apply are settled; the others are
  // still to come.
  ghost predicate AwaitedAt(s: State, excluded: Path -> bool, c: Client, todo: seq<Entry>, target: nat, p: Path) {
    Above(s.table.rows, c.lastRev, p) && s.table.rows[p].rev <= target && !excluded(p) ==>
      if todo == [] || s.table.rows[p].rev < todo[0].rev then Settled(s, c, s.table.rows[p])
      else s.table.rows[p] in todo
  }

  ghost predicate PhaseHolds(s: State, excluded: Path -> bool, c: Client, phase: Phase) {
    match phase
    case Idle => true
    case Paging(cursor, collected) =>
      && Batch(s, c.lastRev, collected)
      && cursor == Reach(c.lastRev, collected)
      && Complete(s, c.lastRev, cursor, collected)
    case Counted(cursor, collected, counter) =>
      && Batch(s, c.lastRev, collected)
      && cursor == Reach(c.lastRev, collected)
      && Complete(s, c.lastRev, cursor, collected)
      && c.lastRev <= counter <= |s.table.log|
    case Applying(todo, target) =>
      && Batch(s, c.lastRev, todo)
      && c.lastRev <= target <= |s.table.log|
      && (forall p {:trigger AwaitedAt(s, excluded, c, todo, target, p)} :: AwaitedAt(s, excluded, c, todo, target, p))
  }

  ghost predicate NodeHolds(s: State, excluded: Path -> bool, n: Node) {
    CursorHolds(s, excluded, n.client) && PhaseHolds(s, excluded, n.client, n.phase)
  }

  // ── Stability ──────────────────────────────────────────────────────────────

  lemma SettledStays(s: State, s': State, c: Client, p: Path)
    requires Consistent(s) && Consistent(s') && Evolves(s, s')
    requires p in s'.table.rows && s'.table.rows[p].rev <= |s.table.log|
    ensures p in s.table.rows && s.table.rows[p] == s'.table.rows[p]
    ensures Settled(s, c, s.table.rows[p]) ==> Settled(s', c, s.table.rows[p])
  {
    OldRowsAreUnchanged(s.table, s'.table, p);
    assert RowIsNewest(s.table, p);
    assert FileStays(s, s', p);
  }

  lemma BatchStays(s: State, s': State, since: nat, entries: seq<Entry>)
    requires Evolves(s, s') && Batch(s, since, entries)
    ensures Batch(s', since, entries)
  {
    forall i | 0 <= i < |entries| ensures Listed(s', since, entries[i]) {
      assert Listed(s, since, entries[i]);
    }
  }

  lemma CompleteStays(s: State, s': State, since: nat, upto: nat, collected: seq<Entry>)
    requires Consistent(s) && Consistent(s') && Evolves(s, s')
    requires upto <= |s.table.log| && Complete(s, since, upto, collected)
    ensures Complete(s', since, upto, collected)
  {
    forall p ensures CollectedAt(s', since, upto, collected, p) {
      OldRowsAreUnchanged(s.table, s'.table, p);
      assert CollectedAt(s, since, upto, collected, p);
    }
  }

  lemma CursorStays(s: State, s': State, excluded: Path -> bool, c: Client)
    requires Consistent(s) && Consistent(s') && Evolves(s, s') && CursorHolds(s, excluded, c)
    ensures CursorHolds(s', excluded, c)
  {
    forall p ensures SettledUpTo(s', excluded, c, c.lastRev, p) {
      if p in s'.table.rows && s'.table.rows[p].rev <= c.lastRev {
        SettledStays(s, s', c, p);
        assert SettledUpTo(s, excluded, c, c.lastRev, p);
      }
    }
    forall p ensures Issued(s', c, p) { assert Issued(s, c, p); }
  }

  // Nothing anybody else does takes away what a client relies on, at any point of
  // its cycle.
  lemma NodeStays(s: State, s': State, excluded: Path -> bool, n: Node)
    requires Consistent(s) && Consistent(s') && Evolves(s, s') && NodeHolds(s, excluded, n)
    ensures NodeHolds(s', excluded, n)
  {
    var c := n.client;
    CursorStays(s, s', excluded, c);
    match n.phase
    case Idle =>
    case Paging(cursor, collected) =>
      BatchStays(s, s', c.lastRev, collected);
      ReachIsPast(s, c.lastRev, collected);
      CompleteStays(s, s', c.lastRev, cursor, collected);
    case Counted(cursor, collected, counter) =>
      BatchStays(s, s', c.lastRev, collected);
      ReachIsPast(s, c.lastRev, collected);
      CompleteStays(s, s', c.lastRev, cursor, collected);
    case Applying(todo, target) =>
      BatchStays(s, s', c.lastRev, todo);
      forall p ensures AwaitedAt(s', excluded, c, todo, target, p) {
        if p in s'.table.rows && s'.table.rows[p].rev <= target {
          SettledStays(s, s', c, p);
          assert AwaitedAt(s, excluded, c, todo, target, p);
        }
      }
  }

  lemma ReachIsPast(s: State, since: nat, entries: seq<Entry>)
    requires Batch(s, since, entries) && since <= |s.table.log|
    ensures since <= Reach(since, entries) <= |s.table.log|
    ensures entries != [] ==> since < Reach(since, entries)
  {
    if entries != [] {
      assert Listed(s, since, entries[|entries| - 1]);
    }
  }

  // ── Paging ─────────────────────────────────────────────────────────────────

  // The entries a page of at most `limit` keeps of a query for one more.
  function Taken(page: seq<Entry>, limit: nat): seq<Entry> {
    if |page| > limit then page[..limit] else page
  }

  lemma BatchAppends(s: State, since: nat, collected: seq<Entry>, taken: seq<Entry>)
    requires Consistent(s) && since <= |s.table.log| && Batch(s, since, collected)
    requires Ascending(taken) && OnlyRows(s.table.rows, Reach(since, collected), taken)
    ensures Batch(s, since, collected + taken)
  {
    var all := collected + taken;
    ReachIsPast(s, since, collected);
    forall i | 0 <= i < |all| ensures Listed(s, since, all[i]) {
      if i < |collected| {
        assert Listed(s, since, collected[i]);
      } else {
        assert all[i] == taken[i - |collected|];
        assert RowIsNewest(s.table, all[i].path);
      }
    }
    forall i, j | 0 <= i < j < |all| ensures all[i].rev < all[j].rev {
      if i < |collected| <= j {
        assert collected[i].rev <= Reach(since, collected);
        assert all[j] == taken[j - |collected|];
      }
    }
  }

  lemma CompleteAppends(s: State, since: nat, collected: seq<Entry>, upto: nat, taken: seq<Entry>)
    requires Complete(s, since, Reach(since, collected), collected)
    requires NoneMissing(s.table.rows, Reach(since, collected), upto, taken)
    ensures Complete(s, since, upto, collected + taken)
  {
    forall p ensures CollectedAt(s, since, upto, collected + taken, p) {
      assert CollectedAt(s, since, Reach(since, collected), collected, p);
      if Above(s.table.rows, Reach(since, collected), p) && s.table.rows[p].rev <= upto {
        assert s.table.rows[p] in taken;
      }
    }
  }

  lemma TruncatedIsComplete(rows: map<Path, Entry>, since: nat, page: seq<Entry>, limit: nat)
    requires 0 < limit < |page| && Ascending(page) && OnlyRows(rows, since, page)
    requires NoneMissing(rows, since, page[|page| - 1].rev, page)
    ensures Ascending(page[..limit]) && OnlyRows(rows, since, page[..limit])
    ensures NoneMissing(rows, since, page[limit - 1].rev, page[..limit])
  {
    forall p | Above(rows, since, p) && rows[p].rev <= page[limit - 1].rev
      ensures rows[p] in page[..limit]
    {
      assert page[limit - 1].rev < page[|page| - 1].rev;
      assert rows[p] in page;
      var k :| 0 <= k < |page| && page[k] == rows[p];
      assert page[..limit][k] == rows[p];
    }
  }

  // One page, read at `s` after a cursor that everything collected so far reaches:
  // a truncated page moves the cursor on, and any other completes the list.
  // What of a page is kept: rows in order, and none missing up to where it reaches.
  lemma TakenIsComplete(s: State, cursor: nat, limit: nat)
    requires Consistent(s) && limit > 0
    ensures var page := Page(s.table.rows, cursor, limit + 1);
      var taken := Taken(page, limit);
      && Ascending(taken) && OnlyRows(s.table.rows, cursor, taken)
      && NoneMissing(s.table.rows, cursor, if |page| > limit then Reach(cursor, taken) else |s.table.log|, taken)
      && (|page| > limit ==> cursor < Reach(cursor, taken))
  {
    var page := Page(s.table.rows, cursor, limit + 1);
    PageIsComplete(s.table, cursor, limit + 1);
    if |page| > limit {
      TruncatedIsComplete(s.table.rows, cursor, page, limit);
    }
  }

  lemma PageExtends(s: State, since: nat, collected: seq<Entry>, limit: nat)
    requires Consistent(s) && since <= |s.table.log| && limit > 0
    requires Batch(s, since, collected) && Complete(s, since, Reach(since, collected), collected)
    ensures var page := Page(s.table.rows, Reach(since, collected), limit + 1);
      var all := collected + Taken(page, limit);
      && Batch(s, since, all)
      && Complete(s, since, if |page| > limit then Reach(since, all) else |s.table.log|, all)
      && (|page| > limit ==> Reach(since, collected) < Reach(since, all))
  {
    var cursor := Reach(since, collected);
    var page := Page(s.table.rows, cursor, limit + 1);
    TakenIsComplete(s, cursor, limit);
    var taken := Taken(page, limit);
    assert taken != [] ==> Reach(since, collected + taken) == Reach(cursor, taken);
    BatchAppends(s, since, collected, taken);
    CompleteAppends(s, since, collected, if |page| > limit then Reach(since, collected + taken) else |s.table.log|, taken);
  }

  // What a client has after one more page, whoever wrote in between.
  ghost predicate Followed(s: State, since: nat, all: seq<Entry>, truncated: bool) {
    && Batch(s, since, all)
    && Complete(s, since, if truncated then Reach(since, all) else |s.table.log|, all)
  }

  lemma PageFollows(before: State, s: State, since: nat, collected: seq<Entry>, page: seq<Entry>, limit: nat)
    requires Consistent(before) && Consistent(s) && Evolves(before, s) && since <= |before.table.log| && limit > 0
    requires Followed(before, since, collected, true)
    requires page == Page(s.table.rows, Reach(since, collected), limit + 1)
    ensures Followed(s, since, collected + Taken(page, limit), |page| > limit)
    ensures |page| > limit ==> Reach(since, collected) < Reach(since, collected + Taken(page, limit)) <= |s.table.log|
  {
    ReachIsPast(before, since, collected);
    BatchStays(before, s, since, collected);
    CompleteStays(before, s, since, Reach(since, collected), collected);
    PageExtends(s, since, collected, limit);
    ReachIsPast(s, since, collected + Taken(page, limit));
  }

  lemma RowsAppend(rows: map<Path, Entry>, since: nat, collected: seq<Entry>, cursor: nat, taken: seq<Entry>)
    requires since <= cursor && OnlyRows(rows, since, collected) && OnlyRows(rows, cursor, taken)
    ensures OnlyRows(rows, since, collected + taken)
  {
  }

  lemma PageIsRows(s: State, since: nat, collected: seq<Entry>, limit: nat)
    requires Consistent(s) && since <= Reach(since, collected)
    requires OnlyRows(s.table.rows, since, collected)
    ensures OnlyRows(s.table.rows, since, collected + Taken(Page(s.table.rows, Reach(since, collected), limit + 1), limit))
  {
    PageIsComplete(s.table, Reach(since, collected), limit + 1);
    var page := Page(s.table.rows, Reach(since, collected), limit + 1);
    assert OnlyRows(s.table.rows, Reach(since, collected), Taken(page, limit));
    RowsAppend(s.table.rows, since, collected, Reach(since, collected), Taken(page, limit));
  }
}
