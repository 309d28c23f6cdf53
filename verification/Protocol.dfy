/**
 The protocol as a step system: one server, any number of clients, each cut at its
 request boundaries, and anybody else's requests, in any interleaving.
 */
module Protocol {
  import opened Basics
  import opened Index
  import opened Server
  import opened ClientModel
  import opened Cursor

  // Fixed for a whole run: which paths the rules keep out, and the delete guard.
  datatype Settings = Settings(excluded: Path -> bool, limits: Limits)

  type NodeId = nat

  datatype System = System(server: State, nodes: map<NodeId, Node>)

  // What one client does next. A pull reads the counter and the rows of a page in
  // two queries. A push may happen in any order and with any snapshot of a file.
  datatype Action =
    | BeginPull
    | ReadCounter
    | ReadPage(limit: nat)
    | ApplyNext(clock: Clock)
    | FinishPull
    | GiveUp
    | Touch(path: Path, snapshot: File)
    | Upload(path: Path, snapshot: File, clock: Clock)
    | Take(path: Path, clock: Clock)
    | DeleteRemotely(path: Path, clock: Clock)
    | EditFolder(local: map<Path, File>)

  datatype Label = ByClient(id: NodeId, action: Action) | ByAnyone(request: Request)

  function Relevant(excluded: Path -> bool, entries: seq<Entry>): seq<Entry> {
    if entries == [] then []
    else (if excluded(entries[0].path) then [] else [entries[0]]) + Relevant(excluded, entries[1..])
  }

  // The last page is in: adopt the counter, refuse, or start applying.
  function Collected(settings: Settings, c: Client, entries: seq<Entry>, counter: nat): Node {
    var relevant := Relevant(settings.excluded, entries);
    if entries == [] then Node(c.(lastRev := counter), Idle)
    else if GuardTrips(c, relevant, settings.limits) then Node(c, Idle)
    else Node(c, Applying(relevant, counter))
  }

  ghost function PageRead(settings: Settings, s: State, c: Client, phase: Phase, limit: nat): Node
    requires phase.Counted?
  {
    var page := Page(s.table.rows, phase.cursor, limit + 1);
    var all := phase.collected + Taken(page, limit);
    if |page| <= limit || Reach(c.lastRev, all) <= phase.cursor then Collected(settings, c, all, phase.counter)
    else Node(c, Paging(Reach(c.lastRev, all), all))
  }

  function Applied(s: State, c: Client, phase: Phase, clock: Clock): Node
    requires phase.Applying? && phase.todo != []
  {
    var progress := ApplyEntry(s, c, phase.todo[0], clock, NOTHING_DONE);
    Node(progress.client,
         if progress.result == Failed then Idle else Applying(phase.todo[1..], phase.target))
  }

  function Uploaded(c: Client, p: Path, snapshot: File, response: Response): Client {
    if response.Stored? then Record(c, p, SyncedAs(snapshot, response.rev)) else c
  }

  // A step that its client is not at the right place for changes nothing.
  ghost function Act(settings: Settings, s: State, n: Node, action: Action): (State, Node) {
    var Node(c, phase) := n;
    match action
    case BeginPull =>
      (s, if phase.Idle? then Node(c, Paging(c.lastRev, [])) else n)
    case ReadCounter =>
      (s, if phase.Paging? then Node(c, Counted(phase.cursor, phase.collected, |s.table.log|)) else n)
    case ReadPage(limit) =>
      (s, if phase.Counted? && limit > 0 then PageRead(settings, s, c, phase, limit) else n)
    case ApplyNext(clock) =>
      (s, if phase.Applying? && phase.todo != [] then Applied(s, c, phase, clock) else n)
    case FinishPull =>
      (s, if phase.Applying? && phase.todo == [] then Node(c.(lastRev := phase.target), Idle) else n)
    case GiveUp =>
      (s, Node(c, Idle))
    case Touch(p, snapshot) =>
      (s, if phase.Idle? && p in c.records && c.records[p].sha == Sha256(snapshot.body)
          then Node(Record(c, p, SyncedAs(snapshot, c.records[p].rev)), Idle) else n)
    case Upload(p, snapshot, clock) =>
      if phase.Idle? then
        var (s', response) := PutFile(s, UploadOf(c, p, snapshot.body, clock));
        (s', Node(Uploaded(c, p, snapshot, response), Idle))
      else (s, n)
    case Take(p, clock) =>
      (s, if phase.Idle? then Node(TakeServers(s, c, p, clock, NOTHING_DONE).client, Idle) else n)
    case DeleteRemotely(p, clock) =>
      if phase.Idle? && p in c.records then
        var (s', response) := DeleteFile(s, DeletionOf(c, p, clock));
        (s', Node(AfterDelete(c, p, response, NOTHING_DONE).client, Idle))
      else (s, n)
    case EditFolder(local) =>
      (s, Node(c.(local := local), phase))
  }

  ghost function Step(settings: Settings, sys: System, move: Label): System {
    match move
    case ByAnyone(request) => sys.(server := Handle(sys.server, request).0)
    case ByClient(id, action) =>
      if id !in sys.nodes then sys
      else
        var (server, node) := Act(settings, sys.server, sys.nodes[id], action);
        System(server, sys.nodes[id := node])
  }

  ghost function Run(settings: Settings, sys: System, moves: seq<Label>): System
    decreases |moves|
  {
    if moves == [] then sys else Run(settings, Step(settings, sys, moves[0]), moves[1..])
  }

  ghost predicate Holds(settings: Settings, sys: System) {
    && Consistent(sys.server)
    && forall id :: id in sys.nodes ==> NodeHolds(sys.server, settings.excluded, sys.nodes[id])
  }

  // ── One step of one client ─────────────────────────────────────────────────

  lemma {:induction false} RelevantKeeps(excluded: Path -> bool, entries: seq<Entry>, e: Entry)
    ensures e in Relevant(excluded, entries) <==> e in entries && !excluded(e.path)
  {
    if entries != [] {
      RelevantKeeps(excluded, entries[1..], e);
    }
  }

  lemma {:induction false} RelevantIsABatch(s: State, since: nat, excluded: Path -> bool, entries: seq<Entry>)
    requires Batch(s, since, entries)
    ensures Batch(s, since, Relevant(excluded, entries))
  {
    if entries != [] {
      var rest := Relevant(excluded, entries[1..]);
      assert Batch(s, since, entries[1..]) by {
        forall i | 0 <= i < |entries| - 1 ensures Listed(s, since, entries[1..][i]) {
          assert Listed(s, since, entries[i + 1]);
        }
      }
      RelevantIsABatch(s, since, excluded, entries[1..]);
      forall i | 0 <= i < |rest| ensures entries[0].rev < rest[i].rev {
        RelevantKeeps(excluded, entries[1..], rest[i]);
      }
      assert Listed(s, since, entries[0]);
    }
  }

  // A complete list is a batch whose application settles everything up to the counter.
  lemma CollectedHolds(settings: Settings, s: State, c: Client, entries: seq<Entry>, counter: nat)
    requires Consistent(s) && CursorHolds(s, settings.excluded, c)
    requires Batch(s, c.lastRev, entries) && Complete(s, c.lastRev, |s.table.log|, entries)
    requires c.lastRev <= counter <= |s.table.log|
    ensures NodeHolds(s, settings.excluded, Collected(settings, c, entries, counter))
  {
    var excluded := settings.excluded;
    var n := Collected(settings, c, entries, counter);
    if entries == [] {
      forall p ensures SettledUpTo(s, excluded, n.client, counter, p) {
        assert SettledUpTo(s, excluded, c, c.lastRev, p);
        assert CollectedAt(s, c.lastRev, |s.table.log|, entries, p);
      }
      forall p ensures Issued(s, n.client, p) { assert Issued(s, c, p); }
    } else if n.phase.Applying? {
      var todo := n.phase.todo;
      RelevantIsABatch(s, c.lastRev, excluded, entries);
      forall p ensures AwaitedAt(s, excluded, c, todo, counter, p) {
        assert CollectedAt(s, c.lastRev, |s.table.log|, entries, p);
        if p in s.table.rows {
          assert RowIsNewest(s.table, p);
          RelevantKeeps(excluded, entries, s.table.rows[p]);
        }
      }
    }
  }

  lemma PageReadHolds(settings: Settings, s: State, c: Client, phase: Phase, limit: nat)
    requires Consistent(s) && phase.Counted? && limit > 0
    requires NodeHolds(s, settings.excluded, Node(c, phase))
    ensures NodeHolds(s, settings.excluded, PageRead(settings, s, c, phase, limit))
  {
    var page := Page(s.table.rows, phase.cursor, limit + 1);
    var all := phase.collected + Taken(page, limit);
    PageExtends(s, c.lastRev, phase.collected, limit);
    if |page| <= limit {
      CollectedHolds(settings, s, c, all, phase.counter);
    }
  }

  lemma ApplyTouchesOneRecord(s: State, c: Client, e: Entry, clock: Clock)
    ensures var c' := ApplyEntry(s, c, e, clock, NOTHING_DONE).client;
      c'.lastRev == c.lastRev && c'.records - {e.path} == c.records - {e.path}
  {
  }

  // Whatever branch it takes, applying the newest version of a path settles it, and
  // the record it leaves is a version the server issued.
  lemma ApplySettles(s: State, c: Client, since: nat, e: Entry, clock: Clock)
    requires Consistent(s) && Listed(s, since, e) && Issued(s, c, e.path)
    requires ApplyEntry(s, c, e, clock, NOTHING_DONE).result != Failed
    ensures var c' := ApplyEntry(s, c, e, clock, NOTHING_DONE).client;
      && Issued(s, c', e.path)
      && (e.path in s.table.rows && s.table.rows[e.path] == e ==> Settled(s, c', e))
  {
    assert Hashed(s.table, e.rev - 1);
  }

  lemma FailedApplyIsIssued(s: State, c: Client, e: Entry, clock: Clock)
    requires Issued(s, c, e.path) && ApplyEntry(s, c, e, clock, NOTHING_DONE).result == Failed
    ensures Issued(s, ApplyEntry(s, c, e, clock, NOTHING_DONE).client, e.path)
  {
  }

  lemma OtherRecordsKeep(s: State, c: Client, c': Client, p: Path, q: Path)
    requires c'.records - {p} == c.records - {p} && p != q
    ensures q in c.records <==> q in c'.records
    ensures q in c.records ==> c.records[q] == c'.records[q]
    ensures Issued(s, c, q) ==> Issued(s, c', q)
    ensures q in s.table.rows && s.table.rows[q].path == q && Settled(s, c, s.table.rows[q]) ==> Settled(s, c', s.table.rows[q])
  {
    assert q in c.records <==> q in c.records - {p};
    assert q in c'.records <==> q in c'.records - {p};
    if q in c.records {
      assert (c.records - {p})[q] == c.records[q] && (c'.records - {p})[q] == c'.records[q];
    }
  }

  // A client whose record of one path changed keeps its cursor invariant when that
  // path is newer than the cursor and the new record is a version issued.
  lemma OneRecordChanges(s: State, excluded: Path -> bool, c: Client, c': Client, p: Path)
    requires Consistent(s) && CursorHolds(s, excluded, c)
    requires c'.lastRev == c.lastRev && c'.records - {p} == c.records - {p}
    requires Issued(s, c', p) && SettledUpTo(s, excluded, c', c.lastRev, p)
    ensures CursorHolds(s, excluded, c')
  {
    forall q ensures SettledUpTo(s, excluded, c', c.lastRev, q) && Issued(s, c', q) {
      assert SettledUpTo(s, excluded, c, c.lastRev, q) && Issued(s, c, q) && RowIsNewest(s.table, q);
      if q != p {
        OtherRecordsKeep(s, c, c', p, q);
      }
    }
  }

  lemma AppliedHolds(settings: Settings, s: State, c: Client, phase: Phase, clock: Clock)
    requires Consistent(s) && phase.Applying? && phase.todo != []
    requires NodeHolds(s, settings.excluded, Node(c, phase))
    ensures NodeHolds(s, settings.excluded, Applied(s, c, phase, clock))
  {
    var excluded := settings.excluded;
    var e, rest := phase.todo[0], phase.todo[1..];
    var progress := ApplyEntry(s, c, e, clock, NOTHING_DONE);
    var c' := progress.client;
    assert Listed(s, c.lastRev, e) && Issued(s, c, e.path);
    NewerThanTheCursor(s, c.lastRev, e);
    ApplyTouchesOneRecord(s, c, e, clock);
    if progress.result == Failed {
      FailedApplyIsIssued(s, c, e, clock);
    } else {
      ApplySettles(s, c, c.lastRev, e, clock);
    }
    OneRecordChanges(s, excluded, c, c', e.path);
    if progress.result != Failed {
      forall i | 0 <= i < |rest| ensures Listed(s, c.lastRev, rest[i]) {
        assert Listed(s, c.lastRev, phase.todo[i + 1]);
      }
      forall p ensures AwaitedAt(s, excluded, c', rest, phase.target, p) {
        AwaitedAfterApply(s, excluded, c, c', phase.todo, phase.target, p);
      }
    }
  }

  // The row of a listed path is at least as new as the entry.
  lemma NewerThanTheCursor(s: State, since: nat, e: Entry)
    requires Consistent(s) && Listed(s, since, e)
    ensures e.path in s.table.rows ==> e.rev <= s.table.rows[e.path].rev
  {
    assert VersionIsListed(s.table, e.rev - 1);
  }

  lemma AwaitedAfterApply(s: State, excluded: Path -> bool, c: Client, c': Client, todo: seq<Entry>, target: nat, p: Path)
    requires Consistent(s) && todo != [] && Batch(s, c.lastRev, todo)
    requires c'.lastRev == c.lastRev && c'.records - {todo[0].path} == c.records - {todo[0].path}
    requires AwaitedAt(s, excluded, c, todo, target, p)
    requires todo[0].path in s.table.rows && s.table.rows[todo[0].path] == todo[0] ==> Settled(s, c', todo[0])
    ensures AwaitedAt(s, excluded, c', todo[1..], target, p)
  {
    var e := todo[0];
    assert Listed(s, c.lastRev, e);
    NewerThanTheCursor(s, c.lastRev, e);
    if Above(s.table.rows, c.lastRev, p) && s.table.rows[p].rev <= target && !excluded(p) {
      var row := s.table.rows[p];
      assert RowIsNewest(s.table, p);
      if row.rev < e.rev {
        OtherRecordsKeep(s, c, c', e.path, p);
      } else if row.rev == e.rev {
        assert row == e;
      } else {
        assert row in todo[1..];
      }
    }
  }

  // An entry stepped over because its path is not there has been superseded, unless its
  // file is lost: the newer row is later in the batch, or beyond what this pull will
  // adopt as its cursor.
  lemma SkippedIsSuperseded(settings: Settings, s: State, c: Client, todo: seq<Entry>, target: nat, clock: Clock)
    requires Consistent(s) && todo != [] && NodeHolds(s, settings.excluded, Node(c, Applying(todo, target)))
    requires ApplyEntry(s, c, todo[0], clock, NOTHING_DONE).result == NotThere && !settings.excluded(todo[0].path)
    ensures var p := todo[0].path;
      && p in s.table.rows
      && if s.table.rows[p] == todo[0] then p !in s.disk
         else
           && todo[0].rev < s.table.rows[p].rev
           && (s.table.rows[p] in todo[1..] || target < s.table.rows[p].rev)
  {
    var e := todo[0];
    assert Listed(s, c.lastRev, e);
    assert VersionIsListed(s.table, e.rev - 1) && RowIsNewest(s.table, e.path);
    assert AwaitedAt(s, settings.excluded, c, todo, target, e.path);
  }

  // ── Pushing ────────────────────────────────────────────────────────────────

  // A row that the server has just written is newer than any cursor.
  lemma UploadHolds(s: State, excluded: Path -> bool, c: Client, p: Path, snapshot: File, clock: Clock)
    requires Consistent(s) && CursorHolds(s, excluded, c)
    ensures var (s', response) := PutFile(s, UploadOf(c, p, snapshot.body, clock));
      Consistent(s') && Evolves(s, s') && CursorHolds(s', excluded, Uploaded(c, p, snapshot, response))
  {
    var r := UploadOf(c, p, snapshot.body, clock);
    var (s', response) := PutFile(s, r);
    var c' := Uploaded(c, p, snapshot, response);
    assert Handle(s, r) == (s', response);
    RequestKeeps(s, r);
    CursorStays(s, s', excluded, c);
    if response.Stored? {
      OneRecordChanges(s', excluded, c, c', p);
    }
  }

  lemma TakeHolds(s: State, excluded: Path -> bool, c: Client, p: Path, clock: Clock)
    requires Consistent(s) && CursorHolds(s, excluded, c)
    ensures CursorHolds(s, excluded, TakeServers(s, c, p, clock, NOTHING_DONE).client)
  {
    if Serves(s, p) {
      var c' := TakeServers(s, c, p, clock, NOTHING_DONE).client;
      assert Described(s, p) && RowIsNewest(s.table, p);
      OneRecordChanges(s, excluded, c, c', p);
    }
  }

  // A record is only dropped when the server's row is gone, or newer than the cursor.
  lemma DeleteHolds(s: State, excluded: Path -> bool, c: Client, p: Path, clock: Clock)
    requires Consistent(s) && CursorHolds(s, excluded, c) && p in c.records
    ensures var (s', response) := DeleteFile(s, DeletionOf(c, p, clock));
      Consistent(s') && Evolves(s, s') && CursorHolds(s', excluded, AfterDelete(c, p, response, NOTHING_DONE).client)
  {
    var r := DeletionOf(c, p, clock);
    var (s', response) := DeleteFile(s, r);
    var c' := AfterDelete(c, p, response, NOTHING_DONE).client;
    assert Handle(s, r) == (s', response);
    RequestKeeps(s, r);
    CursorStays(s, s', excluded, c);
    if c' != c {
      assert SettledUpTo(s, excluded, c, c.lastRev, p) && RowIsNewest(s.table, p);
      OneRecordChanges(s', excluded, c, c', p);
    }
  }

  lemma RestatHolds(s: State, excluded: Path -> bool, c: Client, p: Path, snapshot: File)
    requires Consistent(s) && CursorHolds(s, excluded, c)
    requires p in c.records && c.records[p].sha == Sha256(snapshot.body)
    ensures CursorHolds(s, excluded, Record(c, p, SyncedAs(snapshot, c.records[p].rev)))
  {
    assert SettledUpTo(s, excluded, c, c.lastRev, p) && Issued(s, c, p) && RowIsNewest(s.table, p);
    OneRecordChanges(s, excluded, c, Record(c, p, SyncedAs(snapshot, c.records[p].rev)), p);
  }

  lemma FolderDoesNotMatter(s: State, excluded: Path -> bool, c: Client, c': Client, phase: Phase)
    requires NodeHolds(s, excluded, Node(c, phase)) && c'.records == c.records && c'.lastRev == c.lastRev
    ensures NodeHolds(s, excluded, Node(c', phase))
  {
    forall p ensures SettledUpTo(s, excluded, c', c'.lastRev, p) && Issued(s, c', p) {
      assert SettledUpTo(s, excluded, c, c.lastRev, p) && Issued(s, c, p);
    }
    if phase.Applying? {
      forall p ensures AwaitedAt(s, excluded, c', phase.todo, phase.target, p) {
        assert AwaitedAt(s, excluded, c, phase.todo, phase.target, p);
      }
    }
  }

  lemma AdvanceHolds(s: State, excluded: Path -> bool, c: Client, target: nat)
    requires NodeHolds(s, excluded, Node(c, Applying([], target)))
    ensures CursorHolds(s, excluded, c.(lastRev := target))
  {
    var c' := c.(lastRev := target);
    forall p ensures SettledUpTo(s, excluded, c', target, p) && Issued(s, c', p) {
      assert SettledUpTo(s, excluded, c, c.lastRev, p) && Issued(s, c, p);
      assert AwaitedAt(s, excluded, c, [], target, p);
    }
  }

  lemma BeginHolds(s: State, excluded: Path -> bool, c: Client)
    requires CursorHolds(s, excluded, c)
    ensures NodeHolds(s, excluded, Node(c, Paging(c.lastRev, [])))
  {
    forall p ensures CollectedAt(s, c.lastRev, c.lastRev, [], p) {}
  }

  // ── Whole runs ─────────────────────────────────────────────────────────────

  lemma ActHolds(settings: Settings, s: State, n: Node, action: Action)
    requires Consistent(s) && NodeHolds(s, settings.excluded, n)
    ensures var (s', n') := Act(settings, s, n, action);
      Consistent(s') && Evolves(s, s') && NodeHolds(s', settings.excluded, n')
  {
    var Node(c, phase) := n;
    Unchanged(s);
    match action
    case BeginPull => BeginHolds(s, settings.excluded, c);
    case ReadCounter =>
    case ReadPage(limit) =>
      if phase.Counted? && limit > 0 { PageReadHolds(settings, s, c, phase, limit); }
    case ApplyNext(clock) =>
      if phase.Applying? && phase.todo != [] { AppliedHolds(settings, s, c, phase, clock); }
    case FinishPull =>
      if phase.Applying? && phase.todo == [] { AdvanceHolds(s, settings.excluded, c, phase.target); }
    case GiveUp =>
    case Touch(p, snapshot) =>
      if p in c.records && c.records[p].sha == Sha256(snapshot.body) { RestatHolds(s, settings.excluded, c, p, snapshot); }
    case Upload(p, snapshot, clock) => UploadHolds(s, settings.excluded, c, p, snapshot, clock);
    case Take(p, clock) => TakeHolds(s, settings.excluded, c, p, clock);
    case DeleteRemotely(p, clock) =>
      if p in c.records { DeleteHolds(s, settings.excluded, c, p, clock); }
    case EditFolder(local) => FolderDoesNotMatter(s, settings.excluded, c, c.(local := local), phase);
  }

  lemma StepHolds(settings: Settings, sys: System, move: Label)
    requires Holds(settings, sys)
    ensures Holds(settings, Step(settings, sys, move)) && Evolves(sys.server, Step(settings, sys, move).server)
  {
    var sys' := Step(settings, sys, move);
    Unchanged(sys.server);
    match move
    case ByAnyone(request) =>
      RequestKeeps(sys.server, request);
      forall id | id in sys.nodes ensures NodeHolds(sys'.server, settings.excluded, sys.nodes[id]) {
        NodeStays(sys.server, sys'.server, settings.excluded, sys.nodes[id]);
      }
    case ByClient(id, action) =>
      if id in sys.nodes {
        ActHolds(settings, sys.server, sys.nodes[id], action);
        forall other | other in sys.nodes && other != id
          ensures NodeHolds(sys'.server, settings.excluded, sys.nodes[other])
        {
          NodeStays(sys.server, sys'.server, settings.excluded, sys.nodes[other]);
        }
      }
  }

  // Any number of clients, any interleaving at request boundaries, any requests by
  // anybody else, edits of any folder at any time: every client's cursor invariant
  // holds at the end, and so at every point on the way.
  lemma {:induction false} EveryRunHolds(settings: Settings, sys: System, moves: seq<Label>)
    requires Holds(settings, sys)
    ensures Holds(settings, Run(settings, sys, moves))
    ensures Evolves(sys.server, Run(settings, sys, moves).server)
    decreases |moves|
  {
    Unchanged(sys.server);
    if moves != [] {
      var next := Step(settings, sys, moves[0]);
      StepHolds(settings, sys, moves[0]);
      EveryRunHolds(settings, next, moves[1..]);
      EvolvesTransitive(sys.server, next.server, Run(settings, sys, moves).server);
    }
  }

  // Clients that have never synced, with any folders, and a server that is new.
  ghost predicate Fresh(sys: System) {
    && sys.server == EMPTY_STATE
    && forall id :: id in sys.nodes ==>
         sys.nodes[id].client.records == map[] && sys.nodes[id].client.lastRev == 0 && sys.nodes[id].phase == Idle
  }

  lemma FreshHolds(settings: Settings, sys: System)
    requires Fresh(sys)
    ensures Holds(settings, sys)
  {
    assert Valid(EMPTY_TABLE);
  }

  // What the invariant says of one client of a run from the beginning, in the words
  // of its records alone.
  lemma EveryClientOfEveryRun(settings: Settings, sys: System, moves: seq<Label>, id: NodeId, p: Path)
    requires Fresh(sys) && id in Run(settings, sys, moves).nodes && !settings.excluded(p)
    ensures var s := Run(settings, sys, moves).server;
      var c := Run(settings, sys, moves).nodes[id].client;
      && c.lastRev <= |s.table.log|
      && (Serves(s, p) && s.table.rows[p].rev <= c.lastRev ==>
            p in c.records && c.records[p].rev == s.table.rows[p].rev && c.records[p].sha == s.table.rows[p].sha)
      && (p in s.table.rows && s.table.rows[p].deleted && s.table.rows[p].rev <= c.lastRev ==> p !in c.records)
      && (p in c.records ==>
            && 1 <= c.records[p].rev <= |s.table.log|
            && s.table.log[c.records[p].rev - 1].path == p
            && s.table.log[c.records[p].rev - 1].sha == c.records[p].sha)
  {
    FreshHolds(settings, sys);
    EveryRunHolds(settings, sys, moves);
    var s := Run(settings, sys, moves).server;
    var c := Run(settings, sys, moves).nodes[id].client;
    assert SettledUpTo(s, settings.excluded, c, c.lastRev, p) && Issued(s, c, p) && RowIsNewest(s.table, p);
  }
}
