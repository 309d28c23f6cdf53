/**
 When a live row always has its file, so that reaching a client's cursor means being
 in its records, and the one request that breaks it.
 */
module Served {
  import opened Basics
  import opened Index
  import opened Server
  import opened ClientModel
  import opened Cursor
  import opened Protocol
  import opened NoLoss
  import opened Convergence
  import Conservation

  ghost predicate OnDisk(s: State, p: Path) {
    Live(s.table, p) && s.table.rows[p].kind == RegularFile ==> p in s.disk
  }

  ghost predicate AllOnDisk(s: State) {
    forall p {:trigger OnDisk(s, p)} :: OnDisk(s, p)
  }

  // An upload whose body does not hash to what it declares, aimed at a path that is
  // being served.
  predicate Spoils(s: State, r: Request) {
    Conservation.Mismatched(s, r) && Serves(s, Conservation.Target(s, r))
  }

  lemma {:induction false} PurgeKeepsFiles(s: State, paths: seq<Path>, stamp: string)
    requires Consistent(s) && AllOnDisk(s)
    ensures AllOnDisk(PurgeIgnored(s, paths, stamp))
    decreases |paths|
  {
    if paths != [] {
      var s1 := PurgeOne(s, paths[0], stamp);
      PurgeOneKeeps(s, paths[0], stamp);
      forall p ensures OnDisk(s1, p) { assert OnDisk(s, p); }
      PurgeKeepsFiles(s1, paths[1..], stamp);
    }
  }

  // Every live file row keeps its file through a request if and only if the request
  // is not such an upload.
  lemma RequestKeepsFiles(s: State, r: Request)
    requires Consistent(s) && AllOnDisk(s)
    ensures AllOnDisk(Handle(s, r).0) <==> !Spoils(s, r)
  {
    var s' := Handle(s, r).0;
    if Spoils(s, r) {
      Conservation.RefusedUpload(s, r);
      assert !OnDisk(s', Conservation.Target(s, r));
    } else {
      match r
      case Purge(paths, stamp) => PurgeKeepsFiles(s, paths, stamp);
      case _ =>
        forall p ensures OnDisk(s', p) { assert OnDisk(s, p); }
    }
  }

  ghost predicate NoneSpoils(settings: Settings, sys: System, moves: seq<Label>)
    decreases |moves|
  {
    moves == [] ||
    ((moves[0].ByAnyone? ==> !Spoils(sys.server, moves[0].request)) && NoneSpoils(settings, Step(settings, sys, moves[0]), moves[1..]))
  }

  // The engine declares the hash of exactly the bytes it sends.
  lemma EngineNeverSpoils(settings: Settings, s: State, n: Node, action: Action)
    requires Consistent(s) && AllOnDisk(s)
    ensures AllOnDisk(Act(settings, s, n, action).0)
  {
    match action
    case Upload(p, snapshot, clock) =>
      RequestKeepsFiles(s, UploadOf(n.client, p, snapshot.body, clock));
    case DeleteRemotely(p, clock) =>
      if p in n.client.records {
        RequestKeepsFiles(s, DeletionOf(n.client, p, clock));
      }
    case _ =>
  }

  lemma {:induction false} RunKeepsFiles(settings: Settings, sys: System, moves: seq<Label>)
    requires Holds(settings, sys) && AllOnDisk(sys.server) && NoneSpoils(settings, sys, moves)
    ensures AllOnDisk(Run(settings, sys, moves).server)
    decreases |moves|
  {
    if moves != [] {
      StepHolds(settings, sys, moves[0]);
      match moves[0] {
        case ByAnyone(request) => RequestKeepsFiles(sys.server, request);
        case ByClient(id, action) =>
          if id in sys.nodes {
            EngineNeverSpoils(settings, sys.server, sys.nodes[id], action);
          }
      }
      RunKeepsFiles(settings, Step(settings, sys, moves[0]), moves[1..]);
    }
  }

  // In a run without such an upload, a live file that a client's cursor has reached is
  // in its records, at that revision and with that hash, without exception.
  lemma EveryReachedFileIsRecorded(settings: Settings, sys: System, moves: seq<Label>, id: NodeId, p: Path)
    requires Fresh(sys) && NoneSpoils(settings, sys, moves)
    requires var end := Run(settings, sys, moves);
      && id in end.nodes && !settings.excluded(p)
      && Live(end.server.table, p) && end.server.table.rows[p].kind == RegularFile
      && end.server.table.rows[p].rev <= end.nodes[id].client.lastRev
    ensures var end := Run(settings, sys, moves);
      var c := end.nodes[id].client;
      p in c.records && c.records[p].rev == end.server.table.rows[p].rev && c.records[p].sha == end.server.table.rows[p].sha
  {
    FreshHolds(settings, sys);
    forall q ensures OnDisk(sys.server, q) {}
    RunKeepsFiles(settings, sys, moves);
    EveryClientOfEveryRun(settings, sys, moves, id, p);
    assert OnDisk(Run(settings, sys, moves).server, p);
  }

  // ── When every client has what it has reached ──────────────────────────────

  // Every live file the rules let through has its bytes.
  ghost predicate IncludedOnDisk(s: State, excluded: Path -> bool) {
    forall p :: !excluded(p) && LiveFile(s.table, p) ==> p in s.disk
  }

  ghost predicate RecordedAt(s: State, c: Client, p: Path)
    requires p in s.table.rows
  {
    p in c.records && c.records[p].rev == s.table.rows[p].rev && c.records[p].sha == s.table.rows[p].sha
  }

  // Every live file a client's cursor has reached is in its records.
  ghost predicate ReachedIsRecorded(s: State, excluded: Path -> bool, c: Client) {
    forall p :: !excluded(p) && LiveFile(s.table, p) && s.table.rows[p].rev <= c.lastRev ==> RecordedAt(s, c, p)
  }

  lemma ReachedWhenOnDisk(s: State, excluded: Path -> bool, c: Client)
    requires CursorHolds(s, excluded, c) && Consistent(s) && IncludedOnDisk(s, excluded)
    ensures ReachedIsRecorded(s, excluded, c)
  {
    forall p | !excluded(p) && LiveFile(s.table, p) && s.table.rows[p].rev <= c.lastRev ensures RecordedAt(s, c, p) {
      assert SettledUpTo(s, excluded, c, c.lastRev, p) && RowIsNewest(s.table, p);
    }
  }

  // A client that has never synced, before its first pull.
  ghost predicate Joins(s: State, c: Client, entries: seq<Entry>) {
    c.records == map[] && c.lastRev == 0 && ChangeList(s, 0, entries)
  }

  lemma {:induction false} NothingRecorded(c: Client, entries: seq<Entry>)
    requires c.records == map[]
    ensures Deletions(c, entries) == 0
  {
    if entries != [] {
      NothingRecorded(c, entries[1..]);
    }
  }

  // Applying current rows fails at none of them, and settles every row.
  lemma {:induction false} CurrentRowsApply(settings: Settings, s: State, c: Client, todo: seq<Entry>, clock: Clock, summary: Summary)
    requires Consistent(s) && AllCurrent(s, settings.excluded, todo)
    requires NodeHolds(s, settings.excluded, Node(c, Applying(todo, |s.table.log|)))
    ensures var progress := ApplyAll(Still(s, |todo|), c, todo, clock, summary);
      progress.result == Fine && NodeHolds(s, settings.excluded, Node(progress.client, Applying([], |s.table.log|)))
    decreases |todo|
  {
    if todo != [] {
      var e, rest := todo[0], todo[1..];
      var first := ApplyEntry(s, c, e, clock, summary);
      assert Current(s, settings.excluded, e);
      assert first.client == ApplyEntry(s, c, e, clock, NOTHING_DONE).client
        && first.result == ApplyEntry(s, c, e, clock, NOTHING_DONE).result;
      AppliedHolds(settings, s, c, Applying(todo, |s.table.log|), clock);
      forall i | 0 <= i < |rest| ensures Current(s, settings.excluded, rest[i]) {
        assert Current(s, settings.excluded, todo[i + 1]);
      }
      assert Still(s, |todo|)[1..] == Still(s, |rest|);
      CurrentRowsApply(settings, s, first.client, rest, clock, first.summary);
    }
  }

  lemma RelevantIsCurrent(settings: Settings, s: State, since: nat, entries: seq<Entry>)
    requires ChangeList(s, since, entries)
    ensures AllCurrent(s, settings.excluded, Relevant(settings.excluded, entries))
  {
    var relevant := Relevant(settings.excluded, entries);
    forall i | 0 <= i < |relevant| ensures Current(s, settings.excluded, relevant[i]) {
      RelevantKeeps(settings.excluded, entries, relevant[i]);
    }
  }

  lemma JoinerIsCaughtUp(settings: Settings, s: State, c: Client, entries: seq<Entry>, clock: Clock)
    requires Consistent(s) && Joins(s, c, entries)
    ensures var pulled := PullOnce(settings, s, c, entries, clock);
      pulled.result == Fine && pulled.client.lastRev == |s.table.log| && CursorHolds(s, settings.excluded, pulled.client)
  {
    var relevant := Relevant(settings.excluded, entries);
    forall p ensures SettledUpTo(s, settings.excluded, c, 0, p) && Issued(s, c, p) { assert RowIsNewest(s.table, p); }
    NothingRecorded(c, relevant);
    CollectedHolds(settings, s, c, entries, |s.table.log|);
    if entries != [] {
      RelevantIsCurrent(settings, s, 0, entries);
      CurrentRowsApply(settings, s, c, relevant, clock, NOTHING_DONE);
      AdvanceHolds(s, settings.excluded, ApplyAll(Still(s, |relevant|), c, relevant, clock, NOTHING_DONE).client, |s.table.log|);
    }
  }

  // The row of a lost file is stepped over.
  lemma {:induction false} LostIsPassed(s: State, excluded: Path -> bool, c: Client, todo: seq<Entry>, clock: Clock, summary: Summary, p: Path)
    requires AllCurrent(s, excluded, todo) && LiveFile(s.table, p) && p !in s.disk
    requires p !in c.local && p !in c.records && forall q :: clock.parked(q) != p
    ensures p !in ApplyAll(Still(s, |todo|), c, todo, clock, summary).client.records
    decreases |todo|
  {
    if todo != [] {
      var e, first := todo[0], ApplyEntry(s, c, todo[0], clock, summary);
      assert Current(s, excluded, e);
      if e.path != p {
        ApplyElsewhere(s, c, e, clock, summary, p);
      }
      forall i | 0 <= i < |todo| - 1 ensures Current(s, excluded, todo[1..][i]) {
        assert Current(s, excluded, todo[i + 1]);
      }
      assert Still(s, |todo|)[1..] == Still(s, |todo[1..]|);
      if first.result != Failed {
        LostIsPassed(s, excluded, first.client, todo[1..], clock, first.summary, p);
      }
    }
  }

  // Any client that joins without a file there ends its first pull past the row, with
  // no record of it.
  lemma JoinerMissesTheLost(settings: Settings, s: State, c: Client, entries: seq<Entry>, clock: Clock, p: Path)
    requires Consistent(s) && Joins(s, c, entries) && !settings.excluded(p)
    requires LiveFile(s.table, p) && p !in s.disk
    requires p !in c.local && forall q :: clock.parked(q) != p
    ensures var pulled := PullOnce(settings, s, c, entries, clock);
      && pulled.result == Fine && p !in pulled.client.records
      && s.table.rows[p].rev <= pulled.client.lastRev
  {
    JoinerIsCaughtUp(settings, s, c, entries, clock);
    NothingRecorded(c, Relevant(settings.excluded, entries));
    RelevantIsCurrent(settings, s, 0, entries);
    LostIsPassed(s, settings.excluded, c, Relevant(settings.excluded, entries), clock, NOTHING_DONE, p);
    assert RowIsNewest(s.table, p);
  }

  lemma {:induction false} AsManyPaths(page: seq<Entry>)
    requires DistinctPaths(page)
    ensures |set i | 0 <= i < |page| :: page[i].path| == |page|
  {
    var paths := set i | 0 <= i < |page| :: page[i].path;
    if page == [] {
      assert paths == {};
    } else {
      var rest := set i | 0 <= i < |page[1..]| :: page[1..][i].path;
      AsManyPaths(page[1..]);
      assert paths == {page[0].path} + rest by {
        forall p | p in paths ensures p in {page[0].path} + rest {
          var i :| 0 <= i < |page| && page[i].path == p;
          if i > 0 { assert page[1..][i - 1].path == p; }
        }
        forall p | p in rest ensures p in paths {
          var i :| 0 <= i < |page[1..]| && page[1..][i].path == p;
          assert page[i + 1].path == p;
        }
        assert page[0].path in paths;
      }
      assert page[0].path !in rest;
    }
  }

  lemma NoMoreThanRows(rows: map<Path, Entry>, since: nat, page: seq<Entry>)
    requires Ascending(page) && OnlyRows(rows, since, page)
    ensures |page| <= |rows|
  {
    forall i, j | 0 <= i < j < |page| ensures page[i].path != page[j].path {
      assert page[i].rev < page[j].rev;
    }
    AsManyPaths(page);
    SubsetIsSmaller(set i | 0 <= i < |page| :: page[i].path, rows.Keys);
  }

  // There is always a list of everything.
  lemma WholeList(s: State) returns (entries: seq<Entry>)
    requires Consistent(s)
    ensures ChangeList(s, 0, entries)
  {
    var limit := |s.table.rows| + 1;
    entries := Page(s.table.rows, 0, limit);
    PageIsComplete(s.table, 0, limit);
    NoMoreThanRows(s.table.rows, 0, entries);
    forall i | 0 <= i < |entries| ensures Listed(s, 0, entries[i]) { assert RowIsNewest(s.table, entries[i].path); }
    forall p ensures CollectedAt(s, 0, |s.table.log|, entries, p) {}
  }

  // Every client that joins has what it has reached, if and only if every live file the
  // rules let through has its bytes.
  lemma JoinersAreRecordedWhen(settings: Settings, s: State)
    requires Consistent(s)
    ensures IncludedOnDisk(s, settings.excluded) <==>
      forall c, entries, clock :: Joins(s, c, entries) ==>
        ReachedIsRecorded(s, settings.excluded, PullOnce(settings, s, c, entries, clock).client)
  {
    if IncludedOnDisk(s, settings.excluded) {
      forall c, entries, clock | Joins(s, c, entries)
        ensures ReachedIsRecorded(s, settings.excluded, PullOnce(settings, s, c, entries, clock).client)
      {
        JoinerIsCaughtUp(settings, s, c, entries, clock);
        ReachedWhenOnDisk(s, settings.excluded, PullOnce(settings, s, c, entries, clock).client);
      }
    } else {
      var p :| !settings.excluded(p) && LiveFile(s.table, p) && p !in s.disk;
      var c, clock := Client(map[], map[], 0), Clock(q => p + ".", q => q, 0, "");
      var entries := WholeList(s);
      assert forall q :: |clock.parked(q)| > |p|;
      JoinerMissesTheLost(settings, s, c, entries, clock, p);
      assert !ReachedIsRecorded(s, settings.excluded, PullOnce(settings, s, c, entries, clock).client);
    }
  }

  // At the end of any run: every client, present or joining, has on record every live
  // file its cursor has reached, if and only if no live file has lost its bytes.
  lemma EveryReachedFileIsRecordedWhen(settings: Settings, sys: System, moves: seq<Label>)
    requires Fresh(sys)
    ensures var end := Run(settings, sys, moves);
      IncludedOnDisk(end.server, settings.excluded) <==>
        && (forall id :: id in end.nodes ==> ReachedIsRecorded(end.server, settings.excluded, end.nodes[id].client))
        && (forall c, entries, clock :: Joins(end.server, c, entries) ==>
              ReachedIsRecorded(end.server, settings.excluded, PullOnce(settings, end.server, c, entries, clock).client))
  {
    FreshHolds(settings, sys);
    EveryRunHolds(settings, sys, moves);
    var end := Run(settings, sys, moves);
    JoinersAreRecordedWhen(settings, end.server);
    if IncludedOnDisk(end.server, settings.excluded) {
      forall id | id in end.nodes ensures ReachedIsRecorded(end.server, settings.excluded, end.nodes[id].client) {
        assert NodeHolds(end.server, settings.excluded, end.nodes[id]);
        ReachedWhenOnDisk(end.server, settings.excluded, end.nodes[id].client);
      }
    }
  }

  // ── The run that shows the exception ───────────────────────────────────────

  const EVERYTHING := Settings(_ => false, Limits(100, 0.25))
  const ANYHOW := Clock(p => p + ".parked", p => p + ".conflict", 7, "T")
  const FIRST_BODY: Body := [1]
  const SECOND_BODY: Body := [2]
  const NEWCOMER := Node(Client(map[], map[], 0), Idle)
  const ALONE := System(EMPTY_STATE, map[0 := NEWCOMER])

  const PUT_FIRST := Put("a", 0, FIRST_BODY, None, "x", 10, "T")
  const PUT_SPOILED := Put("a", 1, SECOND_BODY, Some(NoDigest), "x", 11, "T")

  const SPOILED_RUN := [
    ByAnyone(PUT_FIRST), ByAnyone(PUT_SPOILED),
    ByClient(0, BeginPull), ByClient(0, ReadCounter), ByClient(0, ReadPage(1000)),
    ByClient(0, ApplyNext(ANYHOW)), ByClient(0, FinishPull)]

  lemma SpoiledServer() returns (s: State)
    ensures s == Handle(Handle(EMPTY_STATE, PUT_FIRST).0, PUT_SPOILED).0
    ensures s.table.rows.Keys == {"a"} && s.disk == map[] && |s.table.log| == 1
    ensures s.table.rows["a"] == Entry("a", RegularFile, 1, 10, Sha256(FIRST_BODY), 1, false)
    ensures Consistent(s)
  {
    forall i: nat ensures Hashed(EMPTY_TABLE, i) {}
    assert Valid(EMPTY_TABLE) && Consistent(EMPTY_STATE);
    var s1 := Handle(EMPTY_STATE, PUT_FIRST).0;
    RequestKeeps(EMPTY_STATE, PUT_FIRST);
    assert s1.disk == map["a" := File(FIRST_BODY, 10)];
    s := Handle(s1, PUT_SPOILED).0;
    RequestKeeps(s1, PUT_SPOILED);
  }

  lemma OneOfEach(page: seq<Entry>, rev: nat)
    requires Ascending(page) && forall i :: 0 <= i < |page| ==> page[i].rev == rev
    ensures |page| <= 1
  {
    assert |page| > 0 ==> page[0].rev == page[|page| - 1].rev;
  }

  lemma OneRowPage(s: State)
    requires Consistent(s) && s.table.rows.Keys == {"a"} && s.table.rows["a"].rev == 1 && |s.table.log| == 1
    ensures Page(s.table.rows, 0, 1001) == [s.table.rows["a"]]
  {
    PageIsComplete(s.table, 0, 1001);
    var page := Page(s.table.rows, 0, 1001);
    assert Above(s.table.rows, 0, "a");
    assert forall i :: 0 <= i < |page| ==> page[i] == s.table.rows["a"];
    OneOfEach(page, 1);
    assert s.table.rows["a"] in page;
  }

  lemma PullPastTheSpoiled(s: State, n: Node) returns (end: Node)
    requires Consistent(s) && s.table.rows.Keys == {"a"} && s.disk == map[] && |s.table.log| == 1
    requires s.table.rows["a"] == Entry("a", RegularFile, 1, 10, Sha256(FIRST_BODY), 1, false)
    requires n == NEWCOMER
    ensures end == Node(Client(map[], map[], 1), Idle)
    ensures var n1 := Act(EVERYTHING, s, n, BeginPull).1;
      var n2 := Act(EVERYTHING, s, n1, ReadCounter).1;
      var n3 := Act(EVERYTHING, s, n2, ReadPage(1000)).1;
      var n4 := Act(EVERYTHING, s, n3, ApplyNext(ANYHOW)).1;
      end == Act(EVERYTHING, s, n4, FinishPull).1
  {
    OneRowPage(s);
    var row := s.table.rows["a"];
    var n2 := Node(n.client, Counted(0, [], 1));
    assert [] + [row] == [row];
    assert Relevant(EVERYTHING.excluded, [row]) == [row] by { assert [row][1..] == []; }
    var n3 := Act(EVERYTHING, s, n2, ReadPage(1000)).1;
    assert Deletions(n.client, [row]) == 0 by { assert [row][1..] == []; }
    assert n3 == Node(n.client, Applying([row], 1));
    var n4 := Act(EVERYTHING, s, n3, ApplyNext(ANYHOW)).1;
    assert [row][1..] == [];
    assert n4 == Node(n.client, Applying([], 1));
    end := Act(EVERYTHING, s, n4, FinishPull).1;
  }

  // The cursor has reached a live row that is in no record: its file went to the trash
  // when the refused upload came, and the pull stepped over it.
  lemma ASpoiledFileIsReachedButNotRecorded()
    ensures Fresh(ALONE)
    ensures var end := Run(EVERYTHING, ALONE, SPOILED_RUN);
      && 0 in end.nodes && Live(end.server.table, "a")
      && end.server.table.rows["a"].rev == 1 == end.nodes[0].client.lastRev
      && "a" !in end.nodes[0].client.records
  {
    var s := SpoiledServer();
    var end := PullPastTheSpoiled(s, NEWCOMER);
    RunOnServer(s);
    RunOnClient(s, NEWCOMER, end);
  }

  lemma RunOnServer(s: State)
    requires s == Handle(Handle(EMPTY_STATE, PUT_FIRST).0, PUT_SPOILED).0
    ensures Run(EVERYTHING, ALONE, SPOILED_RUN) == Run(EVERYTHING, System(s, ALONE.nodes), SPOILED_RUN[2..])
  {
    var sys1 := Step(EVERYTHING, ALONE, ByAnyone(PUT_FIRST));
    assert SPOILED_RUN[1..][1..] == SPOILED_RUN[2..];
    assert Run(EVERYTHING, ALONE, SPOILED_RUN) == Run(EVERYTHING, sys1, SPOILED_RUN[1..]);
  }

  lemma RunOnClient(s: State, n: Node, end: Node)
    requires var n1 := Act(EVERYTHING, s, n, BeginPull).1;
      var n2 := Act(EVERYTHING, s, n1, ReadCounter).1;
      var n3 := Act(EVERYTHING, s, n2, ReadPage(1000)).1;
      var n4 := Act(EVERYTHING, s, n3, ApplyNext(ANYHOW)).1;
      end == Act(EVERYTHING, s, n4, FinishPull).1
    ensures Run(EVERYTHING, System(s, map[0 := n]), SPOILED_RUN[2..]) == System(s, map[0 := end])
  {
    var n1 := Act(EVERYTHING, s, n, BeginPull).1;
    var n2 := Act(EVERYTHING, s, n1, ReadCounter).1;
    var n3 := Act(EVERYTHING, s, n2, ReadPage(1000)).1;
    var n4 := Act(EVERYTHING, s, n3, ApplyNext(ANYHOW)).1;
    ClientStep(s, n, BeginPull);
    ClientStep(s, n1, ReadCounter);
    ClientStep(s, n2, ReadPage(1000));
    ClientStep(s, n3, ApplyNext(ANYHOW));
    ClientStep(s, n4, FinishPull);
    assert SPOILED_RUN[2..][1..] == SPOILED_RUN[3..] && SPOILED_RUN[3..][1..] == SPOILED_RUN[4..];
    assert SPOILED_RUN[4..][1..] == SPOILED_RUN[5..] && SPOILED_RUN[5..][1..] == SPOILED_RUN[6..] && SPOILED_RUN[6..][1..] == [];
    assert Run(EVERYTHING, System(s, map[0 := n4]), SPOILED_RUN[6..]) == System(s, map[0 := end]);
    assert Run(EVERYTHING, System(s, map[0 := n3]), SPOILED_RUN[5..]) == System(s, map[0 := end]);
    assert Run(EVERYTHING, System(s, map[0 := n2]), SPOILED_RUN[4..]) == System(s, map[0 := end]);
    assert Run(EVERYTHING, System(s, map[0 := n1]), SPOILED_RUN[3..]) == System(s, map[0 := end]);
  }

  lemma ClientStep(s: State, n: Node, action: Action)
    requires action.BeginPull? || action.ReadCounter? || action.ReadPage? || action.ApplyNext? || action.FinishPull?
    ensures Step(EVERYTHING, System(s, map[0 := n]), ByClient(0, action))
      == System(s, map[0 := Act(EVERYTHING, s, n, action).1])
  {
    assert map[0 := n][0 := Act(EVERYTHING, s, n, action).1] == map[0 := Act(EVERYTHING, s, n, action).1];
  }
}
