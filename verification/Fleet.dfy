/**
 Any number of clients that take turns: after two rounds without edits, every folder is
 the same.
 */
module Fleet {
  import opened Basics
  import opened Index
  import opened Server
  import opened ClientModel
  import opened Cursor
  import Conservation
  import Protocol
  import opened Convergence

  // Nothing has been edited since the last sync: every file is recorded as it stands,
  // and every record has its file.
  ghost predicate CleanAt(c: Client, p: Path) {
    (p in c.local <==> p in c.records) && (p in c.local ==> UpToDate(c, p))
  }

  ghost predicate Clean(c: Client, excluded: Path -> bool) {
    forall p {:trigger CleanAt(c, p)} :: !excluded(p) ==> CleanAt(c, p)
  }

  lemma TogetherIsClean(s: State, c: Client, excluded: Path -> bool, world: set<Path>)
    requires Pushing(s, c, excluded, world) && Together(s, c, excluded)
    ensures Clean(c, excluded)
  {
    forall p | !excluded(p) ensures CleanAt(c, p) {
      assert MirrorAt(s, c, p) && TogetherAt(s, c, p);
    }
  }

  // ── An unedited client ─────────────────────────────────────────────────────

  lemma ApplyKeepsClean(s: State, c: Client, e: Entry, clock: Clock, summary: Summary, excluded: Path -> bool)
    requires Consistent(s) && Clean(c, excluded) && Current(s, excluded, e)
    ensures var progress := ApplyEntry(s, c, e, clock, summary);
      Clean(progress.client, excluded) && progress.summary.conflicts == summary.conflicts
  {
    var c' := ApplyEntry(s, c, e, clock, summary).client;
    assert Described(s, e.path) && RowIsNewest(s.table, e.path) && CleanAt(c, e.path);
    forall p | !excluded(p) ensures CleanAt(c', p) { assert CleanAt(c, p); }
  }

  lemma {:induction false} ApplyAllKeepsClean(s: State, c: Client, entries: seq<Entry>, clock: Clock, summary: Summary, excluded: Path -> bool)
    requires Consistent(s) && Clean(c, excluded) && AllCurrent(s, excluded, entries)
    ensures var progress := ApplyAll(Still(s, |entries|), c, entries, clock, summary);
      Clean(progress.client, excluded) && progress.summary.conflicts == summary.conflicts
    decreases |entries|
  {
    if entries != [] {
      var first := ApplyEntry(s, c, entries[0], clock, summary);
      assert Current(s, excluded, entries[0]);
      ApplyKeepsClean(s, c, entries[0], clock, summary, excluded);
      if first.result != Failed {
        forall i | 0 <= i < |entries| - 1 ensures Current(s, excluded, entries[1..][i]) {
          assert Current(s, excluded, entries[i + 1]);
        }
        assert Still(s, |entries|)[1..] == Still(s, |entries[1..]|);
        ApplyAllKeepsClean(s, first.client, entries[1..], clock, first.summary, excluded);
      }
    }
  }

  lemma CleanTogether(s: State, c: Client, excluded: Path -> bool, world: set<Path>)
    requires Pushing(s, c, excluded, world) && Clean(c, excluded)
    ensures Together(s, c, excluded)
  {
    forall p | !excluded(p) ensures TogetherAt(s, c, p) {
      assert MirrorAt(s, c, p) && CleanAt(c, p) && Described(s, p);
    }
  }

  // ── One turn ───────────────────────────────────────────────────────────────

  // What a cycle meets and in which order it works.
  datatype Turn = Turn(entries: seq<Entry>, files: seq<Path>, gone: seq<Path>, clock: Clock)

  // What is assumed of each turn by itself: a name for parked edits that is new, the
  // list an undisturbed server answers, a guard that does not trip, and what the scan
  // finds, in any order.
  ghost predicate TurnIsQuiet(settings: Protocol.Settings, s: State, c: Client, turn: Turn, world: set<Path>) {
    && ParkedAreNew(s, turn.clock, world)
    && ChangeList(s, c.lastRev, turn.entries)
    && !GuardTrips(c, Protocol.Relevant(settings.excluded, turn.entries), settings.limits)
    && PushLists(PullOnce(settings, s, c, turn.entries, turn.clock).client, settings.excluded, turn.files, turn.gone)
  }

  ghost predicate CanCycle(settings: Protocol.Settings, s: State, c: Client, turn: Turn, world: set<Path>) {
    InOrder(settings, s, c, world) && TurnIsQuiet(settings, s, c, turn, world)
  }

  function Cycle(settings: Protocol.Settings, s: State, c: Client, turn: Turn): (State, Client) {
    var pulled := PullOnce(settings, s, c, turn.entries, turn.clock);
    var (s', pushed) := PushOnce(s, pulled.client, turn.files, turn.gone, turn.clock, pulled.summary);
    (s', pushed.client)
  }

  lemma CycleLeavesClean(settings: Protocol.Settings, s: State, c: Client, turn: Turn, world: set<Path>)
    requires CanCycle(settings, s, c, turn, world)
    ensures var (s', c') := Cycle(settings, s, c, turn);
      Together(s', c', settings.excluded) && Clean(c', settings.excluded)
  {
    OneCycleConverges(settings, s, c, turn.entries, turn.files, turn.gone, turn.clock, world);
    var (s', c') := Cycle(settings, s, c, turn);
    TogetherIsClean(s', c', settings.excluded, world);
  }

  // The cycle of a client without edits parks nothing and asks nothing of the server:
  // it is a pull, and it ends together with the server as it is.
  lemma CleanCycleOnlyPulls(settings: Protocol.Settings, s: State, c: Client, turn: Turn, world: set<Path>)
    requires CanCycle(settings, s, c, turn, world) && Clean(c, settings.excluded)
    ensures Cycle(settings, s, c, turn) == (s, PullOnce(settings, s, c, turn.entries, turn.clock).client)
    ensures PullOnce(settings, s, c, turn.entries, turn.clock).summary.conflicts == 0
    ensures var c' := Cycle(settings, s, c, turn).1;
      Together(s, c', settings.excluded) && Clean(c', settings.excluded)
  {
    var excluded := settings.excluded;
    var pulled := PullOnce(settings, s, c, turn.entries, turn.clock);
    var relevant := Protocol.Relevant(excluded, turn.entries);
    PullMirrors(settings, s, c, turn.entries, turn.clock, world);
    forall i | 0 <= i < |relevant| ensures Current(s, excluded, relevant[i]) {
      Protocol.RelevantKeeps(excluded, turn.entries, relevant[i]);
    }
    ApplyAllKeepsClean(s, c, relevant, turn.clock, NOTHING_DONE, excluded);
    CleanIgnoresTheCursor(ApplyAll(Still(s, |relevant|), c, relevant, turn.clock, NOTHING_DONE).client, excluded, |s.table.log|);
    CleanIgnoresTheCursor(c, excluded, |s.table.log|);
    CleanTogether(s, pulled.client, excluded, world);
    ScannedIsUpToDate(s, pulled.client, pulled.client, turn.files, excluded);
    NothingToUpload(s, pulled.client, turn.files, turn.clock, pulled.summary);
    NoneIsGone(s, pulled.client, turn.gone, excluded, world);
  }

  lemma CleanIgnoresTheCursor(c: Client, excluded: Path -> bool, lastRev: nat)
    requires Clean(c, excluded)
    ensures Clean(c.(lastRev := lastRev), excluded)
  {
    forall p | !excluded(p) ensures CleanAt(c.(lastRev := lastRev), p) { assert CleanAt(c, p); }
  }

  // ── What a turn leaves to the others ───────────────────────────────────────

  // A push takes nothing back, and makes no directories.
  ghost predicate OnlyAddsFiles(s: State, s': State) {
    && Consistent(s') && Evolves(s, s')
    && forall p :: LiveDirectory(s'.table, p) ==> LiveDirectory(s.table, p)
  }

  lemma OnlyAddsFilesTransitive(s0: State, s1: State, s2: State)
    requires Consistent(s0) && OnlyAddsFiles(s0, s1) && OnlyAddsFiles(s1, s2)
    ensures OnlyAddsFiles(s0, s2)
  {
    EvolvesTransitive(s0, s1, s2);
  }

  lemma PutOnlyAddsFiles(s: State, r: Request)
    requires Consistent(s) && r.Put?
    ensures OnlyAddsFiles(s, PutFile(s, r).0)
  {
    RequestKeeps(s, r);
    assert Handle(s, r) == PutFile(s, r);
  }

  lemma {:induction false} PushFilesOnlyAdd(s: State, c: Client, files: seq<Path>, clock: Clock, summary: Summary)
    requires Consistent(s)
    ensures OnlyAddsFiles(s, PushFiles(s, c, files, clock, summary).0)
    decreases |files|
  {
    Unchanged(s);
    if files != [] {
      var (s1, first) := PushFile(s, c, files[0], clock, summary);
      if files[0] in c.local {
        PutOnlyAddsFiles(s, UploadOf(c, files[0], c.local[files[0]].body, clock));
      }
      PushFilesOnlyAdd(s1, first.client, files[1..], clock, first.summary);
      OnlyAddsFilesTransitive(s, s1, PushFiles(s1, first.client, files[1..], clock, first.summary).0);
    }
  }

  lemma {:induction false} PushDeletionsOnlyAdd(s: State, c: Client, gone: seq<Path>, clock: Clock, summary: Summary)
    requires Consistent(s)
    ensures OnlyAddsFiles(s, PushDeletions(s, c, gone, clock, summary).0)
    decreases |gone|
  {
    Unchanged(s);
    if gone != [] {
      var (s1, first) := PushDeletion(s, c, gone[0], clock, summary);
      if gone[0] in c.records {
        RequestKeeps(s, DeletionOf(c, gone[0], clock));
      }
      PushDeletionsOnlyAdd(s1, first.client, gone[1..], clock, first.summary);
      OnlyAddsFilesTransitive(s, s1, PushDeletions(s1, first.client, gone[1..], clock, first.summary).0);
    }
  }

  lemma CycleOnlyAdds(settings: Protocol.Settings, s: State, c: Client, turn: Turn)
    requires Consistent(s)
    ensures OnlyAddsFiles(s, Cycle(settings, s, c, turn).0)
  {
    var pulled := PullOnce(settings, s, c, turn.entries, turn.clock);
    var (s1, uploaded) := PushFiles(s, pulled.client, turn.files, turn.clock, pulled.summary);
    PushFilesOnlyAdd(s, pulled.client, turn.files, turn.clock, pulled.summary);
    if uploaded.result != Failed {
      PushDeletionsOnlyAdd(s1, uploaded.client, turn.gone, turn.clock, uploaded.summary);
      OnlyAddsFilesTransitive(s, s1, PushDeletions(s1, uploaded.client, turn.gone, turn.clock, uploaded.summary).0);
    }
  }

  // A turn leaves the client that had it in order, and every other.
  lemma CycleKeepsInOrder(settings: Protocol.Settings, s: State, c: Client, turn: Turn, world: set<Path>, other: Client)
    requires CanCycle(settings, s, c, turn, world) && InOrder(settings, s, other, world)
    ensures var (s', c') := Cycle(settings, s, c, turn);
      InOrder(settings, s', c', world) && InOrder(settings, s', other, world)
  {
    var (s', c') := Cycle(settings, s, c, turn);
    OneCycleConverges(settings, s, c, turn.entries, turn.files, turn.gone, turn.clock, world);
    CycleOnlyAdds(settings, s, c, turn);
    CursorStays(s, s', settings.excluded, other);
    forall p | LiveFile(s'.table, p) && !settings.excluded(p) ensures Serves(s', p) { assert MirrorAt(s', c', p); }
    forall p ensures StatHonestAt(other, p) { assert StatHonestAt(other, p); }
  }

  // ── Rounds ─────────────────────────────────────────────────────────────────

  // One round: client i meets servers[i] and leaves servers[i + 1] to the next.
  datatype Round = Round(servers: seq<State>, clients: seq<Client>, turns: seq<Turn>)

  predicate InStep(r: Round) {
    |r.turns| == |r.clients| && |r.servers| == |r.clients| + 1
  }

  ghost predicate TurnAt(settings: Protocol.Settings, r: Round, world: set<Path>, i: nat) {
    InStep(r) && i < |r.clients| ==>
      && TurnIsQuiet(settings, r.servers[i], r.clients[i], r.turns[i], world)
      && r.servers[i + 1] == Cycle(settings, r.servers[i], r.clients[i], r.turns[i]).0
  }

  ghost predicate Goes(settings: Protocol.Settings, r: Round, world: set<Path>) {
    InStep(r) && forall i: nat {:trigger TurnAt(settings, r, world, i)} :: TurnAt(settings, r, world, i)
  }

  // The folders and records a round leaves.
  function AfterTurn(settings: Protocol.Settings, r: Round, i: nat): Client
    requires InStep(r) && i < |r.clients|
  {
    Cycle(settings, r.servers[i], r.clients[i], r.turns[i]).1
  }

  // Client k when i turns are over.
  function AfterTurns(settings: Protocol.Settings, r: Round, i: nat, k: nat): Client
    requires InStep(r) && i <= |r.clients| && k < |r.clients|
  {
    if k < i then AfterTurn(settings, r, k) else r.clients[k]
  }

  // Everybody is in order when a round begins.
  ghost predicate BeginsAt(settings: Protocol.Settings, r: Round, world: set<Path>, k: nat) {
    InStep(r) && k < |r.clients| ==> InOrder(settings, r.servers[0], r.clients[k], world)
  }

  ghost predicate Begins(settings: Protocol.Settings, r: Round, world: set<Path>) {
    forall k: nat {:trigger BeginsAt(settings, r, world, k)} :: BeginsAt(settings, r, world, k)
  }

  // Then everybody is after every turn.
  lemma {:induction false} RoundKeepsInOrder(settings: Protocol.Settings, r: Round, world: set<Path>, i: nat, k: nat)
    requires Goes(settings, r, world) && Begins(settings, r, world) && i <= |r.clients| && k < |r.clients|
    ensures InOrder(settings, r.servers[i], AfterTurns(settings, r, i, k), world)
  {
    if i == 0 {
      assert BeginsAt(settings, r, world, k);
    } else {
      assert TurnAt(settings, r, world, i - 1);
      RoundKeepsInOrder(settings, r, world, i - 1, i - 1);
      RoundKeepsInOrder(settings, r, world, i - 1, k);
      CycleKeepsInOrder(settings, r.servers[i - 1], r.clients[i - 1], r.turns[i - 1], world, AfterTurns(settings, r, i - 1, k));
    }
  }

  lemma TurnCanCycle(settings: Protocol.Settings, r: Round, world: set<Path>, i: nat)
    requires Goes(settings, r, world) && Begins(settings, r, world) && i < |r.clients|
    ensures CanCycle(settings, r.servers[i], r.clients[i], r.turns[i], world)
    ensures r.servers[i + 1] == Cycle(settings, r.servers[i], r.clients[i], r.turns[i]).0
  {
    assert TurnAt(settings, r, world, i);
    RoundKeepsInOrder(settings, r, world, i, i);
  }

  // Clients that have never synced are in order before a new server.
  lemma NewcomersAreInOrder(settings: Protocol.Settings, c: Client, world: set<Path>)
    requires c.records == map[] && c.lastRev == 0 && c.local.Keys <= world && NoFoldClash(world)
    ensures InOrder(settings, EMPTY_STATE, c, world)
  {
    forall i: nat ensures Hashed(EMPTY_TABLE, i) {}
    assert Valid(EMPTY_TABLE);
    forall p ensures Described(EMPTY_STATE, p) && SettledUpTo(EMPTY_STATE, settings.excluded, c, 0, p) && Issued(EMPTY_STATE, c, p) {}
  }

  ghost predicate CleanTurn(settings: Protocol.Settings, r: Round, i: nat) {
    InStep(r) && i < |r.clients| ==> Clean(r.clients[i], settings.excluded)
  }

  ghost predicate AllClean(settings: Protocol.Settings, r: Round) {
    forall i: nat {:trigger CleanTurn(settings, r, i)} :: CleanTurn(settings, r, i)
  }

  lemma TurnLeavesClean(settings: Protocol.Settings, r: Round, world: set<Path>, i: nat)
    requires Goes(settings, r, world) && Begins(settings, r, world) && i < |r.clients|
    ensures Clean(AfterTurn(settings, r, i), settings.excluded)
  {
    TurnCanCycle(settings, r, world, i);
    CycleLeavesClean(settings, r.servers[i], r.clients[i], r.turns[i], world);
  }

  lemma CleanTurnOnlyPulls(settings: Protocol.Settings, r: Round, world: set<Path>, i: nat)
    requires Goes(settings, r, world) && Begins(settings, r, world) && AllClean(settings, r) && i < |r.clients|
    ensures r.servers[i + 1] == r.servers[i]
    ensures Together(r.servers[i], AfterTurn(settings, r, i), settings.excluded)
  {
    assert CleanTurn(settings, r, i);
    TurnCanCycle(settings, r, world, i);
    CleanCycleOnlyPulls(settings, r.servers[i], r.clients[i], r.turns[i], world);
  }

  // In a round of clients without edits nobody writes: each meets the server as the
  // round found it, and ends together with it.
  lemma {:induction false} NobodyWrites(settings: Protocol.Settings, r: Round, world: set<Path>, i: nat)
    requires Goes(settings, r, world) && Begins(settings, r, world) && AllClean(settings, r) && i <= |r.clients|
    ensures r.servers[i] == r.servers[0]
  {
    if i > 0 {
      NobodyWrites(settings, r, world, i - 1);
      CleanTurnOnlyPulls(settings, r, world, i - 1);
    }
  }

  lemma CleanRound(settings: Protocol.Settings, r: Round, world: set<Path>, i: nat)
    requires Goes(settings, r, world) && Begins(settings, r, world) && AllClean(settings, r) && i <= |r.clients|
    ensures r.servers[i] == r.servers[0]
    ensures i < |r.clients| ==> Together(r.servers[0], AfterTurn(settings, r, i), settings.excluded)
  {
    NobodyWrites(settings, r, world, i);
    if i < |r.clients| {
      CleanTurnOnlyPulls(settings, r, world, i);
    }
  }

  // The second round begins with what the first left.
  ghost predicate Follows(settings: Protocol.Settings, first: Round, second: Round) {
    && InStep(first) && InStep(second) && |first.clients| == |second.clients|
    && second.servers[0] == first.servers[|first.clients|]
    && forall i :: 0 <= i < |first.clients| ==> second.clients[i] == AfterTurn(settings, first, i)
  }

  // Whatever the folders held at the start, after two rounds in which nobody edits
  // anything the server is as the first round left it, and every two folders hold the
  // same files with the same bytes.
  lemma TwoRoundsAgree(settings: Protocol.Settings, first: Round, second: Round, world: set<Path>, i: nat, j: nat, p: Path)
    requires Begins(settings, first, world)
    requires Goes(settings, first, world) && Goes(settings, second, world) && Follows(settings, first, second)
    requires i < |first.clients| && j < |first.clients| && !settings.excluded(p)
    ensures var s, mine, theirs := first.servers[|first.clients|], AfterTurn(settings, second, i), AfterTurn(settings, second, j);
      && second.servers[|second.clients|] == s
      && (p in mine.local <==> p in theirs.local)
      && (p in mine.local ==> Serves(s, p) && mine.local[p].body == theirs.local[p].body == GetFile(s, p).body)
  {
    forall k: nat ensures CleanTurn(settings, second, k) && BeginsAt(settings, second, world, k) {
      if k < |first.clients| {
        TurnLeavesClean(settings, first, world, k);
        RoundKeepsInOrder(settings, first, world, |first.clients|, k);
      }
    }
    CleanRound(settings, second, world, |second.clients|);
    CleanRound(settings, second, world, i);
    CleanRound(settings, second, world, j);
    assert TogetherAt(second.servers[0], AfterTurn(settings, second, i), p);
    assert TogetherAt(second.servers[0], AfterTurn(settings, second, j), p);
  }

  // ── A server to start from ─────────────────────────────────────────────────

  const RENAMED := [Conservation.PUT_LOWER, Conservation.DROP_LOWER, Conservation.PUT_UPPER]
  const WORLD: set<Path> := {"A", "A.parked", "d"}

  lemma WorldsFolds()
    ensures NoFoldClash(WORLD)
  {
    forall p, q | p in WORLD && q in WORLD && Fold(p) == Fold(q) ensures p == q {
      assert |Fold(p)| == |p| && |Fold(q)| == |q|;
      assert Fold("A")[0] == 'a' && Fold("d")[0] == 'd';
    }
  }

  lemma DirectoryBeside(s: State)
    requires s.table.rows.Keys == {"a", "A"} && "d" !in s.disk
    ensures Handle(s, MakeDir("d", 20)).0
      == s.(table := Upserted(s.table, Entry("d", Directory, 0, 20, NoDigest, 0, false)))
  {
    assert Fold("d")[0] == 'd' && Fold("a")[0] == 'a' && Fold("A")[0] == 'a';
    assert "d" != "a" && "d" != "A";
  }

  lemma RenamedServer() returns (s: State)
    ensures s == Handle(HandleAll(EMPTY_STATE, RENAMED), MakeDir("d", 20)).0
    ensures Consistent(s) && Evolves(EMPTY_STATE, s) && "A" in s.disk
    ensures s.table.rows.Keys == {"a", "A", "d"} && s.table.rows["a"].deleted
    ensures LiveFile(s.table, "A") && LiveDirectory(s.table, "d")
  {
    forall i: nat ensures Hashed(EMPTY_TABLE, i) {}
    assert Valid(EMPTY_TABLE) && Consistent(EMPTY_STATE);
    var s0 := Conservation.LowerThenUpper();
    RequestsKeep(EMPTY_STATE, RENAMED);
    RequestKeeps(s0, MakeDir("d", 20));
    s := Handle(s0, MakeDir("d", 20)).0;
    DirectoryBeside(s0);
    EvolvesTransitive(EMPTY_STATE, s0, s);
  }

  // A file renamed by letter case alone, whose tombstone folds onto it, and a directory
  // beside it: a cycle of a new client may start.
  lemma ACaseRenameIsInOrder(settings: Protocol.Settings, clock: Clock) returns (s: State)
    requires clock.parked("A") == "A.parked"
    ensures s == Handle(HandleAll(EMPTY_STATE, RENAMED), MakeDir("d", 20)).0
    ensures "a" in s.table.rows && s.table.rows["a"].deleted && LiveFile(s.table, "A") && LiveDirectory(s.table, "d")
    ensures Starts(settings, s, Client(map[], map[], 0), clock, WORLD)
  {
    var c := Client(map[], map[], 0);
    WorldsFolds();
    NewcomersAreInOrder(settings, c, WORLD);
    s := RenamedServer();
    CursorStays(EMPTY_STATE, s, settings.excluded, c);
    forall p ensures StatHonestAt(c, p) {}
    assert |"A.parked"| > |"A"|;
    forall p | LiveFile(s.table, p) ensures ParkedIsNew(s, clock, WORLD, p) { assert p == "A"; }
  }
}
