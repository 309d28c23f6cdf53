/**
 Lists with a path on them more than once: which keep every edit of it, on which the
 count made before a pull bounds its removals, and what any pull keeps.
 */
module Repeats {
  import opened Basics
  import opened Index
  import opened Server
  import opened ClientModel
  import opened Cursor
  import opened NoLoss

  predicate SomeLive(entries: seq<Entry>, p: Path) {
    exists j :: 0 <= j < |entries| && TellsLive(entries[j], p)
  }

  // No version of the path is listed after anything else that is said of it.
  predicate OnlyTheFirstIsLive(entries: seq<Entry>, p: Path)
    decreases |entries|
  {
    entries == [] ||
    if Tells(entries[0], p) then !SomeLive(entries[1..], p) else OnlyTheFirstIsLive(entries[1..], p)
  }

  // What servers answer with: revisions from 1 on, oldest first, and every version with
  // its hash.
  ghost predicate WellListed(entries: seq<Entry>, clock: Clock, p: Path) {
    && Ascending(entries)
    && OnItsOwn(entries, clock, p) && clock.parked(p) != p
    && forall i {:trigger entries[i]} :: 0 <= i < |entries| ==>
         0 < entries[i].rev && (TellsLive(entries[i], p) ==> entries[i].sha != NoDigest)
  }

  // None of the versions listed is these bytes.
  ghost predicate Unlisted(entries: seq<Entry>, p: Path, b: Body) {
    forall i {:trigger entries[i]} :: 0 <= i < |entries| && entries[i].path == p ==> entries[i].sha != Sha256(b)
  }

  // An edit the server has not seen.
  ghost predicate UnseenEdit(c: Client, entries: seq<Entry>, clock: Clock, p: Path) {
    && Edited(c, p) && !Deletable(c, p)
    && clock.parked(p) !in c.local
    && Unlisted(entries, p, c.local[p].body)
  }

  lemma WellListedRest(entries: seq<Entry>, clock: Clock, p: Path)
    requires entries != [] && WellListed(entries, clock, p)
    ensures WellListed(entries[1..], clock, p)
  {
    assert forall j :: 0 <= j < |entries| - 1 ==> entries[1..][j] == entries[j + 1];
  }

  lemma UnlistedRest(entries: seq<Entry>, p: Path, b: Body)
    requires entries != [] && Unlisted(entries, p, b)
    ensures Unlisted(entries[1..], p, b)
  {
    assert forall j :: 0 <= j < |entries| - 1 ==> entries[1..][j] == entries[j + 1];
  }

  lemma SomeLiveRest(entries: seq<Entry>, p: Path)
    requires entries != []
    ensures SomeLive(entries, p) <==> TellsLive(entries[0], p) || SomeLive(entries[1..], p)
  {
    if SomeLive(entries[1..], p) {
      var j :| 0 <= j < |entries| - 1 && TellsLive(entries[1..][j], p);
      assert TellsLive(entries[j + 1], p);
    }
    if j :| 0 < j < |entries| && TellsLive(entries[j], p) {
      assert entries[1..][j - 1] == entries[j];
    }
  }

  // ── Safe lists ─────────────────────────────────────────────────────────────

  // With no version left to come, bytes stay where they are, at the path while no
  // tombstone may remove them, or under the parked name.
  lemma {:induction false} TombstonesKeep(servers: seq<State>, c: Client, entries: seq<Entry>, clock: Clock, summary: Summary, p: Path, b: Body)
    requires |servers| == |entries| && OnItsOwn(entries, clock, p) && clock.parked(p) != p
    requires !SomeLive(entries, p)
    requires
      || (p in c.local && c.local[p].body == b && !Deletable(c, p))
      || (clock.parked(p) in c.local && c.local[clock.parked(p)].body == b)
    ensures Survives(ApplyAll(servers, c, entries, clock, summary).client, p, clock.parked(p), b)
    decreases |entries|
  {
    if entries != [] {
      var e := entries[0];
      var first := ApplyEntry(servers[0], c, e, clock, summary);
      OnItsOwnAfter(entries, clock, p);
      SomeLiveRest(entries, p);
      if e.path != p {
        ApplyElsewhere(servers[0], c, e, clock, summary, p);
        ApplyElsewhere(servers[0], c, e, clock, summary, clock.parked(p));
      }
      if first.result != Failed {
        TombstonesKeep(servers[1..], first.client, entries[1..], clock, first.summary, p, b);
      }
    }
  }

  lemma {:induction false} SafeListKeeps(servers: seq<State>, c: Client, entries: seq<Entry>, clock: Clock, summary: Summary, p: Path)
    requires |servers| == |entries| && OnItsOwn(entries, clock, p) && clock.parked(p) != p
    requires UnseenEdit(c, entries, clock, p) && OnlyTheFirstIsLive(entries, p)
    ensures Survives(ApplyAll(servers, c, entries, clock, summary).client, p, clock.parked(p), c.local[p].body)
    decreases |entries|
  {
    if entries != [] {
      var e, b := entries[0], c.local[p].body;
      var first := ApplyEntry(servers[0], c, e, clock, summary);
      OnItsOwnAfter(entries, clock, p);
      UnlistedRest(entries, p, b);
      if e.path != p {
        ApplyElsewhere(servers[0], c, e, clock, summary, p);
        ApplyElsewhere(servers[0], c, e, clock, summary, clock.parked(p));
      }
      if first.result != Failed {
        if Tells(e, p) {
          TombstonesKeep(servers[1..], first.client, entries[1..], clock, first.summary, p, b);
        } else {
          SafeListKeeps(servers[1..], first.client, entries[1..], clock, first.summary, p);
        }
      }
    }
  }

  // ── Lists that are not ─────────────────────────────────────────────────────

  // A server whose one live path is somebody else's version.
  ghost predicate Offers(s: State, p: Path, x: Body) {
    && LiveFile(s.table, p) && p in s.disk && s.disk[p].body == x
    && forall q :: Live(s.table, q) ==> q == p
  }

  ghost predicate AllOffer(servers: seq<State>, p: Path, x: Body) {
    forall i {:trigger servers[i]} :: 0 <= i < |servers| ==> Offers(servers[i], p, x)
  }

  lemma OffersToOthers(s: State, c: Client, e: Entry, clock: Clock, summary: Summary, p: Path, x: Body)
    requires Offers(s, p, x)
    ensures ApplyEntry(s, c, e, clock, summary).result != Failed
  {
  }

  // Nothing but the other version is left.
  predicate Only(c: Client, p: Path, parked: Path, x: Body) {
    (p in c.local ==> c.local[p].body == x) && (parked in c.local ==> c.local[parked].body == x)
  }

  lemma {:induction false} OnlyStays(servers: seq<State>, c: Client, entries: seq<Entry>, clock: Clock, summary: Summary, p: Path, x: Body)
    requires |servers| == |entries| && WellListed(entries, clock, p) && AllOffer(servers, p, x)
    requires Only(c, p, clock.parked(p), x)
    ensures Only(ApplyAll(servers, c, entries, clock, summary).client, p, clock.parked(p), x)
    decreases |entries|
  {
    if entries != [] {
      var e := entries[0];
      var first := ApplyEntry(servers[0], c, e, clock, summary);
      WellListedRest(entries, clock, p);
      if e.path != p {
        ApplyElsewhere(servers[0], c, e, clock, summary, p);
        ApplyElsewhere(servers[0], c, e, clock, summary, clock.parked(p));
      }
      if first.result != Failed {
        OnlyStays(servers[1..], first.client, entries[1..], clock, first.summary, p, x);
      }
    }
  }

  // Without a record, the next version takes the place of the bytes.
  lemma {:induction false} UnrecordedIsReplaced(servers: seq<State>, c: Client, entries: seq<Entry>, clock: Clock, summary: Summary, p: Path, x: Body)
    requires |servers| == |entries| && WellListed(entries, clock, p) && AllOffer(servers, p, x)
    requires p in c.local && p !in c.records && clock.parked(p) !in c.local
    requires Unlisted(entries, p, c.local[p].body) && SomeLive(entries, p)
    ensures Only(ApplyAll(servers, c, entries, clock, summary).client, p, clock.parked(p), x)
    decreases |entries|
  {
    var e := entries[0];
    var first := ApplyEntry(servers[0], c, e, clock, summary);
    OffersToOthers(servers[0], c, e, clock, summary, p, x);
    WellListedRest(entries, clock, p);
    UnlistedRest(entries, p, c.local[p].body);
    SomeLiveRest(entries, p);
    if TellsLive(e, p) {
      OnlyStays(servers[1..], first.client, entries[1..], clock, first.summary, p, x);
    } else {
      if e.path != p {
        ApplyElsewhere(servers[0], c, e, clock, summary, p);
        ApplyElsewhere(servers[0], c, e, clock, summary, clock.parked(p));
      }
      UnrecordedIsReplaced(servers[1..], first.client, entries[1..], clock, first.summary, p, x);
    }
  }

  // The next thing said of the path is a version.
  predicate NextIsLive(entries: seq<Entry>, p: Path)
    decreases |entries|
  {
    entries != [] && (TellsLive(entries[0], p) || (!Tells(entries[0], p) && NextIsLive(entries[1..], p)))
  }

  // What was downloaded is not what is recorded, so the next version parks it.
  lemma {:induction false} DownloadIsParked(servers: seq<State>, c: Client, entries: seq<Entry>, clock: Clock, summary: Summary, p: Path, x: Body)
    requires |servers| == |entries| && WellListed(entries, clock, p) && AllOffer(servers, p, x)
    requires p in c.local && c.local[p].body == x && p in c.records && c.records[p].sha != Sha256(x)
    requires Unlisted(entries, p, x) && NextIsLive(entries, p)
    requires forall i {:trigger entries[i]} :: 0 <= i < |entries| ==> c.records[p].rev < entries[i].rev
    ensures Only(ApplyAll(servers, c, entries, clock, summary).client, p, clock.parked(p), x)
    decreases |entries|
  {
    var e := entries[0];
    var first := ApplyEntry(servers[0], c, e, clock, summary);
    OffersToOthers(servers[0], c, e, clock, summary, p, x);
    WellListedRest(entries, clock, p);
    UnlistedRest(entries, p, x);
    if TellsLive(e, p) {
      assert Edited(c, p) && !Echo(c, e);
      OnlyStays(servers[1..], first.client, entries[1..], clock, first.summary, p, x);
    } else {
      if e.path != p {
        ApplyElsewhere(servers[0], c, e, clock, summary, p);
      }
      assert forall j :: 0 <= j < |entries| - 1 ==> entries[1..][j] == entries[j + 1];
      DownloadIsParked(servers[1..], first.client, entries[1..], clock, first.summary, p, x);
    }
  }

  // The record that makes an edit of this path lose: the first version listed, when a
  // tombstone is next, and otherwise any but that.
  ghost predicate Exposed(c: Client, entries: seq<Entry>, p: Path)
    requires p in c.records
    decreases |entries|
  {
    entries == [] ||
    if !Tells(entries[0], p) then Exposed(c, entries[1..], p)
    else if entries[0].deleted then true
    else if NextIsLive(entries[1..], p) then c.records[p].rev != entries[0].rev
    else c.records[p].rev == entries[0].rev && c.records[p].sha == entries[0].sha
  }

  lemma {:induction false} ExposedDependsOn(c: Client, c': Client, entries: seq<Entry>, p: Path)
    requires SameAt(c, c', p) && p in c.records && Exposed(c, entries, p)
    ensures Exposed(c', entries, p)
    decreases |entries|
  {
    if entries != [] && !Tells(entries[0], p) {
      ExposedDependsOn(c, c', entries[1..], p);
    }
  }

  // The first thing said is a version that the client has recorded, and a tombstone
  // follows it: then another version.
  lemma {:induction false} EchoThenTombstone(servers: seq<State>, c: Client, entries: seq<Entry>, clock: Clock, summary: Summary, p: Path, x: Body)
    requires |servers| == |entries| && WellListed(entries, clock, p) && AllOffer(servers, p, x)
    requires UnseenEdit(c, entries, clock, p)
    requires SomeLive(entries, p) && !NextIsLive(entries, p)
    ensures Only(ApplyAll(servers, c, entries, clock, summary).client, p, clock.parked(p), x)
    decreases |entries|
  {
    var e := entries[0];
    var first := ApplyEntry(servers[0], c, e, clock, summary);
    OffersToOthers(servers[0], c, e, clock, summary, p, x);
    WellListedRest(entries, clock, p);
    UnlistedRest(entries, p, c.local[p].body);
    SomeLiveRest(entries, p);
    if Tells(e, p) {
      UnrecordedIsReplaced(servers[1..], first.client, entries[1..], clock, first.summary, p, x);
    } else {
      if e.path != p {
        ApplyElsewhere(servers[0], c, e, clock, summary, p);
        ApplyElsewhere(servers[0], c, e, clock, summary, clock.parked(p));
      }
      EchoThenTombstone(servers[1..], first.client, entries[1..], clock, first.summary, p, x);
    }
  }

  lemma {:induction false} UnsafeListLoses(servers: seq<State>, c: Client, entries: seq<Entry>, clock: Clock, summary: Summary, p: Path, x: Body)
    requires |servers| == |entries| && WellListed(entries, clock, p) && AllOffer(servers, p, x)
    requires UnseenEdit(c, entries, clock, p) && Unlisted(entries, p, x) && Exposed(c, entries, p)
    requires !OnlyTheFirstIsLive(entries, p)
    ensures Only(ApplyAll(servers, c, entries, clock, summary).client, p, clock.parked(p), x)
    decreases |entries|
  {
    var e, rest := entries[0], entries[1..];
    var first := ApplyEntry(servers[0], c, e, clock, summary);
    OffersToOthers(servers[0], c, e, clock, summary, p, x);
    WellListedRest(entries, clock, p);
    UnlistedRest(entries, p, c.local[p].body);
    UnlistedRest(entries, p, x);
    if !Tells(e, p) {
      if e.path != p {
        ApplyElsewhere(servers[0], c, e, clock, summary, p);
        ApplyElsewhere(servers[0], c, e, clock, summary, clock.parked(p));
      }
      ExposedDependsOn(c, first.client, rest, p);
      UnsafeListLoses(servers[1..], first.client, rest, clock, first.summary, p, x);
    } else if e.deleted {
      UnrecordedIsReplaced(servers[1..], first.client, rest, clock, first.summary, p, x);
    } else if NextIsLive(rest, p) {
      assert forall j :: 0 <= j < |entries| - 1 ==> rest[j] == entries[j + 1];
      DownloadIsParked(servers[1..], first.client, rest, clock, first.summary, p, x);
    } else {
      EchoThenTombstone(servers[1..], first.client, rest, clock, first.summary, p, x);
    }
  }

  // ── Both ───────────────────────────────────────────────────────────────────

  function Longest(entries: seq<Entry>): (n: nat)
    ensures forall i :: 0 <= i < |entries| && entries[i].sha.Sha256? ==> |entries[i].sha.of| <= n
  {
    if entries == [] then 0
    else
      var rest := Longest(entries[1..]);
      assert forall j :: 0 <= j < |entries| - 1 ==> entries[1..][j] == entries[j + 1];
      if entries[0].sha.Sha256? && |entries[0].sha.of| > rest then |entries[0].sha.of| else rest
  }

  // The next version listed.
  function NextVersion(entries: seq<Entry>, p: Path): (i: nat)
    requires SomeLive(entries, p)
    ensures i < |entries| && TellsLive(entries[i], p)
    decreases |entries|
  {
    SomeLiveRest(entries, p);
    if TellsLive(entries[0], p) then 0 else 1 + NextVersion(entries[1..], p)
  }

  // The version to have on record for an edit to be lost.
  function ExposingVersion(entries: seq<Entry>, p: Path): (i: nat)
    requires !OnlyTheFirstIsLive(entries, p)
    ensures i < |entries| && TellsLive(entries[i], p)
    decreases |entries|
  {
    if !Tells(entries[0], p) then 1 + ExposingVersion(entries[1..], p)
    else if entries[0].deleted || NextIsLive(entries[1..], p) then 1 + NextVersion(entries[1..], p)
    else 0
  }

  lemma {:induction false} VersionExposes(c: Client, entries: seq<Entry>, p: Path)
    requires Ascending(entries) && !OnlyTheFirstIsLive(entries, p) && p in c.records
    requires var e := entries[ExposingVersion(entries, p)]; c.records[p].rev == e.rev && c.records[p].sha == e.sha
    ensures Exposed(c, entries, p)
    decreases |entries|
  {
    if !Tells(entries[0], p) {
      VersionExposes(c, entries[1..], p);
    }
  }

  // ── Clients and servers ────────────────────────────────────────────────────

  lemma {:induction false} InSomeOrder(members: set<Path>) returns (paths: seq<Path>)
    ensures AsSet(paths) == members
  {
    if members == {} {
      paths := [];
    } else {
      var p :| p in members;
      var rest := InSomeOrder(members - {p});
      paths := [p] + rest;
      assert AsSet(paths) == {p} + AsSet(rest);
    }
  }

  lemma {:induction false} PurgedAreDead(s: State, paths: seq<Path>, stamp: string, p: Path)
    requires p in paths || !Live(s.table, p)
    ensures !Live(PurgeIgnored(s, paths, stamp).table, p)
    decreases |paths|
  {
    if paths != [] {
      PurgedAreDead(PurgeOne(s, paths[0], stamp), paths[1..], stamp, p);
    }
  }

  // What a server may become: every path purged.
  lemma PurgedServer(read: State) returns (now: State)
    requires Consistent(read)
    ensures Consistent(now) && Evolves(read, now) && forall p :: !Live(now.table, p)
  {
    var paths := InSomeOrder(read.table.rows.Keys);
    RequestKeeps(read, Purge(paths, ""));
    now := Handle(read, Purge(paths, "")).0;
    forall p ensures !Live(now.table, p) {
      assert p in read.table.rows ==> p in AsSet(paths);
      PurgedAreDead(read, paths, "", p);
    }
  }

  // And then one path uploaded.
  lemma OfferingServer(read: State, p: Path, x: Body) returns (now: State)
    requires Consistent(read)
    ensures Consistent(now) && Evolves(read, now) && Offers(now, p, x)
  {
    var purged := PurgedServer(read);
    var r := Put(p, 0, x, None, p, 0, "");
    RequestKeeps(purged, r);
    now := Handle(purged, r).0;
    EvolvesTransitive(read, purged, now);
    forall q ensures !(q in purged.table.rows && !purged.table.rows[q].deleted) { assert !Live(purged.table, q); }
    forall q | Live(now.table, q) ensures q == p { assert !Live(purged.table, q); }
  }

  // Every entry meets a server that has come of the one the list was read from.
  ghost predicate Meets(read: State, servers: seq<State>) {
    forall i {:trigger servers[i]} :: 0 <= i < |servers| ==> Consistent(servers[i]) && Evolves(read, servers[i])
  }

  // The client that read it.
  ghost predicate Follows(read: State, excluded: Path -> bool, since: nat, c: Client) {
    CursorHolds(read, excluded, c) && c.lastRev == since && StatHonest(c)
  }

  // The records of all that was served up to the cursor.
  function Caught(read: State, since: nat): map<Path, Synced> {
    map q | q in read.table.rows && read.table.rows[q].rev <= since && Serves(read, q) ::
      Synced(read.table.rows[q].size, read.table.rows[q].mtime, read.table.rows[q].sha, read.table.rows[q].rev)
  }

  function VersionRecord(e: Entry): Synced {
    Synced(e.size, e.mtime, e.sha, e.rev)
  }

  lemma CaughtFollows(read: State, excluded: Path -> bool, since: nat)
    requires Consistent(read) && since <= |read.table.log|
    ensures Follows(read, excluded, since, Client(map[], Caught(read, since), since))
  {
    var c := Client(map[], Caught(read, since), since);
    forall q ensures SettledUpTo(read, excluded, c, since, q) && Issued(read, c, q) {
      assert RowIsNewest(read.table, q);
    }
  }

  // With a file that is edited since a version on the list, too.
  lemma EditorFollows(read: State, excluded: Path -> bool, since: nat, e: Entry, body: Body)
    requires Consistent(read) && Listed(read, since, e) && !e.deleted
    ensures Follows(read, excluded, since,
      Client(map[e.path := File(body, e.mtime + 1)], Caught(read, since)[e.path := VersionRecord(e)], since))
  {
    var p := e.path;
    var before := Client(map[], Caught(read, since), since);
    var c := Client(map[p := File(body, e.mtime + 1)], Caught(read, since)[p := VersionRecord(e)], since);
    CaughtFollows(read, excluded, since);
    assert VersionIsListed(read.table, e.rev - 1);
    forall q ensures SettledUpTo(read, excluded, c, since, q) && Issued(read, c, q) {
      assert SettledUpTo(read, excluded, before, since, q) && Issued(read, before, q) && RowIsNewest(read.table, q);
    }
  }

  // ── Edits ──────────────────────────────────────────────────────────────────

  // What is collected, whoever writes meanwhile.
  ghost predicate Collected(read: State, since: nat, entries: seq<Entry>, clock: Clock, p: Path) {
    Consistent(read) && Batch(read, since, entries) && OnItsOwn(entries, clock, p) && clock.parked(p) != p
  }

  lemma BatchIsWellListed(read: State, since: nat, entries: seq<Entry>, clock: Clock, p: Path)
    requires Collected(read, since, entries, clock, p)
    ensures WellListed(entries, clock, p)
  {
    forall i | 0 <= i < |entries|
      ensures 0 < entries[i].rev && (TellsLive(entries[i], p) ==> entries[i].sha != NoDigest)
    {
      assert Listed(read, since, entries[i]) && Hashed(read.table, entries[i].rev - 1);
    }
  }

  ghost predicate KeepsEdit(read: State, excluded: Path -> bool, since: nat, servers: seq<State>,
                            c: Client, entries: seq<Entry>, clock: Clock, p: Path) {
    |servers| == |entries| && Meets(read, servers) && Follows(read, excluded, since, c) && UnseenEdit(c, entries, clock, p) ==>
      Survives(ApplyAll(servers, c, entries, clock, NOTHING_DONE).client, p, clock.parked(p), c.local[p].body)
  }

  // On any other list an edit is lost: of a client whose cursor invariant holds, that
  // has a listed version on record, against a server that has moved on.
  lemma SomeEditIsLost(read: State, excluded: Path -> bool, since: nat, entries: seq<Entry>, clock: Clock, p: Path)
    returns (servers: seq<State>, c: Client)
    requires Collected(read, since, entries, clock, p) && !OnlyTheFirstIsLive(entries, p)
    ensures !KeepsEdit(read, excluded, since, servers, c, entries, clock, p)
  {
    BatchIsWellListed(read, since, entries, clock, p);
    var n := Longest(entries);
    var mine, theirs := Zeros(n + 1), Zeros(n + 2);
    var now := OfferingServer(read, p, theirs);
    servers := seq(|entries|, _ => now);
    var e := entries[ExposingVersion(entries, p)];
    assert Listed(read, since, e);
    EditorFollows(read, excluded, since, e, mine);
    c := Client(map[p := File(mine, e.mtime + 1)], Caught(read, since)[p := VersionRecord(e)], since);
    VersionExposes(c, entries, p);
    UnsafeListLoses(servers, c, entries, clock, NOTHING_DONE, p, theirs);
  }

  // Whoever has edited the path, and whatever becomes of the server: the edit is kept,
  // for certain, if and only if no version of the path is listed after anything else
  // that is said of it.
  lemma RepeatsAreSafeWhen(read: State, excluded: Path -> bool, since: nat, entries: seq<Entry>, clock: Clock, p: Path)
    requires Collected(read, since, entries, clock, p)
    ensures (forall servers, c :: KeepsEdit(read, excluded, since, servers, c, entries, clock, p)) <==> OnlyTheFirstIsLive(entries, p)
  {
    if OnlyTheFirstIsLive(entries, p) {
      forall servers, c ensures KeepsEdit(read, excluded, since, servers, c, entries, clock, p) {
        if |servers| == |entries| && UnseenEdit(c, entries, clock, p) {
          SafeListKeeps(servers, c, entries, clock, NOTHING_DONE, p);
        }
      }
    } else {
      var servers, c := SomeEditIsLost(read, excluded, since, entries, clock, p);
    }
  }

  // A list that names the path once is one.
  lemma {:induction false} OnceIsSafe(entries: seq<Entry>, p: Path)
    requires ListedOnce(entries, p)
    ensures OnlyTheFirstIsLive(entries, p)
    decreases |entries|
  {
    if entries != [] {
      assert forall j :: 0 <= j < |entries| - 1 ==> entries[1..][j] == entries[j + 1];
      if !Tells(entries[0], p) {
        OnceIsSafe(entries[1..], p);
      }
    }
  }

  // ── The count before a pull ────────────────────────────────────────────────

  // A record of the path means an untouched file.
  predicate Untouched(c: Client, p: Path) {
    p in c.records ==> p in c.local && SameStat(c.local[p], c.records[p])
  }

  lemma RemovalsAdd(s: State, c: Client, e: Entry, clock: Clock, summary: Summary)
    ensures ApplyEntry(s, c, e, clock, summary).summary.deletedLocally == summary.deletedLocally + One(WouldDelete(c, e))
  {
  }

  lemma {:induction false} NeverFails(servers: seq<State>, c: Client, entries: seq<Entry>, clock: Clock, summary: Summary, p: Path, x: Body)
    requires |servers| == |entries| && AllOffer(servers, p, x)
    ensures var progress := ApplyAll(servers, c, entries, clock, summary);
      progress.result != Failed && progress.summary.deletedLocally >= summary.deletedLocally
    decreases |entries|
  {
    if entries != [] {
      var first := ApplyEntry(servers[0], c, entries[0], clock, summary);
      OffersToOthers(servers[0], c, entries[0], clock, summary, p, x);
      NeverFails(servers[1..], first.client, entries[1..], clock, first.summary, p, x);
    }
  }

  lemma UntouchedAfter(s: State, c: Client, e: Entry, clock: Clock, summary: Summary, p: Path, x: Body)
    requires Offers(s, p, x) && Untouched(c, p) && clock.parked(e.path) != p && clock.parked(p) != p
    ensures var c' := ApplyEntry(s, c, e, clock, summary).client;
      && Untouched(c', p)
      && (TellsLive(e, p) ==> p in c'.records)
      && (!(e.path == p && e.deleted) && p in c.records ==> p in c'.records)
  {
    if e.path != p {
      ApplyElsewhere(s, c, e, clock, summary, p);
    }
  }

  // A recorded, untouched file goes at the next tombstone.
  lemma {:induction false} RecordedGoes(servers: seq<State>, c: Client, entries: seq<Entry>, clock: Clock, summary: Summary, p: Path, x: Body)
    requires |servers| == |entries| && AllOffer(servers, p, x)
    requires OnItsOwn(entries, clock, p) && clock.parked(p) != p
    requires Untouched(c, p) && p in c.records && SomeTombstone(entries, p)
    ensures ApplyAll(servers, c, entries, clock, summary).summary.deletedLocally > summary.deletedLocally
    decreases |entries|
  {
    var e, first := entries[0], ApplyEntry(servers[0], c, entries[0], clock, summary);
    OffersToOthers(servers[0], c, e, clock, summary, p, x);
    RemovalsAdd(servers[0], c, e, clock, summary);
    if e.path == p && e.deleted {
      NeverFails(servers[1..], first.client, entries[1..], clock, first.summary, p, x);
    } else {
      UntouchedAfter(servers[0], c, e, clock, summary, p, x);
      OnItsOwnAfter(entries, clock, p);
      SomeTombstoneRest(entries, p);
      RecordedGoes(servers[1..], first.client, entries[1..], clock, first.summary, p, x);
    }
  }

  lemma {:induction false} DownloadedGoes(servers: seq<State>, c: Client, entries: seq<Entry>, clock: Clock, summary: Summary, p: Path, x: Body)
    requires |servers| == |entries| && AllOffer(servers, p, x)
    requires OnItsOwn(entries, clock, p) && clock.parked(p) != p
    requires Untouched(c, p) && DeletedAgain(entries, p)
    ensures ApplyAll(servers, c, entries, clock, summary).summary.deletedLocally > summary.deletedLocally
    decreases |entries|
  {
    var e, first := entries[0], ApplyEntry(servers[0], c, entries[0], clock, summary);
    OffersToOthers(servers[0], c, e, clock, summary, p, x);
    RemovalsAdd(servers[0], c, e, clock, summary);
    UntouchedAfter(servers[0], c, e, clock, summary, p, x);
    OnItsOwnAfter(entries, clock, p);
    if DeletedAgain(entries[1..], p) {
      DownloadedGoes(servers[1..], first.client, entries[1..], clock, first.summary, p, x);
    } else {
      RecordedGoes(servers[1..], first.client, entries[1..], clock, first.summary, p, x);
    }
  }

  lemma {:induction false} WhichIsDeletedAgain(entries: seq<Entry>) returns (p: Path)
    requires !NoTombstoneAfterVersion(entries)
    ensures DeletedAgain(entries, p) && exists i :: 0 <= i < |entries| && entries[i].path == p
    decreases |entries|
  {
    if NoTombstoneAfterVersion(entries[1..]) {
      var j :| 1 <= j < |entries| && TellsLive(entries[0], entries[j].path) && entries[j].deleted;
      p := entries[j].path;
      assert entries[1..][j - 1] == entries[j];
    } else {
      p := WhichIsDeletedAgain(entries[1..]);
      var i :| 0 <= i < |entries| - 1 && entries[1..][i].path == p;
      assert entries[i + 1] == entries[1..][i];
    }
  }

  lemma {:induction false} NothingToDelete(c: Client, entries: seq<Entry>)
    requires c.local == map[]
    ensures Deletions(c, entries) == 0
  {
    if entries != [] {
      NothingToDelete(c, entries[1..]);
    }
  }

  ghost predicate Bounds(read: State, excluded: Path -> bool, since: nat, servers: seq<State>,
                         c: Client, entries: seq<Entry>, clock: Clock) {
    |servers| == |entries| && Meets(read, servers) && Follows(read, excluded, since, c) ==>
      ApplyAll(servers, c, entries, clock, NOTHING_DONE).summary.deletedLocally <= Deletions(c, entries)
  }

  // Names that are apart from each other, and from what is listed.
  ghost predicate NamesApart(entries: seq<Entry>, clock: Clock) {
    && ParkedApart(entries, clock)
    && forall i, j {:trigger entries[i], entries[j]} :: 0 <= i < |entries| && 0 <= j < |entries| && entries[i].path != entries[j].path ==>
         clock.parked(entries[i].path) != clock.parked(entries[j].path)
  }

  lemma ApartMeansOnItsOwn(entries: seq<Entry>, clock: Clock, p: Path)
    requires NamesApart(entries, clock) && exists i :: 0 <= i < |entries| && entries[i].path == p
    ensures OnItsOwn(entries, clock, p) && clock.parked(p) != p
  {
    var i :| 0 <= i < |entries| && entries[i].path == p;
    assert clock.parked(entries[i].path) != entries[i].path;
  }

  // A client with an empty folder, against a server that has moved on.
  lemma SomeRemovalIsNotCounted(read: State, excluded: Path -> bool, since: nat, entries: seq<Entry>, clock: Clock)
    returns (servers: seq<State>, c: Client)
    requires Consistent(read) && Batch(read, since, entries) && NamesApart(entries, clock) && !NoTombstoneAfterVersion(entries)
    ensures |servers| == |entries| && Meets(read, servers) && Follows(read, excluded, since, c)
    ensures var progress := ApplyAll(servers, c, entries, clock, NOTHING_DONE);
      progress.result != Failed && progress.summary.deletedLocally > Deletions(c, entries)
  {
    var p := WhichIsDeletedAgain(entries);
    ApartMeansOnItsOwn(entries, clock, p);
    var i :| 0 <= i < |entries| && entries[i].path == p;
    assert Listed(read, since, entries[i]) && VersionIsListed(read.table, entries[i].rev - 1);
    var now := OfferingServer(read, p, []);
    servers := seq(|entries|, _ => now);
    c := Client(map[], Caught(read, since), since);
    CaughtFollows(read, excluded, since);
    assert p !in c.records;
    NothingToDelete(c, entries);
    NeverFails(servers, c, entries, clock, NOTHING_DONE, p, []);
    DownloadedGoes(servers, c, entries, clock, NOTHING_DONE, p, []);
  }

  // For every client that reads the list, and whatever becomes of the server: the count
  // made before the pull bounds the files it removes if and only if no tombstone of a
  // path is listed after a version of it.
  lemma CountBoundsWhen(read: State, excluded: Path -> bool, since: nat, entries: seq<Entry>, clock: Clock)
    requires Consistent(read) && Batch(read, since, entries) && NamesApart(entries, clock)
    ensures (forall servers, c :: Bounds(read, excluded, since, servers, c, entries, clock)) <==> NoTombstoneAfterVersion(entries)
  {
    if NoTombstoneAfterVersion(entries) {
      forall servers, c ensures Bounds(read, excluded, since, servers, c, entries, clock) {
        if |servers| == |entries| {
          PreCountBounds(servers, c, entries, clock, NOTHING_DONE);
        }
      }
    } else {
      var servers, c := SomeRemovalIsNotCounted(read, excluded, since, entries, clock);
      assert !Bounds(read, excluded, since, servers, c, entries, clock);
    }
  }

  // ── When the count is exact ────────────────────────────────────────────────

  // A server with nothing to download.
  ghost predicate AllBare(servers: seq<State>) {
    forall i {:trigger servers[i]} :: 0 <= i < |servers| ==> forall q :: !Live(servers[i].table, q)
  }

  // The one file there is, as recorded, goes at its first tombstone, and does not come
  // back.
  lemma {:induction false} GoesOnce(servers: seq<State>, c: Client, entries: seq<Entry>, clock: Clock, summary: Summary, p: Path)
    requires |servers| == |entries| && AllBare(servers)
    requires c.local.Keys <= {p}
    requires p in c.local ==> p in c.records && c.records[p].sha == Sha256(c.local[p].body)
    ensures var progress := ApplyAll(servers, c, entries, clock, summary);
      progress.result != Failed && progress.summary.deletedLocally <= summary.deletedLocally + One(p in c.local)
    decreases |entries|
  {
    if entries != [] {
      var first := ApplyEntry(servers[0], c, entries[0], clock, summary);
      assert GetFile(servers[0], entries[0].path) == Missing;
      RemovalsAdd(servers[0], c, entries[0], clock, summary);
      GoesOnce(servers[1..], first.client, entries[1..], clock, first.summary, p);
    }
  }

  lemma {:induction false} CountedTwice(c: Client, entries: seq<Entry>, i: nat, j: nat)
    requires i < j < |entries| && WouldDelete(c, entries[i]) && WouldDelete(c, entries[j])
    ensures Deletions(c, entries) >= 2
    decreases |entries|
  {
    if i > 0 {
      CountedTwice(c, entries[1..], i - 1, j - 1);
    } else {
      CountedOnce(c, entries[1..], j - 1);
    }
  }

  lemma {:induction false} CountedOnce(c: Client, entries: seq<Entry>, j: nat)
    requires j < |entries| && WouldDelete(c, entries[j])
    ensures Deletions(c, entries) >= 1
    decreases |entries|
  {
    if j > 0 {
      CountedOnce(c, entries[1..], j - 1);
    }
  }

  lemma {:induction false} TwoTombstones(entries: seq<Entry>) returns (i: nat, j: nat)
    requires NoTombstoneAfterVersion(entries) && !NoTombstoneAfterAnything(entries)
    ensures i < j < |entries| && entries[i].path == entries[j].path && entries[i].deleted && entries[j].deleted
    decreases |entries|
  {
    if NoTombstoneAfterAnything(entries[1..]) {
      var k :| 1 <= k < |entries| && Tells(entries[0], entries[k].path) && entries[k].deleted;
      i, j := 0, k;
    } else {
      i, j := TwoTombstones(entries[1..]);
      assert entries[i + 1] == entries[1..][i] && entries[j + 1] == entries[1..][j];
      i, j := i + 1, j + 1;
    }
  }

  // A pull that is not broken off removes as many files as were counted.
  ghost predicate CountsExactly(read: State, servers: seq<State>, c: Client, entries: seq<Entry>, clock: Clock) {
    |servers| == |entries| && Meets(read, servers) ==>
      var progress := ApplyAll(servers, c, entries, clock, NOTHING_DONE);
      progress.result != Failed ==> progress.summary.deletedLocally == Deletions(c, entries)
  }

  lemma SomeCountIsTooHigh(read: State, entries: seq<Entry>, clock: Clock, i: nat, j: nat) returns (servers: seq<State>, c: Client)
    requires Consistent(read) && i < j < |entries|
    requires entries[i].path == entries[j].path && entries[i].deleted && entries[j].deleted
    ensures !CountsExactly(read, servers, c, entries, clock)
  {
    var p := entries[i].path;
    var now := PurgedServer(read);
    servers := seq(|entries|, _ => now);
    c := Client(map[p := File([], 0)], map[p := Synced(0, 0, Sha256([]), 1)], 0);
    CountedTwice(c, entries, i, j);
    GoesOnce(servers, c, entries, clock, NOTHING_DONE, p);
  }

  // Whatever a client has on record: a pull that is not broken off removes exactly as
  // many files as were counted, for certain, if and only if nothing said of a path is
  // listed before a tombstone of it.
  lemma CountIsExactWhen(read: State, since: nat, entries: seq<Entry>, clock: Clock)
    requires Consistent(read) && Batch(read, since, entries) && NamesApart(entries, clock)
    ensures (forall servers, c :: CountsExactly(read, servers, c, entries, clock)) <==> NoTombstoneAfterAnything(entries)
  {
    if NoTombstoneAfterAnything(entries) {
      forall servers, c ensures CountsExactly(read, servers, c, entries, clock) {
        if |servers| == |entries| && ApplyAll(servers, c, entries, clock, NOTHING_DONE).result != Failed {
          PreCountIsExact(servers, c, entries, clock, NOTHING_DONE);
        }
      }
    } else if NoTombstoneAfterVersion(entries) {
      var i, j := TwoTombstones(entries);
      var servers, c := SomeCountIsTooHigh(read, entries, clock, i, j);
    } else {
      var servers, c := SomeRemovalIsNotCounted(read, _ => false, since, entries, clock);
      assert !CountsExactly(read, servers, c, entries, clock);
    }
  }

  // ── A whole pull, finished or broken off ───────────────────────────────────

  // The list is safe for these bytes: of the path nothing is listed before a version,
  // and, should it be listed twice, they are not what is listed.
  ghost predicate SafeFor(entries: seq<Entry>, p: Path, b: Body) {
    OnlyTheFirstIsLive(entries, p) && (ListedOnce(entries, p) || Unlisted(entries, p, b))
  }

  ghost predicate EditKept(c: Client, final: Client, entries: seq<Entry>, clock: Clock, p: Path) {
    Edited(c, p) && SafeFor(entries, p, c.local[p].body) ==> Survives(final, p, clock.parked(p), c.local[p].body)
  }

  // Edits are kept where the list is safe for them, and what is removed is within the
  // limit, those aside of which a deletion is listed after a version.
  ghost predicate Careful(c: Client, final: Client, entries: seq<Entry>, clock: Clock, limits: Limits) {
    FreshNames(c, entries, clock) ==>
      && (StatHonest(c) ==> forall p {:trigger EditKept(c, final, entries, clock, p)} :: EditKept(c, final, entries, clock, p))
      && WithinLimit(|c.records|, limits, |Gone(c, final, clock) - Uncounted(entries)|)
  }

  lemma NothingIsCareful(c: Client, final: Client, entries: seq<Entry>, clock: Clock, limits: Limits)
    requires final.local == c.local
    ensures Careful(c, final, entries, clock, limits)
  {
    assert Gone(c, final, clock) - Uncounted(entries) == {};
    forall p ensures EditKept(c, final, entries, clock, p) {}
  }

  lemma CarefulOfTheFolder(c: Client, final: Client, final': Client, entries: seq<Entry>, clock: Clock, limits: Limits)
    requires Careful(c, final, entries, clock, limits) && final'.local == final.local
    ensures Careful(c, final', entries, clock, limits)
  {
    if FreshNames(c, entries, clock) {
      assert Gone(c, final', clock) == Gone(c, final, clock);
      forall p ensures StatHonest(c) ==> EditKept(c, final', entries, clock, p) {
        assert StatHonest(c) ==> EditKept(c, final, entries, clock, p);
      }
    }
  }

  lemma {:induction false} SafeInSome(entries: seq<Entry>, n: nat, p: Path)
    requires n <= |entries| && OnlyTheFirstIsLive(entries, p)
    ensures OnlyTheFirstIsLive(entries[..n], p)
    decreases |entries|
  {
    if n > 0 {
      assert entries[..n][1..] == entries[1..][..n - 1];
      if Tells(entries[0], p) {
        assert forall j :: 0 <= j < n - 1 ==> entries[1..][..n - 1][j] == entries[1..][j];
      } else {
        SafeInSome(entries[1..], n - 1, p);
      }
    }
  }

  lemma SafeEditIsKept(servers: seq<State>, c: Client, entries: seq<Entry>, clock: Clock, p: Path)
    requires |servers| <= |entries| && FreshNames(c, entries, clock) && StatHonest(c)
    ensures EditKept(c, ApplyAll(servers, c, entries[..|servers|], clock, NOTHING_DONE).client, entries, clock, p)
  {
    var n, some := |servers|, entries[..|servers|];
    if Edited(c, p) && SafeFor(entries, p, c.local[p].body) {
      FreshNamesOfSome(c, entries, clock, n);
      SafeInSome(entries, n, p);
      if ListedOnce(entries, p) {
        NoEditIsLost(servers, c, some, clock, NOTHING_DONE, p);
      } else if i :| 0 <= i < |some| && some[i].path == p {
        FreshMeansOnItsOwn(c, some, clock, i);
        SafeListKeeps(servers, c, some, clock, NOTHING_DONE, p);
      } else {
        NoEditIsLost(servers, c, some, clock, NOTHING_DONE, p);
      }
    }
  }

  // However far it gets.
  lemma PullIsCareful(servers: seq<State>, c: Client, entries: seq<Entry>, clock: Clock, limits: Limits)
    requires |servers| <= |entries| && !GuardTrips(c, entries, limits)
    ensures Careful(c, ApplyAll(servers, c, entries[..|servers|], clock, NOTHING_DONE).client, entries, clock, limits)
  {
    if FreshNames(c, entries, clock) {
      var n, some := |servers|, entries[..|servers|];
      var final := ApplyAll(servers, c, some, clock, NOTHING_DONE).client;
      forall p ensures StatHonest(c) ==> EditKept(c, final, entries, clock, p) {
        if StatHonest(c) {
          SafeEditIsKept(servers, c, entries, clock, p);
        }
      }
      FreshNamesOfSome(c, entries, clock, n);
      FewerDeletions(c, entries, n);
      GoneAreCounted(servers, c, some, clock);
      FewerUncounted(entries, n);
      var gone := Gone(c, final, clock);
      SubsetIsSmaller(gone - Uncounted(entries), gone - Uncounted(some));
      GuardTripsWhen(c, entries, limits);
    }
  }
}
