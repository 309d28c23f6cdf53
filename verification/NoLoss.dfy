/**
 What a pull may destroy: exactly which local bytes stop existing, and how many
 files the delete guard lets go.
 */
module NoLoss {
  import opened Basics
  import opened Index
  import opened Server
  import opened ClientModel

  // A list read while others write can name a path again, with a later version.
  predicate ListedOnce(entries: seq<Entry>, p: Path) {
    forall i, j :: 0 <= i < j < |entries| && entries[i].path == p ==> entries[j].path != p
  }

  ghost predicate DistinctPaths(entries: seq<Entry>) {
    forall i, j :: 0 <= i < j < |entries| ==> entries[i].path != entries[j].path
  }

  // The name an edit would be parked under is nobody else's.
  ghost predicate NameIsFree(c: Client, entries: seq<Entry>, clock: Clock, i: nat) {
    i < |entries| ==>
      && clock.parked(entries[i].path) !in c.local
      && forall j :: 0 <= j < |entries| ==>
           && clock.parked(entries[i].path) != entries[j].path
           && (entries[i].path != entries[j].path ==> clock.parked(entries[i].path) != clock.parked(entries[j].path))
  }

  ghost predicate FreshNames(c: Client, entries: seq<Entry>, clock: Clock) {
    forall i: nat {:trigger NameIsFree(c, entries, clock, i)} :: NameIsFree(c, entries, clock, i)
  }

  // The file and the record of a path.
  ghost predicate SameAt(c: Client, c': Client, p: Path) {
    && (p in c.local <==> p in c'.local) && (p in c.local ==> c.local[p] == c'.local[p])
    && (p in c.records <==> p in c'.records) && (p in c.records ==> c.records[p] == c'.records[p])
  }

  lemma ApplyElsewhere(s: State, c: Client, e: Entry, clock: Clock, summary: Summary, p: Path)
    requires p != e.path
    ensures var c' := ApplyEntry(s, c, e, clock, summary).client;
      && (p != clock.parked(e.path) ==> SameAt(c, c', p))
      && (p in c.records <==> p in c'.records)
  {
  }

  lemma {:induction false} ApplyAllElsewhere(servers: seq<State>, c: Client, entries: seq<Entry>, clock: Clock, summary: Summary, p: Path)
    requires |servers| == |entries|
    requires forall i :: 0 <= i < |entries| ==> p != entries[i].path && p != clock.parked(entries[i].path)
    ensures SameAt(c, ApplyAll(servers, c, entries, clock, summary).client, p)
    decreases |entries|
  {
    if entries != [] {
      var first := ApplyEntry(servers[0], c, entries[0], clock, summary);
      ApplyElsewhere(servers[0], c, entries[0], clock, summary, p);
      if first.result != Failed {
        ApplyAllElsewhere(servers[1..], first.client, entries[1..], clock, first.summary, p);
      }
    }
  }

  // One entry more at the end of a pull that has not failed.
  lemma {:induction false} ApplyAllThenOne(servers: seq<State>, c: Client, entries: seq<Entry>, clock: Clock, summary: Summary, s: State, e: Entry)
    requires |servers| == |entries| && ApplyAll(servers, c, entries, clock, summary).result != Failed
    ensures var before := ApplyAll(servers, c, entries, clock, summary);
      var last := ApplyEntry(s, before.client, e, clock, before.summary);
      ApplyAll(servers + [s], c, entries + [e], clock, summary)
        == if last.result == Failed then last else last.(result := Fine)
    decreases |entries|
  {
    if entries == [] {
      assert servers + [s] == [s] && entries + [e] == [e];
      assert [s][1..] == [] && [e][1..] == [];
    } else {
      var first := ApplyEntry(servers[0], c, entries[0], clock, summary);
      assert (servers + [s])[1..] == servers[1..] + [s] && (entries + [e])[1..] == entries[1..] + [e];
      ApplyAllThenOne(servers[1..], first.client, entries[1..], clock, first.summary, s, e);
    }
  }

  // What follows the entry a pull failed at plays no part.
  lemma {:induction false} FailureEndsIt(servers: seq<State>, c: Client, entries: seq<Entry>, clock: Clock, summary: Summary, k: nat)
    requires |servers| == |entries| && k <= |entries|
    requires ApplyAll(servers[..k], c, entries[..k], clock, summary).result == Failed
    ensures ApplyAll(servers, c, entries, clock, summary) == ApplyAll(servers[..k], c, entries[..k], clock, summary)
    decreases k
  {
    if k > 0 {
      var first := ApplyEntry(servers[0], c, entries[0], clock, summary);
      if first.result != Failed {
        assert servers[..k][1..] == servers[1..][..k - 1] && entries[..k][1..] == entries[1..][..k - 1];
        FailureEndsIt(servers[1..], first.client, entries[1..], clock, first.summary, k - 1);
      }
    }
  }

  // ── Which bytes stop existing ──────────────────────────────────────────────

  // The bytes are still there, at their path or at the name they were parked under.
  predicate Survives(c: Client, p: Path, parked: Path, b: Body) {
    (p in c.local && c.local[p].body == b) || (parked in c.local && c.local[parked].body == b)
  }

  // The branches of `apply` that end a file: a tombstone that may remove it, or a
  // newer version downloaded over a file with no edit to protect.
  predicate Consumes(s: State, c: Client, e: Entry) {
    && e.path in c.local
    && !Echo(c, e)
    && if e.deleted then Deletable(c, e.path)
       else
         && e.kind == RegularFile
         && !Identical(c, e)
         && !Edited(c, e.path)
         && Serves(s, e.path)
         && GetFile(s, e.path).body != c.local[e.path].body
  }

  lemma ConsumedExactly(s: State, c: Client, e: Entry, clock: Clock, summary: Summary)
    requires e.path in c.local && clock.parked(e.path) !in c.local && clock.parked(e.path) != e.path
    ensures Survives(ApplyEntry(s, c, e, clock, summary).client, e.path, clock.parked(e.path), c.local[e.path].body)
      <==> !Consumes(s, c, e)
  {
  }

  lemma ConsumesDependsOn(s: State, c: Client, c': Client, e: Entry)
    requires SameAt(c, c', e.path)
    ensures Consumes(s, c, e) <==> Consumes(s, c', e)
    ensures WouldDelete(c, e) <==> WouldDelete(c', e)
  {
  }

  // No other entry of the list touches a path or the name it would be parked under.
  ghost predicate OnItsOwn(entries: seq<Entry>, clock: Clock, p: Path) {
    forall j {:trigger entries[j]} :: 0 <= j < |entries| ==>
      && entries[j].path != clock.parked(p)
      && clock.parked(entries[j].path) != p
      && (entries[j].path != p ==> clock.parked(entries[j].path) != clock.parked(p))
  }

  lemma FreshMeansOnItsOwn(c: Client, entries: seq<Entry>, clock: Clock, i: nat)
    requires i < |entries| && FreshNames(c, entries, clock)
    ensures var p := entries[i].path;
      OnItsOwn(entries, clock, p) && clock.parked(p) != p && clock.parked(p) !in c.local
  {
    assert NameIsFree(c, entries, clock, i);
    forall j | 0 <= j < |entries| ensures clock.parked(entries[j].path) != entries[i].path {
      assert NameIsFree(c, entries, clock, j);
    }
  }

  lemma OnItsOwnRest(entries: seq<Entry>, clock: Clock, p: Path)
    requires entries != [] && OnItsOwn(entries, clock, p) && ListedOnce(entries, p)
    ensures OnItsOwn(entries[1..], clock, p) && ListedOnce(entries[1..], p)
  {
    assert forall j :: 0 <= j < |entries| - 1 ==> entries[1..][j] == entries[j + 1];
  }

  // After its own entry nothing more happens to a path that is listed once.
  lemma AfterItsEntry(servers: seq<State>, c: Client, entries: seq<Entry>, clock: Clock, summary: Summary, p: Path)
    requires |servers| == |entries| && entries != [] && entries[0].path == p
    requires OnItsOwn(entries, clock, p) && ListedOnce(entries, p) && clock.parked(p) != p
    ensures var first, final := ApplyEntry(servers[0], c, entries[0], clock, summary), ApplyAll(servers, c, entries, clock, summary);
      && SameAt(first.client, final.client, p) && SameAt(first.client, final.client, clock.parked(p))
      && (first.result == Failed ==> final == first)
  {
    var first := ApplyEntry(servers[0], c, entries[0], clock, summary);
    if first.result != Failed {
      assert forall j :: 0 <= j < |entries| - 1 ==> entries[1..][j] == entries[j + 1];
      ApplyAllElsewhere(servers[1..], first.client, entries[1..], clock, first.summary, p);
      ApplyAllElsewhere(servers[1..], first.client, entries[1..], clock, first.summary, clock.parked(p));
    }
  }

  // The bytes of a path that is listed once are lost if and only if its own entry
  // consumes them; a pull that stops early may leave even those.
  ghost predicate FateIs(servers: seq<State>, c: Client, entries: seq<Entry>, clock: Clock, summary: Summary, i: nat)
    requires |servers| == |entries| && i < |entries| && entries[i].path in c.local
  {
    var p, progress := entries[i].path, ApplyAll(servers, c, entries, clock, summary);
    && (!Consumes(servers[i], c, entries[i]) ==>
          Survives(progress.client, p, clock.parked(p), c.local[p].body))
    && (progress.result != Failed && Consumes(servers[i], c, entries[i]) ==>
          !Survives(progress.client, p, clock.parked(p), c.local[p].body))
  }

  lemma {:induction false} FateOnItsOwn(servers: seq<State>, c: Client, entries: seq<Entry>, clock: Clock, summary: Summary, i: nat)
    requires |servers| == |entries| && i < |entries| && entries[i].path in c.local
    requires var p := entries[i].path;
      OnItsOwn(entries, clock, p) && ListedOnce(entries, p) && clock.parked(p) != p && clock.parked(p) !in c.local
    ensures FateIs(servers, c, entries, clock, summary, i)
    decreases |entries|
  {
    var p, parked := entries[i].path, clock.parked(entries[i].path);
    var first := ApplyEntry(servers[0], c, entries[0], clock, summary);
    if i == 0 {
      ConsumedExactly(servers[0], c, entries[0], clock, summary);
      AfterItsEntry(servers, c, entries, clock, summary, p);
    } else {
      ApplyElsewhere(servers[0], c, entries[0], clock, summary, p);
      ApplyElsewhere(servers[0], c, entries[0], clock, summary, parked);
      ConsumesDependsOn(servers[i], c, first.client, entries[i]);
      OnItsOwnRest(entries, clock, p);
      if first.result != Failed {
        FateOnItsOwn(servers[1..], first.client, entries[1..], clock, first.summary, i - 1);
      }
    }
  }

  lemma ListedFileFate(servers: seq<State>, c: Client, entries: seq<Entry>, clock: Clock, summary: Summary, i: nat)
    requires |servers| == |entries| && i < |entries| && entries[i].path in c.local
    requires ListedOnce(entries, entries[i].path) && FreshNames(c, entries, clock)
    ensures FateIs(servers, c, entries, clock, summary, i)
  {
    FreshMeansOnItsOwn(c, entries, clock, i);
    FateOnItsOwn(servers, c, entries, clock, summary, i);
  }

  // Size and time as recorded mean the content is what was recorded.
  ghost predicate StatHonest(c: Client) {
    forall p :: p in c.local && p in c.records && SameStat(c.local[p], c.records[p]) ==>
      Sha256(c.local[p].body) == c.records[p].sha
  }

  // The bytes here are those of the last sync.
  predicate Unedited(c: Client, p: Path) {
    p in c.local && p in c.records && c.records[p].sha == Sha256(c.local[p].body)
  }

  // Still equal to its record, or without one where the server lists another hash.
  predicate Expendable(c: Client, e: Entry)
    requires e.path in c.local
  {
    var sha := Sha256(c.local[e.path].body);
    if e.path in c.records then sha == c.records[e.path].sha else !e.deleted && e.sha != sha
  }

  // In the words of the record: the only local bytes a pull ends are those of files
  // still equal to their record, or of files with no record where the server lists
  // another hash.
  lemma OnlyUneditedBytesEnd(servers: seq<State>, c: Client, entries: seq<Entry>, clock: Clock, summary: Summary, p: Path)
    requires |servers| == |entries| && p in c.local
    requires ListedOnce(entries, p) && FreshNames(c, entries, clock) && StatHonest(c)
    requires var final := ApplyAll(servers, c, entries, clock, summary).client;
      !Survives(final, p, clock.parked(p), c.local[p].body)
    ensures exists i :: 0 <= i < |entries| && entries[i].path == p && Expendable(c, entries[i])
  {
    if i :| 0 <= i < |entries| && entries[i].path == p {
      ListedFileFate(servers, c, entries, clock, summary, i);
    } else {
      forall i | 0 <= i < |entries| ensures p != entries[i].path && p != clock.parked(entries[i].path) {
        assert NameIsFree(c, entries, clock, i);
      }
      ApplyAllElsewhere(servers, c, entries, clock, summary, p);
    }
  }

  // An edit the server has not seen is at its own path or at its parked name.
  lemma NoEditIsLost(servers: seq<State>, c: Client, entries: seq<Entry>, clock: Clock, summary: Summary, p: Path)
    requires |servers| == |entries| && Edited(c, p)
    requires ListedOnce(entries, p) && FreshNames(c, entries, clock) && StatHonest(c)
    ensures Survives(ApplyAll(servers, c, entries, clock, summary).client, p, clock.parked(p), c.local[p].body)
  {
    if !Survives(ApplyAll(servers, c, entries, clock, summary).client, p, clock.parked(p), c.local[p].body) {
      OnlyUneditedBytesEnd(servers, c, entries, clock, summary, p);
    }
  }

  // ── The delete guard ───────────────────────────────────────────────────────

  // An entry that moves a file: a tombstone or a version of it.
  predicate Tells(e: Entry, p: Path) {
    e.path == p && (e.deleted || e.kind == RegularFile)
  }

  predicate TellsLive(e: Entry, p: Path) {
    e.path == p && !e.deleted && e.kind == RegularFile
  }

  predicate SomeTombstone(entries: seq<Entry>, p: Path) {
    exists j :: 0 <= j < |entries| && entries[j].path == p && entries[j].deleted
  }

  // A tombstone of the path comes after a version of it.
  predicate DeletedAgain(entries: seq<Entry>, p: Path)
    decreases |entries|
  {
    entries != [] &&
    (DeletedAgain(entries[1..], p) || (TellsLive(entries[0], p) && SomeTombstone(entries[1..], p)))
  }

  predicate NoTombstoneAfterVersion(entries: seq<Entry>)
    decreases |entries|
  {
    entries == [] || (NoTombstoneAfterVersion(entries[1..]) && forall j {:trigger entries[j]} ::
      1 <= j < |entries| ==> !(TellsLive(entries[0], entries[j].path) && entries[j].deleted))
  }

  predicate NoTombstoneAfterAnything(entries: seq<Entry>)
    decreases |entries|
  {
    entries == [] || (NoTombstoneAfterAnything(entries[1..]) && forall j {:trigger entries[j]} ::
      1 <= j < |entries| ==> !(Tells(entries[0], entries[j].path) && entries[j].deleted))
  }

  // No edit would be parked under a listed path.
  ghost predicate ParkedApart(entries: seq<Entry>, clock: Clock) {
    forall i, j {:trigger clock.parked(entries[i].path), entries[j].path} ::
      0 <= i < |entries| && 0 <= j < |entries| ==> clock.parked(entries[i].path) != entries[j].path
  }

  lemma ParkedApartRest(entries: seq<Entry>, clock: Clock)
    requires entries != [] && ParkedApart(entries, clock)
    ensures ParkedApart(entries[1..], clock)
  {
    assert forall j :: 0 <= j < |entries| - 1 ==> entries[1..][j] == entries[j + 1];
  }

  lemma {:induction false} DistinctMeansNoneAfter(entries: seq<Entry>)
    requires DistinctPaths(entries)
    ensures NoTombstoneAfterAnything(entries)
    decreases |entries|
  {
    if entries != [] {
      DistinctMeansNoneAfter(entries[1..]);
    }
  }

  lemma {:induction false} NoneAfterAnythingIsStricter(entries: seq<Entry>)
    requires NoTombstoneAfterAnything(entries)
    ensures NoTombstoneAfterVersion(entries)
    decreases |entries|
  {
    if entries != [] {
      NoneAfterAnythingIsStricter(entries[1..]);
    }
  }

  // What an entry does to the verdict on a later one: none to another path's, and a
  // tombstone that could not remove its file before cannot after a tombstone either.
  lemma VerdictAfter(s: State, c: Client, first: Entry, clock: Clock, summary: Summary, e: Entry)
    requires clock.parked(first.path) != e.path
    ensures var c' := ApplyEntry(s, c, first, clock, summary).client;
      && (!(TellsLive(first, e.path) && e.deleted) && WouldDelete(c', e) ==> WouldDelete(c, e))
      && (!(Tells(first, e.path) && e.deleted) ==> (WouldDelete(c', e) <==> WouldDelete(c, e)))
  {
    if e.path != first.path {
      ApplyElsewhere(s, c, first, clock, summary, e.path);
      ConsumesDependsOn(s, c, ApplyEntry(s, c, first, clock, summary).client, e);
    }
  }

  lemma {:induction false} FewerWouldDelete(c: Client, c': Client, entries: seq<Entry>)
    requires forall i {:trigger entries[i]} :: 0 <= i < |entries| && WouldDelete(c', entries[i]) ==> WouldDelete(c, entries[i])
    ensures Deletions(c', entries) <= Deletions(c, entries)
  {
    if entries != [] {
      assert forall i :: 0 <= i < |entries| - 1 ==> entries[1..][i] == entries[i + 1];
      assert WouldDelete(c', entries[0]) ==> WouldDelete(c, entries[0]);
      FewerWouldDelete(c, c', entries[1..]);
    }
  }

  // The count made before the pull bounds the removals it performs.
  lemma {:induction false} PreCountBounds(servers: seq<State>, c: Client, entries: seq<Entry>, clock: Clock, summary: Summary)
    requires |servers| == |entries| && ParkedApart(entries, clock) && NoTombstoneAfterVersion(entries)
    ensures ApplyAll(servers, c, entries, clock, summary).summary.deletedLocally <= summary.deletedLocally + Deletions(c, entries)
    decreases |entries|
  {
    if entries != [] {
      var first := ApplyEntry(servers[0], c, entries[0], clock, summary);
      if first.result != Failed {
        ParkedApartRest(entries, clock);
        forall i | 0 <= i < |entries| - 1 && WouldDelete(first.client, entries[1..][i]) ensures WouldDelete(c, entries[1..][i]) {
          assert entries[1..][i] == entries[i + 1];
          VerdictAfter(servers[0], c, entries[0], clock, summary, entries[i + 1]);
        }
        FewerWouldDelete(c, first.client, entries[1..]);
        PreCountBounds(servers[1..], first.client, entries[1..], clock, first.summary);
      }
    }
  }

  // And when nothing said of a path comes before a tombstone of it, it is their number.
  lemma {:induction false} PreCountIsExact(servers: seq<State>, c: Client, entries: seq<Entry>, clock: Clock, summary: Summary)
    requires |servers| == |entries| && ParkedApart(entries, clock) && NoTombstoneAfterAnything(entries)
    requires ApplyAll(servers, c, entries, clock, summary).result != Failed
    ensures ApplyAll(servers, c, entries, clock, summary).summary.deletedLocally == summary.deletedLocally + Deletions(c, entries)
    decreases |entries|
  {
    if entries != [] {
      var first := ApplyEntry(servers[0], c, entries[0], clock, summary);
      ParkedApartRest(entries, clock);
      forall i | 0 <= i < |entries| - 1 ensures WouldDelete(first.client, entries[1..][i]) <==> WouldDelete(c, entries[1..][i]) {
        assert entries[1..][i] == entries[i + 1];
        VerdictAfter(servers[0], c, entries[0], clock, summary, entries[i + 1]);
      }
      FewerWouldDelete(c, first.client, entries[1..]);
      FewerWouldDelete(first.client, c, entries[1..]);
      PreCountIsExact(servers[1..], first.client, entries[1..], clock, first.summary);
    }
  }

  // The paths whose files a pull removed, as opposed to replaced or parked.
  function Gone(c: Client, final: Client, clock: Clock): set<Path> {
    set p | p in c.local && p !in final.local && clock.parked(p) !in final.local
  }

  function Condemned(c: Client, entries: seq<Entry>): set<Path> {
    set i | 0 <= i < |entries| && WouldDelete(c, entries[i]) :: entries[i].path
  }

  lemma {:induction false} CondemnedAreCounted(c: Client, entries: seq<Entry>)
    ensures |Condemned(c, entries)| <= Deletions(c, entries)
  {
    if entries != [] {
      CondemnedAreCounted(c, entries[1..]);
      var rest := Condemned(c, entries[1..]);
      var first := if WouldDelete(c, entries[0]) then {entries[0].path} else {};
      forall p | p in Condemned(c, entries) ensures p in first + rest {
        var i :| 0 <= i < |entries| && WouldDelete(c, entries[i]) && entries[i].path == p;
        if i > 0 { assert entries[1..][i - 1] == entries[i]; }
      }
      assert Condemned(c, entries) <= first + rest;
      SubsetIsSmaller(Condemned(c, entries), first + rest);
      assert |first + rest| <= |first| + |rest|;
    }
  }

  lemma OnItsOwnAfter(entries: seq<Entry>, clock: Clock, p: Path)
    requires entries != [] && OnItsOwn(entries, clock, p)
    ensures OnItsOwn(entries[1..], clock, p)
  {
    assert forall j :: 0 <= j < |entries| - 1 ==> entries[1..][j] == entries[j + 1];
  }

  lemma SomeTombstoneRest(entries: seq<Entry>, p: Path)
    requires entries != []
    ensures SomeTombstone(entries, p) <==> (entries[0].path == p && entries[0].deleted) || SomeTombstone(entries[1..], p)
  {
    if SomeTombstone(entries[1..], p) {
      var j :| 0 <= j < |entries| - 1 && entries[1..][j].path == p && entries[1..][j].deleted;
      assert entries[j + 1] == entries[1..][j];
    }
    if j :| 0 < j < |entries| && entries[j].path == p && entries[j].deleted {
      assert entries[1..][j - 1] == entries[j];
    }
  }

  // With no tombstone of it to come, a file is at its path or its parked name.
  lemma {:induction false} NoTombstoneKeepsIt(servers: seq<State>, c: Client, entries: seq<Entry>, clock: Clock, summary: Summary, p: Path)
    requires |servers| == |entries| && OnItsOwn(entries, clock, p) && clock.parked(p) != p
    requires !SomeTombstone(entries, p) && (p in c.local || clock.parked(p) in c.local)
    ensures var final := ApplyAll(servers, c, entries, clock, summary).client;
      p in final.local || clock.parked(p) in final.local
    decreases |entries|
  {
    if entries != [] {
      var e, first := entries[0], ApplyEntry(servers[0], c, entries[0], clock, summary);
      OnItsOwnAfter(entries, clock, p);
      SomeTombstoneRest(entries, p);
      if e.path != p {
        ApplyElsewhere(servers[0], c, e, clock, summary, p);
        ApplyElsewhere(servers[0], c, e, clock, summary, clock.parked(p));
      }
      if first.result != Failed {
        NoTombstoneKeepsIt(servers[1..], first.client, entries[1..], clock, first.summary, p);
      }
    }
  }

  // A path gone without leaving a parked copy was condemned by a tombstone, unless one
  // came after a version.
  lemma {:induction false} GoneWasCondemned(servers: seq<State>, c: Client, entries: seq<Entry>, clock: Clock, summary: Summary, p: Path) returns (i: nat)
    requires |servers| == |entries| && OnItsOwn(entries, clock, p) && clock.parked(p) != p
    requires !DeletedAgain(entries, p)
    requires p in Gone(c, ApplyAll(servers, c, entries, clock, summary).client, clock)
    ensures i < |entries| && entries[i].path == p && WouldDelete(c, entries[i])
    decreases |entries|
  {
    var e, first := entries[0], ApplyEntry(servers[0], c, entries[0], clock, summary);
    if WouldDelete(c, e) && e.path == p {
      i := 0;
    } else {
      OnItsOwnAfter(entries, clock, p);
      if e.path != p {
        ApplyElsewhere(servers[0], c, e, clock, summary, p);
      } else if TellsLive(e, p) && first.result != Failed {
        NoTombstoneKeepsIt(servers[1..], first.client, entries[1..], clock, first.summary, p);
      }
      var more := GoneWasCondemned(servers[1..], first.client, entries[1..], clock, first.summary, p);
      i := more + 1;
      ConsumedAs(c, first.client, entries[i]);
    }
  }

  lemma ConsumedAs(c: Client, c': Client, e: Entry)
    requires WouldDelete(c', e) && (SameAt(c, c', e.path) || e.path !in c'.records)
    ensures WouldDelete(c, e)
  {
  }

  // The paths of which a tombstone is listed after a version.
  function Uncounted(entries: seq<Entry>): set<Path> {
    set i | 0 <= i < |entries| && DeletedAgain(entries, entries[i].path) :: entries[i].path
  }

  lemma GoneIsCondemned(servers: seq<State>, c: Client, entries: seq<Entry>, clock: Clock, p: Path)
    requires |servers| == |entries| && FreshNames(c, entries, clock)
    requires p in Gone(c, ApplyAll(servers, c, entries, clock, NOTHING_DONE).client, clock)
    ensures p in Condemned(c, entries) + Uncounted(entries)
  {
    if i :| 0 <= i < |entries| && entries[i].path == p {
      FreshMeansOnItsOwn(c, entries, clock, i);
      if !DeletedAgain(entries, p) {
        var k := GoneWasCondemned(servers, c, entries, clock, NOTHING_DONE, p);
      }
    } else {
      forall i | 0 <= i < |entries| ensures p != entries[i].path && p != clock.parked(entries[i].path) {
        assert NameIsFree(c, entries, clock, i);
      }
      ApplyAllElsewhere(servers, c, entries, clock, NOTHING_DONE, p);
    }
  }

  // No more files are gone than were counted, and the paths with a tombstone after a
  // version.
  lemma GoneAreCounted(servers: seq<State>, c: Client, entries: seq<Entry>, clock: Clock)
    requires |servers| == |entries| && FreshNames(c, entries, clock)
    ensures |Gone(c, ApplyAll(servers, c, entries, clock, NOTHING_DONE).client, clock) - Uncounted(entries)| <= Deletions(c, entries)
    ensures NoTombstoneAfterVersion(entries) ==> Uncounted(entries) == {}
  {
    var gone := Gone(c, ApplyAll(servers, c, entries, clock, NOTHING_DONE).client, clock);
    forall p | p in gone - Uncounted(entries) ensures p in Condemned(c, entries) {
      GoneIsCondemned(servers, c, entries, clock, p);
    }
    SubsetIsSmaller(gone - Uncounted(entries), Condemned(c, entries));
    CondemnedAreCounted(c, entries);
    forall p | NoTombstoneAfterVersion(entries) ensures !DeletedAgain(entries, p) {
      NoneIsDeletedAgain(entries, p);
    }
  }

  lemma {:induction false} NoneIsDeletedAgain(entries: seq<Entry>, p: Path)
    requires NoTombstoneAfterVersion(entries)
    ensures !DeletedAgain(entries, p)
    decreases |entries|
  {
    if entries != [] {
      NoneIsDeletedAgain(entries[1..], p);
      assert forall j :: 0 <= j < |entries| - 1 ==> entries[1..][j] == entries[j + 1];
    }
  }

  // The cap with no record to take a share of; otherwise the smaller of the cap and
  // the share, but at least one.
  predicate WithinLimit(known: nat, limits: Limits, removed: nat) {
    if known == 0 then removed <= limits.maxDeletes
    else removed <= 1 || (removed <= limits.maxDeletes && removed as real <= known as real * limits.fraction)
  }

  lemma LimitMeans(known: nat, limits: Limits, counted: nat)
    ensures counted <= DeleteLimit(known, limits) <==> WithinLimit(known, limits, counted)
  {
    var share := known as real * limits.fraction;
    assert counted <= share.Floor <==> counted as real <= share;
  }

  // A pull is refused exactly if what it would remove is beyond the limit.
  lemma GuardTripsWhen(c: Client, entries: seq<Entry>, limits: Limits)
    ensures GuardTrips(c, entries, limits) <==> !WithinLimit(|c.records|, limits, Deletions(c, entries))
  {
    LimitMeans(|c.records|, limits, Deletions(c, entries));
  }

  // The files listed as deleted that are as they were last synced.
  function ToldGone(c: Client, entries: seq<Entry>): set<Path> {
    set i | 0 <= i < |entries| && entries[i].deleted && Unedited(c, entries[i].path) :: entries[i].path
  }

  lemma {:induction false} CountIsToldGone(c: Client, entries: seq<Entry>)
    requires StatHonest(c) && DistinctPaths(entries)
    ensures Deletions(c, entries) == |ToldGone(c, entries)|
  {
    if entries != [] {
      var first := if entries[0].deleted && Unedited(c, entries[0].path) then {entries[0].path} else {};
      CountIsToldGone(c, entries[1..]);
      FirstToldGone(c, entries);
      assert |first + ToldGone(c, entries[1..])| == |first| + |ToldGone(c, entries[1..])|;
    }
  }

  lemma FirstToldGone(c: Client, entries: seq<Entry>)
    requires entries != [] && DistinctPaths(entries)
    ensures entries[0].path !in ToldGone(c, entries[1..])
    ensures ToldGone(c, entries) == ToldGone(c, entries[1..])
      + if entries[0].deleted && Unedited(c, entries[0].path) then {entries[0].path} else {}
  {
    var rest := ToldGone(c, entries[1..]);
    assert forall i :: 0 <= i < |entries| - 1 ==> entries[1..][i] == entries[i + 1];
    forall p | p in ToldGone(c, entries) && p != entries[0].path ensures p in rest {
      var i :| 0 <= i < |entries| && entries[i].deleted && Unedited(c, entries[i].path) && entries[i].path == p;
      assert entries[1..][i - 1].path == p;
    }
  }

  // Of a list that names each path once: when the pull is refused.
  ghost predicate RefusedWhen(c: Client, entries: seq<Entry>, limits: Limits, refused: bool) {
    StatHonest(c) && DistinctPaths(entries) ==>
      (refused <==> !WithinLimit(|c.records|, limits, |ToldGone(c, entries)|))
  }

  lemma GuardRefusesWhen(c: Client, entries: seq<Entry>, limits: Limits)
    ensures RefusedWhen(c, entries, limits, GuardTrips(c, entries, limits))
  {
    GuardTripsWhen(c, entries, limits);
    if StatHonest(c) && DistinctPaths(entries) {
      CountIsToldGone(c, entries);
    }
  }
  lemma FewerAreWithin(known: nat, limits: Limits, removed: nat, fewer: nat)
    requires WithinLimit(known, limits, removed) && fewer <= removed
    ensures WithinLimit(known, limits, fewer)
  {}

  // A pull that is not refused removes no more files than the limit, those aside of
  // which it is told of a deletion after a version.
  lemma GuardBoundsRemovals(servers: seq<State>, c: Client, entries: seq<Entry>, clock: Clock, limits: Limits)
    requires |servers| == |entries| && FreshNames(c, entries, clock)
    requires !GuardTrips(c, entries, limits)
    ensures var gone := Gone(c, ApplyAll(servers, c, entries, clock, NOTHING_DONE).client, clock);
      && WithinLimit(|c.records|, limits, |gone - Uncounted(entries)|)
      && (NoTombstoneAfterVersion(entries) ==> WithinLimit(|c.records|, limits, |gone|))
  {
    GoneAreCounted(servers, c, entries, clock);
    var gone := Gone(c, ApplyAll(servers, c, entries, clock, NOTHING_DONE).client, clock);
    GuardTripsWhen(c, entries, limits);
    FewerAreWithin(|c.records|, limits, Deletions(c, entries), |gone - Uncounted(entries)|);
    assert Uncounted(entries) == {} ==> gone - Uncounted(entries) == gone;
  }

  // ── Part of a list ─────────────────────────────────────────────────────────

  lemma {:induction false} FewerDeletions(c: Client, entries: seq<Entry>, n: nat)
    requires n <= |entries|
    ensures Deletions(c, entries[..n]) <= Deletions(c, entries)
  {
    if n > 0 {
      assert entries[..n][1..] == entries[1..][..n - 1];
      FewerDeletions(c, entries[1..], n - 1);
    }
  }

  lemma FreshNamesOfSome(c: Client, entries: seq<Entry>, clock: Clock, n: nat)
    requires n <= |entries| && FreshNames(c, entries, clock)
    ensures FreshNames(c, entries[..n], clock)
  {
    forall i: nat ensures NameIsFree(c, entries[..n], clock, i) { assert NameIsFree(c, entries, clock, i); }
  }

  lemma {:induction false} DeletedAgainInSome(entries: seq<Entry>, n: nat, p: Path)
    requires n <= |entries| && DeletedAgain(entries[..n], p)
    ensures DeletedAgain(entries, p)
    decreases |entries|
  {
    assert entries[..n][1..] == entries[1..][..n - 1];
    if DeletedAgain(entries[1..][..n - 1], p) {
      DeletedAgainInSome(entries[1..], n - 1, p);
    } else {
      var j :| 0 <= j < n - 1 && entries[..n][1..][j].path == p && entries[..n][1..][j].deleted;
      assert entries[1..][j] == entries[..n][1..][j];
    }
  }

  lemma FewerUncounted(entries: seq<Entry>, n: nat)
    requires n <= |entries|
    ensures Uncounted(entries[..n]) <= Uncounted(entries)
  {
    forall p | p in Uncounted(entries[..n]) ensures p in Uncounted(entries) {
      var i :| 0 <= i < n && DeletedAgain(entries[..n], entries[..n][i].path) && entries[..n][i].path == p;
      DeletedAgainInSome(entries, n, p);
      assert entries[i].path == p;
    }
  }
}
