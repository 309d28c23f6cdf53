/**
 The client as it runs: the loops of one cycle, with any requests by anybody else
 served between any two of its own.
 */
module EngineObject {
  import opened Basics
  import opened Index
  import opened Server
  import opened ClientModel
  import opened Cursor
  import opened Convergence
  import opened NoLoss
  import opened Listing
  import Protocol
  import opened Repeats
  import opened Merge
  import opened ServerObject

  // The way to the server. `schedule` is what others will have asked of it by the
  // time each of our requests arrives; it stands for every other client at once.
  class Api {
    const server: HomeServer
    var schedule: seq<seq<Request>>

    ghost predicate Ready()
      reads this, server, server.index
    {
      server.Ready()
    }

    // Nobody else is writing.
    ghost predicate Quiet()
      reads this
    {
      schedule == []
    }

    constructor (server: HomeServer, schedule: seq<seq<Request>>)
      requires server.Ready()
      ensures Ready() && this.server == server && this.schedule == schedule
    {
      this.server := server;
      this.schedule := schedule;
    }

    method Interfere()
      requires Ready()
      modifies this, server, server.index
      ensures Ready() && Evolves(old(server.View()), server.View())
      ensures old(Quiet()) ==> Quiet() && server.View() == old(server.View())
      ensures !old(Quiet()) ==> |schedule| < |old(schedule)|
    {
      Unchanged(server.View());
      if schedule != [] {
        server.ServeAll(schedule[0]);
        schedule := schedule[1..];
      }
    }

    // One page takes two queries, and a commit may come between them.
    method Changes(since: nat, limit: nat) returns (entries: seq<Entry>, counter: nat, more: bool)
      requires Ready() && limit > 0
      modifies this, server, server.index
      ensures Ready() && Evolves(old(server.View()), server.View())
      ensures |old(server.View()).table.log| <= counter <= |server.View().table.log|
      ensures var page := Page(server.View().table.rows, since, limit + 1);
        entries == Taken(page, limit) && more == (|page| > limit)
      ensures old(Quiet()) ==> Quiet() && server.View() == old(server.View())
      ensures !old(Quiet()) ==> |schedule| < |old(schedule)|
    {
      Interfere();
      ghost var before := server.View();
      counter := server.index.currentRev;
      Interfere();
      EvolvesTransitive(old(server.View()), before, server.View());
      entries := server.index.Changes(since, limit + 1);
      more := |entries| > limit;
      if more {
        entries := entries[..limit];
      }
    }

    // Follows the pages to the end. However the server moves meanwhile, no row that
    // is newer than `since` when the last page is read is missing, and the cursor
    // moves on with every page, so the loop ends.
    method AllChanges(since: nat) returns (collected: seq<Entry>, counter: nat)
      requires Ready() && since <= |server.View().table.log|
      modifies this, server, server.index
      ensures Ready() && Evolves(old(server.View()), server.View())
      ensures Batch(server.View(), since, collected)
      ensures Complete(server.View(), since, |server.View().table.log|, collected)
      ensures since <= counter <= |server.View().table.log|
      ensures WereRows(old(server.View()), collected)
      ensures old(Quiet()) ==>
        Quiet() && server.View() == old(server.View())
        && counter == |server.View().table.log| && ChangeList(server.View(), since, collected)
    {
      collected, counter := [], since;
      var cursor := since;
      var more := true;
      ghost var start := server.View();
      Unchanged(start);
      while more
        invariant Ready() && Evolves(start, server.View())
        invariant since <= counter <= |server.View().table.log|
        invariant Followed(server.View(), since, collected, more)
        invariant more ==> cursor == Reach(since, collected)
        invariant WereRows(start, collected)
        invariant old(Quiet()) ==> Quiet() && server.View() == start && OnlyRows(start.table.rows, since, collected)
        invariant old(Quiet()) && !more ==> counter == |start.table.log|
        modifies this, server, server.index
        decreases |schedule|, more, |server.View().table.log| - cursor
      {
        ghost var before := server.View();
        ReachIsPast(before, since, collected);
        var entries, current, truncated := Changes(cursor, 1000);
        counter := current;
        EvolvesTransitive(start, before, server.View());
        PageFollows(before, server.View(), since, collected, Page(server.View().table.rows, cursor, 1001), 1000);
        PageWasRows(start, server.View(), collected, cursor, 1000);
        if old(Quiet()) {
          PageIsRows(start, since, collected, 1000);
        }
        collected := collected + entries;
        more := false;
        if truncated && entries != [] {
          var last := entries[|entries| - 1].rev;
          if last > cursor {
            cursor := last;
            more := true;
          }
        }
      }
    }

    method Download(p: Path) returns (download: Download)
      requires Ready()
      modifies this, server, server.index
      ensures Ready() && Evolves(old(server.View()), server.View())
      ensures download == GetFile(server.View(), p)
      ensures old(Quiet()) ==> Quiet() && server.View() == old(server.View())
    {
      Interfere();
      download := server.HandleGet(p);
    }

    // `met` is the server the request arrives at.
    method Upload(r: Request) returns (response: Response, ghost met: State)
      requires Ready() && r.Put?
      modifies this, server, server.index
      ensures Ready() && Consistent(met) && Evolves(old(server.View()), met)
      ensures (server.View(), response) == PutFile(met, r)
      ensures old(Quiet()) ==> Quiet() && met == old(server.View())
    {
      Interfere();
      met := server.View();
      response := server.HandlePut(r);
    }

    method Delete(r: Request) returns (response: Response, ghost met: State)
      requires Ready() && r.Delete?
      modifies this, server, server.index
      ensures Ready() && Consistent(met) && Evolves(old(server.View()), met)
      ensures (server.View(), response) == DeleteFile(met, r)
      ensures old(Quiet()) ==> Quiet() && met == old(server.View())
    {
      Interfere();
      met := server.View();
      response := server.HandleDelete(r);
    }
  }

  class Engine {
    const settings: Protocol.Settings
    const api: Api
    var local: map<Path, File>
    var records: map<Path, Synced>
    var lastRev: nat

    ghost function View(): Client
      reads this
    {
      Client(local, records, lastRev)
    }

    ghost function Remote(): State
      reads api, api.server, api.server.index
    {
      api.server.View()
    }

    // The cursor invariant, and a server that can be asked.
    ghost predicate Ready()
      reads this, api, api.server, api.server.index
    {
      api.Ready() && CursorHolds(Remote(), settings.excluded, View())
    }

    constructor (settings: Protocol.Settings, api: Api, local: map<Path, File>)
      requires api.Ready()
      ensures Ready() && View() == Client(local, map[], 0) && this.settings == settings && this.api == api
    {
      this.settings, this.api, this.local, this.records, this.lastRev := settings, api, local, map[], 0;
      new;
      forall p ensures SettledUpTo(Remote(), settings.excluded, View(), 0, p) {
        assert RowIsNewest(Remote().table, p);
      }
    }

    // ── Pull ─────────────────────────────────────────────────────────────────

    method IsDeletable(p: Path, file: File) returns (deletable: bool)
      requires p in local && file == local[p]
      ensures deletable == Deletable(View(), p)
      ensures StatHonestAt(View(), p) ==> (deletable <==> Unedited(View(), p))
    {
      if p !in records {
        return false;
      }
      var recorded := records[p];
      if |file.body| == recorded.size && file.mtime == recorded.mtime {
        return true;
      }
      deletable := Sha256(file.body) == recorded.sha;
    }

    // Counts only what this pull would really remove.
    method CountDeletions(entries: seq<Entry>) returns (deletions: nat)
      ensures deletions == Deletions(View(), entries)
    {
      deletions := 0;
      var i := 0;
      while i < |entries|
        invariant 0 <= i <= |entries|
        invariant deletions + Deletions(View(), entries[i..]) == Deletions(View(), entries)
      {
        var e := entries[i];
        if e.deleted && e.path in local {
          var deletable := IsDeletable(e.path, local[e.path]);
          if deletable {
            deletions := deletions + 1;
          }
        }
        assert entries[i..][1..] == entries[i + 1..];
        i := i + 1;
      }
    }

    method CheckDeleteGuard(entries: seq<Entry>) returns (trips: bool)
      ensures trips == GuardTrips(View(), entries, settings.limits)
      ensures RefusedWhen(View(), entries, settings.limits, trips)
    {
      GuardRefusesWhen(View(), entries, settings.limits);
      var deletions := CountDeletions(entries);
      if deletions == 0 {
        return false;
      }
      var known := |records|;
      var limit := settings.limits.maxDeletes;
      if known > 0 {
        limit := Min(limit, (known as real * settings.limits.fraction).Floor);
        limit := Max(limit, 1);
      }
      trips := deletions > limit;
    }

    method ApplyOneDeletion(e: Entry, before: Summary) returns (summary: Summary)
      modifies this`local, this`records
      ensures Progress(View(), summary, Fine) == ApplyDeletion(old(View()), e, before)
    {
      summary := before;
      if e.path in local {
        var deletable := IsDeletable(e.path, local[e.path]);
        if deletable {
          local := local - {e.path};
          summary := summary.(deletedLocally := summary.deletedLocally + 1);
        }
      }
      records := records - {e.path};
    }

    method ApplyOneFile(e: Entry, clock: Clock, before: Summary) returns (result: Result, summary: Summary)
      requires api.Ready()
      modifies this`local, this`records, api, api.server, api.server.index
      ensures api.Ready() && Evolves(old(Remote()), Remote())
      ensures Progress(View(), summary, result) == ApplyFile(Remote(), old(View()), e, clock, before)
      ensures old(api.Quiet()) ==> api.Quiet() && Remote() == old(Remote())
    {
      Unchanged(Remote());
      summary := before;
      if e.path in local && e.sha != NoDigest && Sha256(local[e.path].body) == e.sha {
        var file := local[e.path];
        records := records[e.path := Synced(|file.body|, file.mtime, e.sha, e.rev)];
        return Fine, summary;
      }
      if e.path in local && e.path in records && Sha256(local[e.path].body) != records[e.path].sha {
        MoveAside(e.path, clock.parked(e.path));
        summary := summary.(conflicts := summary.conflicts + 1);
      }
      var download := api.Download(e.path);
      result, summary := Install(e, download, clock.now, summary);
    }

    method MoveAside(p: Path, parked: Path)
      requires p in local
      modifies this`local, this`records
      ensures View() == Park(old(View()), p, parked)
    {
      local := (local - {p})[parked := local[p]];
      records := records - {p};
    }

    method Install(e: Entry, download: Download, now: int, before: Summary) returns (result: Result, summary: Summary)
      modifies this`local, this`records
      ensures Progress(View(), summary, result) == AfterDownload(old(View()), e, download, now, before)
    {
      summary := before;
      match download
      case Missing => result := NotThere;
      case NotAFile => result := Failed;
      case Content(body, rev, sha) =>
        local := local[e.path := Installed(body, e.mtime, now)];
        var installed := local[e.path];
        var hash := if e.sha != NoDigest then e.sha else sha;
        var at := if e.rev != 0 then e.rev else rev;
        summary := summary.(downloaded := summary.downloaded + 1);
        records := records[e.path := Synced(|installed.body|, installed.mtime, hash, at)];
        result := Fine;
    }

    method Apply(e: Entry, clock: Clock, before: Summary) returns (result: Result, summary: Summary)
      requires api.Ready()
      modifies this`local, this`records, api, api.server, api.server.index
      ensures api.Ready() && Evolves(old(Remote()), Remote())
      ensures Progress(View(), summary, result) == ApplyEntry(Remote(), old(View()), e, clock, before)
      ensures old(api.Quiet()) ==> api.Quiet() && Remote() == old(Remote())
    {
      Unchanged(Remote());
      result, summary := Fine, before;
      if !e.deleted && e.path in records && records[e.path].rev == e.rev
        && (e.sha == NoDigest || records[e.path].sha == e.sha) {
        return;
      }
      if e.deleted {
        summary := ApplyOneDeletion(e, before);
        return;
      }
      if e.kind == Directory {
        return;
      }
      result, summary := ApplyOneFile(e, clock, before);
    }

    method FilterRelevant(entries: seq<Entry>) returns (relevant: seq<Entry>)
      ensures relevant == Protocol.Relevant(settings.excluded, entries)
    {
      relevant := [];
      var i := 0;
      while i < |entries|
        invariant 0 <= i <= |entries|
        modifies {}
        invariant relevant + Protocol.Relevant(settings.excluded, entries[i..]) == Protocol.Relevant(settings.excluded, entries)
      {
        OneMoreFiltered(settings.excluded, entries, i, relevant);
        if !settings.excluded(entries[i].path) {
          relevant := relevant + [entries[i]];
        }
        i := i + 1;
      }
    }

    // The local part of a pull: what every entry does, in the order they came.
    method ApplyBatch(relevant: seq<Entry>, target: nat, clock: Clock)
      returns (result: Result, summary: Summary, ghost servers: seq<State>)
      requires api.Ready() && NodeHolds(Remote(), settings.excluded, Node(View(), Applying(relevant, target)))
      modifies this`local, this`records, api, api.server, api.server.index
      ensures Ready() && Evolves(old(Remote()), Remote())
      ensures result != Failed ==> NodeHolds(Remote(), settings.excluded, Node(View(), Applying([], target)))
      ensures |servers| <= |relevant| && (result != Failed ==> |servers| == |relevant|)
      ensures Progress(View(), summary, result) == ApplyAll(servers, old(View()), relevant[..|servers|], clock, NOTHING_DONE)
      ensures old(api.Quiet()) ==> api.Quiet() && Remote() == old(Remote()) && servers == Still(Remote(), |servers|)
    {
      result, summary, servers := Fine, NOTHING_DONE, [];
      ghost var start, first := Remote(), View();
      Unchanged(start);
      assert relevant[0..] == relevant;
      var i := 0;
      while i < |relevant|
        invariant 0 <= i <= |relevant| && |servers| == i && result == Fine
        invariant api.Ready() && Evolves(start, Remote())
        invariant NodeHolds(Remote(), settings.excluded, Node(View(), Applying(relevant[i..], target)))
        invariant Progress(View(), summary, Fine) == ApplyAll(servers, first, relevant[..i], clock, NOTHING_DONE)
        invariant old(api.Quiet()) ==> api.Quiet() && Remote() == start && servers == Still(start, i)
        modifies this`local, this`records, api, api.server, api.server.index
      {
        ghost var met, mine := Remote(), View();
        var outcome, after := Apply(relevant[i], clock, summary);
        EvolvesTransitive(start, met, Remote());
        OneMoreApplied(servers, first, relevant, clock, Remote());
        AppliedMeanwhile(settings, met, Remote(), mine, relevant, i, target, clock, summary);
        servers, summary, i := servers + [Remote()], after, i + 1;
        if outcome == Failed {
          return Failed, summary, servers;
        }
      }
      assert relevant[..i] == relevant && relevant[i..] == [];
    }

    // The list a pull works through, and whether it may.
    method CollectChanges()
      returns (relevant: seq<Entry>, counter: nat, none: bool, trips: bool, ghost entries: seq<Entry>)
      requires Ready()
      modifies api, api.server, api.server.index
      ensures Ready() && Evolves(old(Remote()), Remote())
      ensures relevant == Protocol.Relevant(settings.excluded, entries) && none == (entries == [])
      ensures !none && !trips ==> NodeHolds(Remote(), settings.excluded, Node(View(), Applying(relevant, counter)))
      ensures none ==> CursorHolds(Remote(), settings.excluded, View().(lastRev := counter))
      ensures trips == (!none && GuardTrips(View(), relevant, settings.limits))
      ensures RefusedWhen(View(), relevant, settings.limits, trips)
      ensures Batch(Remote(), lastRev, entries) && WereRows(old(Remote()), entries)
      ensures old(api.Quiet()) ==>
        && api.Quiet() && Remote() == old(Remote())
        && counter == |Remote().table.log| && ChangeList(Remote(), lastRev, entries)
    {
      ghost var start := Remote();
      var collected, current := api.AllChanges(lastRev);
      entries, counter := collected, current;
      CursorStays(start, Remote(), settings.excluded, View());
      Protocol.CollectedHolds(settings, Remote(), View(), entries, counter);
      none, trips := collected == [], false;
      relevant := FilterRelevant(collected);
      if none {
        GuardRefusesWhen(View(), relevant, settings.limits);
        return;
      }
      trips := CheckDeleteGuard(relevant);
    }

    // The entries, and the cursor once all are applied.
    method ApplyAndAdvance(relevant: seq<Entry>, counter: nat, clock: Clock)
      returns (result: Result, summary: Summary, ghost servers: seq<State>)
      requires Ready() && NodeHolds(Remote(), settings.excluded, Node(View(), Applying(relevant, counter)))
      requires !GuardTrips(View(), relevant, settings.limits)
      modifies this, api, api.server, api.server.index
      ensures Ready() && Evolves(old(Remote()), Remote())
      ensures lastRev == if result == Failed then old(lastRev) else counter
      ensures |servers| <= |relevant| && (result != Failed ==> |servers| == |relevant|)
      ensures Progress(View().(lastRev := old(lastRev)), summary, result)
        == ApplyAll(servers, old(View()), relevant[..|servers|], clock, NOTHING_DONE)
      ensures Careful(old(View()), View(), relevant, clock, settings.limits)
      ensures old(api.Quiet()) ==>
        && api.Quiet() && Remote() == old(Remote())
        && Progress(View().(lastRev := old(lastRev)), summary, result)
             == ApplyAll(Still(Remote(), |relevant|), old(View()), relevant, clock, NOTHING_DONE)
    {
      ghost var start, mine := Remote(), View();
      result, summary, servers := ApplyBatch(relevant, counter, clock);
      PullIsCareful(servers, mine, relevant, clock, settings.limits);
      assert relevant[..|relevant|] == relevant;
      if result == Failed {
        if old(api.Quiet()) {
          assert servers == Still(start, |relevant|)[..|servers|];
          FailureEndsIt(Still(start, |relevant|), mine, relevant, clock, NOTHING_DONE, |servers|);
        }
        return;
      }
      Protocol.AdvanceHolds(Remote(), settings.excluded, View(), counter);
      ghost var before := View();
      lastRev := counter;
      CarefulOfTheFolder(mine, before, View(), relevant, clock, settings.limits);
    }

    // Whatever happens on the way, the cursor invariant holds when a pull ends. One
    // that is refused changes nothing, and one that breaks off leaves the cursor.
    method Pull(clock: Clock)
      returns (result: Result, paused: bool, summary: Summary,
               ghost entries: seq<Entry>, ghost servers: seq<State>)
      requires Ready()
      modifies this, api, api.server, api.server.index
      ensures Ready() && Evolves(old(Remote()), Remote())
      ensures paused ==> result == Failed && View() == old(View()) && summary == NOTHING_DONE
      ensures RefusedWhen(old(View()), Protocol.Relevant(settings.excluded, entries), settings.limits, paused)
      ensures result == Failed ==> lastRev == old(lastRev)
      ensures var relevant := Protocol.Relevant(settings.excluded, entries);
        && |servers| <= |relevant|
        && (result != Failed ==> |servers| == |relevant|)
        && (entries != [] && !paused ==> !GuardTrips(old(View()), relevant, settings.limits))
        && Progress(View().(lastRev := old(lastRev)), summary, if paused then Fine else result)
             == ApplyAll(servers, old(View()), relevant[..|servers|], clock, NOTHING_DONE)
      // No edit is lost of a path that nobody wrote meanwhile, and what is removed is
      // within the limit.
      ensures var relevant := Protocol.Relevant(settings.excluded, entries);
        Careful(old(View()), View(), relevant, clock, settings.limits) && NamesOnce(old(Remote()), Remote(), relevant)
      ensures old(api.Quiet()) ==>
        && api.Quiet() && Remote() == old(Remote())
        && ChangeList(Remote(), old(lastRev), entries)
        && NamesEachOnce(Protocol.Relevant(settings.excluded, entries))
        && Progress(View(), summary, result) == PullOnce(settings, Remote(), old(View()), entries, clock)
    {
      result, paused, summary, servers := Fine, false, NOTHING_DONE, [];
      ghost var start, mine := Remote(), View();
      var relevant, counter, none, trips;
      relevant, counter, none, trips, entries := CollectChanges();
      ghost var read := Remote();
      Unchanged(read);
      if old(api.Quiet()) {
        ChangeListNamesPathsOnce(start, lastRev, entries, settings.excluded);
      }
      if none || trips {
        ReadListNamesOnce(start, read, read, lastRev, entries, settings.excluded);
        NothingIsCareful(mine, mine.(lastRev := counter), relevant, clock, settings.limits);
        NothingIsCareful(mine, mine, relevant, clock, settings.limits);
        if none {
          lastRev := counter;
          return;
        }
        return Failed, true, NOTHING_DONE, entries, [];
      }
      result, summary, servers := ApplyAndAdvance(relevant, counter, clock);
      EvolvesTransitive(start, read, Remote());
      ReadListNamesOnce(start, read, Remote(), old(lastRev), entries, settings.excluded);
    }

    // ── Push ─────────────────────────────────────────────────────────────────

    // Every path of a set, once, in some order. The source sorts; nothing here
    // depends on the order.
    method InSomeOrder(members: set<Path>) returns (paths: seq<Path>)
      ensures Enumerates(paths, members)
    {
      paths := [];
      var left := members;
      while left != {}
        invariant Distinct(paths) && AsSet(paths) + left == members && AsSet(paths) !! left
        decreases left
      {
        var p :| p in left;
        assert AsSet(paths + [p]) == AsSet(paths) + {p};
        assert forall i :: 0 <= i < |paths| ==> paths[i] in AsSet(paths);
        paths, left := paths + [p], left - {p};
      }
    }

    method InstallServers(p: Path, clock: Clock, before: Summary) returns (result: Result, summary: Summary)
      requires Ready()
      modifies this`local, this`records, api, api.server, api.server.index
      ensures Ready() && Evolves(old(Remote()), Remote())
      ensures Progress(View(), summary, result) == TakeServers(Remote(), old(View()), p, clock, before)
      ensures old(api.Quiet()) ==> api.Quiet() && Remote() == old(Remote())
    {
      ghost var start := Remote();
      var download := api.Download(p);
      CursorStays(start, Remote(), settings.excluded, View());
      Protocol.TakeHolds(Remote(), settings.excluded, View(), p, clock);
      match download
      case Content(body, rev, sha) =>
        local := local[p := Installed(body, 0, clock.now)];
        var installed := local[p];
        var hash := if sha != NoDigest then sha else Sha256(installed.body);
        records := records[p := Synced(|installed.body|, installed.mtime, hash, rev)];
        summary := before.(downloaded := before.downloaded + 1);
        result := Fine;
      case _ =>
        result, summary := Failed, before;
    }

    method TakeAnswer(p: Path, file: File, response: Response, clock: Clock, before: Summary) returns (result: Result, summary: Summary)
      requires api.Ready() && p in local
      requires CursorHolds(Remote(), settings.excluded, Protocol.Uploaded(View(), p, file, response))
      modifies this`local, this`records, api, api.server, api.server.index
      ensures Ready() && Evolves(old(Remote()), Remote())
      ensures p in local && forall q :: q != p ==> SameAt(old(View()), View(), q)
      ensures Progress(View(), summary, result) == AfterUpload(Remote(), old(View()), p, file, response, clock, before)
      ensures old(api.Quiet()) ==> api.Quiet() && Remote() == old(Remote())
    {
      Unchanged(Remote());
      match response
      case Stored(rev, _) =>
        summary := before.(uploaded := before.uploaded + 1);
        records := records[p := Synced(|file.body|, file.mtime, Sha256(file.body), rev)];
        result := Fine;
      case Conflict(_, _) =>
        result, summary := InstallServers(p, clock, before.(conflicts := before.conflicts + 1));
      case _ =>
        result, summary := Failed, before;
    }

    // The part of pushing a file that talks to the server.
    method UploadOneFile(p: Path, clock: Clock, before: Summary) returns (result: Result, summary: Summary)
      requires Ready() && p in local
      modifies this`local, this`records, api, api.server, api.server.index
      ensures Ready() && Evolves(old(Remote()), Remote())
      ensures p in local && forall q :: q != p ==> SameAt(old(View()), View(), q)
      ensures old(api.Quiet()) ==>
        api.Quiet() && Remote() == PutFile(old(Remote()), UploadOf(old(View()), p, old(local[p].body), clock)).0
        && Progress(View(), summary, result) == AfterUpload(Remote(), old(View()), p, old(local[p]),
             PutFile(old(Remote()), UploadOf(old(View()), p, old(local[p].body), clock)).1, clock, before)
    {
      ghost var start, mine := Remote(), View();
      var file := local[p];
      var base := if p in records then records[p].rev else 0;
      var response, met := api.Upload(Put(p, base, file.body, Some(Sha256(file.body)), clock.conflict(p), clock.now, clock.stamp));
      ghost var answered := Remote();
      CursorStays(start, met, settings.excluded, mine);
      Protocol.UploadHolds(met, settings.excluded, mine, p, file, clock);
      EvolvesTransitive(start, met, answered);
      result, summary := TakeAnswer(p, file, response, clock, before);
      EvolvesTransitive(start, answered, Remote());
    }

    method PushOneFile(p: Path, clock: Clock, before: Summary) returns (result: Result, summary: Summary)
      requires Ready() && p in local
      modifies this`local, this`records, api, api.server, api.server.index
      ensures Ready() && Evolves(old(Remote()), Remote())
      ensures forall q :: q != p ==> SameAt(old(View()), View(), q)
      ensures p in local
      ensures old(api.Quiet()) ==>
        api.Quiet() && (Remote(), Progress(View(), summary, result)) == PushFile(old(Remote()), old(View()), p, clock, before)
    {
      Unchanged(Remote());
      result, summary := Fine, before;
      var file := local[p];
      if p in records && records[p].size == |file.body| && records[p].mtime == file.mtime {
        return;
      }
      var sum := Sha256(file.body);
      if p in records && records[p].sha == sum {
        Protocol.RestatHolds(Remote(), settings.excluded, View(), p, file);
        records := records[p := Synced(|file.body|, file.mtime, sum, records[p].rev)];
        return;
      }
      result, summary := UploadOneFile(p, clock, before);
    }

    method TakeDeletion(p: Path, response: Response, before: Summary) returns (result: Result, summary: Summary)
      modifies this`records
      ensures Progress(View(), summary, result) == AfterDelete(old(View()), p, response, before)
    {
      result, summary := Fine, before;
      match response
      case Deleted(_) =>
        summary := summary.(deletedRemotely := summary.deletedRemotely + 1);
        records := records - {p};
      case NotFound =>
        records := records - {p};
      case Stale =>
        records := records - {p};
      case NotEmpty =>
      case _ =>
        result := Failed;
    }

    method PushOneDeletion(p: Path, clock: Clock, before: Summary) returns (result: Result, summary: Summary)
      requires Ready() && p in records
      modifies this`records, api, api.server, api.server.index
      ensures Ready() && Evolves(old(Remote()), Remote())
      ensures records == old(records) || records == old(records) - {p}
      ensures old(api.Quiet()) ==>
        api.Quiet() && (Remote(), Progress(View(), summary, result)) == PushDeletion(old(Remote()), old(View()), p, clock, before)
    {
      ghost var start, mine := Remote(), View();
      Unchanged(start);
      result, summary := Fine, before;
      assert Issued(Remote(), View(), p);
      if records[p].rev == 0 {
        // Only a directory's record starts at revision 0.
        assert false;
      }
      var response, met := api.Delete(Delete(p, records[p].rev, clock.stamp));
      DeletionAnswered(settings.excluded, start, mine, p, clock, met);
      result, summary := TakeDeletion(p, response, before);
    }

    method PushFilesOf(files: seq<Path>, clock: Clock, before: Summary) returns (result: Result, summary: Summary)
      requires Ready() && Distinct(files) && forall i :: 0 <= i < |files| ==> files[i] in local
      modifies this`local, this`records, api, api.server, api.server.index
      ensures Ready() && Evolves(old(Remote()), Remote())
      ensures forall q :: q !in files ==> SameAt(old(View()), View(), q)
      ensures old(api.Quiet()) ==>
        api.Quiet() && (Remote(), Progress(View(), summary, result)) == PushFiles(old(Remote()), old(View()), files, clock, before)
    {
      result, summary := Fine, before;
      ghost var start, first := Remote(), View();
      Unchanged(start);
      assert files[0..] == files;
      var i := 0;
      while i < |files|
        invariant 0 <= i <= |files| && result == Fine
        invariant Ready() && Evolves(start, Remote())
        invariant forall j :: i <= j < |files| ==> files[j] in local
        invariant forall q :: q !in files ==> SameAt(first, View(), q)
        invariant old(api.Quiet()) ==>
          api.Quiet() && PushFiles(start, first, files, clock, before) == PushFiles(Remote(), View(), files[i..], clock, summary)
        modifies this`local, this`records, api, api.server, api.server.index
      {
        ghost var met, mine := Remote(), View();
        assert files[i..][0] == files[i] && files[i..][1..] == files[i + 1..];
        result, summary := PushOneFile(files[i], clock, summary);
        EvolvesTransitive(start, met, Remote());
        forall j | i < j < |files| ensures files[j] in local { assert SameAt(mine, View(), files[j]); }
        forall q | q !in files ensures SameAt(first, View(), q) {
          assert files[i] in files;
          assert SameAt(first, mine, q) && SameAt(mine, View(), q);
        }
        i := i + 1;
        if result == Failed {
          return;
        }
        result := Fine;
      }
    }

    method PushDeletionsOf(gone: seq<Path>, clock: Clock, before: Summary) returns (result: Result, summary: Summary)
      requires Ready() && Distinct(gone) && forall i :: 0 <= i < |gone| ==> gone[i] in records
      modifies this`records, api, api.server, api.server.index
      ensures Ready() && Evolves(old(Remote()), Remote())
      ensures old(api.Quiet()) ==>
        api.Quiet() && (Remote(), Progress(View(), summary, result)) == PushDeletions(old(Remote()), old(View()), gone, clock, before)
    {
      result, summary := Fine, before;
      ghost var start, first := Remote(), View();
      Unchanged(start);
      assert gone[0..] == gone;
      var i := 0;
      while i < |gone|
        invariant 0 <= i <= |gone| && result == Fine
        invariant Ready() && Evolves(start, Remote())
        invariant forall j :: i <= j < |gone| ==> gone[j] in records
        invariant old(api.Quiet()) ==>
          api.Quiet() && PushDeletions(start, first, gone, clock, before) == PushDeletions(Remote(), View(), gone[i..], clock, summary)
        modifies this`records, api, api.server, api.server.index
      {
        ghost var met := Remote();
        NextDeletion(met, View(), gone, i, clock, summary);
        result, summary := PushOneDeletion(gone[i], clock, summary);
        EvolvesTransitive(start, met, Remote());
        i := i + 1;
        if result == Failed {
          return;
        }
        result := Fine;
      }
    }

    method Push(clock: Clock, before: Summary)
      returns (result: Result, summary: Summary, ghost files: seq<Path>, ghost gone: seq<Path>)
      requires Ready()
      modifies this`local, this`records, api, api.server, api.server.index
      ensures Ready() && Evolves(old(Remote()), Remote())
      ensures PushLists(old(View()), settings.excluded, files, gone)
      ensures old(api.Quiet()) ==>
        api.Quiet() && (Remote(), Progress(View(), summary, result)) == PushOnce(old(Remote()), old(View()), files, gone, clock, before)
    {
      ghost var start, first := Remote(), View();
      var onDisk := set p | p in local && !settings.excluded(p);
      var recorded := records;
      var present := InSomeOrder(onDisk);
      files := present;
      var absent := InSomeOrder(recorded.Keys - onDisk);
      gone := absent;
      forall i | 0 <= i < |files| ensures files[i] in local { assert files[i] in AsSet(files); }
      result, summary := PushFilesOf(present, clock, before);
      if result == Failed {
        return;
      }
      ghost var met := Remote();
      forall i | 0 <= i < |gone| ensures gone[i] in records {
        assert gone[i] in AsSet(gone) && gone[i] !in AsSet(files);
        assert SameAt(first, View(), gone[i]);
      }
      result, summary := PushDeletionsOf(absent, clock, summary);
      EvolvesTransitive(start, met, Remote());
    }

    // Pull, then push. Under any interference the cursor invariant holds at the end.
    // Left alone, a cycle that is not refused brings folder and server together, and
    // the cycle after that does nothing at all.
    method SyncOnce(clock: Clock, ghost world: set<Path>) returns (result: Result, paused: bool, summary: Summary)
      requires Ready()
      modifies this, api, api.server, api.server.index
      ensures Ready() && Evolves(old(Remote()), Remote())
      ensures old(api.Quiet()) ==> api.Quiet()
      ensures paused ==> View() == old(View())
      ensures old(api.Quiet()) ==>
        CycleWent(settings, old(Remote()), old(View()), clock, world, paused, Progress(View(), summary, result), Remote())
    {
      ghost var start, first := Remote(), View();
      ghost var entries, servers;
      result, paused, summary, entries, servers := Pull(clock);
      ghost var met, pulled := Remote(), Progress(View(), summary, result);
      if result == Failed {
        if old(api.Quiet()) {
          StoppedCycle(settings, start, first, entries, clock, world, paused, pulled);
        }
        return;
      }
      ghost var files, gone;
      result, summary, files, gone := Push(clock, summary);
      EvolvesTransitive(start, met, Remote());
      if old(api.Quiet()) {
        QuietCycle(settings, start, first, entries, files, gone, clock, world, pulled);
      }
    }

    // Convergence and quiescence: left alone, two cycles bring folder and server
    // together, and the second moves nothing.
    method SyncTwice(clock: Clock, later: Clock, ghost world: set<Path>) returns (paused: bool, again: Summary)
      requires Ready() && api.Quiet() && Starts(settings, Remote(), View(), clock, world)
      modifies this, api, api.server, api.server.index
      ensures Ready() && api.Quiet() && Evolves(old(Remote()), Remote())
      ensures paused ==> View() == old(View())
      ensures !paused ==> again == NOTHING_DONE && Together(Remote(), View(), settings.excluded)
      ensures !paused ==> lastRev == |Remote().table.log|
    {
      ghost var start := Remote();
      var result, first;
      result, paused, first := SyncOnce(clock, world);
      if paused {
        return true, NOTHING_DONE;
      }
      ghost var met, mine := Remote(), View();
      result, paused, again := SyncOnce(later, world);
      TogetherIgnoresTheCursor(met, mine, View(), settings.excluded);
      EvolvesTransitive(start, met, Remote());
    }
  }

  // Folder and server hold the same files, and the client is tidy and caught up.
  ghost predicate AtRest(settings: Protocol.Settings, s: State, c: Client, world: set<Path>) {
    Together(s, c, settings.excluded) && Pushing(s, c, settings.excluded, world)
  }

  // What a cycle comes to on its own. Started in order, it is refused exactly if the
  // files it would remove are too many, and otherwise does what is due and leaves
  // everything at rest. Started at rest, it does nothing.
  ghost predicate CycleWent(settings: Protocol.Settings, s: State, c: Client, clock: Clock, world: set<Path>,
                            paused: bool, progress: Progress, s': State) {
    && (Starts(settings, s, c, clock, world) ==>
          && (paused <==> !WithinLimit(|c.records|, settings.limits, |Doomed(s, c)|))
          && (!paused ==> progress.result == Fine && AtRest(settings, s', progress.client, world))
          && (!paused && NamesAreNew(s, c, clock) ==> Done(settings, s, c, clock, s', progress.client)))
    && (AtRest(settings, s, c, world) ==>
          !paused && s' == s && progress == Progress(c.(lastRev := |s.table.log|), NOTHING_DONE, Fine))
  }

  // What the pull of a cycle on its own was told, and whether it went on.
  ghost predicate PulledQuietly(settings: Protocol.Settings, s: State, c: Client, entries: seq<Entry>, clock: Clock,
                                paused: bool, pulled: Progress) {
    && ChangeList(s, c.lastRev, entries) && pulled == PullOnce(settings, s, c, entries, clock)
    && (entries != [] && !paused ==> !GuardTrips(c, Protocol.Relevant(settings.excluded, entries), settings.limits))
    && RefusedWhen(c, Protocol.Relevant(settings.excluded, entries), settings.limits, paused)
    && (paused ==> pulled.result == Failed)
  }

  lemma StoppedCycle(settings: Protocol.Settings, s: State, c: Client, entries: seq<Entry>, clock: Clock, world: set<Path>,
                     paused: bool, pulled: Progress)
    requires PulledQuietly(settings, s, c, entries, clock, paused, pulled) && pulled.result == Failed
    ensures CycleWent(settings, s, c, clock, world, paused, pulled, s)
  {
    if Starts(settings, s, c, clock, world) {
      RefusedForTheDoomed(settings, s, c, entries, clock, world, paused);
      if !paused {
        PullMirrors(settings, s, c, entries, clock, world);
      }
    }
    if AtRest(settings, s, c, world) {
      NextPullFindsNothing(settings, s, c, entries, clock, world);
    }
  }

  lemma ListsIgnoreTheCursor(c: Client, c': Client, excluded: Path -> bool, files: seq<Path>, gone: seq<Path>)
    requires c'.local == c.local && c'.records == c.records && PushLists(c', excluded, files, gone)
    ensures PushLists(c, excluded, files, gone)
  {
    assert Scanned(c, excluded) == Scanned(c', excluded);
  }

  lemma QuietCycle(settings: Protocol.Settings, s: State, c: Client, entries: seq<Entry>, files: seq<Path>, gone: seq<Path>,
                   clock: Clock, world: set<Path>, pulled: Progress)
    requires PulledQuietly(settings, s, c, entries, clock, false, pulled)
    requires PushLists(pulled.client, settings.excluded, files, gone)
    ensures var (s', pushed) := PushOnce(s, pulled.client, files, gone, clock, pulled.summary);
      CycleWent(settings, s, c, clock, world, false, pushed, s')
  {
    if Starts(settings, s, c, clock, world) {
      StartedCycle(settings, s, c, entries, files, gone, clock, world, pulled);
    }
    if AtRest(settings, s, c, world) {
      RestIsQuiet(settings, s, c, entries, files, gone, clock, world, pulled);
    }
  }

  lemma StartedCycle(settings: Protocol.Settings, s: State, c: Client, entries: seq<Entry>, files: seq<Path>, gone: seq<Path>,
                     clock: Clock, world: set<Path>, pulled: Progress)
    requires Starts(settings, s, c, clock, world) && PulledQuietly(settings, s, c, entries, clock, false, pulled)
    requires PushLists(pulled.client, settings.excluded, files, gone)
    ensures WithinLimit(|c.records|, settings.limits, |Doomed(s, c)|)
    ensures var (s', pushed) := PushOnce(s, pulled.client, files, gone, clock, pulled.summary);
      && pushed.result == Fine && AtRest(settings, s', pushed.client, world)
      && (NamesAreNew(s, c, clock) ==> Done(settings, s, c, clock, s', pushed.client))
  {
    RefusedForTheDoomed(settings, s, c, entries, clock, world, false);
    OneCycleConverges(settings, s, c, entries, files, gone, clock, world);
    if NamesAreNew(s, c, clock) {
      CycleIsDone(settings, s, c, entries, files, gone, clock, world);
    }
  }

  lemma RestIsQuiet(settings: Protocol.Settings, s: State, c: Client, entries: seq<Entry>, files: seq<Path>, gone: seq<Path>,
                    clock: Clock, world: set<Path>, pulled: Progress)
    requires ChangeList(s, c.lastRev, entries) && pulled == PullOnce(settings, s, c, entries, clock)
    requires PushLists(pulled.client, settings.excluded, files, gone) && AtRest(settings, s, c, world)
    ensures PushOnce(s, pulled.client, files, gone, clock, pulled.summary)
      == (s, Progress(c.(lastRev := |s.table.log|), NOTHING_DONE, Fine))
  {
    NextPullFindsNothing(settings, s, c, entries, clock, world);
    ListsIgnoreTheCursor(c, pulled.client, settings.excluded, files, gone);
    NextCycleDoesNothing(settings, s, c, entries, files, gone, clock, world);
  }

  lemma TogetherIgnoresTheCursor(s: State, c: Client, c': Client, excluded: Path -> bool)
    requires Together(s, c, excluded) && c'.local == c.local && c'.records == c.records
    ensures Together(s, c', excluded)
  {
    forall p | !excluded(p) ensures TogetherAt(s, c', p) { assert TogetherAt(s, c, p); }
  }

  // Whatever the server has become by then, and whatever it answers.
  lemma DeletionAnswered(excluded: Path -> bool, start: State, c: Client, p: Path, clock: Clock, met: State)
    requires Consistent(start) && Consistent(met) && Evolves(start, met)
    requires CursorHolds(start, excluded, c) && p in c.records
    ensures var (now, response) := DeleteFile(met, DeletionOf(c, p, clock));
      Evolves(start, now) && forall summary :: CursorHolds(now, excluded, AfterDelete(c, p, response, summary).client)
  {
    var (now, response) := DeleteFile(met, DeletionOf(c, p, clock));
    CursorStays(start, met, excluded, c);
    Protocol.DeleteHolds(met, excluded, c, p, clock);
    EvolvesTransitive(start, met, now);
    forall summary ensures CursorHolds(now, excluded, AfterDelete(c, p, response, summary).client) {
      assert AfterDelete(c, p, response, summary).client == AfterDelete(c, p, response, NOTHING_DONE).client;
    }
  }

  lemma NextRelevant(excluded: Path -> bool, entries: seq<Entry>, i: nat)
    requires i < |entries|
    ensures Protocol.Relevant(excluded, entries[i..])
      == (if excluded(entries[i].path) then [] else [entries[i]]) + Protocol.Relevant(excluded, entries[i + 1..])
  {
    var left := entries[i..];
    assert left[0] == entries[i] && left[1..] == entries[i + 1..];
  }

  lemma OneMoreFiltered(excluded: Path -> bool, entries: seq<Entry>, i: nat, relevant: seq<Entry>)
    requires i < |entries|
    requires relevant + Protocol.Relevant(excluded, entries[i..]) == Protocol.Relevant(excluded, entries)
    ensures var next := if excluded(entries[i].path) then relevant else relevant + [entries[i]];
      next + Protocol.Relevant(excluded, entries[i + 1..]) == Protocol.Relevant(excluded, entries)
  {
    var one := if excluded(entries[i].path) then [] else [entries[i]];
    NextRelevant(excluded, entries, i);
    Regroup(relevant, one, Protocol.Relevant(excluded, entries[i + 1..]));
    assert relevant + [] == relevant;
  }

  lemma NextDeletion(s: State, c: Client, gone: seq<Path>, i: nat, clock: Clock, summary: Summary)
    requires i < |gone|
    ensures var (s', first) := PushDeletion(s, c, gone[i], clock, summary);
      PushDeletions(s, c, gone[i..], clock, summary) ==
      if first.result == Failed then (s', first) else PushDeletions(s', first.client, gone[i + 1..], clock, first.summary)
  {
    assert gone[i..][0] == gone[i] && gone[i..][1..] == gone[i + 1..];
  }

  lemma OneMoreApplied(servers: seq<State>, c: Client, relevant: seq<Entry>, clock: Clock, s: State)
    requires |servers| < |relevant|
    requires ApplyAll(servers, c, relevant[..|servers|], clock, NOTHING_DONE).result != Failed
    ensures var before := ApplyAll(servers, c, relevant[..|servers|], clock, NOTHING_DONE);
      var last := ApplyEntry(s, before.client, relevant[|servers|], clock, before.summary);
      ApplyAll(servers + [s], c, relevant[..|servers| + 1], clock, NOTHING_DONE)
        == if last.result == Failed then last else last.(result := Fine)
  {
    var i := |servers|;
    ApplyAllThenOne(servers, c, relevant[..i], clock, NOTHING_DONE, s, relevant[i]);
    assert relevant[..i + 1] == relevant[..i] + [relevant[i]];
  }

  // Entry i, applied to what the server has become by then.
  lemma AppliedMeanwhile(settings: Protocol.Settings, s: State, s': State, c: Client, relevant: seq<Entry>, i: nat,
                         target: nat, clock: Clock, summary: Summary)
    requires Consistent(s) && Consistent(s') && Evolves(s, s') && i < |relevant|
    requires NodeHolds(s, settings.excluded, Node(c, Applying(relevant[i..], target)))
    ensures var progress := ApplyEntry(s', c, relevant[i], clock, summary);
      && CursorHolds(s', settings.excluded, progress.client)
      && (progress.result != Failed ==> NodeHolds(s', settings.excluded, Node(progress.client, Applying(relevant[i + 1..], target))))
  {
    NodeStays(s, s', settings.excluded, Node(c, Applying(relevant[i..], target)));
    AppliedWithSummary(settings, s', c, relevant[i..], target, clock, summary);
    assert relevant[i..][1..] == relevant[i + 1..];
  }

  // The running totals have no part in what an entry does.
  lemma AppliedWithSummary(settings: Protocol.Settings, s: State, c: Client, todo: seq<Entry>, target: nat, clock: Clock, summary: Summary)
    requires Consistent(s) && todo != [] && NodeHolds(s, settings.excluded, Node(c, Applying(todo, target)))
    ensures var progress := ApplyEntry(s, c, todo[0], clock, summary);
      && CursorHolds(s, settings.excluded, progress.client)
      && (progress.result != Failed ==> NodeHolds(s, settings.excluded, Node(progress.client, Applying(todo[1..], target))))
  {
    Protocol.AppliedHolds(settings, s, c, Applying(todo, target), clock);
    assert ApplyEntry(s, c, todo[0], clock, summary).client == ApplyEntry(s, c, todo[0], clock, NOTHING_DONE).client;
    assert ApplyEntry(s, c, todo[0], clock, summary).result == ApplyEntry(s, c, todo[0], clock, NOTHING_DONE).result;
  }
}
