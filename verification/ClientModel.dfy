/**
 One client as a value: its folder, its record of the last confirmed sync and its
 cursor, and what the engine does with one change, one local file, one deletion.
 */
module ClientModel {
  import opened Basics
  import opened Index
  import opened Server

  // What was known about a path the last time it synced cleanly.
  datatype Synced = Synced(size: nat, mtime: int, sha: Digest, rev: nat)

  datatype Client = Client(local: map<Path, File>, records: map<Path, Synced>, lastRev: nat)

  datatype Summary = Summary(downloaded: nat, uploaded: nat, deletedLocally: nat, deletedRemotely: nat, conflicts: nat)

  const NOTHING_DONE := Summary(0, 0, 0, 0, 0)

  // What this cycle's clock and name generators answer: the name a local edit of a
  // path is parked under, the name the server gives a losing write, and the time.
  datatype Clock = Clock(parked: Path -> Path, conflict: Path -> Path, now: int, stamp: string)

  datatype Limits = Limits(maxDeletes: nat, fraction: real)

  datatype Result = Fine | NotThere | Failed

  datatype Progress = Progress(client: Client, summary: Summary, result: Result)

  // ── Pull ───────────────────────────────────────────────────────────────────

  function Forget(c: Client, p: Path): Client {
    c.(records := c.records - {p})
  }

  function Record(c: Client, p: Path, synced: Synced): Client {
    c.(records := c.records[p := synced])
  }

  predicate SameStat(file: File, synced: Synced) {
    |file.body| == synced.size && file.mtime == synced.mtime
  }

  // Whether a tombstone may remove what is on disk here.
  predicate Deletable(c: Client, p: Path) {
    && p in c.local && p in c.records
    && (SameStat(c.local[p], c.records[p]) || Sha256(c.local[p].body) == c.records[p].sha)
  }

  // The record already names the listed revision and hash: nothing to fetch.
  predicate Echo(c: Client, e: Entry) {
    && !e.deleted && e.path in c.records && c.records[e.path].rev == e.rev
    && (e.sha == NoDigest || c.records[e.path].sha == e.sha)
  }

  function ApplyDeletion(c: Client, e: Entry, summary: Summary): Progress {
    if Deletable(c, e.path) then
      Progress(Forget(c.(local := c.local - {e.path}), e.path),
               summary.(deletedLocally := summary.deletedLocally + 1), Fine)
    else
      Progress(Forget(c, e.path), summary, Fine)
  }

  predicate Identical(c: Client, e: Entry) {
    e.path in c.local && e.sha != NoDigest && Sha256(c.local[e.path].body) == e.sha
  }

  // Both sides moved: an edit of a file we have a record of.
  predicate Edited(c: Client, p: Path) {
    p in c.local && p in c.records && Sha256(c.local[p].body) != c.records[p].sha
  }

  function Park(c: Client, p: Path, parked: Path): Client
    requires p in c.local
  {
    Forget(c.(local := (c.local - {p})[parked := c.local[p]]), p)
  }

  function Installed(body: Body, mtime: int, now: int): File {
    File(body, if mtime > 0 then mtime else now)
  }

  // The downloaded version is installed, and recorded as the version that was listed.
  function AfterDownload(c: Client, e: Entry, download: Download, now: int, summary: Summary): Progress {
    match download
    case Missing => Progress(c, summary, NotThere)
    case NotAFile => Progress(c, summary, Failed)
    case Content(body, rev, sha) =>
      var file := Installed(body, e.mtime, now);
      var synced := Synced(|body|, file.mtime,
                           if e.sha != NoDigest then e.sha else sha,
                           if e.rev != 0 then e.rev else rev);
      Progress(Record(c.(local := c.local[e.path := file]), e.path, synced),
               summary.(downloaded := summary.downloaded + 1), Fine)
  }

  function ApplyFile(s: State, c: Client, e: Entry, clock: Clock, summary: Summary): Progress {
    if Identical(c, e) then
      var file := c.local[e.path];
      Progress(Record(c, e.path, Synced(|file.body|, file.mtime, e.sha, e.rev)), summary, Fine)
    else if Edited(c, e.path) then
      AfterDownload(Park(c, e.path, clock.parked(e.path)), e, GetFile(s, e.path), clock.now,
                    summary.(conflicts := summary.conflicts + 1))
    else
      AfterDownload(c, e, GetFile(s, e.path), clock.now, summary)
  }

  // Directories are not part of the client model: an entry for one changes nothing.
  function ApplyEntry(s: State, c: Client, e: Entry, clock: Clock, summary: Summary): Progress {
    if Echo(c, e) then Progress(c, summary, Fine)
    else if e.deleted then ApplyDeletion(c, e, summary)
    else if e.kind == Directory then Progress(c, summary, Fine)
    else ApplyFile(s, c, e, clock, summary)
  }

  // A path that is not there is stepped over; any other failure ends the pull. The
  // server each entry meets is its own, since others go on writing in between.
  function ApplyAll(servers: seq<State>, c: Client, entries: seq<Entry>, clock: Clock, summary: Summary): Progress
    requires |servers| == |entries|
    decreases |entries|
  {
    if entries == [] then Progress(c, summary, Fine)
    else
      var first := ApplyEntry(servers[0], c, entries[0], clock, summary);
      if first.result == Failed then first
      else ApplyAll(servers[1..], first.client, entries[1..], clock, first.summary)
  }

  // ── The delete guard ───────────────────────────────────────────────────────

  predicate WouldDelete(c: Client, e: Entry) {
    e.deleted && Deletable(c, e.path)
  }

  function Deletions(c: Client, entries: seq<Entry>): nat {
    if entries == [] then 0
    else One(WouldDelete(c, entries[0])) + Deletions(c, entries[1..])
  }

  function DeleteLimit(known: nat, limits: Limits): int {
    if known == 0 then limits.maxDeletes
    else Max(Min(limits.maxDeletes, (known as real * limits.fraction).Floor), 1)
  }

  predicate GuardTrips(c: Client, entries: seq<Entry>, limits: Limits) {
    Deletions(c, entries) > DeleteLimit(|c.records|, limits)
  }

  // ── Push ───────────────────────────────────────────────────────────────────

  function KnownRev(c: Client, p: Path): nat {
    if p in c.records then c.records[p].rev else 0
  }

  // The upload of a snapshot: its own hash is declared, and the revision last synced.
  function UploadOf(c: Client, p: Path, snapshot: Body, clock: Clock): Request {
    Put(p, KnownRev(c, p), snapshot, Some(Sha256(snapshot)), clock.conflict(p), clock.now, clock.stamp)
  }

  // The recorded state of a file as the scan saw it, at a given revision.
  function SyncedAs(file: File, rev: nat): Synced {
    Synced(|file.body|, file.mtime, Sha256(file.body), rev)
  }

  function TakeServers(s: State, c: Client, p: Path, clock: Clock, summary: Summary): Progress {
    match GetFile(s, p)
    case Content(body, rev, sha) =>
      var file := Installed(body, 0, clock.now);
      Progress(Record(c.(local := c.local[p := file]), p,
                      Synced(|body|, file.mtime, if sha != NoDigest then sha else Sha256(body), rev)),
               summary.(downloaded := summary.downloaded + 1), Fine)
    case _ => Progress(c, summary, Failed)
  }

  function DeletionOf(c: Client, p: Path, clock: Clock): Request
    requires p in c.records
  {
    Delete(p, c.records[p].rev, clock.stamp)
  }

  // What the answer to a DELETE does to the record. A directory is never asked about.
  function AfterDelete(c: Client, p: Path, response: Response, summary: Summary): Progress {
    match response
    case Deleted(_) => Progress(Forget(c, p), summary.(deletedRemotely := summary.deletedRemotely + 1), Fine)
    case NotFound => Progress(Forget(c, p), summary, Fine)
    case Stale => Progress(Forget(c, p), summary, Fine)
    case NotEmpty => Progress(c, summary, Fine)
    case _ => Progress(c, summary, Failed)
  }

  // A refused upload has left a copy on the server; the file takes the server's content.
  function AfterUpload(s: State, c: Client, p: Path, file: File, response: Response, clock: Clock, summary: Summary): Progress {
    match response
    case Stored(rev, _) =>
      Progress(Record(c, p, SyncedAs(file, rev)), summary.(uploaded := summary.uploaded + 1), Fine)
    case Conflict(_, _) => TakeServers(s, c, p, clock, summary.(conflicts := summary.conflicts + 1))
    case _ => Progress(c, summary, Failed)
  }

  // A file that has vanished since the scan is left to the next cycle. One whose
  // size and time are as recorded is not looked at again; one whose content is as
  // recorded only has its time noted; anything else is uploaded.
  function PushFile(s: State, c: Client, p: Path, clock: Clock, summary: Summary): (State, Progress) {
    if p !in c.local then (s, Progress(c, summary, Fine)) else
    var file := c.local[p];
    if p in c.records && SameStat(file, c.records[p]) then (s, Progress(c, summary, Fine))
    else if p in c.records && c.records[p].sha == Sha256(file.body) then
      (s, Progress(Record(c, p, SyncedAs(file, c.records[p].rev)), summary, Fine))
    else
      var (s', response) := PutFile(s, UploadOf(c, p, file.body, clock));
      (s', AfterUpload(s', c, p, file, response, clock, summary))
  }

  // A path never uploaded cannot be deleted remotely; it is only forgotten.
  function PushDeletion(s: State, c: Client, p: Path, clock: Clock, summary: Summary): (State, Progress) {
    if p !in c.records then (s, Progress(c, summary, Fine))
    else if c.records[p].rev == 0 then (s, Progress(Forget(c, p), summary, Fine))
    else
      var (s', response) := DeleteFile(s, DeletionOf(c, p, clock));
      (s', AfterDelete(c, p, response, summary))
  }

  function PushFiles(s: State, c: Client, files: seq<Path>, clock: Clock, summary: Summary): (State, Progress)
    decreases |files|
  {
    if files == [] then (s, Progress(c, summary, Fine))
    else
      var (s', first) := PushFile(s, c, files[0], clock, summary);
      if first.result == Failed then (s', first)
      else PushFiles(s', first.client, files[1..], clock, first.summary)
  }

  function PushDeletions(s: State, c: Client, gone: seq<Path>, clock: Clock, summary: Summary): (State, Progress)
    decreases |gone|
  {
    if gone == [] then (s, Progress(c, summary, Fine))
    else
      var (s', first) := PushDeletion(s, c, gone[0], clock, summary);
      if first.result == Failed then (s', first)
      else PushDeletions(s', first.client, gone[1..], clock, first.summary)
  }
}
