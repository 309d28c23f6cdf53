# HomeSync: a verified model

HomeSync keeps a folder on several machines in step with a server. This project models
its three cores in Dafny and proves what they are for.

**The sync protocol.** The server is a revision counter, an index of rows (live or
tombstone), a disk and a trash (`Index`, `Server`). A client is a folder, a record per path
and one cursor (`ClientModel`). `Protocol` is a step system: any number of clients, each cut
at its request boundaries, with anybody else's requests and edits of any folder in between.
`Cursor`, `Concurrency`, `NoLoss`, `Repeats`, `Listing`, `Convergence`, `Fleet`,
`Conservation`, `Served`, `Merge`, `Summaries`, `Outcomes`, `TrashNames` and `Scan` state and
prove its properties; `ServerObject` and `EngineObject` are the handlers and the engine as the
source has them, classes whose loops update maps, each method proved equal to its value-level
function. `EngineObject` runs the engine against a schedule of foreign requests that strike
between any two of its own.
`Wakeups` is the signal path from a commit to a sync cycle; `Glob`, `GlobText` and `Ignore` are
the rules that keep paths out.

**The encrypted file format** (`Crypt`, `CryptReader`, `Authenticity`). AES-GCM is any cipher
with the interface of sections 2.1 and 2.2 of RFC 5116 that is deterministic, undoes its own
sealing and opens nothing else; the key derivation is any function of the salt.

**The backup planner** (`Calendar`, `Cron`, `CronFields`, `Retention`, `SizeCache`,
`SizeCacheRuns`, `SizeCacheObject`, `ProgressStream`).

## What the proofs found

Each of these is proved: a concrete input, beside the exact condition under which the promise
does hold.

- An upload that is let through to the write, with a body that does not hash to what it
  declares, spends no revision, but the file it was to replace is in the trash by then and
  its row stays live without content (`Conservation.RefusedUpload`). A client's cursor can
  pass such a row without a record of it (`Served.ASpoiledFileIsReachedButNotRecorded`); it
  cannot pass any other (`Served.EveryReachedFileIsRecorded`). After any run, everybody
  present or about to join has on record what its cursor reaches if and only if no live file
  the rules let through has lost its bytes (`Served.EveryReachedFileIsRecordedWhen`).
- A path with two dots in a row, such as `notes..txt`, can be deleted but not restored: its name
  in the trash is taken for one that leads out of it (`TrashNames.ANameWithTwoDots`). A deletion
  can be undone if and only if its path has none (`Concurrency.RestoreUndoesDelete`).
- Restoring a file whose path collides by letter case leaves it on disk without a row, and a
  later upload then writes over it (`Conservation.ACollidingRestoreLosesABody`). Bodies are
  conserved by a request, and over a run, if and only if none writes over a file that nothing
  names (`Conservation.RequestConserves`, `Conservation.RunConserves`).
- The comment on the pull says that a missing entry stops the cursor; the code steps over it
  and advances. `Protocol.SkippedIsSuperseded` is why that is safe.
- A change list read while others write can name a path twice. Then an edit may be lost: a
  tombstone takes its record away and the version after it is downloaded over it
  (`Listing.ADeletionTakesTheRecordAway`), or what was downloaded for the first version is
  parked over the parked edit at the second (`Listing.ASecondParkingTakesItsPlace`). A list is
  safe for every edit of a path that it does not itself list if and only if no version of the
  path comes after anything else said of it (`Repeats.RepeatsAreSafeWhen`). A path that nobody
  writes during the pull is listed once at most (`EngineObject.Engine.Pull`).
- A list with a version of a path and then its tombstone lets a file go that the delete guard
  has not counted (`Listing.ARemovalIsNotCounted`). The count bounds the removals of a pull if
  and only if no tombstone on the list comes after a version of its path
  (`Repeats.CountBoundsWhen`), and is exact if and only if none comes after anything said of it
  (`Repeats.CountIsExactWhen`).
- After a scan, a path renamed by letter case alone is still missing
  (`Scan.ACaseRenameIsBlocked`); two scans suffice, if and only if no two paths on disk differ
  by letter case alone, and of those that do one is right (`Scan.TwoScansAgree`). The comment in
  the scan says that it records a touched file's new time; the code does not.
- `0 0 29 2 *` has no next run when asked in 2096
  (`Cron.ACenturyIsMissed`), and `5,70/10` is accepted as 5 (`CronFields.AValueIsDropped`).
- A failed load overwrites the reader's buffer while `loaded` keeps its value. A file of two
  chunks whose first is damaged is handed over, and after a read of the first the second,
  which is sound, reads as a zero (`CryptReader.ASoundChunkIsMisread`). Every read answers by
  the file if and only if the buffer is the chunk it is kept under, or no offset lies in that
  chunk (`CryptReader.EveryAnswerIsRight`). Until a load fails every answer is right, damaged
  file or not (`CryptReader.RightUntilDamaged`). A file of ours cut below 24 bytes is not
  recognised and is served as plain bytes (`Authenticity.TruncationIsRefused`).
- `*/**/*` matches the single segment `x` (`Glob.ALoneStarIsSkipped`). On all paths the search
  finds what a pattern means if and only if no part of it is a lone segment that matches
  nothing, or that segment is the only one beside `**` (`Glob.FoundExactlyWhereMeant`, and on
  text `GlobText.TextFoundExactlyWhereMeant`). `**` inside a segment counts as a segment of its
  own (`GlobText.SlashesMakeNoDifference`).
- A directory inside an ignored directory is not itself ignored by an anchored rule
  (`Ignore.ADirectoryInsideIsNot`): it is if and only if the other rules alone keep it out
  (`Ignore.AnchoredRuleIsNotInherited`). Where the rule has no slash it is ignored if and only
  if no later rule lets it in (`Ignore.DirectoriesInsideInherit`).
- A list of the backup directory read before a run and acted on after it makes the manager
  forget the size of the snapshot that run wrote, which then has none until the next list is
  acted on (`SizeCacheRuns.AStaleListForgets`). A step leaves every snapshot measured or provided
  for if and only if it does not act on a list that lacks a snapshot which nothing else is going
  to have measured (`SizeCacheRuns.StepProvidesUnless`); without such a step all are measured at
  rest (`SizeCacheRuns.AllAreMeasured`).
- Output without a terminator for more than 64 KiB is cut where a write happens to end
  (`ProgressStream.ALongStretchIsCut`). One run of writes gives the lines of the whole if and
  only if no write leaves more than that waiting (`ProgressStream.DeliveredAsAWhole`), and
  every run does if and only if the output has no such stretch
  (`ProgressStream.DeliveryMatters`).

## Hypotheses

- A digest determines the body it was taken from.
- Stat honesty: a size and a time equal to the recorded ones mean the recorded content
  (`NoLoss.StatHonest`, `Convergence.StatHonestAt`, `Scan.Honest`).
- Generated names for conflicts and parked edits are fresh.
- Handlers run one at a time; only pages of changes are read in two queries with a commit
  allowed in between.
- The ignore rules stay fixed and tombstones are not pruned during a run.
- Convergence: nobody else writes during the cycle, no two live paths or files meet under case
  folding, no request fails, the delete guard does not trip, every live file row has its file,
  and no file of the client is a directory on the server. `Fleet.ACaseRenameIsInOrder` is a
  server that meets this.
- Patterns: matching without `**` goes segment by segment (`GlobText.BySegments`), what matches
  nothing matches any segment, and every segment but `**` matches something.
- Authenticity: no salt is drawn twice, and what opens in the file at hand was sealed by some
  run (`Authenticity.Unforged`).
- Backups: a snapshot is written under a day not older than any on the disk, and shares
  inodes only with the newest older one.

## Model

| member | source | states |
|---|---|---|
| Index.UpsertKeepsValid | server/internal/index/index.go:302-331 | an accepted upsert keeps: rows are the newest version of their path, versions carry their own revision, live paths differ under case folding |
| Index.TombstoneKeepsValid | server/internal/index/index.go:336-347 | so does a tombstone, also for a path without a row, where it only spends a revision |
| Index.OldRowsAreUnchanged | server/internal/index/index.go:163-173 | after any commits, a row whose revision is not newer than a past moment was there, the same, at that moment |
| Index.RevisionsAreDistinct | server/internal/index/index.go:163-173 | no two rows share a revision |
| Index.PageIsComplete | server/internal/index/index.go:210-252 | a limited change query returns rows only, ascending, newer than `since`, and all of them up to the last it returns, or all there are when it is not full |
| Server.RequestKeeps | server/internal/api/files.go:145-339 | every request keeps the index valid, every live row true of the file that is there, and every earlier version and revision |
| Server.RequestsKeep | server/internal/api/files.go:145-339 | and so does any list of requests |
| Server.PurgeKeeps | server/internal/api/misc.go:209-252 | a purge of any paths keeps the same |
| Server.RestoreKeeps | server/internal/api/misc.go:56-120 | a restore keeps the same, also when it collides |
| Server.MakeDirectoryKeeps | server/internal/api/files.go:285-339 | so does making a directory, new, again, over a file or beside a case twin |
| Server.FreshSuffix | server/internal/trash/trash.go:83-90 | the loop that appends `.1`, `.2` ends at a name no item has |
| Outcomes.UploadAnswers | server/internal/api/files.go:145-229 | each answer to an upload, by what is at its path, its revision and hash, and where it is written |
| Outcomes.DeleteOutcome | server/internal/api/files.go:232-283 | each answer to a deletion; of a directory it is refused exactly if something lies below, so nothing is left below one that is deleted; nothing else changes |
| Outcomes.RestoreOutcome | server/internal/api/misc.go:56-135 | each answer to a restore, and where the file is then |
| Outcomes.MakeDirectoryOutcome | server/internal/api/files.go:285-339 | each answer to making a directory; what is there is left alone |
| Outcomes.PurgeOutcome | server/internal/api/misc.go:209-252 | a purge deletes the live paths it names, their files are in the trash, and nothing else changes |
| TrashNames.NameReadsBack | server/internal/trash/trash.go:49-70 | a name in the trash reads back as its path and what was appended to make it new |
| TrashNames.RequestReadsBack | server/internal/trash/trash.go:49-96 | through any request, every item goes back to the path its name reads as |
| TrashNames.RefusedForTwoDots | server/internal/trash/trash.go:128-133 | a name is refused when asked for if and only if its path, or the time, has two dots in a row |
| TrashNames.ANameWithTwoDots | server/internal/trash/trash.go:128-133 | whenever it is deleted, `notes..txt` goes under a name that is refused |
| Conservation.RequestAccounts | server/internal/api/files.go:145-283 | for every body, what disk and trash hold after a request plus what it destroyed is what they held plus what it accepted |
| Conservation.RequestConserves | server/internal/api/files.go:341-387 | a request conserves every body if and only if it does not write over a file that no live row names |
| Conservation.RequestStaysIndexed | server/internal/api/files.go:145-283 | with fresh conflict names and no colliding restore, every file on disk stays named by a live row |
| Conservation.RunConserves | server/internal/api/files.go:145-283 | over any run of serialised requests the bodies held are those at the start and one more for each acceptance, if and only if no request of the run writes over a file that no live row names |
| Conservation.RunStaysIndexed | server/internal/api/files.go:145-283 | with fresh conflict names and no colliding restore, none does, and every file on disk stays named |
| Conservation.RefusedUpload | server/internal/api/files.go:341-358 | the uploads refused for their hash are exactly those let through to the write with a body other than declared; they spend no revision, and leave every download as it was if and only if the target was not being served |
| Conservation.ACollidingRestoreLosesABody | server/internal/api/misc.go:56-120 | six requests after which an accepted body is nowhere |
| Served.RequestKeepsFiles | server/internal/api/files.go:210-227 | every live file row keeps its file through a request if and only if that is not such an upload over a served path |
| Served.EngineNeverSpoils | clients/cli/internal/sync/engine.go:513-594 | no step of a client is such an upload |
| Served.RunKeepsFiles | server/internal/api/files.go:145-283 | over any run without one, every live file row keeps its file |
| Served.EveryReachedFileIsRecorded | clients/cli/internal/sync/engine.go:198-236 | then every live file at or below a client's cursor is in its records with that revision and hash |
| Served.EveryReachedFileIsRecordedWhen | clients/cli/internal/sync/engine.go:198-236 | at the end of any run, every client, present or about to join, has on record every live file its cursor reaches, if and only if every live file the rules let through still has its bytes |
| Served.JoinersAreRecordedWhen | clients/cli/internal/sync/engine.go:198-236 | the same of one server and all who join it |
| Served.JoinerMissesTheLost | clients/cli/internal/sync/engine.go:224-235 | whoever joins without a file where the bytes are lost ends its first pull past the row without a record of it |
| Served.ASpoiledFileIsReachedButNotRecorded | clients/cli/internal/sync/engine.go:224-235 | a run with one, after which the cursor has passed a live row that is in no record |
| Cursor.PageExtends | clients/cli/internal/sync/api.go:164-187 | a page appended to what is collected is again every newer row up to its last, whatever was committed since the page before |
| Cursor.PageFollows | clients/cli/internal/sync/api.go:164-187 | following a page keeps the list complete up to its end, and complete altogether when the page is the last |
| Cursor.ReachIsPast | clients/cli/internal/sync/api.go:176-183 | the cursor of a page is past the one before |
| Cursor.CursorStays | clients/cli/internal/sync/state.go:116-123 | nothing anybody asks of the server breaks a client's cursor invariant |
| Cursor.NodeStays | clients/cli/internal/sync/engine.go:198-236 | nor what is known of a pull half way through |
| Protocol.CollectedHolds | clients/cli/internal/sync/engine.go:201-218 | the collected list, filtered by the rules, accounts for every row up to the counter |
| Protocol.PageReadHolds | server/internal/index/index.go:210-252 | reading the counter and the page in two queries, with commits between, keeps the invariant |
| Protocol.ApplySettles | clients/cli/internal/sync/engine.go:291-325 | an entry that is current is settled by applying it |
| Protocol.SkippedIsSuperseded | clients/cli/internal/sync/engine.go:224-235 | an entry skipped as missing has a newer row, which is later in the same batch or above the cursor that will be stored |
| Protocol.AppliedHolds | clients/cli/internal/sync/engine.go:220-236 | applying the next entry keeps the invariant, however the server has moved since the page |
| Protocol.UploadHolds | clients/cli/internal/sync/engine.go:554-561 | uploading any snapshot of a file and recording the answer keeps the invariant |
| Protocol.TakeHolds | clients/cli/internal/sync/engine.go:576-594 | so does taking the server's content after a conflict |
| Protocol.DeleteHolds | clients/cli/internal/sync/engine.go:606-656 | and a remote deletion with every answer it can get |
| Protocol.RestatHolds | clients/cli/internal/sync/engine.go:536-544 | and recording a new time for unchanged content |
| Protocol.AdvanceHolds | clients/cli/internal/sync/engine.go:235-236 | a finished pull may store the counter it read |
| Protocol.StepHolds | clients/cli/internal/sync/engine.go:170-190 | one step of one client, or one request by anybody, keeps the invariant of every client |
| Protocol.EveryRunHolds | clients/cli/internal/sync/engine.go:170-236 | over every interleaving of any number of clients, every client's cursor invariant holds |
| Protocol.EveryClientOfEveryRun | clients/cli/internal/sync/engine.go:198-236 | from new clients and a new server: a served row at or below the cursor is recorded with its revision and hash, a tombstone there has no record, every record is a version the server issued |
| Concurrency.UploadOutcome | server/internal/api/files.go:175-229 | an upload takes its path exactly if it names the revision there; otherwise the path is as it was and the body is served under the generated name |
| Concurrency.OnlyANamedVersionIsReplaced | server/internal/api/files.go:145-283 | what is served at a path stays, content, revision and hash, through every request that does not name its revision, purge it or land on it as a conflict name |
| Concurrency.RestoreUndoesDelete | server/internal/api/misc.go:56-135 | a deleted file that is restored is served as before, and disk and trash are what they were, if and only if its path has no two dots in a row; otherwise it stays in the trash |
| Concurrency.ClientsReplaceOnlyWhatTheyHave | clients/cli/internal/sync/engine.go:513-656 | in any run, a client's step that changes what is served at a path finds the replaced version in that client's records |
| Concurrency.PushLosesNothing | clients/cli/internal/sync/engine.go:554-594 | a pushed file's bytes are still in the folder or served under the name the server gave them |
| NoLoss.ConsumedExactly | clients/cli/internal/sync/engine.go:291-453 | applying one entry ends a file's bytes if and only if a tombstone may remove it or a newer version replaces a file with no edit to protect |
| NoLoss.ListedFileFate | clients/cli/internal/sync/engine.go:198-236 | over a whole pull, the bytes of a path that is listed once survive at the path or its parked name exactly unless its own entry consumes them, whatever else is listed twice |
| NoLoss.OnlyUneditedBytesEnd | clients/cli/internal/sync/engine.go:367-453 | the only bytes of such a path that a pull ends are those of a file equal to its record, or without a record where another hash is listed |
| NoLoss.NoEditIsLost | clients/cli/internal/sync/engine.go:409-426 | every edited recorded file that is listed once survives a pull at its path or its parked name |
| NoLoss.PreCountBounds | clients/cli/internal/sync/engine.go:249-289 | on a list with no tombstone of a path after a version of it, the deletions counted before a pull bound the removals it performs, whoever made the client and whatever the servers answer |
| NoLoss.PreCountIsExact | clients/cli/internal/sync/engine.go:249-289 | with no tombstone after anything said of its path, they are the removals of a pull that does not fail |
| NoLoss.GoneAreCounted | clients/cli/internal/sync/engine.go:331-389 | of the files gone after a pull, those without a tombstone after a version of their path are no more than were counted; on a list with none, all of them |
| NoLoss.GuardBoundsRemovals | clients/cli/internal/sync/engine.go:249-289 | a pull that is not refused removes at most one file, or the smaller of the cap and the share of the known files, or the cap when nothing is recorded; only a path with a tombstone after a version of it is set aside |
| NoLoss.GuardTripsWhen | clients/cli/internal/sync/engine.go:249-289 | and one is refused only if what it counts is beyond that |
| NoLoss.CountIsToldGone | clients/cli/internal/sync/engine.go:255-266 | on a list of distinct paths the count is the number of recorded, unedited files listed as deleted |
| Repeats.RepeatsAreSafeWhen | clients/cli/internal/sync/engine.go:220-235 | a list read from a server keeps every edit of a path that it does not itself list, for all clients within the cursor invariant and all servers the one read may become, if and only if no version of the path comes after anything else said of it |
| Repeats.SafeListKeeps | clients/cli/internal/sync/engine.go:331-453 | one way: on such a list the edit is at its path or its parked name at the end |
| Repeats.SomeEditIsLost | clients/cli/internal/sync/engine.go:331-453 | the other: for any other list read there are such a client and such servers with which it is gone |
| Repeats.PullIsCareful | clients/cli/internal/sync/engine.go:198-236 | however far a pull gets, every edit of a path listed safely is kept, and the removals that can be counted are within the limit |
| Repeats.CountBoundsWhen | clients/cli/internal/sync/engine.go:249-289 | the deletions counted before a pull bound its removals, for all clients within the cursor invariant and all servers the one read may become, if and only if no tombstone on the list comes after a version of its path |
| Repeats.SomeRemovalIsNotCounted | clients/cli/internal/sync/engine.go:331-389 | for any list read where one does there are such a client and such servers with which more is removed than was counted |
| Repeats.CountIsExactWhen | clients/cli/internal/sync/engine.go:249-289 | they are its removals, for all such clients and servers, if and only if no tombstone comes after anything else said of its path |
| Listing.OnceIfUnwritten | clients/cli/internal/sync/api.go:164-187 | a path nobody commits while a list is read is on it at most once |
| Listing.ChangeListNamesPathsOnce | clients/cli/internal/sync/engine.go:201-218 | what an undisturbed server answers names no path twice, before or after the rules filter it |
| Listing.ADeletionTakesTheRecordAway | clients/cli/internal/sync/engine.go:331-365 | five commits and a list of two of them, after which an edit is gone |
| Listing.ASecondParkingTakesItsPlace | clients/cli/internal/sync/engine.go:409-453 | another list, where the edit is parked and then parked over |
| Listing.ARemovalIsNotCounted | clients/cli/internal/sync/engine.go:249-289 | a third, where a file goes that was not counted |
| Convergence.PullSettles | clients/cli/internal/sync/engine.go:198-236 | an undisturbed pull settles every row and keeps the folder in order |
| Convergence.CaughtUpIsMirror | clients/cli/internal/sync/engine.go:198-236 | a client whose cursor has reached the counter has a record for exactly the live files, each the server's version |
| Convergence.PushFilesMirror | clients/cli/internal/sync/engine.go:457-594 | pushing every file leaves each recorded as the server has it |
| Convergence.PushDeletionsMirror | clients/cli/internal/sync/engine.go:606-656 | pushing deletions leaves no record without a file |
| Convergence.OneCycleConverges | clients/cli/internal/sync/engine.go:170-190 | one undisturbed cycle makes the folder equal the server's live files, byte for byte |
| Convergence.NextCycleDoesNothing | clients/cli/internal/sync/engine.go:170-190 | the next cycle downloads, uploads, deletes and parks nothing and changes no record |
| Merge.TombstoneRemovesTheUnedited | clients/cli/internal/sync/engine.go:331-389 | a tombstone removes a file if and only if it is recorded and hashes to its record, whatever its time; otherwise file and bytes stay and only the record goes |
| Merge.OtherContentIsFetched | clients/cli/internal/sync/engine.go:298-316 | an entry with another hash under a recorded revision is not taken for one's own |
| Merge.EntryOutcome | clients/cli/internal/sync/engine.go:291-453 | an entry finds nothing to fetch if it is on record or already here; otherwise a path gone by now is stepped over and one that is a directory by now ends the pull |
| Merge.ParkedForNothing | clients/cli/internal/sync/engine.go:409-453 | an edit that made way for a file gone by now is under its new name, with nothing on record for a push to delete |
| Merge.PullMerges | clients/cli/internal/sync/engine.go:198-236 | after an undisturbed pull every path holds what the rule of three says: where the server has not moved, what is here; where it has, its file; where it has none, what is here unless that is what was synced; excluded paths are as they were |
| Merge.PushMerges | clients/cli/internal/sync/engine.go:457-656 | an undisturbed push changes what the server has of a path if and only if something else is here, and never what the rules keep out |
| Merge.CycleMerges | clients/cli/internal/sync/engine.go:170-190 | one undisturbed cycle leaves the same on both sides of every path, by that rule; the server is written to exactly where that is not what it has; a displaced edit is on both sides under its new name |
| Merge.RefusedForTheDoomed | clients/cli/internal/sync/engine.go:249-289 | a pull of an undisturbed server is refused exactly if the recorded unedited files it has deleted are beyond the limit |
| Merge.RefusedUploadTakesTheirs | clients/cli/internal/sync/engine.go:570-594 | when the server has moved on, the file here becomes the server's and is recorded as that, and what was here is served under the conflict name |
| Merge.PushOutcome | clients/cli/internal/sync/engine.go:513-594 | exactly when an edited file cannot be pushed |
| Merge.DeletionOutcome | clients/cli/internal/sync/engine.go:606-656 | a deletion is carried out exactly if the server has not moved on, and of a directory if nothing lies below; whatever the answer no file is touched and the record goes, unless the directory has to stay |
| Summaries.PullTells | clients/cli/internal/sync/engine.go:198-236 | what a pull reports: downloads are the paths where the server has moved to another file, deletions the unedited files it has deleted, conflicts the edits that had to make way |
| Summaries.PushTells | clients/cli/internal/sync/engine.go:457-656 | what a push reports: uploads are the files that the server does not have as they are, deletions the recorded paths without a file |
| Fleet.CleanCycleOnlyPulls | clients/cli/internal/sync/engine.go:170-190 | the cycle of a client without edits parks nothing and asks nothing of the server, and ends together with it |
| Fleet.CycleKeepsInOrder | clients/cli/internal/sync/engine.go:170-190 | a turn leaves its own client and every other fit for the next: cursor invariant, true stats, served files, nothing in the way |
| Fleet.TwoRoundsAgree | clients/cli/internal/sync/engine.go:170-190 | when any number of clients that are in order at the start take turns, after two rounds without edits every two folders hold the same files with the same bytes |
| Fleet.NewcomersAreInOrder | clients/cli/internal/sync/state.go:116-123 | clients that have never synced, with any folders, are in order before a new server |
| Fleet.ACaseRenameIsInOrder | server/internal/api/files.go:285-339 | so is one before a server that saw a rename by case alone and holds a directory |
| ServerObject.IndexStore.Upsert | server/internal/index/index.go:302-331 | the transaction is the value-level upsert, or on a collision changes nothing, the counter included |
| ServerObject.IndexStore.MarkDeleted | server/internal/index/index.go:336-347 | the transaction is the value-level tombstone |
| ServerObject.IndexStore.Changes | server/internal/index/index.go:210-252 | the query loop returns the page of the specification |
| ServerObject.HomeServer.TrashPut | server/internal/trash/trash.go:76-96 | the fresh-name loop and the rename are the value-level move |
| ServerObject.HomeServer.HandlePut | server/internal/api/files.go:145-229 | look up, trash, write, record: the value-level upload in every branch |
| ServerObject.HomeServer.HandleDelete | server/internal/api/files.go:232-283 | the value-level deletion in every branch |
| ServerObject.HomeServer.HandleGet | server/internal/api/files.go:88-143 | content, nothing, or not a file, by row and disk |
| ServerObject.HomeServer.HandleRestore | server/internal/api/misc.go:56-120 | the value-level restore in every branch |
| ServerObject.HomeServer.HandlePurge | server/internal/api/misc.go:209-252 | the loop is the value-level purge |
| ServerObject.HomeServer.HandleMakeDir | server/internal/api/files.go:285-339 | the value-level directory request in every branch |
| EngineObject.Api.Changes | server/internal/api/changes.go:53-64 | one page: the limit+1 trick, the counter read before the rows, requests by others between |
| EngineObject.Api.AllChanges | clients/cli/internal/sync/api.go:164-187 | the loop ends, and every row newer than `since` when the last page is read is in the list, whoever wrote meanwhile; what is no newer than the start was a row at the start |
| EngineObject.Engine.CheckDeleteGuard | clients/cli/internal/sync/engine.go:249-289 | the guard's loop and limit are the specification's, and it trips exactly if the recorded, unedited files listed as deleted are beyond the limit |
| EngineObject.Engine.IsDeletable | clients/cli/internal/sync/engine.go:367-389 | size and time first, then the hash: deletable exactly if the content is the recorded one |
| EngineObject.Engine.Apply | clients/cli/internal/sync/engine.go:291-325 | one entry, whatever strikes in between, is the value-level step against the server it met |
| EngineObject.Engine.ApplyBatch | clients/cli/internal/sync/engine.go:220-233 | the loop over a batch, each entry meeting its own server, keeps the invariant and is the value-level batch |
| EngineObject.Engine.Pull | clients/cli/internal/sync/engine.go:198-236 | under any interference the cursor invariant holds at the end; a refused pull changes no file, record or cursor; a failed one leaves the cursor; no edit of a path nobody wrote meanwhile is lost, nor one listed again safely; removals are within the limit, those with a tombstone after a version aside; left alone it is the value-level pull of a list that names each path once |
| EngineObject.Engine.PushOneFile | clients/cli/internal/sync/engine.go:513-594 | one file, with any interference, keeps the invariant and touches no other path |
| EngineObject.Engine.PushOneDeletion | clients/cli/internal/sync/engine.go:606-656 | one deletion, with every answer it can get |
| EngineObject.Engine.Push | clients/cli/internal/sync/engine.go:457-511 | the two loops over folder and records are the value-level push |
| EngineObject.Engine.SyncOnce | clients/cli/internal/sync/engine.go:170-190 | pull then push keeps the cursor invariant under any interference; left alone and in order, it is refused exactly if the files to remove are too many, and otherwise brings folder and server together by the rule of three; from rest it does nothing |
| EngineObject.Engine.SyncTwice | clients/cli/internal/sync/engine.go:170-190 | convergence and quiescence: of two cycles left alone the second moves nothing, and folder and server are together |
| Scan.ChecksAreExact | server/internal/index/scan.go:154-181 | the quick checks skip a path exactly when the index agrees with the disk |
| Scan.ClashIsBlocked | server/internal/index/scan.go:183-186 | at whatever point of the loop, an upsert of the scan collides exactly when a case twin was live before, or one that is on disk has become live |
| Scan.Reconcile | server/internal/index/scan.go:138-204 | both loops, with case twins on disk or without: the row of every path afterwards, exact counts, one revision for each path counted |
| Scan.OneOfEachFold | server/internal/index/scan.go:147-191 | of new paths that are one under case folding exactly one is added |
| Scan.RightUnlessBlocked | server/internal/index/scan.go:147-204 | a path is right after a scan if and only if no live twin was in the way and none on disk came first |
| Scan.TwoScansAgree | server/internal/index/scan.go:39-47 | after two scans a path is wrong only if a twin on disk is right; all are right if and only if no two on disk are twins, and one scan is enough if and only if, besides, nothing was blocked |
| Scan.ThirdScanIsQuiet | server/internal/index/scan.go:39-47 | a third scan of a still disk does nothing |
| Scan.ACaseRenameIsBlocked | server/internal/index/scan.go:147-204 | a file renamed by letter case alone is in the way of itself |
| Scan.QuietScan | server/internal/index/scan.go:138-204 | a scan spends no revision, and changes nothing, if and only if the index is right about every path that no live twin blocks |
| Scan.StaysHonest | server/internal/index/scan.go:158-162 | a scan leaves recorded sizes and times as trustworthy as it found them |
| Wakeups.NoWakeUpIsLost | server/internal/api/events.go:48-60 | in every run, a commit after the last cycle start has a signal in transit, or a link whose greeting will be one |
| Wakeups.SomeStepIsEnabled | clients/cli/cmd/homesync-client/main.go:222-253 | with a signal in transit some step of the program can be taken |
| Wakeups.ProgramStepsAreBounded | server/internal/api/events.go:62-113 | for each thing the world does, the program takes at most eight steps |
| Wakeups.EveryCommitIsSynced | clients/cli/cmd/homesync-client/main.go:122-215 | a run with nothing left to do ends with a cycle started after the last commit, and finished |
| Wakeups.TheWorldIsFree | server/internal/api/events.go:48-60 | a commit, a request for a cycle and a broken stream are possible at any moment, and what each does |
| Wakeups.OneCycleAtATime | clients/cli/cmd/homesync-client/main.go:122-215 | a cycle runs alone until it is finished, having seen what was committed when it started, and a wake-up meanwhile is kept |
| Crypt.BigEndianRoundTrip | server/internal/crypt/crypt.go:131-135 | the eight bytes of a chunk index give the index back |
| Crypt.BigEndianOrder | server/internal/crypt/crypt.go:131-135 | the most significant byte comes first: the bytes compare as the numbers do |
| Crypt.AdditionalIsInjective | server/internal/crypt/crypt.go:141-151 | the additional data names one header, one index and one final flag |
| Crypt.AdditionalReadsBack | server/internal/crypt/crypt.go:141-151 | byte by byte, the header, the index and a one exactly at the end |
| Crypt.HeaderReadsBack | server/internal/crypt/crypt.go:15-20 | the mark, version 1, a reserved zero and the salt |
| Crypt.Encrypt | server/internal/crypt/crypt.go:159-229 | the hold-one-back loop writes the header, the full chunks as not final and the rest, perhaps empty, as final, and reports the length; its i-th call of the cipher is under its own key with a nonce whose last eight bytes read back as i, so no key and nonce are used twice |
| Authenticity.NoNonceTwice | server/internal/crypt/crypt.go:128-135 | over all runs, with a derivation that tells salts apart, no key is used with the same nonce twice |
| Crypt.PlainChunk | server/internal/crypt/crypt.go:187-222 | n / CHUNK_SIZE full chunks and a final one of n mod CHUNK_SIZE bytes |
| Crypt.SizesAddUp | server/internal/crypt/crypt.go:243-260 | whatever size is worked out, header, text and one tag a chunk make the file |
| Crypt.SizeRoundTrip | server/internal/crypt/crypt.go:243-260 | the size of what Encrypt wrote gives back the length and the number of chunks |
| Crypt.EveryChunkOpens | server/internal/crypt/crypt.go:382-409 | every chunk of what Encrypt wrote opens to its piece of the text |
| Authenticity.WhatReadsWasWritten | server/internal/crypt/crypt.go:341-353 | a file that reads to its end is one run's output |
| Authenticity.WholeFileIsAuthentic | server/internal/crypt/crypt.go:141-151 | a file reads to its end if and only if it is, byte for byte, what one run of Encrypt wrote |
| Authenticity.TruncationIsRefused | server/internal/crypt/crypt.go:341-353 | every proper prefix of at least a header is refused when it is opened; a shorter one is not taken for one of ours |
| CryptReader.PeekIsPeekText | server/internal/crypt/crypt.go:358-380 | on a file Encrypt wrote, what a read should give is the same slice of the plaintext |
| CryptReader.RestIsTheText | server/internal/crypt/crypt.go:358-380 | and all that follows an offset is the rest of the plaintext |
| CryptReader.CopiesOn | server/internal/crypt/crypt.go:358-380 | a read with room before the end makes progress and takes its bytes off the front of the rest |
| CryptReader.Reader.Load | server/internal/crypt/crypt.go:382-409 | after a load the buffer is the chunk that `loaded` names; after a failed one it is what the failure left, under the old name |
| CryptReader.Reader.Read | server/internal/crypt/crypt.go:358-380 | the answer of every read, after failed loads too: by the file, but out of the buffer for the chunk it is kept under; a successful load makes the buffer true again |
| CryptReader.EveryAnswerIsRight | server/internal/crypt/crypt.go:358-409 | every read answers by the file if and only if the buffer is the chunk it is kept under, or no offset lies in that chunk |
| CryptReader.AFailedLoadReachesTheCache | server/internal/crypt/crypt.go:400-408 | after a read of a damaged chunk fails, the cached chunk reads as what the failure left in the buffer |
| CryptReader.ASoundChunkIsMisread | server/internal/crypt/crypt.go:285-409 | a file that is handed over, and of which a sound byte reads as zero after a damaged chunk was asked for |
| CryptReader.Reader.Seek | server/internal/crypt/crypt.go:411-428 | the three origins with 64-bit arithmetic, and the two refusals |
| CryptReader.SeekLands | server/internal/crypt/crypt.go:411-428 | from the start, from the position, from the end, exactly where that is a position; nothing otherwise |
| CryptReader.Length | server/internal/api/files.go:140-142 | the end is the length of the text, and nothing is read there |
| CryptReader.TakeFrom | server/internal/crypt/crypt.go:358-428 | from a position to the end comes the text from there on |
| CryptReader.TakeLast | server/internal/crypt/crypt.go:411-428 | the last n bytes, sought from the end, are those of the text |
| CryptReader.ReadAndTell | server/internal/crypt/crypt.go:358-428 | reads with any buffers after a seek give the text from there, and the position is the seek and what was read |
| CryptReader.ServeRange | server/internal/api/files.go:140-142 | serving a range gives the length and the piece of the text |
| CryptReader.Reader.ReadAll | server/internal/crypt/crypt.go:458-470 | a copy with a buffer of any size ends, with everything or at the first damaged chunk |
| CryptReader.Open | server/internal/crypt/crypt.go:285-356 | plain as it is, no key, refused, or a reader exactly when the tail authenticates |
| CryptReader.HashFile | server/internal/crypt/crypt.go:458-470 | the hash of the plaintext in whichever form it is stored |
| CryptReader.RoundTrip | server/internal/crypt/crypt.go:159-229 | encrypted, opened and read to the end, a text comes back |
| CryptReader.Answers | server/internal/crypt/crypt.go:358-428 | any sequence of seeks and reads answers as the same calls on the plaintext |
| CryptReader.RightUntilDamaged | server/internal/crypt/crypt.go:358-428 | on any file that was accepted, damaged ones too, any sequence of seeks and reads answers by the file up to and including the first read that fails |
| CryptReader.AskAll | server/internal/crypt/crypt.go:358-428 | and so do the calls on the reader, from any state in which its buffer is what it is kept under |
| Calendar.NextMinuteNumber | server/internal/backup/cron.go:133-163 | the next minute of the calendar is one minute later |
| Calendar.BeforeIsEarlier | server/internal/backup/cron.go:145-163 | the order of dates is the order of time |
| Calendar.StepsSkipNothing | server/internal/backup/cron.go:146-158 | the month, day and hour skips pass over nothing else |
| Calendar.WeekdaysGoRound | server/internal/backup/cron.go:170-177 | a day on is a weekday on |
| Calendar.AKnownSaturday | server/internal/backup/cron.go:170-177 | and 1 June 2024 is a Saturday |
| Cron.Next | server/internal/backup/cron.go:133-168 | the least matching minute after the argument, in the window; nothing exactly when none in the window matches |
| Cron.FiresOn | server/internal/backup/cron.go:165-177 | a minute fires if month, hour and minute are listed and, with both day fields restricted, either agrees, with one, that one |
| Cron.EitherDayOrBoth | server/internal/backup/cron.go:170-177 | restricted in both, a schedule fires exactly when it would with either left open; otherwise when it would with both |
| Cron.NextOfEither | server/internal/backup/cron.go:133-177 | then its next run is the earlier of the two next runs |
| Cron.WindowIsEnough | server/internal/backup/cron.go:141-144 | a well-formed schedule with any date fires in the window, except one of 29 February alone with none in it |
| Cron.WindowEnds | server/internal/backup/cron.go:141-145 | the window ends a day after the same date five years on, at the same time of day |
| Cron.ACenturyIsMissed | server/internal/backup/cron.go:141-144 | 29 February asked in 2096 |
| CronFields.ParseField | server/internal/backup/cron.go:69-128 | the values are those some part denotes, all in range and some; otherwise an error |
| CronFields.ParseSchedule | server/internal/backup/cron.go:32-67 | what parsing accepts is well formed, and means what its parts denote, with both Sundays one |
| CronFields.PartsMean | server/internal/backup/cron.go:69-128 | a part stands for a value, a range or everything, in steps from its start; a single value with a step for all from it on |
| CronFields.AcceptedWhen | server/internal/backup/cron.go:69-128 | which parts are accepted |
| CronFields.AcceptedPartsCount | server/internal/backup/cron.go:103-121 | an accepted part counts for something unless it is a stepped single value beyond the field |
| CronFields.AValueIsDropped | server/internal/backup/cron.go:103-121 | such a part beside another is dropped without an error |
| Retention.Classify | server/internal/backup/retention.go:74-114 | in place: every snapshot gets the verdict of the declarative rule |
| Retention.RemembersOn | server/internal/backup/retention.go:95-110 | the set of seen keys decides each claim as the rule does |
| Retention.TagIsOnTheNewest | server/internal/backup/retention.go:66-74 | each week or month has one newest snapshot, which has the tag exactly if fewer than the number kept are newer, and no other has it |
| Retention.TagsMean | server/internal/backup/retention.go:62-114 | the newest few are daily, the newest of each of the last weeks weekly, the newest of each of the last months monthly, and what has a tag is kept |
| Retention.KeepMeans | server/internal/backup/retention.go:116-134 | a snapshot is left exactly if its verdict keeps it |
| Retention.EachIsLeftOrRemoved | server/internal/backup/retention.go:116-134 | every snapshot is left or removed, once |
| Retention.NewestFewAreKept | server/internal/backup/retention.go:66-68 | the newest few are left |
| Retention.MonthIsYearAndMonth | server/internal/backup/retention.go:104 | two dates share a month exactly if year and month agree |
| Retention.Prune | server/internal/backup/retention.go:116-134 | the backwards loop leaves what the rule keeps and removes the rest, oldest first |
| Retention.ApplyRetention | server/internal/backup/run.go:263-270 | the end of every run |
| Retention.KeepAbsorbs | server/internal/backup/retention.go:74-114 | keep(n + keep(xs)) = keep(n + xs), and keep(keep(xs)) = keep(xs) |
| Retention.PruningEveryRunIsPruningOnce | server/internal/backup/run.go:263-270 | pruning after every run leaves what classifying the whole history once would keep |
| Retention.KeepBound | server/internal/backup/retention.go:66-74 | at most Daily + Weekly + Monthly survive |
| SizeCache.SizesToMeasure | server/internal/backup/snapshot.go:98-131 | exactly what was never measured and the neighbours of what changed, in order |
| SizeCache.RemovalMovesNeighbours | server/internal/backup/snapshot.go:90-97 | removing a snapshot keeps holders contiguous and moves the measure of its neighbours only |
| SizeCache.WritingMovesNeighbours | server/internal/backup/snapshot.go:90-97 | writing one keeps holders contiguous and moves only itself and the one it links to |
| SizeCacheRuns.StepIsSound | server/internal/backup/manager.go:203-406 | every step of a run, a deletion, a request to measure or the walker keeps: a stale size is owed, listed or being walked, and an undisturbed walk is true |
| SizeCacheRuns.StoredSizesAreTrue | server/internal/backup/manager.go:311-406 | at rest every stored size is what measuring now would say, and work on the list is never stranded |
| SizeCacheRuns.StepProvidesUnless | server/internal/backup/manager.go:326-349 | a step leaves every snapshot on disk measured, or due to be, if and only if it does not act on a list that lacks a snapshot nothing else is going to measure |
| SizeCacheRuns.AllAreMeasured | server/internal/backup/manager.go:311-406 | over a run without such a step, every snapshot has a size at rest, and a true one |
| SizeCacheRuns.AStaleListForgets | server/internal/backup/manager.go:326-349 | a concrete run that ends at rest with a snapshot on disk that has no size |
| SizeCacheRuns.NothingElseHoldsUp | server/internal/backup/manager.go:203-310 | what may start when: runs, also a second on one day, removals and deletions |
| SizeCacheRuns.TheWalkerHasOneWay | server/internal/backup/manager.go:363-386 | a walker that is not walking goes on to the newest pending or to rest, and to rest exactly when a run is going or nothing is pending |
| SizeCacheObject.Manager.QueueSizes | server/internal/backup/manager.go:326-349 | the method is the machine's marking step |
| SizeCacheObject.Manager.NextToMeasure | server/internal/backup/manager.go:363-386 | rests when a run is going or nothing is pending, and else takes the newest |
| ProgressStream.CutAnywhere | server/internal/backup/progress.go:180-197 | a stream may be cut anywhere: the rest of the first part goes before the second |
| ProgressStream.DeliveryDoesNotMatter | server/internal/backup/progress.go:180-197 | with no stretch over the limit, the lines are those of the whole stream |
| ProgressStream.DeliveredAsAWhole | server/internal/backup/progress.go:180-197 | a run of writes gives the lines of the whole stream if and only if no write ends with more than the limit unterminated |
| ProgressStream.DeliveryMatters | server/internal/backup/progress.go:180-197 | a stream gives the same lines however it is delivered if and only if it has no stretch over the limit |
| ProgressStream.CutsAreLines | server/internal/backup/progress.go:192-195 | the lines taken are as many as the whole has, and one for each cut |
| ProgressStream.ALongStretchIsCut | server/internal/backup/progress.go:192-195 | a stretch over the limit delivered whole is one line, and in two writes two |
| ProgressStream.AdvanceIsOneMore | server/internal/backup/progress.go:199-245 | one more line changes count, statistics flag, figures, reports and kept lines as the branches of consume do |
| ProgressStream.CountsNeverGoBack | server/internal/backup/progress.go:229-243 | the reported count never goes back |
| ProgressStream.NoTerminatorInALine | server/internal/backup/progress.go:180-190 | either terminator ends a line |
| ProgressStream.CountIsShown | server/internal/backup/progress.go:68-76 | figures go through as they came, and the bar is full exactly when the count has reached both totals |
| ProgressStream.TheStatisticsAreKept | server/internal/backup/progress.go:210-222 | the statistics a run ends with are kept whole and counted as no files |
| ProgressStream.ProgressWriter.Keep | server/internal/backup/progress.go:258-267 | the ring is the last 64 kept lines, in order |
| ProgressStream.ProgressWriter.Consume | server/internal/backup/progress.go:199-245 | the fields are what the lines consumed say |
| ProgressStream.ProgressWriter.Write | server/internal/backup/progress.go:180-197 | one write takes the lines it ends, and cuts what is over the limit |
| ProgressStream.ProgressWriter.Output | server/internal/backup/progress.go:271-292 | the last 64 kept lines, after whatever was left unterminated |
| ProgressStream.ReadAll | server/internal/backup/progress.go:155-292 | output, count and reports are those of the lines taken; as long as no write leaves more than the limit waiting, those of the whole, however it was delivered |
| Glob.MeantAround | clients/cli/internal/sync/ignore.go:136-145 | a pattern with `**` is meant exactly when its head and its tail fit around what it absorbs |
| Glob.MeantIsFound | clients/cli/internal/sync/ignore.go:136-174 | whatever the pattern means is found |
| Glob.FoundIsMeant | clients/cli/internal/sync/ignore.go:136-174 | what is found is meant, unless some part between two `**` is a lone segment that matches nothing |
| Glob.FoundExactlyWhereMeant | clients/cli/internal/sync/ignore.go:136-174 | found and meant agree on every path if and only if no part is such a segment, or it is the only segment beside `**` |
| Glob.ALoneStarIsSkipped | clients/cli/internal/sync/ignore.go:153-172 | a pattern where that fails |
| GlobText.GlobMatch | clients/cli/internal/sync/ignore.go:136-174 | on the text of a pattern and a path, the double loop with recursion on both sides of the first `**` ends and decides the two-boundary search |
| GlobText.TextIsPattern | clients/cli/internal/sync/ignore.go:136-174 | it finds in any path what the pattern cut into segments finds in the path's segments, wherever its `**` stand |
| GlobText.SlashesMakeNoDifference | clients/cli/internal/sync/ignore.go:142-145 | `**` beside other text in a segment finds what it finds between slashes |
| GlobText.PatternOfJoin | clients/cli/internal/sync/ignore.go:142-145 | a pattern written with each `**` as a segment is cut into the segments it was written with |
| GlobText.TextFoundExactlyWhereMeant | clients/cli/internal/sync/ignore.go:136-174 | on the text of every path, found and meant agree under the same condition |
| Ignore.Excludes | clients/cli/internal/sync/ignore.go:94-117 | the last rule that applies decides, and for a file any ancestor directory that is out |
| Ignore.TheLastRuleDecides | clients/cli/internal/sync/ignore.go:106-117 | a rule that comes last and matches decides, one for directories only of directories |
| Ignore.NamesAtEveryDepth | clients/cli/internal/sync/ignore.go:119-129 | a rule without a slash reaches its name at every depth |
| Ignore.FilesInsideStayOut | clients/cli/internal/sync/ignore.go:94-104 | every file below an ignored directory is ignored, at any depth |
| Ignore.DirectoriesInsideInherit | clients/cli/internal/sync/ignore.go:106-131 | a directory below one that a rule without a slash keeps out is out if and only if no later rule lets it in |
| Ignore.AnchoredRuleIsNotInherited | clients/cli/internal/sync/ignore.go:94-117 | where an anchored rule keeps a directory out, a directory anywhere below is out if and only if the other rules alone keep it out, and every file below is out |
| Ignore.ADirectoryInsideIsNot | clients/cli/internal/sync/ignore.go:94-104 | a directory below one need not be |

## Left out

- Directories, symbolic links and file-against-directory clashes on the client: an entry for a directory changes nothing there.
- EngineObject.Engine.Apply: the directories of a client, which the source makes and records when an entry names one, and removes when it is deleted.
- HTTP, server-sent event framing, JSON, SQLite, file system events, signals, the copier's execution and mount checks: a database is a map with atomic transactions, a disk a map.
- Input and output errors, except the answers a request can get. A removal that fails half way through a snapshot or a trash move is not modelled.
- Handlers that overlap: nothing is held across look-up, trash, write and record in the source, so conservation and the invariants are for handlers one at a time.
- Device scopes: the change query covers the whole tree. The source's LIKE with wildcards can strip a page to nothing.
- Unicode normalisation is the identity and case folding is ASCII.
- Escaping in the change URL and the conflict name's shape: names are parameters.
- Changing ignore rules, tombstone pruning, emptying the trash, full resync.
- TrashNames.NameReadsBack: the time in a name is text without an underscore, and is not read.
- EngineObject.Engine.Push: files and deletions go in any order, where the source makes directories first, then files sorted, then deletions deepest first.
- The Swift client, the admin pages, sessions, tokens, key parsing, metrics.
- Local edits while a cycle runs are steps of the step system; in the engine class the folder is only its own.
- EngineObject.Api.AllChanges: ends because the schedule of foreign requests is finite; with others writing for ever the source pages for ever.
- SHA-256, HKDF and AES themselves; 64-bit overflow of chunk offsets is excluded by the length of a file.
- Wakeups.EveryCommitIsSynced: one client; the current revision is always readable when a stream opens, and the back-off before a reconnect is a step without a duration.
- Scan.Reconcile: what the walk keeps is a parameter, so skipped directories, vanished files and unreadable ones are decided before. A scan, and edits of the server's disk from outside that it is there for, are not steps of `Protocol`.
- Server.MakeDirectoryKeeps: a directory on the server's disk is known by its row, so one made only for a file inside it, one that a purge leaves, and a path below a file are in nobody's way.
- CronFields.ParseField: splitting text into parts and reading numbers.
- Cron.Next: a fixed offset, so no daylight saving; an instant is represented by the minute it falls in.
- Retention.Classify: the ISO week of a name and whether it is a real date are parameters.
- SizeCache.SizesToMeasure: a snapshot is named by its day, and a measurement is the sets of inodes reached and held alone; two links inside one snapshot, unreadable entries and persistence are not modelled.
- SizeCacheRuns.StepIsSound: a deletion gives up the disk when the directory is gone rather than after marking, which allows more interleavings than the source.
- ProgressStream.ProgressWriter.Output: the ring is allocated at once rather than on the first line; the time of an update is left out.
- GlobText.TextIsPattern: matching without `**` is a parameter; patterns with character classes or escapes, in which a slash need not separate, are left aside.
- Ignore.Excludes: reading the lines of the rules; a rule is what was read of a line.
