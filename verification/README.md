# gDriver: a verified model

A Dafny model of the parts of gDriver, a Google Drive sync client, on which user data
depends, with proofs over every input, every run and every interleaving.

| modules | what they model |
|---|---|
| `VfsTree`, `VfsEdits`, `VfsCallbacks`, `VfsWalk` | the `drive_files` table as a directory tree with several accounts and soft deletion, the FUSE callbacks that edit it, and path resolution |
| `DirectoryPaging` | directory listings read in pages, by offset and by marker |
| `TaskQueue`, `TaskRuns` | the sync queue, the scheduler's choice, the engine's turns, the handlers' retries and crash recovery |
| `HttpRetry`, `Chunks`, `RangeHeader`, `ResumableUpload`, `UploadRuns` | the HTTP retry loops, chunk arithmetic, and resumable upload against an unreliable server |
| `ConflictCopy`, `ConflictResolution`, `ConflictHistory` | names of conflict copies, detection and resolution, many resolutions on one disk |
| `AtomicDownload`, `DownloadTasks` | downloads and concurrent reads, down to inodes, and the download task |
| `DaemonIpc`, `IpcReplies`, `IpcWire`, `BlockingCalls`, `LineFraming` | concurrent JSON-RPC calls over one connection, the bytes under it, the extensions' blocking calls, newline framing |
| `UrlEncoding`, `Multipart` | percent-encoding, query strings, multipart bodies |
| `Prelude` | shared datatypes |

`dafny verify dfyconfig.toml` checks the whole project.

## How the environment is modelled

- SQL tables are maps or sequences of rows. A query without ORDER BY may return any
  matching row.
- Network, disk and clock are inputs. Where they are asked repeatedly they are a finite
  script with one entry per request; a run whose script ends early is a prefix of a longer
  run, so a statement about all scripts covers every moment of every run.
- The upload server obeys a contract, written out in `ResumableUpload.Serve`: success only
  when it holds the whole file, 308 with a range it holds, and 308 to a chunk without a
  Range header only when it kept the whole chunk.
- The kernel's guarantees before a FUSE callback are `VfsCallbacks.Permitted`: parents are
  directories, a create follows a failed lookup, a rename stays in its account and out of
  the subtree it moves. What happens without them is stated by if-and-only-if lemmas.
- Names, ids and paths are character sequences; file contents, messages and wire formats
  are byte sequences. 64-bit wrap-around is written out in `Chunks.ChunkRange64`.

Where comments and code of the repository disagree, the model follows the code: the root
inode is 0 (the header comment of crates/gdriver-vfs/src/db.rs speaks of 1), and a
transient status is retried three times after the first attempt (crates/gdriver-api/src/client.rs
speaks of three attempts).

## Findings

- `create` can put two live entries with one name into a folder (`CreateDuplicates`, `CreateSoundIff`).
- `rename` across accounts leaves the entry without a path (`RenameAcrossAccountsLosesEntry`).
- `rmdir` refuses an empty folder whose id is shared with another account (`EmptyFolderRefused`,
  `RmdirRefusesEmptyIff`).
- An upload whose last reply is lost is reported as failed although the file is complete
  (`CompleteYetNotConfirmed`); it reports success exactly when a chunk was answered by a
  readable 200 or 201 (`UploadedIffConfirmed`).
- A call that registers after the reader has drained its map returns only if the writer is
  gone by the time it sends; otherwise it never does (`LateCall`, `ReturnsIffInTimeOrRefused`).
- The extensions' blocking `call` never compares ids: after a call that failed with its request
  sent, the next one on the same connection gets the response of an earlier request
  (`OwnResponseIff`).
- A pending task of an account without a token can keep all tasks after it waiting for ever
  (`SignedOutAccountStarvesAnother`); a task is sure to be picked exactly when no such task is
  ahead of it (`PickedInTimeIff`).
- Rename tasks, which the VFS queues, have no handler and are marked completed
  (`RenameTaskIsDropped`, `CompletedWithoutClientIff`).
- A file that starts with the multipart boundary line does not survive a multipart upload
  (`OpeningBoundaryIsLost`).
- Two resolutions of one file with the same timestamp text leave only the later edit
  (`SameTimestampLosesEdit`, `EditSurvivesIff`); the text is local time in seconds, so it also
  repeats when clocks go back.
- `chunk_range` can return a range for an index far past the file (`WrappedRange`),
  and a wrong one for a chunk of a file near 2^64 bytes (`WrappedChunk`).

## Model

| member | source | states |
|---|---|---|
| `VfsTree.ChainUnique` | crates/gdriver-vfs/src/db.rs:85-98 | the JOIN on parent id and account gives every entry exactly one way up to the root |
| `VfsTree.PathInjective` | crates/gdriver-vfs/src/db.rs:68-101 | in a sound tree two entries never share a path, with any number of accounts |
| `VfsTree.NoCycles` | crates/gdriver-vfs/src/db.rs:85-98 | in a sound tree no climb along parents returns to its start |
| `VfsTree.ParentsAreFolders` | crates/gdriver-vfs/src/db.rs:221-235 | in a sound tree every live entry hangs from the root or from a live folder of its own account |
| `VfsEdits.RenameSoundIff` | crates/gdriver-vfs/src/db.rs:356-374 | the one-row rename keeps the tree sound if and only if the new parent id denotes a directory of the same account, outside the moved subtree, where the name is free |
| `VfsEdits.RenameMovesSubtree` | crates/gdriver-vfs/src/db.rs:356-374 | for each live entry: inside the moved subtree the path prefix is replaced, elsewhere the path is unchanged |
| `VfsEdits.RenameMovesOnlySubtree` | crates/gdriver-vfs/src/db.rs:356-374 | the same for the whole table, and no entry appears or disappears |
| `VfsEdits.InsertSoundIff` | crates/gdriver-vfs/src/db.rs:247-299 | inserting a row keeps the tree sound if and only if its parent is a directory in which the name is free |
| `VfsEdits.InsertPaths` | crates/gdriver-vfs/src/db.rs:247-299 | an insert leaves all other paths as they were |
| `VfsEdits.InsertedPath` | crates/gdriver-vfs/src/db.rs:247-299 | an inserted entry gets its parent's path plus its name |
| `VfsEdits.TrashSoundIff` | crates/gdriver-vfs/src/db.rs:346-353 | a soft delete keeps the tree sound if and only if the listing of the entry is empty |
| `VfsEdits.TrashPaths` | crates/gdriver-vfs/src/db.rs:346-353 | a soft delete of an empty entry leaves all other paths as they were |
| `VfsEdits.HasChildrenVersusListing` | crates/gdriver-vfs/src/db.rs:376-406 | a false `has_children` means an empty listing; it is true exactly when the listing is nonempty or another account has live rows under the same folder id |
| `VfsEdits.RootHasChildrenIff` | crates/gdriver-vfs/src/db.rs:376-406 | at the root the count and the listing always agree |
| `VfsCallbacks.LookupByParentAndName` | crates/gdriver-vfs/src/db.rs:68-101 | returns some matching live row, and nothing only when none matches |
| `VfsCallbacks.GDriverFS.constructor` | crates/gdriver-vfs/src/linux.rs:53-61 | no open files, first handle 1 |
| `VfsCallbacks.GDriverFS.EnqueueTask` | crates/gdriver-vfs/src/db.rs:408-432 | appends one pending task with retry count 0 and priority 1 |
| `VfsCallbacks.GDriverFS.CreateFile` | crates/gdriver-vfs/src/linux.rs:472-601 | the callback as a state relation: placement, no row when the cache directory or the key fails, row kept when the file fails, new handle |
| `VfsCallbacks.GDriverFS.MakeDirectory` | crates/gdriver-vfs/src/linux.rs:933-1038 | the callback as a state relation with its EEXIST, ENOENT and EIO cases |
| `VfsCallbacks.GDriverFS.RenameEntry` | crates/gdriver-vfs/src/linux.rs:826-929 | the callback as a state relation: one row changes, one rename task is queued |
| `VfsCallbacks.GDriverFS.UnlinkFile` | crates/gdriver-vfs/src/linux.rs:759-822 | the callback as a state relation: EISDIR for folders, else one soft delete and one delete task |
| `VfsCallbacks.GDriverFS.RemoveDirectory` | crates/gdriver-vfs/src/linux.rs:1042-1113 | the callback as a state relation: ENOTDIR, ENOTEMPTY, else one soft delete and one delete task |
| `VfsCallbacks.GDriverFS.OpenFile` | crates/gdriver-vfs/src/linux.rs:294-341 | the callback as a state relation: error cases and a fresh handle |
| `VfsCallbacks.GDriverFS.FlushFile` | crates/gdriver-vfs/src/linux.rs:673-713 | EBADF for a foreign handle; one upload task exactly when the row is modified |
| `VfsCallbacks.GDriverFS.ReleaseFile` | crates/gdriver-vfs/src/linux.rs:1117-1129 | removes one handle and nothing else |
| `VfsCallbacks.StepKeepsInv` | crates/gdriver-vfs/src/linux.rs:472-1129 | every callback the kernel may make keeps the tree sound, whatever it replies |
| `VfsCallbacks.RunKeepsInv` | crates/gdriver-vfs/src/linux.rs:472-1129 | every state of every run of callbacks is sound |
| `VfsCallbacks.RunExtends` | crates/gdriver-vfs/src/linux.rs:43-51 | over any part of a run no row is lost, only name, parent, deletion mark and state of a row change, deletion and "modified" are final, handle numbers are not reused, and tasks are only appended: pending, untried, of the highest priority |
| `VfsCallbacks.RenameCallbackMovesSubtree` | crates/gdriver-vfs/src/linux.rs:851-902 | a rename callback that replies ok takes the entry from parent/name to newparent/newname with its subtree, and nothing else moves |
| `VfsCallbacks.RenameCallbackRow` | crates/gdriver-vfs/src/linux.rs:869-915 | a successful rename marks its entry as modified, touches no other row and queues one rename task with the entry's id, account and local path |
| `VfsCallbacks.CreateCallback` | crates/gdriver-vfs/src/linux.rs:472-601 | a successful `create` adds exactly one file, at parent/name, in the parent's account or at the root in the one used last, modified and with its cache path, opens a fresh handle on it and moves nobody |
| `VfsCallbacks.MkdirCallback` | crates/gdriver-vfs/src/linux.rs:933-1038 | a successful `mkdir` adds exactly one folder, at parent/name, in the parent's account or at the root in the one used last, and moves nobody |
| `VfsCallbacks.DeleteCallback` | crates/gdriver-vfs/src/linux.rs:759-1113 | a successful `unlink` or `rmdir` removes exactly the file or folder at parent/name, queues one delete task with its id, account and local path, and moves nobody |
| `VfsCallbacks.FlushQueuesIffModified` | crates/gdriver-vfs/src/linux.rs:673-713 | a flush that succeeds queues an upload if and only if the row is modified; the task is pending and has the row's id and account and the handle's path |
| `VfsCallbacks.CreatedFileIsUploaded` | crates/gdriver-vfs/src/linux.rs:472-713 | in every run each successful flush of a created file's handle queues an upload of that file, whatever happened to it in between |
| `VfsCallbacks.ReleaseIsFinal` | crates/gdriver-vfs/src/linux.rs:1117-1129 | in every run a released handle is refused ever after |
| `VfsCallbacks.OpenReplies` | crates/gdriver-vfs/src/linux.rs:294-341 | which reply `open` gives, by what the inode is, and which path the handle has |
| `VfsCallbacks.HandleReplies` | crates/gdriver-vfs/src/linux.rs:673-1129 | which reply `flush` and `release` give, by the handle, and what they change |
| `VfsCallbacks.MakeReplies` | crates/gdriver-vfs/src/linux.rs:472-1038 | which reply `create` and `mkdir` give, by name, parent, key and disk |
| `VfsCallbacks.RemoveReplies` | crates/gdriver-vfs/src/linux.rs:759-1113 | which reply `unlink` and `rmdir` give, by what is at parent/name |
| `VfsCallbacks.RenameReplies` | crates/gdriver-vfs/src/linux.rs:826-895 | which reply `rename` gives, by what is at both ends |
| `VfsCallbacks.CreateSoundIff` | crates/gdriver-vfs/src/linux.rs:472-559 | `create`, which checks neither name nor kind of the parent, keeps the tree sound if and only if it inserts no row or the parent is a directory in which a lookup would have failed |
| `VfsCallbacks.CreateDuplicates` | crates/gdriver-vfs/src/linux.rs:544-559 | a sound tree in which a `create` that succeeds gives two live entries one name |
| `VfsCallbacks.RenameSoundIffTarget` | crates/gdriver-vfs/src/linux.rs:869-902 | within an account `rename` keeps the tree sound if and only if the new parent is a directory outside the moved subtree |
| `VfsCallbacks.RenameAcrossAccountsLosesEntry` | crates/gdriver-vfs/src/linux.rs:883-890 | a sound two-account tree and a successful rename in it that leaves an entry without a path |
| `VfsCallbacks.RmdirRefusesEmptyIff` | crates/gdriver-vfs/src/linux.rs:1079-1091 | in a sound tree `rmdir` answers ENOTEMPTY for a folder that lists nothing if and only if another account has live rows under the same folder id |
| `VfsCallbacks.EmptyFolderRefused` | crates/gdriver-vfs/src/linux.rs:1079-1091 | a sound tree with a folder that lists nothing and for which `rmdir` answers ENOTEMPTY |
| `VfsCallbacks.RenameTaskIsDropped` | crates/gdriver-daemon/src/sync/engine.rs:625-641 | the task that any successful rename queues is pending, and the engine marks it completed whether or not its account has a client |
| `VfsWalk.ResolvePath` | crates/gdriver-vfs/src/windows.rs:344-356 | in a sound tree the component walk returns the one entry with that path, and nothing exactly when there is none |
| `VfsWalk.SecurityByName` | crates/gdriver-vfs/src/windows.rs:291-325 | the walk with folder checks finds the same entries; it reports "not a directory" if and only if a proper prefix of the path leads to a file, and "not found" otherwise |
| `VfsWalk.WalkUndoesPath` | crates/gdriver-vfs/src/windows.rs:344-356 | walking the ancestor path of an entry returns that entry, at every depth |
| `DirectoryPaging.Readdir` | crates/gdriver-vfs/src/linux.rs:251-289 | one reply holds the entries from the offset on, as many as fit, each with the offset to resume at |
| `DirectoryPaging.FittingIsMost` | crates/gdriver-vfs/src/linux.rs:276-289 | the entries of a reply fit and one more would not |
| `DirectoryPaging.PagesCoverOnce` | crates/gdriver-vfs/src/linux.rs:260-289 | for any sequence of buffer sizes that fit an entry, the pages are a prefix in order, and the whole list exactly once when there are enough calls |
| `DirectoryPaging.DirectoryIsDelivered` | crates/gdriver-vfs/src/linux.rs:251-289 | the replies together are ".", ".." and each live child of the directory once, in order |
| `DirectoryPaging.BeforeIff` | crates/gdriver-vfs/src/db.rs:103-136 | the order of names is by first difference, prefixes first |
| `DirectoryPaging.ListingIsStrict` | crates/gdriver-vfs/src/db.rs:103-136 | the listing of a directory in a sound tree has strictly increasing names |
| `DirectoryPaging.ListingExists` | crates/gdriver-vfs/src/db.rs:103-136 | every directory has a listing by name |
| `DirectoryPaging.ReadDirectory` | crates/gdriver-vfs/src/windows.rs:427-453 | the paging loop computes the entries after the marker, as many as fit, for any children |
| `DirectoryPaging.MarkerPagingIsOffsetPaging` | crates/gdriver-vfs/src/windows.rs:433-453 | with distinct sorted names resuming by marker equals resuming by position |
| `DirectoryPaging.MarkerPagesCoverOnce` | crates/gdriver-vfs/src/windows.rs:427-453 | marker paging through a directory of a sound tree delivers its listing exactly once, in order |
| `TaskQueue.SyncQueue.Enqueue` | crates/gdriver-daemon/src/db/queue.rs:65-90 | appends the task and returns its id |
| `TaskQueue.NextIsMostUrgent` | crates/gdriver-daemon/src/db/queue.rs:95-108 | the next task is a pending one with no pending one of smaller priority number, or of the same and created earlier |
| `TaskQueue.SyncQueue.NextPendingTask` | crates/gdriver-daemon/src/db/queue.rs:95-108 | returns such a task, and nothing only when none is pending |
| `TaskQueue.SyncQueue.UpdateTaskStatus` | crates/gdriver-daemon/src/db/queue.rs:111-128 | changes the status of that row only; an unknown id changes nothing |
| `TaskQueue.SyncQueue.UpdateTaskRetry` | crates/gdriver-daemon/src/db/queue.rs:132-153 | changes status and retry count of that row only |
| `TaskQueue.SyncQueue.ResetInProgressToPending` | crates/gdriver-daemon/src/db/queue.rs:175-186 | exactly the in-progress rows become pending |
| `TaskQueue.SyncQueue.HandleFailure` | crates/gdriver-daemon/src/sync/downloader.rs:202-239 | gives up exactly when `should_give_up(MAX_RETRIES)` holds of the task it was given, else requeues with one more retry |
| `TaskQueue.SyncQueue.DownloadFile` | crates/gdriver-daemon/src/sync/downloader.rs:24-134 | effect of the download handler on the queue for every way its steps can fail; completed when none does |
| `TaskQueue.SyncQueue.DeleteFile` | crates/gdriver-daemon/src/sync/deleter.rs:22-132 | effect of the delete handler on the queue for every way its steps can fail; completed when none does |
| `TaskQueue.CompletedWithoutClientIff` | crates/gdriver-daemon/src/sync/engine.rs:533-642 | the engine completes a task without a client if and only if it is a rename or a move and the closing update is written |
| `TaskQueue.SyncQueue.ProcessTask` | crates/gdriver-daemon/src/sync/engine.rs:533-642 | dispatch of one task: deferred without a token, its handler otherwise; a task without a client ends completed exactly when it has no handler and the closing update is written |
| `TaskQueue.SyncQueue.Drain` | crates/gdriver-daemon/src/db/queue.rs:95-108 | draining a fixed queue picks each pending task once, by ascending priority number and then creation time |
| `TaskQueue.NextExists` | crates/gdriver-daemon/src/db/queue.rs:95-108 | a queue with a pending task has a least one |
| `TaskRuns.RunKeepsInv` | crates/gdriver-daemon/src/db/queue.rs:95-186 | the per-task accounting of picks, retries and recoveries holds in every run |
| `TaskRuns.ObserverCounts` | crates/gdriver-daemon/src/sync/downloader.rs:202-239 | the attempts and recoveries counted are the events of the run |
| `TaskRuns.AttemptsAreBounded` | crates/gdriver-daemon/src/sync/downloader.rs:202-239 | in every run a task that arrived with retry count 0 is attempted, that is picked with something written to its row, at most 4 times plus once per recovery, and a failed task has used its three retries |
| `TaskRuns.NoTaskIsLost` | crates/gdriver-daemon/src/db/queue.rs:95-186 | over every run each task keeps its identity and place, and a terminal task does not change |
| `TaskRuns.TerminalIffFinal` | crates/gdriver-sync/src/queue.rs:64-68 | a task is terminal if and only if nothing that can happen to the queue changes it |
| `TaskRuns.ProcessPendingTasks` | crates/gdriver-daemon/src/sync/engine.rs:511-645 | a turn of the engine is a run of at most ten picks and stops earlier only when nothing is pending |
| `TaskRuns.PickedWithinFourPerCompetitor` | crates/gdriver-daemon/src/db/queue.rs:132-153 | with k pending competitors a pending task is among the next 4k + 1 + d picks, d of them deferred, unless something earlier arrives or a recovery occurs |
| `TaskRuns.DeferredIffStuck` | crates/gdriver-daemon/src/sync/engine.rs:533-642 | with the database working, the engine defers a task if and only if it has a handler and its account has no token |
| `TaskRuns.StarvingRun` | crates/gdriver-daemon/src/sync/engine.rs:536-546 | with a stuck task ahead there is a run of any number of picks in which the engine defers exactly the stuck tasks and never picks the waiting one |
| `TaskRuns.PickedInTimeIff` | crates/gdriver-daemon/src/sync/engine.rs:511-645 | given the accounts without a token, every run without recovery or earlier arrival picks a pending task within four picks per competitor, or within any larger bound, if and only if no pending competitor has a handler and belongs to one of those accounts |
| `TaskRuns.SignedOutAccountStarvesAnother` | crates/gdriver-daemon/src/sync/engine.rs:536-546 | a queue in which, as long as there is no client, all picks are of one task, change nothing and leave the other account's task pending |
| `HttpRetry.MachineIsBounded` | crates/gdriver-api/src/client.rs:188-258 | from any point of the loop: bounds on the requests, refreshes and waiting that are left |
| `HttpRetry.CallIsBounded` | crates/gdriver-api/src/client.rs:188-258 | every call ends within 5 requests, 1 refresh call and 14 seconds of backoff |
| `HttpRetry.CallFollowsRule` | crates/gdriver-api/src/client.rs:188-258 | the counters of the loop refine a rule on the replies so far: another request exactly after a 429 or 5xx, up to three times, and after the first 401 that renews the token, which later requests carry; outcome by the last reply; 0, 2, 6 or 14 seconds of waiting |
| `HttpRetry.RejectedIff` | crates/gdriver-api/src/client.rs:188-258 | exactly when a call is rejected with a status, in terms of its replies |
| `HttpRetry.BusyServerIsRetried` | crates/gdriver-api/src/client.rs:242-250 | up to three replies 429 or 5xx followed by an accepted one end accepted, after that many retries and 0, 2, 6 or 14 seconds |
| `HttpRetry.MachineKeeps` | crates/gdriver-api/src/client.rs:388-447 | what each request keeps, the whole loop keeps, and an accepted reply describes the state the peer is left in |
| `HttpRetry.MachineReaches` | crates/gdriver-api/src/client.rs:388-447 | what each request establishes holds after a call that made one |
| `HttpRetry.MachineRecords` | crates/gdriver-api/src/client.rs:388-447 | the peer has given a good accepted reply after the call if and only if it had before or the call ended with one |
| `HttpRetry.DriveClient.ExecuteJson` | crates/gdriver-api/src/client.rs:188-258 | the loop is the retry machine that accepts 2xx; the value is the parsed body of the accepted reply |
| `HttpRetry.DriveClient.ExecuteNoContent` | crates/gdriver-api/src/client.rs:261-318 | the loop is the retry machine that accepts 2xx |
| `HttpRetry.DriveClient.ExecuteRaw` | crates/gdriver-api/src/client.rs:321-380 | the loop is the retry machine that accepts 2xx |
| `HttpRetry.DriveClient.ExecuteRawNoRedirect` | crates/gdriver-api/src/client.rs:388-447 | the loop is the retry machine that accepts 2xx and 308 |
| `Chunks.CountIsExact` | crates/gdriver-sync/src/uploader.rs:35-58 | chunk n exists exactly when n is below the chunk count |
| `Chunks.RangesPartition` | crates/gdriver-sync/src/uploader.rs:43-58 | consecutive ranges meet, the first starts at 0 and the last ends the file |
| `Chunks.ChunksAreTheFile` | crates/gdriver-sync/src/uploader.rs:33-58 | the chunks concatenate to the file |
| `Chunks.StartsAreAligned` | crates/gdriver-sync/src/uploader.rs:16-58 | with a valid chunk size every chunk starts on a multiple of 256 KiB |
| `Chunks.NoWrapIff` | crates/gdriver-sync/src/uploader.rs:48-58 | for all 64-bit arguments, the wrapped and the exact range agree if and only if a chunk of the file would end below 2^64, or the wrapped start of an index past the file is past it too |
| `Chunks.AllChunksExactIff` | crates/gdriver-sync/src/uploader.rs:35-58 | all chunks of a file are computed without wrap-around if and only if chunk count times chunk size is below 2^64 |
| `Chunks.SmallFilesAreExact` | crates/gdriver-sync/src/uploader.rs:35-58 | so they are whenever file length plus chunk size is at most 2^64 |
| `Chunks.WrappedRange` | crates/gdriver-sync/src/uploader.rs:48-58 | an index out of range for which wrap-around returns a range |
| `Chunks.WrappedChunk` | crates/gdriver-sync/src/uploader.rs:48-58 | a chunk inside a file of 2^64 - 1 bytes whose range wraps |
| `RangeHeader.RangeRoundTrip` | crates/gdriver-api/src/files.rs:443-455 | the parsed Range header is the number of bytes the server reported if and only if that number is below 2^64; at 2^64 it wraps, beyond it is unreadable |
| `ResumableUpload.ServeChunk` | crates/gdriver-api/src/files.rs:367-404 | one chunk request: the server keeps a prefix of the file and its accepted reply is true of what it holds |
| `ResumableUpload.ServerMayBeSilent` | crates/gdriver-api/src/files.rs:392-396 | the server may answer 308 without a Range header to a chunk it holds to its end and to any query |
| `ResumableUpload.SilentResumeIsSafeIff` | crates/gdriver-api/src/files.rs:392-396 | reading a 308 without Range as "whole chunk kept" leads to a safe position if and only if the server holds the chunk to its end |
| `ResumableUpload.PutIsTrue` | crates/gdriver-api/src/files.rs:367-404 | the chunk call through the retry loop: prefix kept, nothing lost, result true of the server, at most 5 requests |
| `ResumableUpload.AskIsTrue` | crates/gdriver-api/src/files.rs:410-441 | the query through the retry loop changes nothing and never reports more than is held |
| `ResumableUpload.HttpCallsAreHonest` | crates/gdriver-api/src/files.rs:367-441 | both calls meet what the upload loop relies on |
| `ResumableUpload.UploadResumable` | crates/gdriver-daemon/src/sync/conflict.rs:305-331 | the upload loop computes the run of turns |
| `ResumableUpload.RunIsSafe` | crates/gdriver-daemon/src/sync/conflict.rs:308-331 | from any safe position every later position is safe, for any honest calls |
| `ResumableUpload.UploadIsSafe` | crates/gdriver-daemon/src/sync/conflict.rs:294-332 | at every moment of every run the server holds a prefix of the file, the offset is inside it and each round takes at most 10 requests; Ok means the whole file is there |
| `UploadRuns.UploadedIffConfirmed` | crates/gdriver-daemon/src/sync/conflict.rs:308-331 | in every run the upload reports Ok if and only if some chunk of it was answered by a readable 200 or 201 |
| `UploadRuns.CompleteYetNotConfirmed` | crates/gdriver-daemon/src/sync/conflict.rs:321-331 | runs that end in either error although the server holds the whole file |
| `UploadRuns.UploadEndsInTime` | crates/gdriver-daemon/src/sync/conflict.rs:308-329 | if every round gains g bytes the upload ends within ceil(length / g) rounds of at most 10 requests |
| `UploadRuns.HttpPutGains` | crates/gdriver-api/src/files.rs:367-404 | against a server that keeps at least g bytes of what arrives, a chunk call that reaches it moves the server g bytes or a chunk further, and an "incomplete" reply names what it holds |
| `UploadRuns.GainingUploadEnds` | crates/gdriver-daemon/src/sync/conflict.rs:308-329 | for every script of such a server, with lost replies, repeats and resumes, every round gains g bytes and the upload ends within ceil(length / g) rounds of at most 10 requests |
| `UploadRuns.WholeChunkUpload` | crates/gdriver-daemon/src/sync/conflict.rs:305-316 | for every script of a server that keeps whole chunks round k starts at byte k times 5 MiB, a multiple of 256 KiB, the upload ends within ten requests per chunk, and if the whole file gets there exactly the chunk ranges were sent |
| `UploadRuns.IdealUploadSucceeds` | crates/gdriver-daemon/src/sync/conflict.rs:305-331 | against a server that keeps every chunk every nonempty upload succeeds |
| `ConflictCopy.SplitName` | crates/gdriver-sync/src/conflict.rs:45-53 | stem and extension recompose the name; which dots start an extension |
| `ConflictCopy.CopiesAreInjective` | crates/gdriver-sync/src/conflict.rs:44-56 | two copies have the same name only if they are of the same file name and the same timestamp text |
| `ConflictCopy.NamesAreInjective` | crates/gdriver-sync/src/conflict.rs:44-56 | for every timestamp different file names get different conflict copies |
| `ConflictCopy.NamelessCollidesIff` | crates/gdriver-sync/src/conflict.rs:45-48 | a path without a file name collides with the file "Untitled" only |
| `ConflictCopy.CopyIsNew` | crates/gdriver-daemon/src/sync/conflict.rs:158-169 | the copy's name is neither the original nor the temporary name |
| `ConflictCopy.ExampleExtensions` | crates/gdriver-sync/src/conflict.rs:44-56 | names with an extension, several dots and a trailing dot |
| `ConflictCopy.ExampleWithoutExtension` | crates/gdriver-sync/src/conflict.rs:44-56 | a dotfile and a name without a dot |
| `ConflictResolution.CopyHoldsAfter` | crates/gdriver-daemon/src/sync/conflict.rs:142-254 | after the first move, every sequence of writes to the temporary file and moves into place keeps the edit as the conflict copy |
| `ConflictResolution.ChangesMoveFiles` | crates/gdriver-daemon/src/sync/conflict.rs:172-225 | a rename takes the file from one path to the other, a write sets one path |
| `ConflictResolution.OtherPathsStay` | crates/gdriver-daemon/src/sync/conflict.rs:172-225 | no change touches any other path |
| `ConflictResolution.EditIsAlwaysKept` | crates/gdriver-daemon/src/sync/conflict.rs:142-254 | after every prefix of such changes the edit is on disk under the original or the conflict name, and only three paths differ |
| `ConflictResolution.Resolver.FetchToTemp` | crates/gdriver-daemon/src/sync/conflict.rs:212-222 | the disk goes through writes of the temporary file only; success means the whole stream is in it |
| `ConflictResolution.Resolver.Finish` | crates/gdriver-daemon/src/sync/conflict.rs:224-254 | the rename into place, the row update and the task update, each of which can fail |
| `ConflictResolution.Resolver.Resolve` | crates/gdriver-daemon/src/sync/conflict.rs:142-254 | the disk is the old one after a list of atomic changes, and after every prefix of them the local edit is on disk under the original or the conflict name and only three paths differ; on Ok both versions are there |
| `ConflictResolution.Resolver.CheckAndResolve` | crates/gdriver-daemon/src/sync/conflict.rs:56-138 | nothing changes exactly unless there are a stored mtime, older than the current one, and a stored etag, different from the remote one; after a resolution neither the same remote etag nor the same local mtime is a conflict |
| `ConflictHistory.LastCopyWins` | crates/gdriver-daemon/src/sync/conflict.rs:154-180 | over any number of resolutions a conflict copy holds the edit of the last resolution of the same file with the same timestamp text |
| `ConflictHistory.EditSurvivesIff` | crates/gdriver-daemon/src/sync/conflict.rs:154-180 | so an edit that no later one repeats is still in its copy if and only if no later resolution of the same file had the same timestamp text |
| `ConflictHistory.SameTimestampLosesEdit` | crates/gdriver-daemon/src/sync/conflict.rs:154-180 | a history of two resolutions after which the first edit is gone |
| `AtomicDownload.StepKeepsInv` | crates/gdriver-daemon/src/sync/downloader.rs:87-165 | every step of downloader or reader keeps target, readers and temporary file on separate inodes with whole versions |
| `AtomicDownload.AnythingMayHappen` | crates/gdriver-daemon/src/sync/downloader.rs:87-165 | a crash, a broken write, a failed cleanup and readers are possible at any moment, and what each leaves behind |
| `AtomicDownload.PublishedAreWhole` | crates/gdriver-daemon/src/sync/downloader.rs:77-165 | over every run the versions published are whole streams |
| `AtomicDownload.TargetIsAlwaysWhole` | crates/gdriver-daemon/src/sync/downloader.rs:77-165 | with failures and crashes at any step the target holds the latest version published: its earlier content until the run publishes, a whole stream from then on |
| `AtomicDownload.ReadersArePinned` | crates/gdriver-vfs/src/linux.rs:438-467 | an open file does not change under its reader |
| `AtomicDownload.ReadIsSliceOfOneVersion` | crates/gdriver-vfs/src/linux.rs:438-467 | byte k of a read is byte offset + k of the version that was at the target when it opened, up to the requested length or the end |
| `AtomicDownload.Download` | crates/gdriver-daemon/src/sync/downloader.rs:77-165 | the download is such a run; it succeeds exactly when every step does; success puts the whole stream in place, failure leaves the target alone and removes the temporary file when that succeeds |
| `AtomicDownload.WaitForDownload` | crates/gdriver-vfs/src/db.rs:185-214 | true exactly when the row becomes local before an error state and before the timeout |
| `DownloadTasks.DownloadTask` | crates/gdriver-daemon/src/sync/downloader.rs:24-134 | row and file together: with the database working a task ends completed exactly when every step of the transfer succeeds; then its whole stream is at the target, and one that is retried or given up has left the target alone |
| `DaemonIpc.DaemonClient.constructor` | apps/gdriver-app/src-tauri/src/daemon_client.rs:162-182 | ids start at 1, nothing pending |
| `DaemonIpc.DaemonClient.FetchId` | apps/gdriver-app/src-tauri/src/daemon_client.rs:83-85 | is the step of the system that gives a caller the next id |
| `DaemonIpc.DaemonClient.Register` | apps/gdriver-app/src-tauri/src/daemon_client.rs:85-87 | is the step that adds one pending entry |
| `DaemonIpc.DaemonClient.Send` | apps/gdriver-app/src-tauri/src/daemon_client.rs:94-96 | is the step that hands the request to the writer; it fails exactly when the call has returned with a refused send |
| `DaemonIpc.DaemonClient.Call` | apps/gdriver-app/src-tauri/src/daemon_client.rs:83-98 | up to the wait, a call is the run of the three steps; it returns an error at once exactly when the writer is gone |
| `DaemonIpc.DaemonClient.WriteOne` | apps/gdriver-app/src-tauri/src/daemon_client.rs:187-198 | is the step in which the writer forwards a line or ends |
| `DaemonIpc.DaemonClient.HandleMessage` | apps/gdriver-app/src-tauri/src/daemon_client.rs:241-282 | is the step that resolves the pending entry of a response's id and no other; pushes change nothing |
| `DaemonIpc.DaemonClient.DrainPending` | apps/gdriver-app/src-tauri/src/daemon_client.rs:231-235 | is the step that fails every entry present, each once |
| `DaemonIpc.StepKeepsInv` | apps/gdriver-app/src-tauri/src/daemon_client.rs:83-282 | every interleaved step keeps ids unique, traffic genuine and each caller waiting or resolved, never both |
| `DaemonIpc.AnythingMayArrive` | apps/gdriver-app/src-tauri/src/daemon_client.rs:203-282 | pushes, garbage, the end of the writer and the end of the connection are possible at any moment |
| `DaemonIpc.RepliesReachTheirCallers` | crates/gdriver-daemon/src/ipc/handlers.rs:186-209 | in every interleaving a reply reaches only the caller whose request was handled under that id, and no caller is resolved twice |
| `DaemonIpc.ResolvedIffRegisteredInTime` | apps/gdriver-app/src-tauri/src/daemon_client.rs:203-238 | once the reader has ended a pending entry is resolved if and only if it was registered before the drain |
| `DaemonIpc.ReturnsOnce` | apps/gdriver-app/src-tauri/src/daemon_client.rs:83-103 | a call returns at most one result: a reply, the disconnect error or a refused send |
| `DaemonIpc.ReturnsIffInTimeOrRefused` | apps/gdriver-app/src-tauri/src/daemon_client.rs:83-103 | in every interleaving, once the reader has ended, a call that has sent has returned if and only if it had registered before the drain or its send met a dead writer |
| `DaemonIpc.NothingAfterTheDrain` | apps/gdriver-app/src-tauri/src/daemon_client.rs:231-238 | after the drain no call is ever resolved |
| `DaemonIpc.LateCall` | apps/gdriver-app/src-tauri/src/daemon_client.rs:83-103 | a call made after the drain returns in no continuation while the writer was alive at its send, and at once when the writer was gone |
| `DaemonIpc.DrainFailsEveryone` | apps/gdriver-app/src-tauri/src/daemon_client.rs:231-235 | every call waiting when the reader ends is resolved with the disconnect error |
| `DaemonIpc.OrderExists` | apps/gdriver-app/src-tauri/src/daemon_client.rs:231-235 | the pending map can always be drained |
| `DaemonIpc.OnlyResponsesResolve` | apps/gdriver-app/src-tauri/src/daemon_client.rs:247-282 | pushes and unreadable lines resolve no call |
| `IpcReplies.DeliveryEndsCall` | apps/gdriver-app/src-tauri/src/daemon_client.rs:247-282 | in every interleaving a response that the reader takes, result or error, ends the call of its id with that answer |
| `IpcReplies.ServedCallReturns` | apps/gdriver-app/src-tauri/src/daemon_client.rs:83-282 | in every interleaving a call whose request was handled has returned with that answer unless the reply is still unread |
| `IpcWire.LinesOfPrefix` | apps/gdriver-app/src-tauri/src/daemon_client.rs:203-228 | the complete lines of any part of a framed stream are the first of the framed messages |
| `IpcWire.BytesAreDeliveries` | apps/gdriver-app/src-tauri/src/daemon_client.rs:203-228 | whatever part of the daemon's bytes has arrived, handling its complete lines is a run of deliveries of the first messages sent |
| `LineFraming.IpcClient.Readline` | extensions/windows-shell/src/ipc.rs:160-190 | returns the first line of buffer and arriving bytes however they are cut; on a failed read the bytes so far stay in the buffer |
| `LineFraming.IpcClient.ReadAll` | extensions/nautilus/gdriver_ipc.py:90-105 | successive calls, repeated after timeouts, return the newline split of everything received |
| `LineFraming.StreamIsAllBlocks` | extensions/windows-shell/src/ipc.rs:160-190 | what arrives is all the blocks one after the other, across failed reads, up to the end of file |
| `LineFraming.FramingRoundTrip` | crates/gdriver-daemon/src/ipc/server.rs:219-233 | newline-free messages framed by the sender come back unchanged |
| `LineFraming.ReceiveFramed` | extensions/windows-shell/src/ipc.rs:160-190 | framed messages arrive unchanged for every cut of the stream, with failed reads anywhere in it |
| `BlockingCalls.BlockingClient.constructor` | extensions/windows-shell/src/ipc.rs:86-90 | the first request has id 1 and nothing is unread |
| `BlockingCalls.BlockingClient.CallDaemon` | extensions/windows-shell/src/ipc.rs:94-157 | uses up an id; sends nothing, or takes the first line that is not a push and leaves the rest unread |
| `BlockingCalls.CallIsSkewed` | extensions/nautilus/gdriver_ipc.py:54-88 | a call gets the response to the request sent as many requests earlier as calls failed after sending theirs |
| `BlockingCalls.OwnResponseIff` | extensions/nautilus/gdriver_ipc.py:54-88 | after every run of calls the next response is the call's own if and only if no earlier call failed after its request was sent |
| `BlockingCalls.FailureThenResponse` | extensions/nautilus/gdriver_ipc.py:56-64 | after a call that failed, the next one gets its own response if the first had sent nothing, and the first one's otherwise |
| `UrlEncoding.UrlEncode` | crates/gdriver-api/src/files.rs:460-493 | the loop computes the encoding |
| `UrlEncoding.DecodeUndoesEncode` | crates/gdriver-api/src/files.rs:460-493 | percent-decoding (section 2.1 of RFC 3986) returns the original for every byte string |
| `UrlEncoding.EncodeIsWellFormed` | crates/gdriver-api/src/files.rs:460-493 | the output holds only allowed bytes and complete upper-case escapes: no ampersand, hash, plus, question mark, space or control byte |
| `UrlEncoding.PlainTextIsCopied` | crates/gdriver-api/src/files.rs:460-493 | text of allowed bytes is its own encoding |
| `UrlEncoding.QueryRoundTrip` | crates/gdriver-api/src/files.rs:184-190 | an assembled query splits back into exactly its keys and values |
| `UrlEncoding.FilesListQuery` | crates/gdriver-api/src/files.rs:172-190 | the query of `files_list` reads back as the parameters that were set, in order |
| `Multipart.FirstOccurrence` | crates/gdriver-api/src/files.rs:305-321 | a delimiter after the content is the first one exactly when the content holds none, even if the content ends in part of it |
| `Multipart.BuildBody` | crates/gdriver-api/src/files.rs:305-321 | the appended body is the two parts with their delimiters |
| `Multipart.FixedTexts` | crates/gdriver-api/src/files.rs:299-321 | the bytes of the boundary and the type header spell the texts of the program |
| `Multipart.BodyRoundTrip` | crates/gdriver-api/src/files.rs:299-321 | a receiver following section 5.1.1 of RFC 2046 gets back metadata, type and content if and only if neither metadata nor content has a line that starts with the dash boundary |
| `Multipart.NoDelimiterLineIff` | crates/gdriver-api/src/files.rs:305-321 | that is: the text neither starts with the dash boundary nor contains CRLF and the dash boundary |
| `Multipart.JsonHasNoDelimiterLine` | crates/gdriver-api/src/files.rs:299-310 | metadata that opens with a brace and holds no carriage return meets the condition |
| `Multipart.OpeningBoundaryIsLost` | crates/gdriver-api/src/files.rs:305-321 | every content that opens with the dash boundary and holds no carriage return is lost, although it does not contain the delimiter |

## Left out

- FUSE `write` and the disk side of `rename` and `unlink`: `write` truncates the file and `rename` never updates the cached path, so there is no law to state; only the metadata side is modelled.
- Whether a VFS delete reaches Drive: the tasks carry a file id and take the branch for remote deletions.
- VfsCallbacks.GDriverFS.RenameEntry: models the row and the task, not the renamed cache file.
- VfsCallbacks.GDriverFS.UnlinkFile: models the row and the task, not the removed cache file.
- Database errors in the VFS callbacks.
- TaskQueue.SyncQueue.DownloadFile: models the task row only; `DownloadTasks.DownloadTask` adds the file on disk, the `drive_files` row is not modelled.
- TaskQueue.SyncQueue.DeleteFile: models the task row only, not the removed file and the updated file row.
- TaskQueue.SyncQueue.ProcessTask: the handlers of uploads and photo backups are an input.
- ConflictResolution.Resolver.Resolve: an older file that already has the conflict copy's name is overwritten, as in the program; the push notification at the end is not modelled, and the upload is an input (its own loop is `ResumableUpload`).
- AtomicDownload.Download: one downloader per target and no VFS writes to it; a crash is one of the process, since the file is flushed but not synced, and power loss is not modelled.
- DaemonIpc.StepKeepsInv: message texts are abstract and inbound lines are whole; a read interrupted by a push is not modelled.
- BlockingCalls.BlockingClient.CallDaemon: lines are whole and already classified as reply, push or unreadable; a reply without an id is not modelled, nor is a request that is written in part.
- LineFraming.IpcClient.ReadAll: lines are bytes; the Python client also decodes them and replaces what is not valid UTF-8.
- LineFraming.IpcClient.Readline: a script that ends stands for a read that still blocks.
- VfsWalk.ResolvePath: takes the list of components; splitting the path string at backslashes is not modelled.
- ConflictHistory.EditSurvivesIff: the copy in question is not itself edited or used as a temporary file later.
- RangeHeader.RangeRoundTrip: wraps at 2^64 as a release build does; a debug build stops there.
- The uploader, the engine's command loop, initial and incremental sync, photo backup and the file watcher.
- The macOS backend and the Dolphin extension, which repeat code that is modelled.
- OAuth, keychain, TLS, checksums, MIME tables, preferences, notifications, accounts and the user interface.
