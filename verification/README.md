# Verification of torrentfs

A Dafny model of the parts of torrentfs that carry its promises, with proofs.

torrentfs mounts a tree with `metadata/`, where `.torrent` files are created,
renamed and removed, and `data/`, where the contents of those torrents appear.
A dispatcher thread answers the kernel; closing a `.torrent` starts a detached
add that writes a database row; `data/` is listed out of the database and the
set of adds in flight; reads are fetched by a bounded pool of workers under
per-torrent locks.  The model covers

- the metadata namespace, its detached adds and the database, in every
  interleaving: a value `State` with one commit function per call
  (`Protocol.dfy`), what every step keeps (`ProtocolSafety.dfy`,
  `RenameSafety.dfy`), whole runs (`Runs.dfy`), and the inode manager, the
  database and the dispatcher as classes whose methods are proved to do those
  commits after waiting for adds (`InodeManager.dfy`, `MetadataDatabase.dfy`,
  `FsService.dfy`);
- what those calls come to: each one's exact effect (`Effects.dfy`), the tree as a
  map from paths to bytes that every step changes as it should (`PathView.dfy`),
  the bytes of a file over whole runs (`Buffers.dfy`) and where the bytes in the
  database come from (`Provenance.dfy`);
- the rows the database keeps of directories, in step with them or not
  (`DirectoryRows.dfy`, `DirectoryTable.dfy`, `DirectoryChanges.dfy`), and restart
  from the database (`Restore.dfy`);
- runs from a fresh mount that show what goes wrong (`Counterexamples.dfy`);
- directory listings, their contents, paging and the listing cache
  (`Listings.dfy`, `ListingContents.dfy`, `Paging.dfy`, `ListingCache.dfy`), and the tree of a torrent that is still
  being added (`PendingTree.dfy`);
- the formats: bencoding and torrent files (`Bencode.dfy`, `TorrentFile.dfy`),
  the tracker list as JSON (`TrackerJson.dfy`, `TrackerSpelling.dfy`), the tracker
  announce (`Announce.dfy`, `AnnounceSpelling.dfy`), piece digests (`Streaming.dfy`);
- the worker pool and the piece locks as transition systems (`WorkerPool.dfy`,
  `PieceLock.dfy`).

Strings are byte strings, one character per byte.  Inode numbers, hashes and
digests are functions given to the model.  What the database, the torrent parser
and the clock decide (an error, a verdict, a deadline that passes) are
parameters of the call.

Some promises do not hold as they stand.  For each of these the model keeps the
code's behaviour and proves the exact condition under which the promise holds;
most come with a run from a fresh start that breaks it:

- a directory rename keeps every row and every add in flight with its own file
  only if no add below it is in flight and either the database follows and its
  statement is exact at every row, or it does not and no row lies below
  (`RenameDirExactly`, `DirectoryRenameOrphans`); the database does not follow
  where two torrents or two directories would end at one path, two directories
  nobody renamed among them (`CollideExactly`, `CaseVariantsCollide`,
  `MultiByteNamesCollide`);
- that statement is not exact where it ignores ASCII case, or where it cuts paths
  by characters while its offset counts bytes (`SqlMovedExactly`,
  `CaseVariantOrphans`, `MultiByteOrphans`);
- a rename to a free name orphans a row if the database call fails for a
  persisted file (`RenameFileExactly`, `FailedRenameOrphans`);
- a rename of a file or a directory leaves recorded failures behind, which keep
  failing the listing of the old directory (`StaleFailureExactly`,
  `StaleFailureOnOverwrite`, `StaleFailureOnDirectory`, `FailureOutlivesFile`);
- a file closed again while its first add is in flight keeps the older bytes in
  the database (`LandsWhatWasClosed`, `SecondCloseIsSkipped`);
- `mkdir` and `rmdir` answer success whether or not the database wrote or dropped
  the row of the directory (`MkdirInStepExactly`, `RmdirInStepExactly`);
- truncating an unlinked file through its handle does nothing once its directory
  is removed too (`TruncateUnlinkedExactly`, `TruncateIsLost`), and an unlinked
  inode numbered like `data/` cannot be written (`UnlinkedStaysWritable`);
- two files of a torrent that share a path, or of which one is a directory of the
  other, make a directory list a name twice (`UnambiguousExactly`);
- a cached torrent shows the `..` of its old place, and a cached directory the
  entries of its old path, if its record changes under the same change count, as
  when a directory is renamed and the database call fails after the records were
  rewritten (`MovedTorrentExactly`, `MovedTorrentIsStale`,
  `MovedDirectoryExactly`, `MovedDirectoryIsStale`);
- a directory inside a torrent is listed with the wrong `..`, and cached so, if
  the query for its parent is not answered (`MisplacedExactly`);
- the cached listing of a torrent still being added, said never to be stale, is
  so when its bytes are replaced (`PendingFreshExactly`, `PendingIsStale`);
- the `..` of a torrent is not the directory that lists it, except at the top
  (`WayUpExactly`);
- a torrent with a file of 2^63 bytes or more is listed as nothing
  (`ListedExactly`);
- the tracker reads a request once, into 4096 bytes, and misreads it if `left`,
  or `event` of a first announce, lies beyond what it read, and always if the
  announce URL has a query of its own, as in `/announce?key=x`
  (`UnderstoodExactly`, `OwnQueryHides`);
- a submission that should not block, and a shutdown with a deadline, both wait
  for a blocked `submit` until a job finishes (`CloggedKeepsWaiting`,
  `BoundedShutdownWaits`);
- a restored file keeps its stored name only if that ends in `.torrent`; a row
  from before file names were stored does not (`NameRestoredExactly`,
  `LegacyRowIsOrphaned`).

Where the documentation says otherwise the code is followed: `shutdown` is
documented to return only after all queued jobs have completed and to be a no-op
when called again, and a second call does return at once, also while the first
one still waits for a job (`LaterShutdownDoesNotWait`).

## Model

| member | source | states |
|---|---|---|
| `InodeTree.PathInjective` | src/fuse/inodes.rs:299-324 | in a tree of linked inodes two inodes with the same full path are the same inode |
| `InodeTree.KeyInjective` | src/fuse/inodes.rs:384-395 | a dedup key `(source_path, filename)` belongs to at most one linked file |
| `InodeTree.MoveDirectory` | src/fuse/fs_service.rs:1573-1639 | moving a directory to a free name outside itself keeps parent links acyclic and names unique, and moves exactly the labels below it |
| `DirectoryRows.SqlMovedExactly` | src/infrastructure/db/metadata_ops.rs:74-126 | the LIKE/substr update moves a path as the rename means it if and only if no case variant is caught and the old path has only one-byte characters |
| `DirectoryRows.CaseVariantIsDragged` | src/infrastructure/db/metadata_ops.rs:119-123 | renaming `abc` also rewrites what lies below `ABC` |
| `ProtocolSafety.CreateKeeps` | src/fuse/fs_service.rs:838-878 | creating a file keeps the tree, the handles, the adders, the absence of orphans and a file for each recorded failure |
| `ProtocolSafety.MkdirKeeps` | src/fuse/fs_service.rs:1259-1303 | the same for a new directory, whether or not its row is written |
| `ProtocolSafety.RmdirKeeps` | src/fuse/fs_service.rs:1305-1374 | the same for removing an empty directory, open unlinked files in it included, whether or not its row is deleted |
| `ProtocolSafety.WriteKeeps` | src/fuse/fs_service.rs:880-958 | a write keeps every invariant |
| `ProtocolSafety.SetSizeKeeps` | src/fuse/fs_service.rs:546-586 | so does a truncation |
| `ProtocolSafety.OpenKeeps` | src/fuse/fs_service.rs:745-783 | so does opening a handle |
| `ProtocolSafety.ReleaseKeeps` | src/fuse/fs_service.rs:1004-1144 | closing a handle keeps every invariant: it destroys, discards or hands over to exactly one new adder |
| `ProtocolSafety.UnlinkKeeps` | src/fuse/fs_service.rs:1383-1477 | unlink keeps every invariant whether or not the database answers |
| `ProtocolSafety.AdderKeeps` | src/fuse/fs_service.rs:1102-1130 | each step of a detached add keeps one adder per in-flight key and one in-flight key per adder |
| `ProtocolSafety.SettlingKeeps` | src/fuse/fs_service.rs:1878-1915 | whatever adders do while a call waits keeps every invariant and nothing in front of the call changes |
| `RenameSafety.RenameFileExactly` | src/fuse/fs_service.rs:1641-1871 | a rename to a free name leaves no orphan if and only if it is not so that the database fails, the file has a row and no add of it is in flight |
| `RenameSafety.OverwriteKeeps` | src/fuse/fs_service.rs:1710-1796 | renaming over a file keeps the tree, the handles, the adders and the absence of orphans on success and on every failure |
| `RenameSafety.RenameDirExactly` | src/fuse/fs_service.rs:1573-1639 | a directory rename fails in the database if and only if that fails or two rows of torrents, or two of directories, would collide; it leaves every row and every key in flight with the file it belonged to if and only if no key in flight lies under it and the statement is exact at every torrent row or, failing in the database, no torrent row lies under it; the state is then without orphan |
| `RenameSafety.RowsDoNotCollide` | src/infrastructure/db/metadata_ops.rs:74-126 | a statement exact at every row never moves two rows to one key |
| `RenameSafety.StaleFailureExactly` | src/fuse/fs_service.rs:1798-1871 | whatever the database answers, recorded failures still name files after a rename to a free name if and only if the source had none or its add is in flight |
| `RenameSafety.StaleFailureOnOverwrite` | src/fuse/fs_service.rs:1710-1796 | the same for a rename over a file, unless it is refused |
| `RenameSafety.StaleFailureOnDirectory` | src/fuse/fs_service.rs:1573-1639 | after a directory rename they do if and only if none was recorded under it |
| `Runs.StepGood` | src/fuse/fs_service.rs:838-1871 | every call and every adder step leads from a good state to a good one |
| `Runs.ReachableIsGood` | src/fuse/fs_service.rs:838-1915 | in every interleaving: acyclic parent links, unique names, unlinked inodes only while open, in-flight keys and adders one to one |
| `Runs.StepClean` | src/fuse/fs_service.rs:838-1871 | every step leaves no orphan, except a rename to a free name whose database call fails on a row, and one of a directory that may not move as `RenameDirExactly` says |
| `Runs.StepReported` | src/fuse/fs_service.rs:838-1871 | every recorded failure names a file after a step if and only if the step is not a rename that goes through and has one recorded at or under its source |
| `Runs.NoStaleFailure` | src/fuse/fs_service.rs:1004-1871 | in every run without such renames and without orphans each recorded failure names a file |
| `Runs.NoOrphanMirror` | src/fuse/fs_service.rs:1004-1871 | in every such run each row and each in-flight key names a linked file |
| `Runs.UnlinkIsQuiet` | src/fuse/fs_service.rs:1429-1460 | a successful unlink leaves no row, no add in flight and no file for its key |
| `Runs.DiscardIsQuiet` | src/fuse/fs_service.rs:1027-1063 | a release that discards, as `Effects.CloseExactly` says when, leaves no row and no add in flight |
| `Runs.RemovalIsFinal` | src/fuse/fs_service.rs:1154-1188 | such a key stays without row and add in every run until a release or rename targets it |
| `Runs.OverwriteAllOrNothing` | src/fuse/fs_service.rs:1546-1796 | renaming over a file: on failure the state is unchanged; on success one file and one row at the destination, the source's, and nothing at the old name |
| `Runs.UnlinkedFate` | src/fuse/fs_service.rs:1004-1017 | an unlinked inode is destroyed by the release of its last handle and by no other step, and only writes and truncations of it change its buffer |
| `Runs.UnlinkedStaysWritable` | src/fuse/fs_service.rs:880-958 | a write to an unlinked file succeeds if and only if the inode number is below 1,000,000 and the range is allowed, then leaves the other bytes alone, and else changes nothing |
| `Runs.TruncateUnlinkedExactly` | src/fuse/fs_service.rs:546-586 | truncating an unlinked file takes effect if and only if the size is unchanged, or its directory still exists, its number is below 1,000,000 and the size allowed; and when it is reported as done |
| `Runs.LandsWhatWasClosed` | src/fuse/fs_service.rs:1070-1130 | with all inserts working, in every run in which no later call moves or touches its key, once no add of it is in flight the row of a closed file holds the bytes closed if and only if no older add was in flight, or that one carried the same bytes |
| `Effects.WriteExactly` | src/fuse/fs_service.rs:880-958 | a write to any file, linked or not, is done if and only if the number is one of ours and the range within the limit; then the range holds the bytes written, every other old byte is kept, a gap reads as zeros, the length is the larger of the old one and the end, and nothing else in the state changes; else nothing does |
| `Effects.TruncateExactly` | src/fuse/fs_service.rs:546-586 | truncating a linked file is done if and only if the size is given and within the limit; then the bytes up to it are kept, zeros follow, and nothing else changes |
| `Effects.OpenExactly` | src/fuse/fs_service.rs:745-783 | when a handle is given out; it is a new one and no other changes |
| `Effects.CloseExactly` | src/fuse/fs_service.rs:1004-1144 | closing a linked file removes its inode and its row if and only if the content is empty, too large or does not parse, no add of it is in flight and the database does not fail; its failure is forgotten if and only if the content is bad and no add in flight; an add with its bytes starts if and only if the content is good, none is in flight and there is a database; nothing else changes |
| `Effects.CreateExactly` | src/fuse/fs_service.rs:838-878 | when a file is created; it is empty, under a number nothing had, and no other inode, row or handle changes |
| `Effects.MkdirExactly` | src/fuse/fs_service.rs:1259-1303 | the same for a directory |
| `Effects.RmdirExactly` | src/fuse/fs_service.rs:1305-1374 | a directory is removed if and only if it is there and empty, and no other inode changes |
| `Effects.UnlinkExactly` | src/fuse/fs_service.rs:1383-1477 | unlinking a file is done if and only if no add of it is in flight and the database does not fail; then its name, row and failure are gone and its bytes stay for its handles; else all but the failure stays |
| `Effects.RenameFileMoves` | src/fuse/fs_service.rs:1798-1871 | a rename to a free name: the file keeps its number and bytes, the new key gets exactly the row of the old one, which has none, every other row and inode stays, and when it is reported as done |
| `Effects.RenameDirMoves` | src/fuse/fs_service.rs:1573-1639 | a directory rename changes one inode; the rows of the new state are those of the old one, each with its bytes where the statement sends it, or all where they were if the database does not follow |
| `Effects.OverwriteExactly` | src/fuse/fs_service.rs:1710-1796 | a rename over a file is done if and only if with a database neither key is in flight, it does not fail and has the source's row; then the source has the name and the row, the other file stays for its handles, and nothing else changes |
| `Effects.AddExactly` | src/fuse/fs_service.rs:1102-1130 | an add from start to end leaves its bytes in the row and no failure if the insert works, and else the old row and a recorded failure; its key is free and nothing else has changed |
| `PathView.StepMeans` | src/fuse/fs_service.rs:838-1871 | every step of every call and add does to the map from paths to files and directories exactly the one change meant by it: nothing, one entry put or removed, or a subtree shifted to another path, with the guard told in paths, rows and keys in flight |
| `PathView.RunMeans` | src/fuse/fs_service.rs:838-1915 | so in every interleaving what stands at each path is what these changes, one after the other, make of the map at the start |
| `PathView.ViewIsTree` | src/fuse/inodes.rs:299-324 | whatever stands below the root stands in a directory |
| `PathView.ListingShowsView` | src/fuse/fs_service.rs:692-722 | a directory of `metadata/` lists a name with a kind and a number if and only if that stands at its path |
| `PathView.RootShowsView` | src/fuse/fs_service.rs:656-690 | so does the root |
| `Buffers.BytesStep` | src/fuse/fs_service.rs:880-1871 | a step changes the bytes of a file if and only if it is an accepted write or truncation of that file |
| `Buffers.BytesAreReplayed` | src/fuse/fs_service.rs:838-1915 | in every interleaving a file holds what its own accepted writes and truncations, in order, make of the bytes it had, whatever it is renamed to meanwhile |
| `Buffers.ChunksAreConcatenated` | src/fuse/fs_service.rs:880-958 | a file written chunk after chunk, with anything else in between, holds their concatenation |
| `Buffers.CopyIsStored` | src/fuse/fs_service.rs:838-1130 | a file created, written in chunks and closed while anything else goes on ends up in the database, under the key it was closed with, as the concatenation of the chunks, if no older add of that key was in flight, inserts work and no later call touches the key |
| `Provenance.StoredWasClosed` | src/fuse/fs_service.rs:1004-1130 | in every run of careful renames each row is the key of one file, and its bytes are bytes that very file, under whatever name, was closed with when they parsed |
| `Counterexamples.DirectoryRenameOrphans` | src/fuse/fs_service.rs:1573-1639 | a run in which a directory is renamed under an add in flight and the row lands as an orphan |
| `Counterexamples.FailedRenameOrphans` | src/fuse/fs_service.rs:1798-1871 | a run in which a rename fails in the database and orphans a row |
| `Counterexamples.InexactRenameOrphans` | src/infrastructure/db/metadata_ops.rs:104-123 | wherever the statement is not exact below a directory and the directories still go to different paths, a run in which renaming it orphans a row |
| `Counterexamples.CaseVariantOrphans` | src/infrastructure/db/metadata_ops.rs:119-123 | such a run for `abc` and `ABC/s` |
| `Counterexamples.MultiByteOrphans` | src/infrastructure/db/metadata_ops.rs:119-123 | such a run for a name of one two-byte character |
| `Counterexamples.CollidingRenameOrphans` | src/infrastructure/db/metadata_ops.rs:80-111 | wherever two directories would go to one path, a run in which the rename fails and orphans a row that nobody drags |
| `Counterexamples.CaseVariantsCollide` | src/infrastructure/db/metadata_ops.rs:104-111 | such a run for `abc/s` and `ABC/s` |
| `Counterexamples.MultiByteNamesCollide` | src/infrastructure/db/metadata_ops.rs:104-111 | such a run for subdirectories `as` and `bs` of a directory named by one two-byte character |
| `Counterexamples.FailureOutlivesFile` | src/fuse/fs_service.rs:1798-1871 | a run in which an add fails and its file is renamed, and the failure stays recorded for no file |
| `Counterexamples.FailureOutlivesDirectory` | src/fuse/fs_service.rs:1573-1639 | the same for a renamed directory |
| `Counterexamples.SecondCloseIsSkipped` | src/fuse/fs_service.rs:1081-1087 | a run after which nothing is open or in flight and a row differs from its file |
| `Counterexamples.TruncateIsLost` | src/fuse/fs_service.rs:546-586 | a run to a state in which truncating to zero reports success and changes nothing |
| `InodeManagement.InodeManager.GetFullPath` | src/fuse/inodes.rs:299-324 | the upward walk ends and returns the names met on the way, joined |
| `InodeManagement.WayIsLabel` | src/fuse/inodes.rs:299-324 | for a linked inode of a tree these are its label |
| `InodeManagement.WayOfUnlinked` | src/fuse/inodes.rs:299-324 | an unlinked file answers to its old path while its directory is there and to its bare name after |
| `InodeManagement.InodeManager.IsMetadataChild` | src/fuse/inodes.rs:326-350 | the upward walk decides membership below `metadata/`, an unlinked file counting while its directory exists |
| `InodeManagement.InodeManager.FindChildByName` | src/fuse/inodes.rs:352-370 | the scan, in any order, finds the one linked child of that name if there is one |
| `InodeManagement.InodeManager.FindInoByFullPath` | src/fuse/inodes.rs:372-382 | the scan finds an inode with that path, linked or not, if and only if there is one |
| `InodeManagement.InodeManager.ExtractSourcePath` | src/fuse/inodes.rs:384-395 | the path below `metadata/`, and for any other inode its full path as it is |
| `InodeManagement.InodeManager.OpenHandleCount` | src/fuse/inodes.rs:501-506 | the number of handles on the inode, positive if and only if it is open |
| `InodeManagement.InodeManager.UnlinkFile` | src/fuse/inodes.rs:525-545 | the inode loses its name and is kept if and only if it is open |
| `Service.FsService.WaitForPendingAdd` | src/fuse/fs_service.rs:1878-1915 | while waiting only adders move; on success the key is not in flight |
| `Service.FsService.Create` | src/fuse/fs_service.rs:838-878 | does the create commit and keeps the invariants |
| `Service.FsService.Mkdir` | src/fuse/fs_service.rs:1259-1303 | does the mkdir commit, the row of the directory included |
| `Service.FsService.Rmdir` | src/fuse/fs_service.rs:1305-1374 | does the rmdir commit, the row of the directory included |
| `Service.FsService.Open` | src/fuse/fs_service.rs:745-783 | does the open commit |
| `Service.PatchBuffer` | src/fuse/fs_service.rs:943-950 | zero-fills up to the write and replaces exactly the written range |
| `Service.FsService.Write` | src/fuse/fs_service.rs:880-958 | does the write commit, size and kind errors included, as `Effects.WriteExactly` says |
| `Service.FsService.SetAttr` | src/fuse/fs_service.rs:546-586 | does the truncation commit |
| `Service.FsService.Release` | src/fuse/fs_service.rs:1004-1144 | does the release commit, as `Effects.CloseExactly` says |
| `Service.FsService.Unlink` | src/fuse/fs_service.rs:1383-1477 | does the unlink commit in the state left by the wait |
| `Service.FsService.Rename` | src/fuse/fs_service.rs:1492-1871 | does the rename commit in the state left by the waits, both tables and every error exit included, as `Effects.RenameFileMoves`, `RenameDirMoves` and `OverwriteExactly` say |
| `MetadataDatabase.MetadataDb.EnsureMetadataDirectories` | src/infrastructure/db/metadata_ops.rs:7-62 | the loop inserts exactly the rows missing on the way down |
| `MetadataDatabase.MetadataDb.DeleteMetadataDirectory` | src/infrastructure/db/metadata_ops.rs:64-71 | deletes the row and every row below it |
| `MetadataDatabase.MetadataDb.RenameMetadataDirectory` | src/infrastructure/db/metadata_ops.rs:74-126 | moves the rows of directories and of torrents by the same statements, or none if and only if the database fails or two rows of either kind would collide |
| `DirectoryTable.EnsureAdds` | src/infrastructure/db/metadata_ops.rs:7-62 | with one row per directory, ensuring a directory that is there changes nothing and ensuring a new one adds one row below its parent's |
| `DirectoryChanges.EnsuredExactly` | src/infrastructure/db/metadata_ops.rs:7-62 | in any table, ensuring a path inserts a row for each directory on the way that has none, with its name and the row of the one above it as parent, and changes no other row |
| `DirectoryChanges.DeletedExactly` | src/infrastructure/db/metadata_ops.rs:64-71 | in any table, deleting a path removes its row and exactly the rows from which parents lead up to it |
| `DirectoryTable.MkdirInStepExactly` | src/fuse/fs_service.rs:1259-1303 | from one row per directory, `mkdir` keeps it so if and only if there is a database and it wrote the row |
| `DirectoryTable.RmdirInStepExactly` | src/fuse/fs_service.rs:1305-1374 | `rmdir` does if and only if there is one and it deleted the row |
| `DirectoryTable.DirRowMovesExactly` | src/infrastructure/db/metadata_ops.rs:74-126 | after a rename a row is at its directory's new path if and only if the statement is exact at the old one |
| `DirectoryTable.DirectoryRenameInStepExactly` | src/infrastructure/db/metadata_ops.rs:74-126 | a directory rename does if and only if the database follows and its statement is exact at the row of every directory |
| `DirectoryTable.CollideExactly` | src/infrastructure/db/metadata_ops.rs:100-111 | with one row per directory, directory rows collide if and only if the statement sends two directories of the tree to one path |
| `DirectoryTable.StepInStepExactly` | src/fuse/fs_service.rs:838-1871 | a step keeps one row per directory, with its name and its parent's row, if and only if it is not a `mkdir`, `rmdir` or directory rename that goes through and that the database does not follow exactly |
| `DirectoryTable.DirectoriesStayMirrored` | src/fuse/fs_service.rs:838-1915 | so does every run of careful renames in which every step does |
| `Restore.SortBy` | src/fuse/inodes.rs:405-410 | a permutation sorted by the key |
| `Restore.NameRestoredExactly` | src/fuse/inodes.rs:448-461 | a restored file has its stored name if and only if that ends in `.torrent` |
| `Restore.LegacyRowIsOrphaned` | src/fuse/inodes.rs:448-461 | a row without a file name comes back under its torrent's name, and no file of any tree has the key the row has |
| `Restore.RestoreDirectories` | src/fuse/inodes.rs:405-436 | from consistent rows, a tree in which row `k` of the sorted rows has become a directory with that row's path |
| `Restore.RestoreFiles` | src/fuse/inodes.rs:438-471 | each torrent row becomes a file with that row's key and bytes |
| `Restore.RestoreMetadataInodes` | src/fuse/inodes.rs:400-471 | the keys of the restored files are exactly the rows' `(source_path, filename)` |
| `Restore.CleanRestart` | src/fuse/inodes.rs:400-471 | the database left by a state without orphans is consistent |
| `Restore.RestartIsClean` | src/fuse/inodes.rs:400-471 | a restart of a state without orphans and with one row per directory is again good, without orphan and in step; its files are exactly the persisted ones, each with the bytes of its row, and its directories those there were |
| `Restore.InStepIsConsistent` | src/infrastructure/db/metadata_ops.rs:128-140 | rows in step with the directories are consistent and name exactly them |
| `Restore.RunLeavesConsistent` | src/fuse/inodes.rs:400-471 | what a run of careful renames that the database followed leaves behind, from a fresh mount or from a restart, is consistent: what `CleanRestart` and `RestartIsClean` ask for |
| `Paging.NumberedIncreases` | src/fuse/fs_service.rs:100-106 | a listing's offsets strictly increase |
| `Paging.PartitionPoint` | src/fuse/fs_service.rs:107-108 | the binary search splits the entries at the offset |
| `Paging.PageAfterOffset` | src/fuse/fs_service.rs:107-111 | the page equals the linear filter cut at 128 entries |
| `Paging.WalkIsExact` | src/fuse/fs_service.rs:601-737 | a walk accepting any non-empty part of each page ends after at most one call per entry and has then seen each entry once, in order |
| `Listings.ShownChildren` | src/fuse/fs_service.rs:692-722 | the linked children, ascending by inode whatever the table's order |
| `Listings.ReaddirMetadata` | src/fuse/fs_service.rs:656-736 | the root and the `metadata/` directories: which entries, in which order, with offsets 1, 2, 3, ... |
| `Listings.ReaddirSource` | src/fuse/lookup.rs:683-862 | `data/` and source-path directories: the rows' entries, then `.stats`, then the adds in flight that have no row, with consecutive offsets; nothing if a query fails |
| `Listings.TorrentIsListedOnce` | src/fuse/lookup.rs:429-460 | however rows and adds in flight overlap, if no two rows share a name then a name with a row or an add in flight is listed exactly once, and no other name is |
| `Listings.WayUpExactly` | src/fuse/lookup.rs:873-883 | with distinct numbers for distinct source paths, the `..` of a torrent is the directory that lists it if and only if its source path is empty |
| `Listings.ReaddirTorrentRoot` | src/fuse/lookup.rs:865-973 | a torrent's root out of the database, with consecutive offsets, as `TorrentRootExactly` says; nothing if a query fails |
| `Listings.ReaddirTorrentDir` | src/fuse/lookup.rs:1039-1106 | a torrent's directory out of the database, with consecutive offsets; nothing if a query fails, except that without an answer about its parent it passes for one at the top |
| `Listings.ReaddirPending` | src/fuse/lookup.rs:889-1038 | a torrent still being added, with consecutive offsets |
| `ListingContents.TorrentRootExactly` | src/fuse/lookup.rs:921-973 | the root of a stored torrent lists `.`, `..`, each top directory row as a directory and each top file row as a file, with their numbers and as often as there are rows, `.stats`, and nothing else |
| `ListingContents.TorrentDirExactly` | src/fuse/lookup.rs:1039-1106 | the same for a directory inside it, without `.stats` |
| `ListingContents.SourceExactly` | src/fuse/lookup.rs:683-862 | `data/` and source-path directories list the torrents and subdirectories of their rows, `.stats`, each add in flight there whose name has no row once, and nothing else, with numbers and kinds |
| `ListingContents.PendingTorrentExactly` | src/fuse/lookup.rs:889-1038 | a torrent still being added lists what its file list has right below, `.stats` at the root, and only the dots without a list |
| `ListingCache.StepKeeps` | src/fuse/fs_service.rs:619-650 | every step of writers, adders, renames and readdir calls keeps the cached entries equal to the listing of the world they were built in |
| `ListingCache.ReplyIsFresh` | src/fuse/fs_service.rs:619-650 | a page of a database directory, served on a hit for the record it was built by or from a build that knew the parent, is a page of the listing when both locks were held, if in-flight sets are told apart by their 64-bit signature |
| `ListingCache.CacheIsLinearizable` | src/fuse/lookup.rs:429-503 | so is every page in every interleaving in which hits are for the record they were built by, under the same assumption on the signature |
| `ListingCache.UndisturbedIsFresh` | src/fuse/fs_service.rs:1598-1639 | that is so for every run in which no record of the cached directory is replaced and no directory rename fails in the database under the cached change count; writes and renames the database follows never matter |
| `ListingCache.MovedTorrentExactly` | src/fuse/fs_service.rs:619-626 | a page of a cached torrent root whose record was replaced under the same change count is one of the listing now if and only if it starts past `..` or both source paths have the same parent, under the same assumption on the signature |
| `ListingCache.MovedTorrentIsStale` | src/fuse/fs_service.rs:1598-1621 | a run of a listing and a rename that fails in the database, after which the cache serves the old `..` |
| `ListingCache.MovedDirectoryExactly` | src/fuse/fs_service.rs:619-626 | with distinct numbers for distinct paths, a cached source-path directory whose record was rewritten to another path under the same change count is served as that path is now, on every page, if and only if neither path has a subdirectory or an add in flight without a row, and both have the same torrents and the same `..`, under the same assumption on the signature |
| `ListingCache.MovedDirectoryIsStale` | src/fuse/fs_service.rs:1598-1621 | a run of a listing of a directory with a subdirectory and a rename of it that fails in the database, after which the cache serves the old entries |
| `ListingCache.MisplacedExactly` | src/fuse/lookup.rs:1044-1050 | a page of a directory inside a torrent built without an answer about its parent is right if and only if it starts past `..` or the directory is at the top |
| `ListingCache.PendingFreshExactly` | src/fuse/lookup.rs:909-912 | the cached pages of a torrent still being added are the current ones if and only if its bytes still show the same names and kinds there |
| `ListingCache.PendingIsStale` | src/fuse/lookup.rs:909-912 | a run in which its bytes are replaced and the cache serves the old names |
| `ListingCache.ReaddirData` | src/fuse/lookup.rs:670-1117 | builds the listing of whichever kind of directory the inode is, torrents still being added included, or nothing |
| `ListingCache.ReaddirCache.Readdir` | src/fuse/fs_service.rs:619-653 | serves the cached page on a match and otherwise builds, stores and serves |
| `PendingTree.ReaddirPendingTorrent` | src/fuse/lookup.rs:562-657 | lists each child directory once and each file, offsets counting up from 3 |
| `PendingTree.ListingIsExact` | src/fuse/lookup.rs:588-654 | in a well-formed file list the names are distinct, each is there for a file, and every file below the directory has its entry |
| `PendingTree.ListingAgreesWithLookup` | src/fuse/lookup.rs:356-419 | an entry is listed if and only if lookup resolves its name to the same kind, size and inode path |
| `PendingTree.WalkMeetsEveryFileOnce` | src/fuse/lookup.rs:562-657 | the recursive walk from the root ends, meets every file exactly once and nothing else |
| `PendingTree.UnambiguousExactly` | src/fuse/lookup.rs:562-657 | every directory lists each name once if and only if no path repeats another or leads through it |
| `Bencoding.ReadStr` | src/fuse/lookup.rs:1309-1319 | the string reader agrees with the grammar's string and consumes a positive length within the input |
| `Bencoding.ReadInt` | src/fuse/lookup.rs:1302-1307 | the same for integers |
| `Bencoding.ReadList` | src/fuse/lookup.rs:1281-1293 | the list loop agrees with the recursive reading |
| `Bencoding.ReadDict` | src/fuse/lookup.rs:1260-1279 | the dictionary loop agrees with the recursive reading |
| `Bencoding.ReadValue` | src/fuse/lookup.rs:1247-1258 | the parser ends on every byte string and consumes a length in (0, n] |
| `Bencoding.ParsesExactly` | src/fuse/lookup.rs:1246-1320 | the parser reads a value and leaves a rest if and only if a bencoding of that value stands in front of that rest |
| `Bencoding.SuffixStable` | src/fuse/lookup.rs:1246-1320 | appending bytes never changes how a value is read |
| `Bencoding.RoundTrip` | src/fuse/lookup.rs:1246-1320 | parsing the canonical encoding of any value followed by anything returns the value and what follows |
| `TorrentFile.ExtractBencodeFiles` | src/fuse/lookup.rs:1159-1192 | the extraction loops compute the file list of the parsed value, which `ExtractedExactly` characterises |
| `TorrentFile.ExtractedExactly` | src/fuse/lookup.rs:1159-1244 | on any bytes a name and files are extracted if and only if the bytes start with a bencoding of a torrent that lists them: under its first `info`, the first `name`, and the files that the dictionaries of a first `files` list describe, or without such a list one file with that name and the first `length` |
| `TorrentFile.SingleFileIsListed` | src/fuse/lookup.rs:1180-1191 | a single-file torrent, with any other keys and whatever follows, lists exactly its name with its length |
| `TorrentFile.BencodeMultifileTorrent` | ci/mffs_common.rs:123-154 | the writer's loops produce the torrent text |
| `TorrentFile.ListedExactly` | ci/mffs_common.rs:123-154 | extracting from a written torrent gives its name and every joined path and size, in order, if all sizes are below 2^63 and all components are UTF-8, and nothing otherwise |
| `TorrentFile.BigFileEmptiesTheList` | ci/seeder_common.rs:27-29 | one file of 2^63 bytes is such a case |
| `TrackerJson.EscapeBack` | libtorrent-sys/wrapper/libtorrent_wrapper.cpp:2512-2531 | every escaped byte is read back as itself, whatever follows |
| `TrackerJson.RoundTrip` | libtorrent-sys/wrapper/libtorrent_wrapper.cpp:2504-2643 | parsing what was printed returns the same list, for every list of `int` tiers and byte-string URLs |
| `TrackerSpelling.SpelledIsRead` | libtorrent-sys/wrapper/libtorrent_wrapper.cpp:2585-2643 | a list spelled by others, with white space anywhere, members in any order, unknown ones among them and any escapes, is read as its objects say: the last URL and the last tier as an `int`, or 0 |
| `TrackerSpelling.UrlIsNeeded` | libtorrent-sys/wrapper/libtorrent_wrapper.cpp:2585-2643 | one object without a URL has the whole list rejected |
| `TrackerSpelling.CodeIsUtf8` | libtorrent-sys/wrapper/libtorrent_wrapper.cpp:817-864 | a four-digit code becomes the UTF-8 bytes of its code point |
| `TrackerJson.TextHasNoNul` | libtorrent-sys/wrapper/libtorrent_wrapper.cpp:2504-2537 | the printed text contains no NUL, so it survives as a C string |
| `TrackerJson.TrackersToJson` | libtorrent-sys/wrapper/libtorrent_wrapper.cpp:2504-2537 | the printer's loops produce the list text |
| `TrackerJson.ParseJsonString` | libtorrent-sys/wrapper/libtorrent_wrapper.cpp:817-864 | the pointer loop reads a string body, escapes and premature end included |
| `TrackerJson.ParseJsonInt` | libtorrent-sys/wrapper/libtorrent_wrapper.cpp:866-875 | the pointer loop reads a number |
| `TrackerJson.ParseTrackersJson` | libtorrent-sys/wrapper/libtorrent_wrapper.cpp:2585-2643 | the nested pointer loops parse the list, every rejection included |
| `Announce.PercentRoundTrip` | ci/stall_peer.rs:210-220 | decoding undoes encoding for every byte string |
| `Announce.HashBothWays` | ci/seeder_common.rs:123-141 | a 20-byte hash is understood percent-encoded and as 40 hexadecimal digits |
| `AnnounceSpelling.DecodedByPieces` | ci/seeder_common.rs:97-115 | decoding takes each valid escape for its byte and leaves everything else, a lone `%` included, as it is |
| `AnnounceSpelling.HashExactly` | ci/seeder_common.rs:123-141 | a hash is understood if and only if its value decodes to those 20 bytes, or to 40 digits that spell them |
| `AnnounceSpelling.ParamExactly` | ci/seeder_common.rs:81-89 | a key has a value if and only if the first pair with that key has it |
| `AnnounceSpelling.AnyAnnounce` | ci/seeder_common.rs:152-208 | any query is understood if and only if its hash and port are; a missing or malformed `left` counts as the largest, a missing event as none |
| `Announce.UnderstoodExactly` | ci/seeder_common.rs:152-208 | the tracker gets hash, port, `left` = 0 and the event from the part of a request it read if and only if the path of the announce URL has neither a query of its own nor a line break and that part reaches the end of `left=0`, or of the whole query on a first announce |
| `Announce.OwnQueryHides` | ci/stall_peer.rs:99-102 | whatever is read, nothing is understood if the path has a query of its own that names no hash |
| `Announce.LongRequestIsLost` | ci/seeder_common.rs:158-159 | if what is needed ends beyond the 4096-byte buffer no read suffices |
| `Announce.PercentEncode` | ci/stall_peer.rs:210-220 | the loop computes the encoding |
| `Announce.PercentDecode` | ci/seeder_common.rs:97-115 | the index loop computes the decoding, malformed escapes passed through |
| `Announce.FindParam` | ci/seeder_common.rs:81-89 | the loop returns the value of the first pair with that key |
| `Announce.DecodeInfoHash` | ci/seeder_common.rs:123-141 | the loop decodes 40 digits pairwise and rejects anything else |
| `WorkerPool.StartIsGood` | src/fuse/worker_pool.rs:41-66 | a new pool satisfies the invariants |
| `WorkerPool.StepKeeps` | src/fuse/worker_pool.rs:90-240 | every step of every caller and worker keeps the pool's invariants |
| `WorkerPool.RunIsGood` | src/fuse/worker_pool.rs:41-240 | in every interleaving jobs leave in the order they were accepted, none twice, within queue depth and worker count |
| `WorkerPool.EveryJobIsSomewhere` | src/fuse/worker_pool.rs:90-240 | every submitted job is in exactly one place: in its call, handed back, queued, running or done |
| `WorkerPool.SubmissionIsDecided` | src/fuse/worker_pool.rs:90-137 | once a submission gets the sender it is decided for good: with room it is accepted; without a sender, or without room for `try_submit`, it is handed back; `submit` is otherwise accepted or blocked |
| `WorkerPool.SubmitIsNotRefused` | src/fuse/worker_pool.rs:90-109 | in every run that has not begun to shut down a `submit` waits or is accepted |
| `WorkerPool.NothingAcceptedLater` | src/fuse/worker_pool.rs:161-169 | once the sender is dropped no run accepts another job |
| `WorkerPool.ShutdownDrains` | src/fuse/worker_pool.rs:139-142 | when the shutdown that took the handles reports the workers gone, the accepted jobs are exactly the done ones, each run once |
| `WorkerPool.ShutdownAnswers` | src/fuse/worker_pool.rs:172-202 | a shutdown answers once, and says the workers are gone if and only if they are or another call has the handles |
| `WorkerPool.DrainDescends` | src/fuse/worker_pool.rs:204-240 | after that every worker step lowers a measure and no other step raises it |
| `WorkerPool.DrainIsBounded` | src/fuse/worker_pool.rs:204-240 | so a run holds at most that many worker steps, and after that many all workers are gone |
| `WorkerPool.NeverStuck` | src/fuse/worker_pool.rs:90-109 | until the workers are gone one can go on, and a blocked submit always finds a step that makes room |
| `WorkerPool.SenderIsNeeded` | src/fuse/worker_pool.rs:115-169 | a submission past its check and a shutdown past its flag go on if and only if no `submit` is blocked |
| `WorkerPool.CloggedKeepsWaiting` | src/fuse/worker_pool.rs:115-169 | with a `submit` blocked and every worker busy they all wait in every run until a job finishes |
| `WorkerPool.BoundedShutdownWaits` | src/fuse/worker_pool.rs:151-169 | a run to such a state with a bounded shutdown waiting |
| `WorkerPool.LaterShutdownDoesNotWait` | src/fuse/worker_pool.rs:172-186 | once the handles are taken any later shutdown returns without waiting for anything |
| `WorkerPool.HandlesTakenWhileRunning` | src/fuse/worker_pool.rs:139-186 | that can be while a job runs |
| `PieceLock.StepKeeps` | libtorrent-sys/wrapper/libtorrent_wrapper.cpp:77-99 | every step keeps pointers equal to the map's mutex and holders recorded, and a shared unlock releases the mutex its lock acquired |
| `PieceLock.GoodHasNoOverlap` | libtorrent-sys/wrapper/libtorrent_wrapper.cpp:1677-1748 | no reader overlaps a writer of the same non-empty hash, and no two writers overlap on any hash |
| `PieceLock.PieceLocksAreSafe` | libtorrent-sys/wrapper/libtorrent_wrapper.cpp:2476-2496 | both hold throughout every interleaving of readers, writers and removals |
| `PieceLock.EntersExactly` | libtorrent-sys/wrapper/libtorrent_wrapper.cpp:77-99 | a reader gets in if and only if nobody writes its torrent, a writer if and only if nobody reads or writes it |
| `PieceLock.NobodyIsStuck` | libtorrent-sys/wrapper/libtorrent_wrapper.cpp:77-99 | a thread that has to wait waits for one that can leave |
| `PieceLock.EmptyHashIsNotGuarded` | libtorrent-sys/wrapper/libtorrent_wrapper.cpp:2476-2482 | a run from the empty map in which a reader with an empty hash overlaps a writer |
| `Streaming.DigestAt` | ci/mffs_common.rs:60-67 | the digest list holds one digest per piece, at its place |
| `Streaming.HashAndSeedFiles` | ci/mffs_common.rs:68-119 | however reads split the files, the copies are exact, the total is the length and the digests are those of the concatenation |
| `Streaming.HashAndSeed` | ci/selfseed_env.rs:43-90 | skipping zero pieces and setting the length leaves the payload, with the same digests |
| `Streaming.SparseFile.WriteAll` | ci/selfseed_env.rs:76-81 | writing past the end leaves a hole that reads as zeros |
| `Streaming.SparseFile.SetLen` | ci/selfseed_env.rs:84-88 | the length is pinned, cutting or zero-filling |

## Left out

- libtorrent itself, the rest of its C wrapper, settings and bindings: foreign calls.
- SQLite: the database is two tables of rows, a change count and the results of the listing queries; only the directory rename statement is modelled as text, and the closure table beside the directory rows is not.
- Unique paths are required of what a statement leaves, not after each of its rows; the two differ only where rows already lie below the new name.
- A database error between two statements of one call: `ensure_metadata_directories` stopping half-way, and an add or a file rename that writes its torrent row but not the rows of its directories, which is only logged.
- Announce.UnderstoodExactly: does not cover an announce URL whose own query names `info_hash`, which then answers for that hash.
- The `data_inodes` table in the namespace protocol: `ListingCache` has it as records that lookups, evictions and renames change; which lookup stores which record is not modelled.
- The kernel's entry cache.
- The failure report of `readdir` for directories with recorded failures, `lookup`, `getattr`, `read` and `statfs`: one-branch answers.
- Poisoned locks: no step of the model panics while holding one.
- Real time: a deadline is a wait given up at any moment.
- `mknod`, which creates a file like `create` but returns no handle: the `handle` argument of the create commit covers it.
- Lossy UTF-8 conversion of the tracker's request and slicing inside a character: the model works on bytes.
- ParseJsonInt: the model's numbers are unbounded, so overflow of a 64-bit value in a hand-written tracker list is not captured.
- The width of libtorrent's own tier field, which is not part of this repository.
- Recursion depth of the bencode parser: the model's stack is unbounded.
- The tracker's peer table and its replies.
- Interrupted system calls in the streaming loops: they are tried again without effect.
