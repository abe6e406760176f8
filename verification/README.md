# A Dafny model of ESFS

ESFS is a FUSE file system that keeps read-only snapshots of files by copying blocks before they are overwritten.
This project models that core and states what the copies are for: every snapshot goes on showing each file as it was
when the snapshot was made. `dafny verify dfyconfig.toml` checks the whole project.

| file | what it models |
|---|---|
| `Blocks.dfy` | cutting a byte range into blocks of 131072 bytes |
| `Store.dfy` | the overlays (map and dat files) of one path in a chain of snapshots, and reading through them |
| `Saving.dfy` | what saving blocks may do to an overlay, and when the main file may change |
| `Steps.dfy` | handles on files in snapshots: what they have open and what they read |
| `FileSystem.dfy` | the operations on a path: open, create, write, truncate, unlink, make and remove snapshots, read |
| `Runs.dfy` | any sequence of these operations through any number of handles |
| `SaveProtocol.dfy` | writers, truncators and snapshot readers interleaving step by step under the lock of a path |
| `LockTable.dfy` | the table of labelled locks, interleaving step by step |
| `Openers.dfy` | threads racing to create the map of a path |
| `Chain.dfy` | the list of snapshots in its pointer files |
| `Listing.dfy` | listing a directory in a snapshot |
| `Volume.dfy` | making, removing and reading snapshots by name: the list joined with the overlays |
| `Paths.dfy` | snapshot paths and lock labels |

The key to the block store is a condition on one layer at a time (`Store.LayerOk`): what an overlay has saved is the
version its snapshot was made of, and what it has not saved is unchanged in the next version. Every operation keeps it
for the latest layer only, and lookups through any number of layers follow by induction. Snapshots are numbered from
the oldest. The list of layers never shrinks: removing a snapshot only moves the number of the earliest live one, as
descriptors opened before keep its files readable.

## Where the code does not do what one would expect

The members named state these, with the exact condition under which the code is right.

- The documentation (README.md:47-50 of ESFS) promises every file in a snapshot as it was. Stat keeps that promise, but
  opening a file skips layers that have a map and no dat, so a file that was empty or missing there opens as whatever
  is newer (`Steps.FreshFaithfulIff`, `Steps.MissingFileOpens`, `Steps.EmptyFileOpens`). The model follows the code.
- A handle on a file in a snapshot that was opened before the latest snapshot had a dat for the file does not notice
  when writers create one, and then reads what they wrote (`Steps.KeptFaithfulIff`, and `Runs.KeptHandle` as a run).
- Re-opening a handle in a new snapshot notes the number of the snapshot before anything can fail. After a failure the
  next validation succeeds without having opened anything, and writes may go through unsaved. A handle that passes
  validation saves for the latest snapshot exactly if its last opening did not fail (`FileSystem.Esfs.Validate`); a
  write through any other leaves the snapshots intact exactly if it changes nothing the latest one needs
  (`FileSystem.Esfs.Write`, with `Runs.StaleHandle` as the run that loses data).
- A snapshot made between the save and the write of a block does not keep the bytes the write changes, while all older
  snapshots do (`Saving.SnapshotOvertakesWrite`, `Saving.OvertakingExample`).
- Opening a file in a snapshot never tests whether it was found anywhere, so opening succeeds for a missing file too, and
  reading it returns the buffer as it was (`FileSystem.Esfs.GetSnSteps`, `FileSystem.Esfs.BRead`).
- Removing a snapshot can fail after it has left the list. If the removal of the only one breaks off, it stays in the list
  and shows the file exactly if nothing of the file's overlay has gone, or the main file is still what it showed
  (`FileSystem.Esfs.SnDestroy`, `Steps.BrokenRemovalExample`).
- The pointer to the latest snapshot can be torn by a failed creation, and is missing after a removal of the only snapshot
  that broke off. Mounting recovers the list exactly if that file has what it should (`Chain.Snapshots.Mount`,
  `Chain.MountExample`).
- A snapshot named like the pointer file of the earliest one hides the end of the list, and nothing can be removed any
  more (`Chain.Snapshots.GetEarliest`, `Chain.BlockedExample`).
- When the only snapshot has been removed, its path still resolves, because the cached path of the latest snapshot
  stays (`Chain.Snapshots.GetPathsTo`, where `Walk` is that path).

## Model

| member | source | states |
|---|---|---|
| Blocks.CalcBlocksExact | block.c:82-84 | a block number lies within the computed bounds exactly when the block holds a byte of the range |
| Store.LookupIsVersion | block.c:166-207 | for any number of layers, the first non-zero pointer from a snapshot towards the main file leads to the byte the file had when that snapshot was made |
| Store.FirstFile | mfd.c:825-827 | a file is found in the first layer that has a dat file, and in no layer before it |
| Store.GetAttrIsVersion | mfd.c:825-841 | existence and size from the first map found, or else from the main file, are those at the moment of the snapshot, also for empty and missing files |
| Store.FirstFileIsVersion | mfd.c:764-788 | skipping layers without a dat file does not change the version found, for a file that had contents |
| Saving.FillFrom | block.c:405-412 | the block read before saving holds every byte the main file has of that block, in its place |
| Saving.EmptyDat | mfd.c:172-180 | a new, empty dat file changes nothing a reader of the snapshot depends on, and its pointers are exactly 1 to the number of its blocks, namely none |
| Saving.AppendBlockWellFormed | block.c:414-448 | appending a block and publishing its pointer keeps pointers distinct and inside the dat file, keeps all earlier ones, and adds one |
| Saving.AppendBlockDense | block.c:421-445 | if the pointers in use are exactly 1 to the number of blocks in the dat file, they are after one more complete save (for all operations and runs: FileSystem.Esfs.BWrite, Runs.Run) |
| Saving.SaveOneMore | block.c:390-448 | one more saved block holds the main file's bytes and disturbs no block saved before |
| Saving.TornAppend | block.c:428-434 | bytes that reach the dat file without a pointer leave everything saved so far readable |
| Saving.SaveKeepsLayer | block.c:405-445 | wherever saving breaks off, the latest snapshot is as readable as before |
| Saving.ChangeIffSaved | fuse_fd_write.c:71-77 | for a latest snapshot with a dat file: a change of the main file leaves it intact if and only if every block it changes below the recorded size has been saved |
| Saving.ChangeMain | fuse_fd_write.c:65-77 | such a change leaves every snapshot intact, not only the latest |
| Saving.ClipIsEnough | block.c:324-334 | a byte that any older snapshot still reads from the main file lies in every later version and below the size the latest header records or will record |
| Saving.UnsavedStillThere | block.c:405-411 | an unsaved block that meets the recorded size is wholly in the main file up to that size, and has the bytes of the version |
| Saving.NeverPastEnd | block.c:405-411 | so no block of a clipped range that has to be saved lies past the end of the main file |
| Saving.PreparedWrite | fuse_fd_write.c:71-77 | a write whose range has been saved leaves every snapshot intact, also when it is cut short |
| Saving.PWriteIsWritten | fuse_fd_write.c:77 | a write gives one file and no other: the data are in their place, everything outside their range stays, a gap after the old end is zeros, and the file ends with the data or where it ended |
| Saving.TruncatedIsResized | fuse_fd_write.c:122 | changing the size gives one file and no other: of that size, with the bytes that fit, and zeros after the old end |
| Saving.RangeMeets | block.c:337-338 | the blocks of a clipped range are blocks with a byte in it |
| Saving.IntactIffUnharmed | fuse_fd_write.c:71-77 | whatever has or has not been saved, with or without a map and dat, a change leaves all snapshots intact if and only if it changes nothing the latest one still reads from the main file |
| Saving.RangeOfBlocks | block.c:324-338 | saving the blocks of the clipped range saves every byte of the range below the recorded size |
| Saving.SnapshotOvertakesWrite | fuse_fd_write.c:65-77 | after a save, a snapshot, and the write: every older snapshot still shows its version; the new one shows the file as it was if and only if the bytes written are those the file had, and differs in exactly the bytes changed |
| Saving.OvertakingExample | fuse_fd_write.c:65-77 | a concrete save, snapshot and write after which the snapshot shows another byte |
| Steps.FreshReadsFirst | mfd.c:595-860 | a freshly opened file reads, byte by byte and in size, as the version of the layer it was found in |
| Steps.FreshFaithfulIff | mfd.c:773-777 | for every file, also one that was missing: opening it in a snapshot gives its version there, or finds nothing if it was missing, if and only if stat reports contents, or no layer from there on has a dat and the main file has the size stat reports, or is missing like it |
| Steps.MissingFileOpens | fuse_path_open.c:154-162 | a concrete file that stat does not find in a snapshot and that opens there with the main file's contents |
| Steps.EmptyFileOpens | mfd.c:164-167 | a concrete file that stat finds empty in a snapshot and that opens there with the main file's bytes |
| Steps.KeptHandleFaithful | mfd.c:521-529 | for a file with contents, a handle that had the latest dat open, or whose file is wholly saved, keeps reading its version whatever writers do until the next snapshot |
| Steps.KeptHandleBreaks | mfd.c:732-736 | otherwise overwriting one byte of the main file, with all snapshots kept intact, makes it read a newer byte or fail |
| Steps.KeptFaithfulIff | mfd.c:732-736 | the two together, as an if and only if on the state at the time of opening |
| Steps.BrokenRemovalIff | snapshot.c:462-465 | when the removal of the only snapshot breaks off, it goes on showing the file if and only if no map or dat that was there has gone, or the main file is still what the snapshot showed |
| Steps.BrokenRemovalExample | snapshot.c:462-465 | a concrete file that was not there when the only snapshot was made, and is found in it once the removal has taken the map |
| Steps.ShowsIffUnharmed | fuse_fd_write.c:77 | after any change of the main file the latest snapshot shows its version if and only if nothing it still needs was changed |
| FileSystem.Esfs.OpenSn | mfd.c:203-411 | after success the handle has the map and dat of the latest snapshot open and caches its header, or there is no snapshot to save for; after a failure at any given point it has nothing open; either way every snapshot stays intact, only the latest layer grows, and the number of the snapshot is noted; no block is saved, and a dat file it makes takes blocks |
| FileSystem.Esfs.OpenLatest | mfd.c:272-397 | the part with the map and the dat: the handle matches what is open, or only the map was made |
| FileSystem.Esfs.MakeMap | mfd.c:329-376 | the new map keeps every snapshot intact, so its header records the version of the latest one; only the latest layer changes |
| FileSystem.Esfs.MakeDat | mfd.c:164-180 | the dat file of a file that had contents is there afterwards, and no snapshot changes |
| FileSystem.Esfs.Validate | mfd.c:485-510 | as long as there is a snapshot to save for, a handle that passes saves for the latest one if and only if the last time its map and dat were opened did not fail; a handle with a descriptor closed before never passes again once a new snapshot is made |
| FileSystem.Esfs.CloseSn | mfd.c:431-450 | closing fails exactly if a descriptor was closed before, or one that is open fails to close |
| FileSystem.Esfs.HandleStays | mfd.c:492 | what is known of an untouched handle stays true while snapshots are made and removed and other handles work |
| FileSystem.Esfs.SaveBlock | block.c:390-448 | saving one block either appends the block and publishes its pointer, or fails leaving at most unreferenced bytes, which is recorded as torn; nothing is appended to a dat file that is not a whole number of blocks; without I/O errors it succeeds if and only if the dat file is a whole number of blocks and the main file has something of the block |
| FileSystem.Esfs.SaveBlocks | block.c:343-452 | with the written-block cache the loop ends in exactly the pointers of one that reads the map for every block; blocks saved before keep their pointers; the cached block is always a saved one; without I/O errors it succeeds on a dat file of whole blocks unless the main file has nothing of a block |
| FileSystem.Esfs.BWrite | block.c:299-466 | on success through an open dat every block of the range below the recorded size is saved; wherever it fails all snapshots stay intact and only blocks of the range have gained pointers, to copies of the main file; pointers stay exactly 1 to the number of blocks unless an append is cut short or its pointer is not published; a dat file that is not a whole number of blocks is left alone, and a range that still needs saving is then refused; the main file always has something of a block to be saved for an intact snapshot; only blocks with a byte of the range below the recorded size are saved; without I/O errors and with a dat file of whole blocks it succeeds |
| FileSystem.Esfs.SaveRange | block.c:337-452 | the same for the clipped range |
| FileSystem.Esfs.SaveIfUnsaved | block.c:355-448 | one round of the loop carries its invariant to the next block, or breaks off with everything saved so far in order |
| FileSystem.Esfs.BTruncate | block.c:475-490 | on success everything from the new size to the recorded size is saved; no other blocks are saved, and without I/O errors it succeeds on a dat file of whole blocks |
| FileSystem.Esfs.SaveForWrite | fuse_fd_write.c:65-75 | for any handle: validating and saving keep every snapshot intact; if the handle is not one whose opening failed, the latest one is prepared for the write, and a write that still needs saving into a dat file that is not a whole number of blocks is refused |
| FileSystem.Esfs.SaveIfValid | fuse_fd_write.c:71-75 | the same for the part after validation |
| FileSystem.Esfs.Write | fuse_fd_write.c:49-89 | for any handle: on success the data, as far as they were written, are in their place in the main file, all else in it stays, and a gap after its old end is zeros; on error it is unchanged; only blocks with a byte of the range below the recorded size are saved; all snapshots stay intact if and only if nothing the latest one needs was changed, and always if the last opening for the handle did not fail; through such a handle the write succeeds when nothing fails and the dat file is a whole number of blocks, and is refused and changes nothing when it is not and something still needs saving; a read-only handle is refused |
| FileSystem.Esfs.FinishWrite | fuse_fd_write.c:77-88 | the write to the main file after whatever was saved, with the same effect: all snapshots stay intact if the range is prepared, and otherwise if and only if nothing needed is changed |
| FileSystem.Esfs.SaveForTruncate | fuse_fd_write.c:111-120 | the same as SaveForWrite, for everything a truncation would cut off |
| FileSystem.Esfs.TruncateIfValid | fuse_fd_write.c:117-120 | the same for the part after validation |
| FileSystem.Esfs.Ftruncate | fuse_fd_write.c:104-125 | for any handle: on success the main file has the new size, with the bytes that fit and zeros after its old end, and is unchanged on error; only blocks with a byte that is cut off are saved; snapshots stay intact, and it succeeds or is refused, exactly as for Write |
| FileSystem.Esfs.FinishTruncate | fuse_fd_write.c:122-124 | the change of size after whatever was saved, with the same effect and the same condition for snapshots |
| FileSystem.Esfs.OpenTruncateClose | fuse_path_open.c:41-100 | the latest snapshot has everything a truncation would cut off, also when the main file no longer exists; no other blocks are saved; without I/O errors it succeeds if there is no snapshot or its dat file is a whole number of blocks |
| FileSystem.Esfs.Truncate | fuse_path_write.c:180-201 | the same effect by path; every snapshot stays intact; without I/O errors it succeeds, if saving can, exactly when the file exists |
| FileSystem.Esfs.Unlink | fuse_path_write.c:156-176 | the main file is gone, or unchanged on error; every snapshot stays intact; without I/O errors it succeeds, if saving can, exactly when the file exists |
| FileSystem.Esfs.Create | fuse_path_open.c:257-324 | the main file is empty, or unchanged on error; every snapshot stays intact and the handle is up to date; without I/O errors it succeeds if saving can |
| FileSystem.Esfs.EmptyOut | fuse_path_open.c:282-298 | the part after the map has been opened |
| FileSystem.Esfs.Open | fuse_path_open.c:170-237 | on success the file exists and the handle is up to date; every snapshot stays intact |
| FileSystem.Esfs.SnCreate | snapshot.c:337-425 | a new snapshot is the main file as it is, and all older ones stay intact |
| FileSystem.Esfs.SnDestroy | snapshot.c:436-479 | the earliest snapshot leaves the list on success, and also when the removal of one of several breaks off; the others stay intact; when the removal of the only one breaks off it stays, and shows the file if and only if nothing of the overlay has gone or the main file is still what it showed |
| FileSystem.Esfs.Getattr | fuse_path_read.c:64-75 | in a snapshot that no removal has touched, the size, or absence, the file had when the snapshot was made, unless I/O fails |
| FileSystem.Esfs.GetSnSteps | fuse_path_open.c:154-164 | unless I/O fails, opening succeeds, also when the file is found nowhere; the handle has open exactly the maps and dats there are from the snapshot on, and is placed at the first layer with a dat; its size means nothing if there is none and no main file |
| FileSystem.Esfs.PRead | block.c:211-216 | bytes up to the end of the file, in the right part of the buffer and nowhere else |
| FileSystem.Esfs.ReadPiece | block.c:165-246 | part of a block comes byte for byte from the layered lookup, and without I/O errors a failure means that the lookup has no byte there |
| FileSystem.Esfs.ReadLength | block.c:111-123 | the number of bytes is at most what was asked for and what there is, and less than was asked for only at the end of the file |
| FileSystem.Esfs.BRead | block.c:92-252 | the pieces tile the buffer without gap or overlap; as many bytes are returned as were asked for, or all to the end of the file; the rest of the buffer is untouched; for a file found nowhere all of it is |
| FileSystem.Esfs.Read | fuse_fd_read.c:79-88 | through a handle that reads as a file, the bytes of that file from the offset on, as many as were asked for or all to its end, unless I/O fails; refused after a new snapshot |
| Runs.OpenStep | fuse_path_open.c:170-324 | opening and creating have their effect on the main file, or none on failure, and keep all handles and snapshots good; pointers never change, and a torn save is reported |
| Runs.HandleStep | fuse_fd_write.c:49-125 | so do writing and truncating through any of many handles, except that after a failed opening they may harm the latest snapshot, and then it no longer shows its version |
| Runs.PathStep | fuse_path_write.c:56-201 | so do the operations by path; a new snapshot is of the main file of that moment, and a removal takes exactly the earliest off the list, with or without an error, or damages the only one |
| Runs.Step | README.md:43-50 | all of this for any operation; one that nothing stands in the way of is done |
| Runs.UntornTakesSaves | block.c:421-426 | as long as no save was torn, the dat file of the latest snapshot takes blocks |
| Runs.RunStep | README.md:43-50 | one more operation carries the history of a run on |
| Runs.ValidIsFaithful | README.md:47-50 | in a valid state every snapshot that no removal has touched shows existence and size by stat, and by opening the contents of each file that had any, as they were |
| Runs.HarmIsSeen | fuse_fd_write.c:77 | a change that does not spare what the latest snapshot needs shows in that snapshot |
| Runs.Run | README.md:43-50 | after any sequence of operations, failing anywhere, up to the first that harms a snapshot: each had its effect on the main file or none; the snapshots are of the main file at the moments they were made; exactly those counted have left the list; all that no removal has touched show the file as it was, if and only if the last operation was not a harmful one, and then the state is valid and can be read from; from any moment to any later one pointers never change and dat files only grow; and unless a save was torn, the pointers into each dat file are exactly 1 to the number of its blocks |
| Runs.ReadBack | README.md:47-50 | opening and reading a file that had contents gives its bytes from the offset on, as many as were asked for or all to its end, unless I/O fails |
| Runs.StaleHandle | mfd.c:233 | for any file, data and offset: a file is opened, a snapshot made, a write fails opening the map, and the next write succeeds unsaved; the snapshot then shows the file if and only if the bytes written are those it had |
| Runs.StaleHandleExample | block.c:318 | a concrete such run after which the snapshot does not show the file |
| Runs.KeptHandle | mfd.c:732-736 | for any file with contents, data and offset: a snapshot is made, the file opened in it, then opened for writing and written to without I/O errors; the write succeeds, the snapshot shows the file as it was, and the handle opened before does if and only if no byte was overwritten by another |
| SaveProtocol.NextGood | block.c:343-463 | every step of every thread keeps the snapshot readable, uses the lock as a lock, and touches the overlay only under it |
| SaveProtocol.ThreadStable | block.c:73-78 | what a thread relies on between its steps survives the steps of others |
| SaveProtocol.PublishKeepsLayer | block.c:437-445 | a published pointer leads to the bytes of the version |
| SaveProtocol.NextByte | block.c:186-216 | the next byte a reader takes under the lock, from dat or main file, is a byte of the version |
| SaveProtocol.RunInv | block.c:62-79 | the invariant holds in every state of every interleaving |
| SaveProtocol.FirstOpenerStarts | mfd.c:262-411 | when the first of any number of racing openers has finished, the overlay and the main file are such that any interleaving of writers and readers can start from there |
| SaveProtocol.ConcurrentSaveSafety | block.c:62-79 | in every state of every interleaving of any number of writers, truncators and readers, published pointers lead to the bytes of the snapshot and no reader has got anything else |
| SaveProtocol.PointersStay | block.c:45-48 | in every run pointers never change once set and the dat file only grows |
| SaveProtocol.NextWhenTorn | block.c:421-426 | no thread can save while the dat file is not a whole number of blocks |
| SaveProtocol.TornForGood | block.c:421-434 | after a short append nothing is saved any more, in any continuation of any run |
| SaveProtocol.TornRefuses | block.c:421-434 | so in any continuation a thread changes the main file only if all its range needs had been saved before |
| SaveProtocol.AllSnapshotsSafe | block.c:166-207 | in every state of every interleaving every byte of every older snapshot can be looked up, too |
| SaveProtocol.OlderSavedRead | block.c:182-199 | a reader of any snapshot that finds a pointer in an older map gets the bytes of its own version there |
| SaveProtocol.OlderReaderSafe | block.c:172-216 | one that finds none takes the lock at the latest layer, and in every state of every interleaving what it has read is exactly its own version |
| SaveProtocol.OlderReaderStarts | block.c:172-180 | what it asks for there lies within the version of the latest snapshot |
| SaveProtocol.JobFinishes | block.c:343-466 | whatever other threads are in the middle of, if the lock is free and the dat file is a whole number of blocks, a thread can write or truncate on its own: everything its range needs is saved, and then the main file is changed as by one write or truncation |
| SaveProtocol.TaskFinishes | block.c:343-466 | the same from any point of the block loop or of the change |
| SaveProtocol.WriteOneByOne | fuse_fd_write.c:77 | writing byte by byte is writing |
| SaveProtocol.ReaderFinishes | block.c:170-236 | a thread can likewise read any part of a block on its own, and gets all of it |
| LockTable.OthersUndisturbed | mflock.c:204-213 | a step of one thread does not invalidate what another has established, not even half of a scan under the guard |
| LockTable.LabelStep | mflock.c:261-269 | labelling a slot, and taking the label back, keep labels unique and touch only a slot whose mutex the thread has |
| LockTable.NextInv | mflock.c:195-316 | every step of locking and unlocking keeps the invariant, for any values of the want counters and with mutexes left behind by failed rechecks |
| LockTable.RunInv | mflock.c:195-316 | so it holds in every state of every run |
| LockTable.LabelUniqueness | mflock.c:237-269 | no label ever sits in two slots |
| LockTable.MutualExclusion | mflock.c:187-316 | for each label at most one thread is between the success of lock and the return of unlock; until it takes the label back, its slot has the label and is locked by it |
| LockTable.LockFinishes | mflock.c:195-282 | a thread alone can lock any label: it takes over the slot that has it, if its mutex is free, and otherwise labels the first free slot, if the guard is free |
| LockTable.UnlockFinishes | mflock.c:291-316 | and can unlock it, with the label taken off, if the guard is free, or left for others |
| Openers.NextInv | mfd.c:262-411 | every step of racing openers keeps the invariant |
| Openers.RunInv | mfd.c:262-411 | so it holds in every state of every run |
| Openers.HeaderTruth | mfd.c:262-265 | at most one header is ever written, it records existence and size as the snapshot found them, and every thread that finished opening has that header and the dat it needs |
| Openers.UntouchedTillOpened | mfd.c:262-265 | the main file is as the snapshot found it until a thread has finished opening |
| Openers.OpenerFinishes | mfd.c:262-411 | in every state in which the lock is free a thread can finish opening on its own, with the header of the version and the dat it needs |
| Chain.VisitIsList | snapshot.c:42-47 | following pointer files from any snapshot visits it and every older one, once each, newest to oldest |
| Chain.EarliestHasNoPointer | snapshot.c:132-136 | the earliest snapshot has no pointer file |
| Chain.BlockedExample | snapshot.c:361-374 | a concrete list whose end cannot be found |
| Chain.Extended | snapshot.c:357-398 | the directory, pointer and latest pointer of a new snapshot make the list one longer |
| Chain.Shortened | snapshot.c:472-476 | without the pointer to the earliest snapshot the list is one shorter, whether or not the directory is removed |
| Chain.Snapshots.Mount | snapshot.c:257-278 | mounting fails exactly if the pointer to the latest snapshot is torn, and recovers the list on disk if and only if that pointer file has the path of its first snapshot, or is missing and there is none |
| Chain.MountExample | snapshot.c:266-270 | a concrete snapshot that is on disk and lost by mounting |
| Chain.Snapshots.Follow | util.c:442-472 | reading the pointer file of a snapshot on the walk gives the next older one |
| Chain.Snapshots.GetEarliest | snapshot.c:118-147 | finds the earliest snapshot and the pointer to it, unless I/O fails exactly when the list is not too long and its end is recognisable |
| Chain.Snapshots.GetPathsTo | snapshot.c:161-244 | the steps are the root and then the snapshots from the latest back to the one asked for; unless I/O fails it is found exactly when it is on the walk within the bound; a path outside any snapshot is refused |
| Chain.Snapshots.WalkTo | snapshot.c:183-243 | the same, within the growing array |
| Chain.Snapshots.SetLatest | snapshot.c:292-328 | the latest snapshot on disk and in memory, or only the file on disk torn; without I/O errors it fails only if a directory is in the way |
| Chain.Snapshots.CreateFirst | snapshot.c:407-422 | the list becomes the new snapshot, or nothing but the latest pointer changes |
| Chain.Snapshots.CreateNext | snapshot.c:358-405 | the new snapshot is put in front with a pointer to the latest so far, or nothing but the latest pointer changes |
| Chain.Snapshots.Create | snapshot.c:337-425 | the same for any list, with the name required to be new; without I/O errors it succeeds if and only if the name is new, is not that of the pointer to the latest snapshot, and has no pointer file yet when one is needed |
| Chain.Snapshots.DestroyOnly | snapshot.c:454-468 | the list becomes empty, with the directory and the pointer to the latest gone; on an error it stays |
| Chain.Snapshots.DestroyEarliest | snapshot.c:470-478 | the list loses its earliest snapshot and nothing else, also when the directory cannot be removed; nothing changes when the pointer cannot be |
| Chain.Snapshots.Destroy | snapshot.c:436-479 | on success removes precisely the earliest snapshot and the pointer to it; once begun, the earliest of several is off the list even if its directory cannot be removed; changes nothing when the end of the list cannot be found; without I/O errors it succeeds if and only if there is one, the end of the list can be found, and for the only one the pointer to the latest is there |
| Chain.RunList | snapshot.c:42-47 | after any sequence of making and removing snapshots, failing anywhere, following the pointers from the latest visits exactly those made and not removed, newest first |
| Volume.Mounted.MakeSnapshot | fuse_path_write.c:56-71 | the name is put in front of the list together with a snapshot of the main file as it is, or neither; without I/O errors a name that is free is accepted |
| Volume.Mounted.RemoveSnapshot | fuse_path_write.c:95-107 | the list and the overlays lose the same snapshot, or none |
| Volume.Mounted.RemoveLayer | snapshot.c:454-478 | what a removal, as it went, does to the overlays |
| Volume.Mounted.Resolve | mfd.c:615-628 | the path of the file in a snapshot of a given name leads to the overlays of the snapshot made under that name |
| Volume.Mounted.Read | README.md:47-50 | reading "/snapshots/ID/path" gives the bytes the main file had when ID was made, from the offset on, as many as were asked for or all to its end |
| Volume.Mounted.Stat | README.md:47-50 | stat on that path gives existence and size at that moment |
| Volume.Mounted.FileStep | fuse_fd_write.c:49-125 | operations on the file keep the list and the overlays together |
| Volume.FileStep | fuse_fd_write.c:49-125 | any operation on the file, through any handle, keeps the mounted file system valid unless it is harmful |
| Volume.MakeStep | fuse_path_write.c:56-71 | making a snapshot by name keeps it and all open handles valid |
| Volume.RemoveStep | fuse_path_write.c:95-107 | so does removing the earliest, which leaves the list, with or without an error, or is damaged, or stays |
| Volume.Step | README.md:43-50 | all of this for any operation |
| Volume.Run | README.md:43-50 | after any sequence of making and removing snapshots by name and operations on the file, failing anywhere, up to the first harmful one: each had its effect, the snapshots are those made under their names of the main file of that moment, those removed are counted, and the state is valid unless the last operation was harmful |
| Volume.ReadAfter | README.md:47-50 | after any such run that did not end in harm, reading "/snapshots/ID/path" gives exactly the bytes the main file had when ID was made, at every offset and length, for every ID that no removal has touched |
| Listing.ReadOverlay | fuse_fd_read.c:155-283 | unless an error breaks it off, a plain name is listed exactly when it was not seen before and its map says it existed, and is seen afterwards either way |
| Listing.ReadEntry | fuse_fd_read.c:176-245 | the name an entry makes seen, if it is new, and whether it is listed |
| Listing.ReadOverlays | fuse_fd_read.c:143-287 | after all overlays, what has been seen and listed agrees with the first map of each name, and subdirectories without a map have been listed |
| Listing.ReadMainDir | fuse_fd_read.c:227-281 | names of the main directory not seen before are listed |
| Listing.VerdictIsStat | fuse_path_read.c:64-75 | the first map among the overlays decides for stat, too |
| Listing.StatIsTruth | fuse_path_read.c:70-75 | stat finds a file exactly when it was there at the moment of the snapshot |
| Listing.FilterNameIs | mfd.c:83-93 | a name is hidden exactly if it is another one with .dat after it, and stripped exactly if it is another one with .map after it |
| Listing.SnReaddir | fuse_fd_read.c:110-294 | each name is listed at most once, and, unless an error breaks off the listing, a plain name exactly when stat finds the file in that snapshot; a name with .dat or .map at its end only if stat finds a file of that very name; subdirectories of which there is no map are listed |
| Paths.FindSlash | util.c:366-367 | the first slash from a position on |
| Paths.FullIffRebuilds | util.c:352-395 | a path decomposes into a snapshot and a path in it if and only if it is "/snapshots" followed by them |
| Paths.IdIffRebuilds | util.c:369-386 | a path is that of a snapshot if and only if it is "/snapshots" and the name, with or without a final slash |
| Paths.Djb2 | util.c:404-416 | the result is the polynomial at 33 whose coefficients are 5381 and then the characters of the string five times over, modulo 2^64 |
| Paths.LockLabel | util.c:422-429 | the label is the hash, or 1 in its place, so it is never 0 and fits in 64 bits |
| Paths.SharedLabel | mfd.c:235 | a reader in any snapshot and a writer of the main file derive the same label |

## Left out

- Deadlock freedom and fairness of the lock table: a failed recheck keeps a mutex, so beyond safety it is only stated that
  a thread alone can finish.
- The locks of `SaveProtocol` and `Openers` are taken to be locks. That the table provides one per label is
  `LockTable.MutualExclusion`, and that threads on one file use one label is `Paths.SharedLabel`.
  `SaveProtocol.FirstOpenerStarts` hands over from one system to the next; they are not composed into one. Creating and unlinking are not among the
  concurrent jobs. Failures of mutex operations themselves are not modelled.
- Directories as versioned objects: overlay directories stand in for the originals, and names of directories that end in
  .map or .dat are excluded. The listing of a name that is also an overlay directory depends on the order of entries
  and is not stated.
- Time stamps, ownership, permission bits and access checks.
- Several paths at once: paths have separate overlays, so one path is modelled.
- Making a snapshot while a write is under way, beyond `Saving.SnapshotOvertakesWrite`.
- Write handles on an unlinked file: all handles are given up when the file is unlinked.
- Numbers of closed descriptors that are given out again: a handle that kept one gets errors when it uses it.
- Stat, opening in a snapshot and listing at the same time as a first write: their walks over the layers are single steps.
- A snapshot damaged by a removal that broke off: what it shows right after is stated, but what is saved for it and read
  from it later is not followed, and `intact` excludes it from what is promised.
- Partial writes of a map pointer or header: each is written whole, or not at all.
- Path length limits, integer overflow, memory, O_APPEND, and shifts and masks as machine operations: sequences,
  mathematical integers, division and remainder are used instead. Error codes of system calls are one value, EOther.
- FUSE plumbing, logging, options, flush, fsync and unsupported operations; making parent directories of overlays.
- Volume.Run: stops where Runs.Run does.
- Runs.Run: stops at the first operation that harms a snapshot, which can only be one through a handle whose opening failed.
- Chain.Snapshots.CreateFirst: removing the directory again after a failure is taken to succeed.
- Chain.Snapshots.CreateNext: removing the directory and the pointer again after a failure is taken to succeed.
- Chain.Snapshots.Create: the same as CreateFirst and CreateNext.
- Chain.Snapshots.DestroyOnly: the contents of the directory are not part of the list, so that it may be removed in part is
  in FileSystem.Esfs.SnDestroy instead.
- LockTable.NextInv: the want counters are not part of the state; every choice they could steer is allowed.
- Paths.LockLabel: says nothing about collisions, which only make two files share a lock.
