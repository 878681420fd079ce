# Verified models of the file system and the wait protocol

A Dafny model of the four parts of the operating system that carry the most state, and proofs about them.
`dafny verify dfyconfig.toml` checks everything.

1. **The FatFs volume core** (`Words`, `Geometry`, `FsInfo`, `Window`, `FatEntry`, `Chains`, `Alloc`, `FileData`, `Cursor`,
   `File`, `Seek`, `DirTable`, `Dir`, `LinkMap`, `Pattern`). `FatFs` is the mounted volume: one write-back sector window in
   front of a drive that holds one or two FATs. Its abstract value is `View()`, the window laid over the drive. On top of
   it come the packed FAT entries, the FAT as a sequence of numbers, the cluster chains on that sequence, the bytes of a
   file along its chain, and the entries of a directory. Each layer refines the one above it, so the contracts of
   `Fil.Read`, `Fil.Write`, `Lseek` and `Truncate` speak only of byte strings, chains and positions, and those of
   `Directory` of a map from names to entries. `Untouched` and `OthersKept` say what a file and a directory operation
   leave alone: every disjoint chain with all its bytes, every FAT entry that belongs to neither the old nor the new
   chain, the reserved sectors, and the static root directory unless it is the one worked on.
   The fast-seek link map and the wildcard matcher are switched off in the shipped configuration and are modelled with
   their switches on.
2. **Segmented buffers** (`FsBuffer`, `BufferList`, `Buffers`). A list of segments drawn from a pool behaves as one flat
   byte sequence, whatever the segmentation; `Dataset` is any number of such lists on one pool, where no operation on one
   list reaches another and no segment is ever lost.
3. **The pipe** (`Pipe`). A ring of bytes of any size, with in-band headers, refines a queue of byte strings.
4. **The kernel wait protocol** (`Scheduler`, `Wait`, `KernelWaits`, `Semaphore`, `SemaphoreWaits`, `Exclusion`). The ready
   list and the sleep list as the classes the tick works on; suspension, release and timeout as a step relation with an
   invariant over all runs. A task that has been resumed takes the locks of its conditions again before it leaves their
   suspend lists, and may have to wait for them: a task is a stack of waits. `KernelWaits` shows a pass over the sleep list
   to be a run of these steps. On top of them semaphores, each of whose steps is proved to be a run of the wait protocol.
   `Exclusion` goes below the steps of a semaphore: tasks with lock counts, preempted whenever their count is 0, refine
   them.

The configuration is that of `3rdparty/fatfs/ffconf.h`: 512-byte sectors, one shared window (tiny mode), no long names, no
exFAT, no file locks, code page 1. The standard behind the FAT layout is the Microsoft FAT32 File System Specification,
version 1.03, sections "FAT Data Structure", "FAT Type Determination" and "FAT Directory Structure".

Conventions. The functions that contracts speak of are tied to the disk, the memory and the numbers of the source by lemmas
that do without them: `ClusterPlace`, `PackedPair`, `NewEntryBytes`, `OnDisk`, `RoomLeft` and others. Classes hold the
fields the source updates in place; loops of the source are loops. A ghost field `chain` names the cluster chain of a file
or directory object. `hide` in front of a proof keeps definitions it does not need away from the verifier. Source
assertions are preconditions when they bind the caller, and proved when they do not.

What the proofs show about the source beyond its own comments:

- Finite waits can lose a wake-up: an expired waiter that has not run yet uses up the budget of a release
  (`rtos/kernel/semaphore.c:190-197` counts before `rtos/kernel/condition.c:619` rejects). `FiniteWaitsLose` is such a
  run, and `ReleaseLoses` the exact condition.
- The mount code accepts volumes with an unsound layout: its 32-bit sums may wrap (`WrappedFatIsMounted`), and it never
  compares the cluster count with MAX_FAT32 (`TooManyClustersAreMounted`). `MountedIsSound` is the exact condition.
- `sync_fs` writes the sector after the boot sector whatever it is. On a FAT32 volume with FSInfo and a single reserved
  sector, which is accepted (`OneReservedIsMounted`), that is the first sector of the FAT; `SectorOneInFat` and
  `FatAfterSync` say when the FAT survives and what is lost when it does not.
- The free-cluster count goes wrong when the first cluster of an empty volume is allocated, because the guard at
  `3rdparty/fatfs/ff.c:1379` is strict (`CountGoesWrong`); `CountAfterCreate` is the exact condition.
- `CREATE_LINKMAP` reports an internal error on an intact chain that ends in the last cluster of the volume with the end
  mark `n_fatent` (`AnUnendedChain`), because the mark then looks like the next cluster; `UnendedOnlyAtTheEnd` and
  `CreateLinkMap` say so. Conforming volumes have no such chain: it takes more clusters than MAX_FAT12, MAX_FAT16 or
  MAX_FAT32 allow, or an end mark the FAT specification does not (`ConformingIsEnded`).
- The count goes wrong as well when `remove_chain` is told to end a chain at a free cluster (`RemoveGoesWrong`);
  `CountAfterRemove` is the exact condition. On an intact FAT no caller does so.
- `pipe_write` does not ask whether a message fits into an empty pipe. The pipe is in order afterwards if and only if it
  fits with header and padding (`PipeFile.Write`). In a pipe whose size is no multiple of 8 it can fit without its padding
  only; the free position then lies inside its own header, the next message is let in on top of it, and what is read was
  never written (`WrongMessageRead`).
- The second half of the test at `rtos/kernel/condition.c:619` is needed, and this is when it decides: a task that waits
  for a condition lock at the end of a wait is suspended, and still on the lists of that wait (`SecondHalfDecides`,
  `SecondHalfNeeded`, `LockWaitHappens`, `WithoutSecondHalf`). Nothing stops the lock from waiting for a condition on whose
  list the task still is; `EnlistNeedsApart` says that it must not.
- `INT32CMP` is no order for ticks half a turn apart (`HalfATurnApart`), and a sleep of more than half a turn ends at once
  (`DueAtOnce`).
- A new head segment gets no head room, although the comment at `rtos/fs/fs_buffer.c:1311` says that it gets all of it:
  the length passed is 0. The push that follows shifts nothing, since the segment is empty, and is correct either way.
- `fs_buffer_add_head` compares with all the space of a segment, not with its tail room; `Segment.AddHead` has the exact
  condition, which its callers meet, and `HeadBehindEnd` and `Segment.ShiftRoom` inputs that do not.
- Up to 4085 clusters are FAT12 and up to 65525 FAT16 (`Accepts`), one more than the FAT specification has it, as
  `3rdparty/fatfs/ff.c:380` notes.
- The FAT entry count wraps for 0xFFFFFFFE and 0xFFFFFFFF clusters (`EntryCount`).
- `rtos/kernel/condition.c:538` compares `*num` with NULL where `num` itself is meant.

## Main results

- Which volumes are accepted, and as what: `Accepts`, `MountedAs`, `MountedIsSound`, `MountedIsVolume`.
- The window is invisible: `SyncWindow`, `MoveWindow`, `ReadDirect`, `WriteDirect`; two equal FATs stay equal on the drive.
- FAT entries: `GetAfterPut`, `OthersAfterPut`, `ReservedAfterPut`, and `GetFat` and `PutFat` through the window; on
  the bytes of the FAT, `PackedPair` and `EntryBytes`.
- Chains: `CreateWellFormed`, `RemoveWellFormed`, `SearchExhaustive`, `WalkCounts`, `FreeConserved`; the exact conditions
  for the free-cluster count, `CountAfterCreate` and `CountAfterRemove`.
- Files as byte strings: `Read`, `Write`, `Lseek`, `Truncate`, with `OtherFileKept`, `OtherTableKept` and
  `ChainsKeptWellFormed` for everything else on the volume; where those bytes are, `ByteOnDisk` and
  `ConsecutiveFile`; `GrownLength` and `LandsAt` for how far a seek can grow a file.
- Directories as finite maps: `Register`, `Remove`, `Find`, `StepTo`, with the same three lemmas for everything else.
- `CreateLinkMap` and `ClmtClust` as a run-length code of the chain, `Matches` as a decision procedure for the glob.
- Buffers as flat byte sequences: `PushHead`, `PushTail`, `PullHead`, `DropTail`, `Peek`, `Update`, `PushAndPull`; many
  lists on one pool, over any sequence of operations: `Dataset.Run`.
- Pipes as queues: `PipeFile.Write`, `PipeFile.Read`.
- The clock: `ProcessTick`, `NextTask`, `Scheduler.Live` across the 32-bit wrap; `KernelWaits.PassIsRun`.
- Waiting: `Wait.RunsAreSafe`, `ReadyOncePerSuspension`, `WinnerStays`, `NothingLeftBehind`, `GoesOnFrom`,
  `SecondHalfDecides`;
  `Semaphore.RunsAreSafe`, `MaxWaitNeverLoses`, `ReleaseLoses`, `FiniteWaitsLose`; `HistoryIsRun`; `NobodyBetween`,
  `EventRefines` and `Exclusion.RunsAreSafe`.

## Model

| member | source | states |
|---|---|---|
| `Words.LoadStoreDword` | 3rdparty/fatfs/ff.c:613-658 | Reading a 32-bit little-endian word gives back the word that was stored, and its bytes are its digits to the base 256, the lowest first. |
| `Words.LittleEndian` | 3rdparty/fatfs/ff.c:613-632 | The least significant byte of a word comes first. |
| `Words.MaskIsRemainder` | 3rdparty/fatfs/ff.c:3480 | ANDing with csize - 1 is the remainder modulo csize, for every power of two: the sector offset inside a cluster. |
| `Words.PowerOfTwoTest` | 3rdparty/fatfs/ff.c:3083 | The mount test x & (x - 1) == 0 accepts exactly the powers of two. |
| `Words.SmallPowers` | 3rdparty/fatfs/ff.c:3083 | The cluster sizes that fit into a byte are 1, 2, 4, 8, 16, 32, 64 and 128 sectors. |
| `Geometry.EntriesFit` | 3rdparty/fatfs/ff.c:3104-3119 | For FAT12, FAT16 and FAT32, up to the largest cluster count with an end mark of its own, the size check at mount holds if and only if the last byte of the last FAT entry lies inside the FAT. |
| `Geometry.Accepts` | 3rdparty/fatfs/ff.c:3072-3119 | A boot record is accepted if and only if, in its own fields: sectors of 512 bytes, one FAT or two, 1, 2, 4, ... or 128 sectors to the cluster, whole sectors of root entries, reserved sectors, room for a cluster behind a system area counted modulo 2^32; root entries with up to 4085 clusters (12 bits an entry) or 65525 (16 bits), else no root entries and version 0 (32 bits); and a FAT with room for two entries more than clusters, where only the FAT32 byte count can wrap. |
| `Geometry.MountedAs` | 3rdparty/fatfs/ff.c:3099-3118 | The layout mounted from an addressable boot record: the sub-type of its number of clusters, FAT behind the reserved sectors, data behind FATs and root entries, and the root directory before the data or, on FAT32, at the cluster named. |
| `Geometry.FatBits` | 3rdparty/fatfs/ff.c:3110-3119 | The size check at mount, counted in bits of 12, 16 or 32 to the entry. |
| `Geometry.MountedIsSound` | 3rdparty/fatfs/ff.c:3072-3119 | A volume the mount code accepts has its areas in order, its FAT where the reserved sectors end, its clusters inside the volume, a power-of-two cluster size, root entries that fill sectors and an end mark above every cluster number if and only if, in exact arithmetic, its system area is inside the volume, it has at most 0xFFFFFFD clusters, and its last sector has a 32-bit number. |
| `Geometry.EntryCount` | 3rdparty/fatfs/ff.c:3104 | The number of FAT entries is the cluster count plus 2 if and only if that sum has 32 bits; it wraps for 0xFFFFFFFE and 0xFFFFFFFF clusters. |
| `Geometry.WrappedFatIsMounted` | 3rdparty/fatfs/ff.c:3073-3104 | A volume whose two FATs of 2^31 sectors each add up to 0 is accepted, with its data area where its FAT begins. |
| `Geometry.TooManyClustersAreMounted` | 3rdparty/fatfs/ff.c:3096-3104 | A volume with 2^28 clusters is accepted, and the end mark is the number of one of them. |
| `Geometry.SectorOneInFat` | 3rdparty/fatfs/ff.c:3091-3106 | On an addressable volume the sector after the boot sector, where the FSInfo sector is taken to be, belongs to the FAT exactly when no other sector is reserved. |
| `Geometry.OneReservedIsMounted` | 3rdparty/fatfs/ff.c:3091-3106 | Such a FAT32 volume is accepted. |
| `Geometry.EocAboveClusters` | 3rdparty/fatfs/ff.c:3099-3104 | With the sub-type the mount code picks for a cluster count, the end mark put_fat stores is the number of no cluster if and only if there are at most 0xFFFFFFD clusters; up to MAX_FAT32 clusters neither the bad mark nor any other end mark is one either. Bad mark and end mark are 0xFF7 and 0xFFF, 0xFFF7 and 0xFFFF, 0xFFFFFF7 and 0xFFFFFFF. |
| `Window.FatAreaTest` | 3rdparty/fatfs/ff.c:885 | The unsigned comparison wsect - fatbase < fsize is the range test for the first FAT, also below fatbase. |
| `Window.StoreKeepsMirror` | 3rdparty/fatfs/ff.c:885-890 | A store with its reflection keeps two equal FATs equal, and doing it twice changes nothing more. |
| `Window.FatFs.constructor` | 3rdparty/fatfs/ff.c:3103-3142 | A mounted volume starts with a clean window through which the drive is seen as it is, whether or not its FAT copies agree; both counters come from the FSInfo sector of a FAT32 volume that has one and carries its signatures, and are unknown otherwise. |
| `Window.FatFs.SyncFs` | 3rdparty/fatfs/ff.c:931-959 | sync_fs leaves the volume on the drive; when the counters have changed on a volume with FSInfo, the sector after the boot sector becomes an FSInfo sector with them, and no other sector changes. |
| `Window.Remount` | 3rdparty/fatfs/ff.c:931-959 | The next mount of a volume that sync_fs has written sees the same volume and the same counters. |
| `FsInfo.Fill` | 3rdparty/fatfs/ff.c:942-948 | The sector made up has the three signatures, both counters where a mount reads them, and zeros everywhere else. |
| `FsInfo.OnDisk` | 3rdparty/fatfs/ff.c:3132-3142 | A sector is taken for FSInfo if and only if it has RRaA at 0, rrAa at 484 and 55 AA at 510; then the count of free clusters is the little-endian word at 488 and the last cluster the one at 492, and otherwise both are unknown. |
| `FatEntry.FatAfterSync` | 3rdparty/fatfs/ff.c:941-953 | The FAT survives sync_fs when more than the boot sector is reserved; otherwise the clusters whose entries lie between the signatures all become free. |
| `Window.FatFs.SyncWindow` | 3rdparty/fatfs/ff.c:870-894 | The volume seen through the window does not change; afterwards the drive is that volume, the window is clean, and the FATs agree if they did when the volume was mounted. |
| `Window.FatFs.MoveWindow` | 3rdparty/fatfs/ff.c:899-920 | The volume seen does not change, and the window holds the sector asked for as the volume has it; when it is already there nothing at all happens. |
| `Window.FatFs.Relabel` | 3rdparty/fatfs/ff.c:3639-3642 | Giving the window another number without loading it changes the volume at that one data sector and nowhere else. |
| `Window.FatFs.PatchSector` | 3rdparty/fatfs/ff.c:3638-3657 | The bytes written appear at their offset; no other sector changes; outside the growing edge no other byte of the sector changes either. |
| `Window.FatFs.CopyIn` | 3rdparty/fatfs/ff.c:3656-3657 | Copying into the window changes exactly those bytes of the volume and makes the window dirty. |
| `Window.FatFs.WriteDirect` | 3rdparty/fatfs/ff.c:3621-3627 | A direct multi-sector write replaces exactly those sectors of the volume, even when the (dirty) window holds one of them. |
| `Window.FatFs.Refresh` | 3rdparty/fatfs/ff.c:3624-3627 | The window takes the written data and becomes clean exactly when its sector was among those written. |
| `Window.FatFs.ReadDirect` | 3rdparty/fatfs/ff.c:3506-3512 | A direct multi-sector read returns the bytes of the volume, dirty window included, and touches no other byte of the buffer. |
| `Window.FatFs.Poke` | 3rdparty/fatfs/ff.c:1082-1083 | Setting one byte of the window and the dirty flag stores that byte in the volume, in both FATs. |
| `Window.FatFs.PokeBytes` | 3rdparty/fatfs/ff.c:2328-2333 | Overwriting bytes of the window changes exactly those bytes of that sector of the volume. |
| `Window.FatFs.WriteWindow` | 3rdparty/fatfs/ff.c:1517-1521 | A data sector takes the contents of the window, whatever it held. |
| `Window.FatFs.FillZero` | 3rdparty/fatfs/ff.c:1516-1522 | The cleaning loop zeroes exactly the sectors of the new cluster in the volume. |
| `FatEntry.GetAfterPut` | 3rdparty/fatfs/ff.c:987-1113 | After an entry is stored it reads as the value truncated to 12, 16 or 28 bits. |
| `FatEntry.PackedPair` | 3rdparty/fatfs/ff.c:1005-1012 | Two FAT12 entries are three bytes: entry 2k plus 2^12 times entry 2k + 1 is the little-endian number of the bytes 3k, 3k + 1 and 3k + 2, and each has 12 bits. |
| `FatEntry.EntryBytes` | 3rdparty/fatfs/ff.c:1014-1022 | A FAT16 entry is the little-endian number of two bytes; a FAT32 entry, with its four reserved bits on top, that of four. |
| `FatEntry.FatOnDisk` | 3rdparty/fatfs/ff.c:1007-1021 | The bytes of the FAT are those of its sectors, one after the other from fatbase on. |
| `FatEntry.OthersAfterPut` | 3rdparty/fatfs/ff.c:1077-1109 | Every other entry reads as before, although FAT12 neighbours share a byte; FAT32 neighbours keep their reserved bits. |
| `FatEntry.ReservedAfterPut` | 3rdparty/fatfs/ff.c:1104-1107 | The entry written keeps its own four reserved bits on FAT32. |
| `FatEntry.FatAfterPut` | 3rdparty/fatfs/ff.c:1064-1113 | On the whole FAT: the one entry becomes the truncated value, and nothing else changes. |
| `FatEntry.EntryWidth` | 3rdparty/fatfs/ff.c:1005-1022 | No entry reads as a value wider than its FAT type allows. |
| `FatEntry.InOneSector` | 3rdparty/fatfs/ff.c:1015-1021 | 16-bit and 32-bit entries never straddle two sectors. |
| `FatEntry.FatByteAt` | 3rdparty/fatfs/ff.c:1007-1010 | A FAT byte fetched through the window is that byte of the volume, whichever sector it lies in. |
| `FatEntry.SetFatByte` | 3rdparty/fatfs/ff.c:1081-1083 | A FAT byte set through the window changes that byte of the FAT and nothing outside the FATs. |
| `FatEntry.SetFatBytes` | 3rdparty/fatfs/ff.c:1094-1108 | A word stored in the window lands in its bytes of the FAT and nowhere else. |
| `FatEntry.GetFat` | 3rdparty/fatfs/ff.c:988-1053 | Returns the entry of the volume for clusters in [2, n_fatent) and 1 for any other number; the volume stays as it is. |
| `FatEntry.GetFat12` | 3rdparty/fatfs/ff.c:1005-1012 | Puts a 12-bit entry together from two bytes that may lie in different sectors. |
| `FatEntry.GetFat16` | 3rdparty/fatfs/ff.c:1014-1017 | Reads a 16-bit entry. |
| `FatEntry.GetFat32` | 3rdparty/fatfs/ff.c:1019-1022 | Reads the 28 value bits of a 32-bit entry. |
| `FatEntry.PutFat` | 3rdparty/fatfs/ff.c:1064-1113 | Succeeds exactly for clusters in [2, n_fatent); then the FAT differs in that entry alone, and nothing outside the FATs changes; otherwise nothing changes. |
| `FatEntry.PutFat12` | 3rdparty/fatfs/ff.c:1077-1089 | Leaves the packed bytes of the entry, across a sector boundary if need be. |
| `FatEntry.PutFat16` | 3rdparty/fatfs/ff.c:1091-1096 | Leaves the two bytes of the entry. |
| `FatEntry.PutFat32` | 3rdparty/fatfs/ff.c:1098-1109 | Leaves the four bytes of the entry with the reserved bits as they were. |
| `Chains.SearchFirst` | 3rdparty/fatfs/ff.c:1354-1366 | The circular search stops at the first entry, behind its starting point and around, that is free or damaged, and passes only entries in use. |
| `Chains.SearchExhaustive` | 3rdparty/fatfs/ff.c:1354-1366 | No free cluster is reported if and only if every entry in [2, n_fatent) is in use. |
| `Chains.KthCovers` | 3rdparty/fatfs/ff.c:1354-1360 | The circular search looks at every cluster. |
| `Chains.SearchNearest` | 3rdparty/fatfs/ff.c:1354-1366 | The search returns the first free cluster behind its starting point, going up and around the end of the FAT; 1 if an entry that holds 1 comes first; 0 if all are in use. |
| `Chains.NewCluster` | 3rdparty/fatfs/ff.c:1324-1366 | A new cluster is the first free one behind the cluster stretched; for a new chain, behind the cluster allocated last, or from cluster 2 on if last_clst is no cluster. |
| `Chains.CreateRefuses` | 3rdparty/fatfs/ff.c:1329-1331 | A number that is no cluster, a free cluster and a damaged entry are refused, and nothing changes. |
| `Chains.CreateExtends` | 3rdparty/fatfs/ff.c:1329-1375 | Asked at the last cluster of a chain, create_chain appends exactly the cluster it returns, and the result is an ended chain. |
| `Chains.CreateStarts` | 3rdparty/fatfs/ff.c:1324-1375 | Asked for a new chain, it leaves the new cluster as an ended chain of one. |
| `Chains.CreateFollows` | 3rdparty/fatfs/ff.c:1329-1332 | Asked inside a chain, it follows the link and changes nothing. |
| `Chains.CreateKeepsChain` | 3rdparty/fatfs/ff.c:1354-1375 | Every chain that does not contain the cluster asked about stays a chain, and does not get the new cluster. |
| `Chains.CreateWellFormed` | 3rdparty/fatfs/ff.c:1314-1386 | Allocation keeps the FAT a set of disjoint, acyclic, ended chains covering all clusters in use; it fails exactly when none is free, and the new cluster was free. |
| `Chains.WalkFreesSuffix` | 3rdparty/fatfs/ff.c:1258-1291 | From any cluster of a chain the removal walk frees exactly the rest of the chain. |
| `Chains.RemoveCuts` | 3rdparty/fatfs/ff.c:1250-1291 | Cutting a chain frees exactly the clusters behind the cut and leaves the part kept as an ended chain. |
| `Chains.RemoveKeepsChain` | 3rdparty/fatfs/ff.c:1250-1291 | Every disjoint chain survives a removal. |
| `Chains.RemoveWellFormed` | 3rdparty/fatfs/ff.c:1234-1305 | Removal keeps the FAT a set of disjoint, acyclic, ended chains covering all clusters in use. |
| `Chains.OnlyChainWellFormed` | 3rdparty/fatfs/ff.c:1234-1386 | Any operation that frees only what its chain gives up and takes only free clusters keeps the FAT such a set of chains. |
| `Chains.FreeConserved` | 3rdparty/fatfs/ff.c:1234-1386 | In such an operation free clusters plus clusters of the chain stay constant: none is lost. |
| `Chains.CreateCounts` | 3rdparty/fatfs/ff.c:1371-1379 | Allocation uses up exactly the free cluster it returns. |
| `Chains.WalkCounts` | 3rdparty/fatfs/ff.c:1258-1291 | The removal walk ends on any FAT contents, even cyclic ones (each step clears an entry in use), and frees as many clusters as it takes steps. |
| `Chains.WalkPath` | 3rdparty/fatfs/ff.c:1258-1291 | On any FAT contents the walk frees exactly the clusters on its way along the links, and stops at an end mark, at a free cluster (one of its own if the links run in a circle), or at an entry that holds 1, which alone is an error. |
| `Chains.RemoveRefuses` | 3rdparty/fatfs/ff.c:1247-1255 | A number that is no cluster is refused, as the cluster to free or as the one to end the chain at, and nothing changes. |
| `Chains.FreePlusUsed` | 3rdparty/fatfs/ff.c:3104 | Free and used clusters together are n_fatent - 2. |
| `Alloc.ClusterInside` | 3rdparty/fatfs/ff.c:970-978 | Every sector of a valid cluster lies in the data area. |
| `Alloc.ClustersApart` | 3rdparty/fatfs/ff.c:970-978 | No sector belongs to two clusters. |
| `Alloc.ClusterPlace` | 3rdparty/fatfs/ff.c:970-978 | Cluster 2 begins at database, the next cluster csize sectors further, and so on; other numbers give 0. |
| `Alloc.ClusterStart` | 3rdparty/fatfs/ff.c:970-978 | So cluster c begins (c - 2) * csize sectors into the data area. |
| `Alloc.CreateChain` | 3rdparty/fatfs/ff.c:1314-1386 | The method on the window returns and leaves in the FAT what the chain-level allocation says, with both counters, and changes nothing outside the FATs. |
| `Alloc.FindFree` | 3rdparty/fatfs/ff.c:1353-1366 | The search loop over FAT sectors finds what the circular search over the FAT finds, and ends. |
| `Alloc.SearchStep` | 3rdparty/fatfs/ff.c:1356-1364 | One turn of the loop, with its wrap-around at n_fatent and both of its stopping tests, is one step of the circular search. |
| `Alloc.TakeCluster` | 3rdparty/fatfs/ff.c:1371-1380 | The new cluster becomes an end mark, the previous one points to it, and the counters follow. |
| `Alloc.RemoveChain` | 3rdparty/fatfs/ff.c:1234-1305 | Leaves the FAT, the free count and the result code that cutting the chain calls for, on any FAT contents. |
| `Alloc.FreeChain` | 3rdparty/fatfs/ff.c:1258-1291 | The loop over FAT sectors does what the removal walk over the FAT does. |
| `Alloc.FreeOne` | 3rdparty/fatfs/ff.c:1265-1271 | One entry becomes free and the count goes up unless it is unknown or at its bound. |
| `Alloc.CountAfterCreate` | 3rdparty/fatfs/ff.c:1377-1380 | An accurate free_clst is still accurate after an allocation if and only if some cluster was in use before. |
| `Alloc.CountGoesWrong` | 3rdparty/fatfs/ff.c:1377-1380 | The first allocation on an empty volume of two clusters leaves one free, and the count at two. |
| `Alloc.CountAfterRemove` | 3rdparty/fatfs/ff.c:1250-1271 | An accurate free_clst is still accurate after a removal if and only if the chain is not ended at a free cluster, or no cluster is in use afterwards. |
| `Alloc.CountsFrom` | 3rdparty/fatfs/ff.c:1268-1379 | A count that is unknown stays so; otherwise it goes down by one with an allocation and up with each cluster freed, to all clusters at most; a count of all clusters is left alone, and 0 becomes unknown. |
| `Alloc.RemoveGoesWrong` | 3rdparty/fatfs/ff.c:1250-1271 | A removal that ends the chain at a free cluster and leaves one cluster in use, and the count saying that none is. |
| `FileData.FileSectInjective` | 3rdparty/fatfs/ff.c:3498-3500 | Two sectors of one file never coincide on the volume. |
| `FileData.ByteOnDisk` | 3rdparty/fatfs/ff.c:3498-3541 | Byte r of cluster number k of a file is byte r % 512 of the sector database + (ch[k] - 2) * csize + r / 512 of the volume. |
| `FileData.ConsecutiveFile` | 3rdparty/fatfs/ff.c:3498-3541 | A file on clusters that follow each other is the sectors from the first of them on, in rising order. |
| `FileData.MountedIsVolume` | 3rdparty/fatfs/ff.c:3072-3119 | An addressable boot record that is accepted, on a drive with all its sectors, is a volume as all file and directory operations take it. |
| `FileData.SectorWritten` | 3rdparty/fatfs/ff.c:3652-3657 | One patched sector of a chain turns the content of the file into the old content with the data spliced in at its position. |
| `FileData.SectorsWritten` | 3rdparty/fatfs/ff.c:3616-3636 | So do whole sectors written to one cluster. |
| `FileData.UntouchedByWrite` | 3rdparty/fatfs/ff.c:3613-3657 | Writing sectors of one cluster of a chain changes no FAT sector and no byte of any disjoint chain. |
| `FileData.UntouchedByCreate` | 3rdparty/fatfs/ff.c:1314-1386 | Allocation changes no byte and no entry of any disjoint chain. |
| `FileData.UntouchedByRemove` | 3rdparty/fatfs/ff.c:1234-1305 | Removal changes no byte and no entry of any disjoint chain. |
| `FileData.ReservedKept` | 3rdparty/fatfs/ff.c:1234-3667 | What file operations leave alone includes every sector before the FATs and every sector between them and the data. |
| `FileData.GrownContent` | 3rdparty/fatfs/ff.c:3596 | A chain that grows at its end keeps the bytes it held. |
| `FileData.ChainsKeptWellFormed` | 3rdparty/fatfs/ff.c:2247-3667 | What file and directory operations promise about all other chains implies that they keep the FAT a set of disjoint, ended chains and lose no cluster. |
| `Cursor.ExtendChain` | 3rdparty/fatfs/ff.c:3596-3603 | create_chain called at the cluster before the one wanted follows the chain or stretches it by one cluster; it fails only when the disk is full or the FAT holds a 1. |
| `Cursor.OtherFileKept` | 3rdparty/fatfs/ff.c:2247-3667 | Any other open file on a disjoint chain keeps its allocation and its bytes, through file operations and directory operations alike. |
| `File.Fil.constructor` | 3rdparty/fatfs/ff.c:3455-3479 | A file object at position 0 over a chain that holds its size is valid. |
| `File.Fil.FollowChain` | 3rdparty/fatfs/ff.c:3479-3497 | After the step onto a sector boundary clust is the cluster of byte fptr. |
| `File.Fil.ReadChunk` | 3rdparty/fatfs/ff.c:3477-3541 | One round of the read loop delivers the bytes at fptr and moves fptr past them. |
| `File.Fil.ReadRun` | 3rdparty/fatfs/ff.c:3501-3519 | Whole sectors read directly are the bytes at fptr. |
| `File.Fil.ReadPart` | 3rdparty/fatfs/ff.c:3534-3538 | Bytes read through the window are the bytes at fptr. |
| `File.Fil.ByteOfFile` | 3rdparty/fatfs/ff.c:3498-3541 | The bytes of an open file are those of the sectors of its chain, on the volume as it is. |
| `File.Fil.Read` | 3rdparty/fatfs/ff.c:3455-3545 | f_read returns exactly the bytes of the file at fptr, as many as asked for up to its end, leaves the rest of the buffer and the whole volume alone, and advances fptr by their number. |
| `File.Fil.StretchChain` | 3rdparty/fatfs/ff.c:3581-3604 | After the step onto a sector boundary clust is the cluster of byte fptr, in a chain stretched by at most that cluster. |
| `File.Fil.NextForWrite` | 3rdparty/fatfs/ff.c:3583-3604 | The create_chain call of f_write and the three ways it can answer. |
| `File.Fil.WriteRun` | 3rdparty/fatfs/ff.c:3616-3636 | Whole sectors written directly are spliced into the bytes of the file. |
| `File.Fil.WritePart` | 3rdparty/fatfs/ff.c:3638-3657 | Bytes written through the window are spliced into the bytes of the file, on the growing edge as well. |
| `File.Fil.WriteChunk` | 3rdparty/fatfs/ff.c:3579-3661 | One round of the write loop splices its bytes in, or stops at the end of the last cluster because the disk is full or the FAT damaged. |
| `File.Fil.WriteFromBoundary` | 3rdparty/fatfs/ff.c:3613-3657 | The round once the cluster is known always writes something. |
| `File.Fil.WriteBack` | 3rdparty/fatfs/ff.c:3606 | Writing the window back changes neither volume nor file. |
| `File.Fil.WriteLoop` | 3rdparty/fatfs/ff.c:3579-3664 | The loop writes all bytes, or a prefix that ends with the last cluster of a full (or damaged) volume. |
| `File.Fil.Write` | 3rdparty/fatfs/ff.c:3555-3667 | f_write replaces or extends exactly the bytes at fptr: all of them, or as many as the chain has room for once it has taken every free cluster there was, and below 4 GiB; chain, size, position and error follow; every other chain and every foreign FAT entry is unchanged. |
| `File.WriteLimit` | 3rdparty/fatfs/ff.c:3575-3577 | The wrap-around guard lets in exactly as many bytes as keep the size below 4 GiB. |
| `File.RoomOnVolume` | 3rdparty/fatfs/ff.c:3555-3667 | A chain can become as long as it is and all free clusters together, and is that long when none is left. |
| `Seek.Grown` | 3rdparty/fatfs/ff.c:4042-4062 | Growth keeps the chain as a prefix and ends with exactly the clusters asked for, or fewer when it reports why. |
| `Seek.GrownLength` | 3rdparty/fatfs/ff.c:4042-4062 | With enough free clusters the chain grows to exactly max(old, wanted); with too few it takes every free cluster. |
| `Seek.LandsAt` | 3rdparty/fatfs/ff.c:4042-4069 | f_lseek ends at the offset asked for or at the end of the chain it has, whichever comes first, also when the disk fills. |
| `Cursor.FitsClusters` | 3rdparty/fatfs/ff.c:4042-4062 | A number of bytes takes at most k clusters if and only if it is at most k * csize * 512. |
| `Cursor.HoldsThose` | 3rdparty/fatfs/ff.c:4042-4062 | A chain holds a size if and only if that is at most its number of clusters times csize * 512. |
| `Seek.StepWrite` | 3rdparty/fatfs/ff.c:4050-4061 | One create_chain call of the seek loop is one step of growth. |
| `Seek.WalkWrite` | 3rdparty/fatfs/ff.c:4042-4062 | The write-mode loop follows and stretches the chain to the cluster of the target, or to the end of the last cluster to be had. |
| `Seek.WalkRead` | 3rdparty/fatfs/ff.c:4042-4062 | The read-mode loop reaches the cluster of the target and changes nothing on the volume. |
| `Seek.StartWalk` | 3rdparty/fatfs/ff.c:4022-4041 | Starting at the current cluster or at the first one, the walk stands at a cluster of the chain before the target, and the growth ahead is the same. |
| `Seek.WalkOn` | 3rdparty/fatfs/ff.c:4041-4069 | Position, chain and FAT after the walk are those of growing the chain, whichever cluster the walk began at. |
| `Seek.SeekTo` | 3rdparty/fatfs/ff.c:4022-4070 | The same from the beginning of the call. |
| `Seek.Arrive` | 3rdparty/fatfs/ff.c:4063-4068 | The last partial step sets position and sector inside the cluster. |
| `Seek.Settle` | 3rdparty/fatfs/ff.c:4071-4086 | The size is raised to the position if that lies past it, the old bytes stay, and the file object is valid. |
| `Seek.Lseek` | 3rdparty/fatfs/ff.c:3945-4087 | In read mode fptr becomes min(ofs, size) and nothing else changes; in write mode chain, FAT and size are those of growth to the target, and fptr is the target or the end of a chain that has taken every free cluster there was, whichever comes first; the old bytes stay, and other chains are untouched. |
| `Seek.Truncate` | 3rdparty/fatfs/ff.c:4412-4440 | The file becomes its first fptr bytes, exactly the clusters behind them are freed, and other chains are untouched. |
| `Seek.CutFile` | 3rdparty/fatfs/ff.c:4425-4438 | The same for the part behind the access checks. |
| `Seek.FreeBehind` | 3rdparty/fatfs/ff.c:4426-4437 | The two remove_chain calls free exactly the clusters behind the position, if there are any. |
| `Seek.RemoveTail` | 3rdparty/fatfs/ff.c:4427-4435 | remove_chain at cluster number k of a chain leaves its first k clusters as an ended chain. |
| `Seek.CutFrees` | 3rdparty/fatfs/ff.c:4426-4437 | After f_truncate the entry of every cluster behind the position is 0. |
| `DirTable.FindMatches` | 3rdparty/fatfs/ff.c:2205-2230 | What a look-up finds has the name and is no volume label. |
| `DirTable.FindPassed` | 3rdparty/fatfs/ff.c:2202-2233 | A look-up passes over no match and no end mark. |
| `DirTable.FindExactly` | 3rdparty/fatfs/ff.c:2202-2233 | Entry k is found if and only if it matches, no entry up to it begins with 0, and none before it matches. |
| `DirTable.MatchesBytes` | 3rdparty/fatfs/ff.c:2230 | An entry matches if and only if bit 3 of its byte 11 is clear and its first 11 bytes are the name. |
| `DirTable.NothingInNewTable` | 3rdparty/fatfs/ff.c:2202-2233 | A table of zeros is in order, and no name is found in it. |
| `DirTable.RegisterAdds` | 3rdparty/fatfs/ff.c:2319-2333 | A new name put into the first free entry is found there, every other look-up answers as before, and the table stays terminated. |
| `DirTable.NewEntryBytes` | 3rdparty/fatfs/ff.c:2328-2333 | The entry written has the name in its first 11 bytes and zero in all others. |
| `DirTable.FreeFromFirst` | 3rdparty/fatfs/ff.c:1565 | The entry taken is the first that begins with 0 or 0xE5. |
| `DirTable.NewInTable` | 3rdparty/fatfs/ff.c:2319-2333 | After a registration one entry of the table has changed, the first free one, and its bytes are the name and zeros. |
| `DirTable.OthersAfterRegister` | 3rdparty/fatfs/ff.c:2319-2333 | Registering a name changes neither where nor what any other name is found. |
| `DirTable.RemoveForgets` | 3rdparty/fatfs/ff.c:2378-2382 | After the entry found is deleted a look-up finds the next one of that name, or nothing; every other look-up answers as before. |
| `DirTable.DeletedBytes` | 3rdparty/fatfs/ff.c:2378-2382 | A removed entry begins with 0xE5 and keeps its other bytes. |
| `DirTable.StretchKeeps` | 3rdparty/fatfs/ff.c:1505-1522 | A table stretched by zero entries answers every look-up as before and stays terminated. |
| `DirTable.Registered` | 3rdparty/fatfs/ff.c:2247-2338 | Seen as a map from names to entries, registration adds the one name. |
| `DirTable.Removed` | 3rdparty/fatfs/ff.c:2350-2386 | Seen as a map, removal of a unique name takes out that name and nothing else. |
| `Dir.CountIsHas` | 3rdparty/fatfs/ff.c:1438-1461 | The number of entries of a static or chained table, capped at MAX_DIR, is where entries stop to exist. |
| `Dir.EntriesThere` | 3rdparty/fatfs/ff.c:1438-1461 | A static root has n_rootdir entries and a chained table 16 for each sector of its clusters, 65536 at most. |
| `Dir.EntryOnDisk` | 3rdparty/fatfs/ff.c:1441-1466 | Entry k is 32 bytes of sector k / 16 of the table: dirbase + k / 16 in the static root, else a sector of a cluster of the chain. |
| `Dir.EntryPatched` | 3rdparty/fatfs/ff.c:2328-2333 | Overwriting bytes of one entry in its sector changes that entry of the table alone: no other chain changes, nor the reserved sectors, nor the static root unless it is the table. |
| `Dir.StretchedTable` | 3rdparty/fatfs/ff.c:1514-1522 | After a cluster is added and zeroed the table is the old entries followed by zero entries. |
| `Dir.OtherTableKept` | 3rdparty/fatfs/ff.c:2247-3667 | Every other directory, the static root included, is the same table entry by entry after a file operation or an operation on a directory. |
| `Dir.Directory.constructor` | 3rdparty/fatfs/ff.c:1441-1451 | A directory object for the static root, or for the chain of a sub-directory or of the FAT32 root. |
| `Dir.Directory.Sdi` | 3rdparty/fatfs/ff.c:1429-1468 | Succeeds exactly for aligned offsets of existing entries, and then stands at that entry: offset, cluster, sector and place in the window. |
| `Dir.Directory.FollowTable` | 3rdparty/fatfs/ff.c:1453-1459 | The cluster loop ends at the cluster of the offset, and fails exactly when the chain is too short. |
| `Dir.Directory.Next` | 3rdparty/fatfs/ff.c:1478-1537 | Stands at the next entry; reports the end of the table exactly there; with stretch the table gains zero entries, or the disk is full or the FAT damaged. |
| `Dir.Directory.NextSector` | 3rdparty/fatfs/ff.c:1492-1532 | The step over a sector boundary of a chained table. |
| `Dir.Directory.NextTableCluster` | 3rdparty/fatfs/ff.c:1501-1530 | The step over a cluster boundary, with its four answers. |
| `Dir.Directory.AddCluster` | 3rdparty/fatfs/ff.c:1510-1522 | The chain gains one cluster of zero entries, or nothing changes. |
| `Dir.Directory.CleanCluster` | 3rdparty/fatfs/ff.c:1514-1522 | Exactly the sectors of the new cluster become zero. |
| `Dir.Directory.Load` | 3rdparty/fatfs/ff.c:2203-2205 | The current entry is in the window. |
| `Dir.Directory.Find` | 3rdparty/fatfs/ff.c:2168-2236 | Stops at the first entry with the name before the end mark, or reports that there is none; the volume stays as it is. |
| `Dir.Directory.AllocEntry` | 3rdparty/fatfs/ff.c:1548-1579 | Stops at the first free entry, in a table stretched by one cluster only if it had none. |
| `Dir.Directory.PatchEntry` | 3rdparty/fatfs/ff.c:2328-2333 | Changes the current entry, and nothing of any other chain, of the reserved sectors, or of the static root unless it is the directory. |
| `Dir.Directory.Register` | 3rdparty/fatfs/ff.c:2247-2338 | On the volume: a name that was not there is added to the map, in the first entry that begins with 0 or 0xE5, whose bytes are the name and 21 zeros; no other entry changes; a failure changes nothing; other chains, the reserved sectors and any other root directory are kept. |
| `Dir.Directory.Remove` | 3rdparty/fatfs/ff.c:2350-2386 | On the volume: a unique name is gone from the map and every other name answers as before; the entry begins with 0xE5 and keeps its other bytes; other chains, the reserved sectors and any other root directory are kept. |
| `Dir.Directory.StepTo` | 3rdparty/fatfs/ff.c:1429-1537 | dir_sdi(0) followed by n steps of dir_next stands where dir_sdi(32n) does, and both reach the end of the table at the same index. |
| `LinkMap.FragmentCount` | 3rdparty/fatfs/ff.c:3967-3979 | The map needs two items for each place where the chain is broken, and two more. |
| `LinkMap.FirstFragment` | 3rdparty/fatfs/ff.c:3966-3979 | Each pair is the length and the first cluster of a run that is as long as can be, the first pair of the run at the front of the chain. |
| `LinkMap.DecodesChain` | 3rdparty/fatfs/ff.c:1408-1416 | Decoding the map gives the chain back, and 0 past its end. |
| `LinkMap.UnendedOnlyAtTheEnd` | 3rdparty/fatfs/ff.c:3970-3979 | The fragment loop mistakes an end mark for a link exactly when the chain ends in the last cluster with the mark n_fatent. |
| `LinkMap.AnUnendedChain` | 3rdparty/fatfs/ff.c:3970-3979 | A chain of two clusters at the end of a volume of two on which the loop goes astray. |
| `LinkMap.ConformingIsEnded` | 3rdparty/fatfs/ff.c:3970-3979 | It never does with at most MAX_FAT12, MAX_FAT16 or MAX_FAT32 clusters and an end mark above the bad mark. |
| `LinkMap.ClmtClust` | 3rdparty/fatfs/ff.c:1399-1417 | Returns the chain element at ofs / cluster size for offsets inside the chain and 0 beyond it. |
| `LinkMap.GetFragment` | 3rdparty/fatfs/ff.c:3968-3975 | One fragment is a maximal run of consecutive clusters; an internal error is reported exactly in the case above. |
| `LinkMap.StorePair` | 3rdparty/fatfs/ff.c:3976-3978 | A pair is stored only if it fits; nothing is written past the size given. |
| `LinkMap.MapChain` | 3rdparty/fatfs/ff.c:3966-3980 | The fragment loops put the whole map into the table as far as it fits, and count what is needed. |
| `LinkMap.Terminate` | 3rdparty/fatfs/ff.c:3981-3986 | The size needed is reported, and the table is ended if the map fits. |
| `LinkMap.WriteMap` | 3rdparty/fatfs/ff.c:3966-3986 | The table is filled with the whole map and ended if it fits, and the size needed is reported. |
| `LinkMap.CreateLinkMap` | 3rdparty/fatfs/ff.c:3961-3986 | On success the table is the run-length code of the chain; when it is too small the item count reported is exactly what is needed and nothing is written out of bounds; on the chains of UnendedOnlyAtTheEnd the internal error is returned and stays in the file object, and an earlier error is returned at once. |
| `LinkMap.FastSeek` | 3rdparty/fatfs/ff.c:3987-4008 | Leads to fptr = min(ofs, size) with cluster and sector as walking the chain would set them, without reading the FAT. |
| `Pattern.TakeOne` | 3rdparty/fatfs/ff.c:2544-2548 | A '?' taken off the pattern is one more character to skip. |
| `Pattern.TakeMany` | 3rdparty/fatfs/ff.c:2544-2548 | A '*' taken off the pattern allows any number of characters more. |
| `Pattern.TooShort` | 3rdparty/fatfs/ff.c:2552-2555 | A name shorter than the literal front of the pattern cannot match. |
| `Pattern.NoneFurther` | 3rdparty/fatfs/ff.c:2557-2558 | Stopping at the end of the name (nc == 0) loses no match. |
| `Pattern.SkipWild` | 3rdparty/fatfs/ff.c:2544-2549 | A block of wildcards matches as its minimum skip and its "or more" flag say. |
| `Pattern.MatchHere` | 3rdparty/fatfs/ff.c:2542-2556 | The inner loop decides whether the pattern describes the rest of the name, without reading past either terminator. |
| `Pattern.PatternMatching` | 3rdparty/fatfs/ff.c:2524-2561 | Returns 1 exactly when the pattern describes the name after skip characters, or after skip or more. |
| `Pattern.Matches` | 3rdparty/fatfs/ff.c:2524-2561 | Called with 0 and 0 it decides the declarative glob on the case-folded name. |
| `Pattern.SameLetter` | 3rdparty/fatfs/ff.c:2500-2520 | Two characters fold alike if and only if they are equal or the two cases of one letter. |
| `Pattern.OneCharacter` | 3rdparty/fatfs/ff.c:2542-2556 | '?' describes the names of one character, '*' all names, and any other character the names of one character that folds alike. |
| `Pipe.Align` | rtos/kernel/kernel.h:62 | Rounding up gives the next multiple of 8 and no more. |
| `Pipe.UsedOfMore` | rtos/fs/pipe.c:285-286 | A message behind the others takes its header, its rounded length, and what is left of the ring where no header fits any more. |
| `Pipe.HeaderFits` | rtos/fs/pipe.c:329-344 | Wherever a message ends, in a ring of any size, the header of the next one fits in one piece. |
| `Pipe.HeaderWords` | rtos/fs/pipe.h:21-32 | A header is two words: 1, the valid flag, and the number of bytes. |
| `Pipe.StampOnRing` | rtos/fs/pipe.c:298-347 | A stored message changes 8 bytes of header and its own bytes from its position on, around the end of the buffer, and no others. |
| `Pipe.CodedWithMore` | rtos/fs/pipe.c:298-327 | A header and bytes put behind the messages in the ring are the last message of the queue. |
| `Pipe.Stamped` | rtos/fs/pipe.c:298-347 | Storing at the free position leaves the messages in use alone, across the wrap point too, and queues the new one. |
| `Pipe.RoomTests` | rtos/fs/pipe.c:293-296 | The comparisons of pipe_write hold if and only if used + required < size; those for the space flag if and only if the ring is not full and cannot take a header more; a full ring, where both positions are equal, fails both. |
| `Pipe.PipeFile.RoomLeft` | rtos/fs/pipe.c:292-355 | In bytes: with messages in the pipe the free part of the ring reaches from the free position to the message position; a message is let in if and only if its header and its bytes, rounded up, are less than that, or the pipe is empty; space runs out when at most a header is free, but some is. |
| `Pipe.EmptyTest` | rtos/fs/pipe.c:433 | The positions meet after a read if and only if no message is left. |
| `Pipe.RoomIsEnough` | rtos/fs/pipe.c:293-296 | A message let in leaves all messages before it alone: with header, padding and the wrap it takes no more than the room there is. |
| `Pipe.StoredIsPlaced` | rtos/fs/pipe.c:297-344 | The stores made for a message that there is room for, header and padding included, put it into the queue. |
| `Pipe.OverFull` | rtos/fs/pipe.c:292-296 | A message longer than the ring with header and padding is in no ring, wherever the free position goes. |
| `Pipe.RunsOver` | rtos/fs/pipe.c:329-344 | A message that fits into the empty ring only without its padding carries the free position into its own header. |
| `Pipe.WrongMessageRead` | rtos/fs/pipe.c:279-447 | A run on a pipe of 20 bytes: a message of 12 is written, then an empty one, and the next read returns one byte that nobody wrote. |
| `Pipe.PlacedPush` | rtos/fs/pipe.c:297-347 | A stored message joins the queue, and the free position is again right behind the last one. |
| `Pipe.PlacedPop` | rtos/fs/pipe.c:415-436 | Behind the first message lies the rest of the queue. |
| `Pipe.PipeFile.constructor` | rtos/fs/pipe.c:66-126 | A new pipe, of any size that holds a header, is an empty queue with space available and no data. |
| `Pipe.PipeFile.PutHeader` | rtos/fs/pipe.c:299-311 | The header is stored, not yet valid, and the free position wraps when the header ends at the end of the buffer. |
| `Pipe.PipeFile.PutBytes` | rtos/fs/pipe.c:313-327 | The bytes lie in the ring from the free position on, split at the end of the buffer if need be. |
| `Pipe.PipeFile.PassBytes` | rtos/fs/pipe.c:329-344 | The free position moves past bytes and padding around the ring, and to the top when no header fits behind them, on any state. |
| `Pipe.PipeFile.PutMessage` | rtos/fs/pipe.c:298-347 | Header, bytes and valid flag together are the stored form of the message wherever header and bytes fit into the ring; the rest of the ring is unchanged. |
| `Pipe.PipeFile.Store` | rtos/fs/pipe.c:279-372 | pipe_write on any state, in order or not: it lets a message in on exactly the test of the source, leaves its stored form at the free position, moves that, and clears the space flag on the second test; a refusal changes nothing. |
| `Pipe.PipeFile.Write` | rtos/fs/pipe.c:279-372 | A message is accepted if and only if the queue is empty or used + required < size; then its exact bytes join the queue and the space flag follows; a refused one changes nothing. The pipe is in order afterwards if and only if the queue was not empty or the message fits with header and padding; if it fits only without its padding, its bytes are stored and the free position lies in its header. |
| `Pipe.PipeFile.GetBytes` | rtos/fs/pipe.c:399-413 | The bytes of the first message are copied out, joined at the end of the buffer if need be. |
| `Pipe.PipeFile.PassMessage` | rtos/fs/pipe.c:415-430 | The message position moves past the message around the ring, to where the next one was put. |
| `Pipe.PipeFile.Fetch` | rtos/fs/pipe.c:382-447 | pipe_read on any state, in order or not: what the current header tells of is copied out when the valid flag is set and it fits the buffer; then the message position moves on, and the pipe is reset when it meets the free position. |
| `Pipe.PipeFile.Flush` | rtos/fs/pipe.c:436-440 | An empty pipe is reset, with no valid header at its top. |
| `Pipe.PipeFile.Read` | rtos/fs/pipe.c:382-447 | Delivers exactly the bytes of the first message and takes it off the queue, or changes nothing when there is none or it does not fit; written is always taken plus queue, and data is available exactly when the queue is not empty. |
| `Pipe.PipeFile.FlagTells` | rtos/fs/pipe.c:292 | The valid flag at the message position tells exactly whether there is a message. |
| `FsBuffer.RevTwice` | rtos/fs/fs.c:1067-1082 | Two reversed copies give the data back. |
| `FsBuffer.CopyReversed` | rtos/fs/fs.c:1067-1082 | The destination holds the bytes in opposite order, and is otherwise unchanged. |
| `FsBuffer.PackedOrder` | rtos/fs/fs_buffer.c:1390-1414 | A packed transfer moves the last byte first, any other the first. |
| `FsBuffer.Segment.Init` | rtos/fs/fs_buffer.c:114-124 | A reset segment is empty and all its space is tail room. |
| `FsBuffer.Segment.AddHead` | rtos/fs/fs_buffer.c:1565-1594 | Making head room moves the data and does not change it; the segment stays in order if and only if it was asked for no more than its tail room, or refuses. |
| `FsBuffer.Segment.ShiftRoom` | rtos/fs/fs_buffer.c:1575-1586 | The shifted bytes stay inside the segment if and only if there is tail room for the shift; a segment of 8 bytes with 4 in use accepts a shift that puts its last byte behind the end. |
| `FsBuffer.HeadBehindEnd` | rtos/fs/fs_buffer.c:1575-1591 | Two requests for head room on an empty segment of 8 bytes leave its head at 10. |
| `FsBuffer.Segment.Push` | rtos/fs/fs_buffer.c:1698-1797 | Succeeds exactly when the bytes fit; prepends, appends or overwrites at an offset from either end, in plain or reversed order. |
| `FsBuffer.Segment.Place` | rtos/fs/fs_buffer.c:1732-1792 | The copying part puts the bytes where the flags say. |
| `FsBuffer.Segment.PatchAt` | rtos/fs/fs_buffer.c:1732-1792 | A copy to a position replaces the bytes from there on, as many as there are, and no others. |
| `FsBuffer.Segment.Pull` | rtos/fs/fs_buffer.c:1613-1680 | Succeeds exactly when there are enough bytes; returns them in either order and removes them from the head or the tail, or only peeks. |
| `FsBuffer.Segment.Fetch` | rtos/fs/fs_buffer.c:1648-1661 | The bytes copied out are those of the segment in the order asked for. |
| `FsBuffer.Segment.Drop` | rtos/fs/fs_buffer.c:1642-1668 | Bytes given up at either end leave the others. |
| `BufferList.NeedStep` | rtos/fs/fs_buffer.c:1215-1249 | The precomputed segment count is exact: filling room does not change it, a new segment lowers it by one. |
| `BufferList.NeedIsLeast` | rtos/fs/fs_buffer.c:1189-1249 | The precomputed count is the least number of segments that hold what the room in the list does not. |
| `BufferList.NextPiece` | rtos/fs/fs_buffer.c:1131-1428 | Taking pieces off the end of the data for a reversed transfer, and off its front otherwise, reverses the data as a whole. |
| `BufferList.Pool.constructor` | rtos/fs/fs_buffer.c:42-61 | A pool starts empty. |
| `BufferList.Pool.Get` | rtos/fs/fs_buffer.c:772-813 | Takes the first free segment; the counter stays the length of the list and the space flag says whether it is empty. |
| `BufferList.Pool.Add` | rtos/fs/fs_buffer.c:598-621 | A returned segment is blank and last in the list; counter and space flag follow. |
| `BufferList.SegmentList.constructor` | rtos/fs/fs_buffer.c:97-105 | A new list holds no bytes. |
| `BufferList.SegmentList.PushHead` | rtos/fs/fs_buffer.c:1185-1440 | All or nothing: granted if and only if the data fit into the room there is, or into that and the free segments beyond the threshold (with FS_BUFFER_TH) or all free segments (without); it prepends the whole data, and one that takes a segment with FS_BUFFER_TH leaves the threshold; refused, it leaves list and pool as they were. |
| `BufferList.SegmentList.PushAllHead` | rtos/fs/fs_buffer.c:1289-1440 | When the count is available every allocation of the loop succeeds and the pool gives exactly that many segments. |
| `BufferList.SegmentList.HeadTurn` | rtos/fs/fs_buffer.c:1293-1428 | In one turn the need of what is left falls by the segments taken, and what is left goes in front of the new contents. |
| `BufferList.SegmentList.HeadStep` | rtos/fs/fs_buffer.c:1293-1428 | One turn of the loop prepends the next piece. |
| `BufferList.SegmentList.EnsureHead` | rtos/fs/fs_buffer.c:1299-1317 | There is room in the first segment, in a new one if the old had none; the bytes stay. |
| `BufferList.SegmentList.NewHead` | rtos/fs/fs_buffer.c:1306-1316 | A blank segment from the pool goes in front of the list. |
| `BufferList.SegmentList.FillHead` | rtos/fs/fs_buffer.c:1406-1414 | A piece goes in front of the bytes, and total_length follows. |
| `BufferList.SegmentList.PushTail` | rtos/fs/fs_buffer.c:1185-1440 | The same at the tail: append all or nothing, and leave the threshold. |
| `BufferList.SegmentList.PushAllTail` | rtos/fs/fs_buffer.c:1289-1440 | When the count is available every allocation of the loop succeeds and the pool gives exactly that many segments. |
| `BufferList.SegmentList.TailTurn` | rtos/fs/fs_buffer.c:1350-1428 | The same for a turn at the tail. |
| `BufferList.SegmentList.TailStep` | rtos/fs/fs_buffer.c:1350-1428 | One turn of the loop appends the next piece. |
| `BufferList.SegmentList.EnsureTail` | rtos/fs/fs_buffer.c:1352-1371 | There is room in the last segment, or in a new one behind it; the bytes stay. |
| `BufferList.SegmentList.FillTail` | rtos/fs/fs_buffer.c:1406-1414 | A piece goes behind the bytes, and total_length follows. |
| `BufferList.SegmentList.Refuses` | rtos/fs/fs_buffer.c:1253-1257 | A push that needs segments is refused exactly when fewer than the threshold would be left, or less than none without FS_BUFFER_TH. |
| `BufferList.SegmentList.GrantedIf` | rtos/fs/fs_buffer.c:1189-1257 | The test grants what fits into the room and the free segments beyond the threshold, and nothing more. |
| `BufferList.SegmentList.RoomsAre` | rtos/fs/fs_buffer.h:160-162 | The room of a segment is its size without its bytes, and at the tail without its head room. |
| `BufferList.PieceIs` | rtos/fs/fs_buffer.c:960-988 | The bytes asked for begin offset bytes from the front, or end offset bytes from the end. |
| `BufferList.SegmentList.Walk` | rtos/fs/fs_buffer.c:976-988 | The walk ends in the segment that holds the offset. |
| `BufferList.SegmentList.Update` | rtos/fs/fs_buffer.c:1149-1440 | Overwrites exactly the bytes at the offset from either end, across segments; fails when the position is the end of the list. |
| `BufferList.SegmentList.UpdateFrom` | rtos/fs/fs_buffer.c:1289-1440 | The update loop from one segment on. |
| `BufferList.SegmentList.UpdateAt` | rtos/fs/fs_buffer.c:1339-1348 | An update inside one segment is an update of the flat bytes. |
| `BufferList.SegmentList.Peek` | rtos/fs/fs_buffer.c:940-1102 | A peek returns the bytes at the offset from either end, plain or reversed as a whole, and changes nothing. |
| `BufferList.SegmentList.CopyFrom` | rtos/fs/fs_buffer.c:1004-1098 | The peek loop from one segment on. |
| `BufferList.SegmentList.PullHead` | rtos/fs/fs_buffer.c:940-1102 | Succeeds exactly when there are enough bytes; then it removes and returns the first ones, plain or reversed as a whole, and every drained segment goes back to the pool. |
| `BufferList.SegmentList.PushAndPull` | rtos/fs/fs_buffer.c:940-1454 | A push at the head followed by a pull of the same length in the same order gives back the data and the former contents, packed or not, whatever the segments. |
| `BufferList.SegmentList.PullAllHead` | rtos/fs/fs_buffer.c:1004-1098 | The pull loop. |
| `BufferList.SegmentList.TakeFirst` | rtos/fs/fs_buffer.c:1017-1087 | One turn of the loop takes the next piece off the front. |
| `BufferList.SegmentList.ReleaseFirst` | rtos/fs/fs_buffer.c:1059-1066 | A drained segment goes back to the pool: no segment of a list is empty. |
| `BufferList.SegmentList.DropTail` | rtos/fs/fs_buffer.c:940-1102 | Discards exactly the last bytes, over as many segments as it takes. |
| `BufferList.SegmentList.TakeLast` | rtos/fs/fs_buffer.c:1010-1087 | One turn of that loop takes bytes off the end. |
| `BufferList.SegmentList.ReturnAll` | rtos/fs/fs_buffer.c:507-528 | Every segment of the list is back in the pool, and the list is empty: the segments of pool and list together stay the same. |
| `Buffers.Dataset.constructor` | rtos/fs/fs_buffer.c:42-89 | All buffers start in the pool, and all lists empty. |
| `Buffers.Dataset.PushHead` | rtos/fs/fs_buffer.c:1185-1440 | A push at the head of one list of many on a shared pool prepends all or nothing, every other list keeps its segments and its bytes, and with FS_BUFFER_TH the threshold is left if a segment is taken. |
| `Buffers.Dataset.PushTail` | rtos/fs/fs_buffer.c:1185-1440 | The same for a push at the tail. |
| `Buffers.Dataset.Update` | rtos/fs/fs_buffer.c:1149-1440 | The same for an update. |
| `Buffers.Dataset.Peek` | rtos/fs/fs_buffer.c:940-1102 | The same for a peek, which changes no list. |
| `Buffers.Dataset.PullHead` | rtos/fs/fs_buffer.c:940-1102 | The same for a pull from the head. |
| `Buffers.Dataset.DropTail` | rtos/fs/fs_buffer.c:940-1102 | The same for discarding from the tail. |
| `Buffers.Dataset.ReturnAll` | rtos/fs/fs_buffer.c:507-528 | The same for giving all segments of a list back. |
| `Buffers.Dataset.AfterOperation` | rtos/fs/fs_buffer.c:507-1440 | Any operation that only moves segments between one list and the pool loses none, puts none into two places, and keeps every other list valid with its bytes. |
| `Buffers.Dataset.NothingLost` | rtos/fs/fs_buffer.c:598-813 | The free counter is the length of the free list, and together with the lengths of all lists it is the number of buffers. |
| `Buffers.Dataset.RoomForAll` | rtos/fs/fs_buffer.c:598-813 | The bytes of all lists need at most one segment each, and no more than all the space there is. |
| `Buffers.Dataset.Perform` | rtos/fs/fs_buffer.c:507-1440 | One operation on one list is carried out exactly when the pool grants it, or the bytes asked for are there and the source would not stop at an assertion; then it does to the bytes of that list what it is for, and nothing to those of the others. |
| `Buffers.Dataset.Run` | rtos/fs/fs_buffer.c:507-1440 | After any sequence of operations on any of the lists, each list holds the bytes its own operations give it, and free segments plus segments held are the number of buffers; if all pushes have FS_BUFFER_TH, the free count is not below the threshold, or not below what it was. Each operation is carried out exactly when the bytes then held by the lists allow it; a push, only if the space of all segments is enough (without the threshold, where the segments held cannot be), and always if the segments are enough though every byte held had one of its own. |
| `Scheduler.ComparesInWindow` | rtos/kernel/kernel.h:53 | Within half a turn of the clock the signed difference tells before from after, across the 32-bit wrap. |
| `Scheduler.HalfATurnApart` | rtos/kernel/kernel.h:53 | Exactly one of two different ticks is before the other if and only if they are not half a turn apart; at half a turn each is before the other. |
| `Scheduler.DueAtOnce` | rtos/kernel/sleep.c:110-254 | A task that goes to sleep for n ticks counts as due at once exactly when n is 0 or more than half a turn of the clock. |
| `Scheduler.SortAgrees` | rtos/kernel/sleep.c:37-57 | The comparator of the sleep list puts tasks in the order of tick and priority. |
| `Scheduler.WakesAfterIs` | rtos/kernel/sleep.c:37-57 | Within the window one task is sorted behind another if and only if it wakes later, or at the same tick with the higher priority number. |
| `Scheduler.InsertReady` | rtos/kernel/scheduler.c:228 | The ready list stays ordered by priority, and the task joins its priority's queue at the end. |
| `Scheduler.InsertedJoins` | rtos/kernel/scheduler.c:241-256 | Inserting before the first task of worse priority keeps every priority a queue of its own. |
| `Scheduler.JoinsLast` | rtos/kernel/scheduler.c:241-256 | A task that becomes ready is the last of its priority, and the queues of the other priorities do not change. |
| `Scheduler.HeadIsNext` | rtos/kernel/scheduler.c:179 | The head of the ready list has the best priority and came first among those that have it. |
| `Scheduler.Kernel.constructor` | rtos/kernel/sleep.c:20-23 | Both lists start empty at tick 0. |
| `Scheduler.Kernel.Rebase` | rtos/kernel/sleep.c:37-57 | The window may be moved: lists in order in one window are in order in any other that holds the same ticks. |
| `Scheduler.Kernel.AddToSleep` | rtos/kernel/sleep.c:108-117 | The task sleeps until tick + ticks, in front of the first task that the comparator puts behind it; the list stays ordered if and only if that tick lies in the window of the others, and the task is then behind all that may precede it, first come among equals. |
| `Scheduler.Kernel.InsertSleeping` | rtos/utils/sll.c:129-172 | Inserting before the first task that the comparator puts behind keeps the list ordered exactly when the wake tick is in the window. |
| `Scheduler.Kernel.RemoveFromSleep` | rtos/kernel/sleep.c:126-134 | Exactly that task leaves the list; the others stay in their order. |
| `Scheduler.Kernel.Scan` | rtos/kernel/sleep.c:74 | The search finds a task to wake, or stops only when there is none anywhere in the list. |
| `Scheduler.Kernel.Yield` | rtos/kernel/scheduler.c:202-230 | The task becomes ready at the end of its priority's queue, with the state its waker sets. |
| `Scheduler.Kernel.WakeAt` | rtos/kernel/sleep.c:80-87 | One task moves from the sleep list to the ready list. |
| `Scheduler.Kernel.ProcessTick` | rtos/kernel/sleep.c:64-96 | A pass ends and makes ready exactly the suspended tasks that are due, none early and none missed, in the order of the sleep list (by tick and priority, first come among equals), behind those already ready; the others stay in their order. |
| `Scheduler.Kernel.Tick` | rtos/kernel/sleep.c:223-240 | The scheduler is triggered if and only if some sleeping task is due, in whatever window the lists are in order; they stay in order in a window if and only if the new tick lies in it. |
| `Scheduler.Kernel.NextTask` | rtos/kernel/scheduler.c:169-192 | The task dispatched has the best priority of all that are ready or just woken, and is first come among equals; those woken in one pass come in the order of the sleep list. |
| `Scheduler.Live` | rtos/kernel/sleep.c:64-240 | Any sequence of ticks, sleeps, suspensions and passes, over any number of turns of the 32-bit clock, keeps the lists in order in a window that moves along; it can stop only where a task is overdue by the lag of the window, or one asks for a sleep that does not fit into the window. |
| `Scheduler.MoveOn` | rtos/kernel/sleep.c:223-240 | The window follows the clock by one tick unless a sleeping task is overdue by its lag. |
| `Wait.InitInv` | rtos/kernel/condition.c:359-372 | With no task waiting the invariant of the wait protocol holds. |
| `Wait.EnlistKeepsInv` | rtos/kernel/condition.c:407-421 | Adding a task to its suspend lists and the sleep list keeps the invariant, also when it starts to wait for a condition lock inside another wait. |
| `Wait.EnlistNeedsApart` | rtos/kernel/condition.c:407-421 | It does so if and only if the task is on none of the new lists yet: a lock must not wait for a condition that is waited for around it. |
| `Wait.BlockKeepsInv` | rtos/kernel/condition.c:428-436 | Announcing the suspension keeps the invariant. |
| `Wait.SwitchOutKeepsInv` | port/kernel/cortex-m3/cortex_m3.c:221-226 | The context switch that completes a suspension keeps the invariant. |
| `Wait.ResumeKeepsInv` | rtos/kernel/condition.c:556-682 | A release that selects any entries of a suspend list, and resumes those whose task is suspended and waiting on this condition, keeps the invariant. |
| `Wait.WhoIsResumed` | rtos/kernel/condition.c:595-639 | Of the entries selected exactly the tasks that are suspended, or about to be, and wait on this condition are made ready, each once, with the condition as their waker; nothing happens to any other task. |
| `Wait.TimeoutKeepsInv` | rtos/kernel/sleep.c:76-87 | A timeout keeps the invariant. |
| `Wait.WhoTimesOut` | rtos/kernel/sleep.c:76-87 | A timeout makes a sleeping task ready once, without a waker, and takes it off the sleep list and no other. |
| `Wait.DispatchKeepsInv` | rtos/kernel/scheduler.c:179-189 | The dispatch of a woken task keeps the invariant. |
| `Wait.LeaveSleepKeepsInv` | rtos/kernel/condition.c:452-461 | A woken task that leaves the sleep list keeps the invariant. |
| `Wait.FinishKeepsInv` | rtos/kernel/condition.c:463-493 | A task that leaves its suspend lists at the end of its wait keeps the invariant, whatever waits for condition locks it went through before; it goes on with the wait around this one. |
| `Wait.StepKeepsInv` | rtos/kernel/condition.c:359-682 | Every step of every task keeps the invariant: each list holds exactly the tasks that wait there or have yet to be taken off it, once each, with waits inside waits to any depth. |
| `Wait.AssertionsNeverFire` | rtos/kernel/condition.c:150-207 | The removals of condition.c:156, condition.c:191 and sleep.c:129, and the timeout assertion of condition.c:474, find what they expect, in nested waits too. |
| `Wait.RunsAreSafe` | rtos/kernel/condition.c:359-682 | In every run, whatever the interleaving of suspensions, releases, timeouts and waits for condition locks inside waits, the invariant holds and no assertion fires. |
| `Wait.ReadyOncePerSuspension` | rtos/kernel/condition.c:595-639 | A task has been woken exactly once for each suspension that is over, outer or nested, and not at all for one that is not, and the wake-up is pending exactly while it is woken and not yet run. Only wake-ups are counted: the entries the context switch makes for preempted tasks are not in this ready list. |
| `Wait.WinnerStays` | rtos/kernel/condition.c:441-447 | Once a release or a timeout has ended a wait, its winner stays the same until that wait is over, through all the waits for condition locks in between. |
| `Wait.NothingLeftBehind` | rtos/kernel/condition.c:469-493 | When a wait is over its task is on no suspend list of its conditions, nor on the sleep list, nor woken; the lists it is still on are exactly those of the waits around it, and none if there are none. |
| `Wait.GoesOnFrom` | rtos/kernel/condition.c:407-519 | No wait gets stuck: in every phase except that of a sleeper without a timeout the task has its next step, and the lists are such that it can be taken; a task outside any wait, or at the end of one, may wait for any condition on whose list it is not, and a release may select any entries at any time. |
| `Wait.SecondHalfDecides` | rtos/kernel/condition.c:619 | A suspended task found on a suspend list fails the second half of the test if and only if it is there for an outer wait, while it waits for a condition lock. |
| `Wait.SecondHalfNeeded` | rtos/kernel/condition.c:619 | Making a suspended task on the list ready keeps the invariant if and only if the second half of the test holds. |
| `Wait.LockWaitHappens` | rtos/kernel/condition.c:463-466 | A run to such a state: a task resumed from one of two conditions is suspended on a lock while still on the list of the other. |
| `Wait.ReleaseSparesIt` | rtos/kernel/condition.c:619-639 | A release of that other condition changes nothing there. |
| `Wait.WithoutSecondHalf` | rtos/kernel/condition.c:150-207 | Without the second half of the test the release would make the task ready, and the assertion of condition.c:191 would fire at the end of its first wait. |
| `Wait.AfterResumeWhich` | rtos/kernel/condition.c:573-673 | A release takes exactly the resumed tasks off the list; those passed over, not suspended or not waiting on this condition stay. |
| `Wait.RemovedFirst` | rtos/utils/sll.c:366-417 | Removing a task from a list without duplicates takes out that task alone. |
| `Wait.ResumeCondition` | rtos/kernel/condition.c:573-673 | Whatever do_resume answers for each entry, the two loops resume exactly the tasks among the entries selected that are suspended and waiting on this condition, put the others selected back in front in their order, and leave the rest. |
| `Wait.TakeOff` | rtos/kernel/condition.c:577-641 | The first loop, which searches the rest of the list again after each entry, deals with exactly the entries selected. |
| `Wait.Search` | rtos/utils/sll.c:182-232 | The search stops at the first entry selected. |
| `Wait.ResumeTask` | rtos/kernel/condition.c:595-641 | A task that is suspended, or in the process of it, and waiting on this condition is made ready, with the condition as its waker; any other is left alone. |
| `Wait.IsTaskWaiting` | rtos/kernel/condition.c:273-293 | The search through the conditions of the wait tells whether this one is among them. |
| `Wait.ResumedStep` | rtos/kernel/condition.c:577-641 | Dealing with the next entry selected resumes at most that one task. |
| `Wait.PutBack` | rtos/kernel/condition.c:656-673 | The second loop restores the order of what was set aside. |
| `Wait.AddTask` | rtos/kernel/condition.c:123-140 | The task is appended to the lists of its conditions and to no other. |
| `Wait.RemoveTask` | rtos/kernel/condition.c:150-207 | The task leaves the lists of its conditions except the winner's, and no other list changes. |
| `Wait.KeptOfBudget` | rtos/kernel/semaphore.c:181-202 | With a budget of k the first k entries are the ones dealt with. |
| `Semaphore.InitInv` | rtos/kernel/semaphore.c:32-44 | A new semaphore has all its counts free. |
| `Semaphore.StepKeepsInv` | rtos/kernel/semaphore.c:218-340 | In every interleaving of obtain, wake-up, timeout and release, by any task, count plus obtains not yet released is max_count, and the queue holds exactly the tasks that wait. |
| `Semaphore.ReleaseAssertion` | rtos/kernel/semaphore.c:308 | The assertion against double release holds exactly when there are more obtains than releases. |
| `Semaphore.ReleaseKeepsInv` | rtos/kernel/semaphore.c:302-340 | A release, by whichever task, keeps that sum and the queue of the tasks that wait. |
| `Semaphore.RunKeepsInv` | rtos/kernel/semaphore.c:252 | A woken task that gives up, waits again or is let in keeps the same. |
| `Semaphore.NoAssertionFires` | rtos/kernel/semaphore.c:263-309 | The count is there when it is taken (line 266), and no release is one too many (line 308). |
| `Semaphore.RunsAreSafe` | rtos/kernel/semaphore.c:218-340 | Both hold in every run. |
| `Semaphore.MayGoOn` | rtos/kernel/semaphore.c:218-340 | No task is kept from acting: one that is not waiting may obtain, or release while somebody holds the semaphore; one that is woken goes on; a sleeper with a timeout may expire; and one that has passed its test takes the count, before anything else. |
| `Semaphore.ResumersAfterRelease` | rtos/kernel/semaphore.c:313-328 | A release resumes the suspended ones among the first count + 1 of the queue; expired waiters among them use up budget. |
| `Semaphore.ReleaseServes` | rtos/kernel/semaphore.c:302-340 | A release serves the first count + 1 of the queue: the sleepers among them are resumed, the others are put back in front in their order, and nobody else changes. |
| `Semaphore.SleepersAfterRelease` | rtos/kernel/semaphore.c:313-328 | Somebody still sleeps after a release exactly if somebody slept beyond its reach. |
| `Semaphore.ReleaseLoses` | rtos/kernel/semaphore.c:302-340 | A release loses a wake-up if and only if somebody sleeps beyond its reach while expired waiters at the front use up more of its budget than there are resumed tasks. |
| `Semaphore.OnlyReleaseLoses` | rtos/kernel/semaphore.c:218-295 | No other step loses a wake-up. |
| `Semaphore.UnspoiledNeverLoses` | rtos/kernel/semaphore.c:218-340 | A run without such a release never loses one. |
| `Semaphore.UntimedIsUnspoiled` | rtos/kernel/semaphore.c:126-136 | Without finite waits there is no such release. |
| `Semaphore.MaxWaitNeverLoses` | rtos/kernel/semaphore.c:218-340 | When every waiter uses MAX_WAIT no wake-up is lost in any run: while a task sleeps in the queue there are at least as many tasks on their way in as there are free counts. |
| `Semaphore.FiniteWaitsLose` | rtos/kernel/semaphore.c:190-197 | A run with one finite wait after which the semaphore is free, nobody is on the way, and a task without timeout still sleeps in the queue. |
| `Semaphore.LosingRelease` | rtos/kernel/semaphore.c:190-197 | The release in that run spends its budget of one on the expired waiter. |
| `Semaphore.AskEach` | rtos/kernel/semaphore.c:181-202 | The counter in the parameter of semaphore_do_resume selects the first entries asked about, as many as it started with. |
| `Semaphore.Control.constructor` | rtos/kernel/semaphore.c:32-44 | The control block starts with max counts, no owner and nobody waiting. |
| `Semaphore.Control.Obtain` | rtos/kernel/semaphore.c:242-261 | Up to the wait: a task that finds a count has passed; otherwise it gives up at once, or is queued last and sleeps, with a timeout if it gave one. |
| `Semaphore.Control.Wake` | rtos/kernel/condition.c:441-519 | After the wait: the task leaves the queue on a timeout, or is queued last again if the count is gone, or has passed. |
| `Semaphore.Control.Take` | rtos/kernel/semaphore.c:263-280 | The count goes down by one, and the holder is noted as owner. |
| `Semaphore.Control.Release` | rtos/kernel/semaphore.c:302-340 | The count goes up by one; as many of the queue as there are counts now are served: the sleepers among them are resumed, the expired waiters put back in front; the owner is cleared, whichever task calls it. |
| `SemaphoreWaits.BalancedInv` | rtos/kernel/condition.c:359-682 | A balanced semaphore, seen as tasks and one suspend list, satisfies the invariant of the wait protocol. |
| `SemaphoreWaits.ObtainIsRun` | rtos/kernel/condition.c:407-436 | An obtain that finds no count is Enlist, Block and SwitchOut of the wait protocol; any other is no step of it. |
| `SemaphoreWaits.ExpireIsRun` | rtos/kernel/sleep.c:76-87 | A timeout of a semaphore waiter is Timeout. |
| `SemaphoreWaits.ReleaseIsRun` | rtos/kernel/semaphore.c:313-328 | A release is Resume with the entries its budget selects. |
| `SemaphoreWaits.RunIsRun` | rtos/kernel/condition.c:441-519 | A woken waiter that goes on is Dispatch, LeaveSleep and Finish, followed by a new suspension when the count is gone. |
| `SemaphoreWaits.StepIsRun` | rtos/kernel/semaphore.c:218-340 | Every step of a semaphore is a run of steps of the wait protocol. |
| `SemaphoreWaits.HistoryIsRun` | rtos/kernel/semaphore.c:218-340 | Every history of a semaphore is a run of the wait protocol from a state where nobody waits, so all that is proved about those runs holds for it. |
| `Exclusion.NobodyBetween` | rtos/kernel/scheduler.c:115-161 | Between the test of the count in semaphore_obtain and its decrement nothing else happens, because the task holds a scheduler lock and is preempted only without one. |
| `Exclusion.EventRefines` | rtos/kernel/semaphore.c:218-340 | Every single event of the tasks (lock, unlock, test, switch, return, decrement, ...) is one step of the semaphore, or changes nothing of it. |
| `Exclusion.EventKeepsInv` | rtos/kernel/kernel.c:31-78 | Every event keeps the lock counts, the places of the tasks and the balance of the semaphore in step. |
| `Exclusion.ReleasersStay` | rtos/kernel/semaphore.c:302-312 | No more tasks are ever on their way through semaphore_release than there are obtains to release. |
| `Exclusion.NoAssertionFires` | rtos/kernel/semaphore.c:263-309 | The lock count is there to be given back, the count is there when it is taken, and no release is one too many, even when the releasing task is preempted between its assertion and its lock. |
| `Exclusion.RunsAreSafe` | rtos/kernel/semaphore.c:218-340 | Both hold in every run, with preemption wherever the lock count is 0. |
| `Exclusion.AlwaysGoesOn` | rtos/kernel/semaphore.c:218-340 | The running task has a next event at every place of its calls, and can be preempted whenever it holds no lock; when none runs any task that does not sleep can be dispatched, and any sleeper with a timeout can expire. |
| `Exclusion.RunIsHistory` | rtos/kernel/semaphore.c:218-340 | Every such run is a history of the semaphore. |
| `Exclusion.MaxWaitNeverLoses` | rtos/kernel/semaphore.c:218-340 | With MAX_WAIT throughout no wake-up is lost in any such run. |
| `KernelWaits.PassIsRun` | rtos/kernel/sleep.c:64-96 | A pass over the sleep list is a run of the wait protocol: one timeout for each task woken, in the order they are woken. The protocol pictures the lists of the kernel before and after, its ready list being that of the kernel without preempted tasks. |
| `KernelWaits.TimeoutsRun` | rtos/kernel/sleep.c:76-87 | Timeouts of different sleeping tasks can follow one another in any order given, and end where all of them have been woken. |
| `KernelWaits.PicturedAfter` | rtos/kernel/sleep.c:76-96 | What a pass leaves on the two lists is what those timeouts leave. |

## Left out

FatFs:

- Disk errors: every drive operation succeeds, so the `FR_DISK_ERR` paths do not occur.
- exFAT, long file names, code-page tables, f_mkfs and f_fdisk, volume labels, the string functions, f_forward and
  timestamps: compiled out or without properties beyond those proved.
- Opening and closing files, path following, directory entry updates by f_sync, and volume locks: the objects start in
  the state f_open and f_opendir leave.
- Reading boot sectors: `FindVolume` takes the fields of the BIOS parameter block as values.
- f_read and f_write with a link map (`cltbl`): they use clmt_clust, whose answers are proved equal to the chain.
- Fil.Read: the number of bytes is any natural number that fits the buffer; `UINT` is wide enough on the target.
- Dir.Directory.AllocEntry: models one entry at a time, which is all that registration without long names asks for.
- Dir.Directory.Next: a table has at most 65536 entries (MAX_DIR / 32), as in the source.
- Alloc.RemoveChain: on damaged chains what is freed is proved to be what the walk says, but only for intact chains is that
  said to be the rest of the chain.
- Pattern.Matches: single-byte characters with ASCII case folding, as code page 1 has them.

Pipe:

- Pipe.PipeFile.Write: requires of a message written to an empty pipe that the copy stays inside the buffer, because the
  source does not check it and would write past its end. Once the pipe is not in order, its contents are
  those `Store` and `Fetch` leave.
- Pipe.PipeFile.constructor: requires room for a header and less than 2^31 bytes, so that the 32-bit sums of positions do
  not wrap.
- The space flag is proved as the source keeps it: pipe_write clears it when less than a header over the room is left
  (unless the ring is exactly full), and pipe_read never sets it again.
- A message of no bytes is accepted with the same return value as a refusal.
- Locks, blocking reads and writes, the list of pipes and path names.

Buffers:

- FS_BUFFER_SUSPEND, the receive and transmit lists, the pool of lists and the free callbacks.
- fs_buffer_list_divide, and tail pulls that return data from more than one segment: its only use here is to discard, which
  is `DropTail`.
- The flags are boolean parameters, or one method for each mode; the build is little-endian, so packed transfers reverse.
- FsBuffer.Segment.AddHead: requires that the bytes are not shifted over the end of the segment, because the source would
  then write past it; `ShiftRoom` says when that is.
- Lengths and offsets are natural numbers; the 8-bit width of the offset parameter of fs_buffer_list_push_offset is not
  modelled.
- The segments of a list are a sequence of references rather than nodes linked by `next`; sll.c works on that sequence.
- Buffers.Dataset.Run: for a push, which segments the bytes of its list lie in decides between the two bounds given.
- Buffers.Dataset.Perform: an operation for which the source would stop at an assertion (an update or a peek beyond the
  bytes of the list) is not carried out.
- Each segment has an array of its own, where the source gives each a slice of one `buffer_space`.

Kernel:

- Wait.ResumeCondition: one step, because its callers hold the lock of the condition or the scheduler lock; the switch to
  another task inside it, before the entries set aside are put back, is not modelled. What do_resume answers is a
  parameter.
- Wait.EnlistKeepsInv: a task that waits inside a wait is on none of the new suspend lists yet. The source does not check
  it; by `EnlistNeedsApart` the invariant fails otherwise.
- The locks of conditions are waits of the step relation, at any point of the phase `Leaving`; which lock belongs to which
  condition, and that it is free when nobody waits, is not modelled.
- A semaphore is modelled by itself: what its tasks wait for around a wait for it is not part of its state, and its steps
  do not depend on it.
- The conditions of one wait are distinct.
- CONDITION_PING, the index suspend_condition returns, the choice among several satisfied conditions by priority, and the
  minimum of several timeouts.
- The upper bound SCHEDULER_MAX_LOCK of the lock count and the flag TASK_SCHED_DRIFT, which makes scheduler_unlock yield:
  in `Exclusion` a task may be preempted whenever its count is 0.
- Interrupt levels, interrupt-protected semaphores and semaphore_destroy.
- A wait that is repeated keeps its first timeout in ticks, as in the source; in the step relation a timeout may come at
  any time, so nothing is assumed about when.
- Scheduler.Kernel.AddToSleep: requires that the tasks asleep and the current tick lie within 2^31 ticks of a common
  base, because beyond that INT32CMP is no order; the new task may sleep for any number of ticks. `Live` says what keeps
  this so.
- Scheduler.Kernel.NextTask: requires that some task is ready or due, which the source asserts (the idle task).
- The count of a semaphore is a natural number; `uint8_t` holds it as long as max_count does.
- Semaphore.Control.Wake: one step, as `EventRefines` justifies.
- Context switch, task statistics and stack handling.
