# Pintos, verified

A Dafny model of the parts of this Pintos kernel whose correctness is not obvious from reading them: the indexed file
system with its buffer cache, demand paging with swap, the kernel heap, the scheduler and alarm clock, semaphores,
locks and condition variables under every interleaving, the intrusive lists with their merge sort, the resizing hash
table, the packed bitmap, 64-bit division, heapsort, and integer printing against parsing.

`dafny verify dfyconfig.toml` checks the whole project.

## How it is written

Code that updates things in place is a class or a method with loops (`BufferCache`, `FileSystem`, `Bitmap`, `List`,
`HashTable`, `Allocator`, `SwapDevice`, `PageSystem`, `Scheduler`, `Semaphore`, in-place heapsort). Each such method is
proved equal to a function on values, and the theorems are about those functions: over all inputs, all runs, or all
reachable states. Protocols are step systems: a step is one region that runs with interrupts off, or one store outside
such a region, and a theorem about them is about every sequence of steps that the threads' program order allows.

| files | what they model |
|---|---|
| `Wrappers`, `Bits`, `Bitmap` | bit operations by induction on the width, the word-packed bitmap, the free map |
| `Disk`, `Cache`, `CacheRace` | sectors and pointer blocks, the 64-entry write-back cache with second chance, its late dirty flag |
| `InodeLayout`, `InodeGrow`, `InodeGrowLaws`, `InodeSteps`, `InodeTheorems`, `InodeExact`, `InodeFail`, `InodeRelease` | the inode: the two walks over its pointers, growth and its exact condition, growth that fails, deallocation |
| `FileSystem`, `FileClose`, `FileContents`, `FileWriting`, `FileIO`, `OpenFiles`, `FileRun`, `StaleCache` | the same on a disk, a free map and a cache that change in place; reading and writing, whole runs over many files that come and go, released sectors that are still cached |
| `ListSort`, `LinkedList`, `LinkedListSort`, `LinkedListReverse` | natural merge sort, the doubly linked list, sorting and reversing it in place |
| `Hash`, `HashTable`, `HashIterator` | the chained hash table |
| `MallocLayout`, `Malloc`, `MallocSteps`, `MallocTheorems`, `MallocExact`, `MallocCode`, `MallocHistory` | the arena allocator |
| `Semaphore`, `Lock`, `Monitor` | semaphores, locks, condition variables |
| `Scheduler`, `SchedulerTheorems`, `SchedulerEffects`, `SchedulerCode`, `AlarmRace` | ready list, sleep list, alarm; what each step does to every thread |
| `Swap`, `Paging`, `PagingTheorems`, `PagingEffects`, `PagingCode`, `PagingRace` | swap slots, eviction, faults, writes during an eviction |
| `Division`, `Sorting`, `Printf`, `PrintfLayout`, `PrintfCode`, `Atoi` | 64-bit division, heapsort and binary search, `format_integer`, `atoi` |

## Where the code does not do what one would expect

The model does what the code does. Where an expected property is false of it, the exact condition is proved.

- `inode_grow` uses the inode's block index for the allocation and the read of a second-level block and its own loop
  index for the write (pintos/src/filesys/inode.c:200, 203, 215). `InodeExact.GrowExact` proves that growth works for
  all contents of free sectors and stack buffers if and only if it stays inside one second-level block, the file stays
  addressable and enough sectors are free; `InodeExact.CrossingFails` is the failing family,
  `InodeExact.CrossingHappens` one of it.
- `inode_grow` returns `bool`, so its `-1` is true and the callers' tests for -1 never see a failure
  (pintos/src/filesys/inode.c:156, 277, 534): `FileSystemModel.FileSystem.GrowInode`.
- `length_shown` grows by the bytes written (pintos/src/filesys/inode.c:575-576): a file shown in full stays so if and
  only if the write does not start past its end (`FileIO.ShownInFull`).
- Zeros and pointer blocks go to the disk, data goes through the cache, and released sectors stay cached. A write that
  leaves no gap works all the same, whatever the cache holds of the sectors it takes for data (`FileIO.WriteAt`), and
  so does every run of creations, writes and removals that takes no dirty sector for a pointer block (`FileRun.Run`).
  `StaleCache` proves exactly when a new sector reads as zeros, for how long it does not (`OldCopy`), and when a
  write-behind pass destroys a pointer block or an inode. `ReuseHappens` and `BlockDestroyed` are instances.
- `umod64` and `smod64` return 32 bits; `sdiv64` of the least value by -1 wraps. `Division` has the exact conditions.
- `parse_conversion` sets the left-justify flag for a negative `*` width after it has cleared the zero flag
  (pintos/src/lib/stdio.c:373-394), so such a field is padded twice: `PrintfLayout.WidthExactly`,
  `PrintfLayout.PaddedTwice`.
- A `%d` rendering with the grouping flag is not what `atoi` reads from 1000 on (`Atoi.RoundTrip`).
- `malloc` computes the pages of a big request in 32 bits: `MallocLayout.PagesSuffice`. Its opening comment speaks of
  blocks up to 2 kB; the largest descriptor has 1 kB.
- `realloc` to more than 2^32 - 12 bytes gets one page and copies as many bytes as the old block has: the copy fits if
  and only if the old block has at most 4084 bytes (`MallocCode.CopyFitsExactly`, `MallocCode.CopyOverruns`).
- The comment on `bitmap_scan_and_flip` says that it returns 0 for a count of zero; the code returns the start. The
  comment on `free_map_allocate` says false means that all sectors were available; the code returns false when no run
  is free or the map cannot be stored. The comment on `inode_write_at` says that growth is not implemented, and the one
  on `thread_create` that priority scheduling is not; both are.
- `cache_write` marks its entry dirty after it has unpinned it (pintos/src/filesys/cache.c:132-133): an eviction in
  between loses the write if and only if the entry was clean and the bytes differ (`CacheRace.EvictedBeforeMark`);
  `CacheRace.LostWrite` follows two threads through the code to such an eviction.
- `update_wakeup_call_time` compares and stores with interrupts on. With the two as separate steps of the scheduler,
  `AlarmRace.PassedOverExactly` says exactly when an interrupt passes over a thread that is due, `AlarmRace.StoreExact`
  exactly which stores spoil the alarm, and `AlarmRace.OneAtATimeIsSafe` that it takes two threads between compare and
  store. `AlarmRace.Oversleeps` and `AlarmRace.WakesAt50` follow a run from boot in which a thread due at
  tick 20 sleeps until tick 50; `AlarmRace.ScriptOnlyPreempts` shows that the timer can bring it about.
- `update_wakeup_call_time` only ever takes an earlier time, so the calls at the end of `thread_wakeup`
  (pintos/src/threads/thread.c:252, 258) have no effect, and after the first alarm every tick walks the sleep list
  (`SchedulerTheorems.NoRecompute`, `SchedulerTheorems.AlarmStaysPast`).
- `evict_frame` copies a page out before it unmaps it (pintos/src/vm/frame.c:100, 104), and user accesses take no lock:
  `PagingRace` says exactly which writes in between survive; `PagingRace.ByteLost` is one that does not.
- A lock's holder is stored outside the semaphore's region; `LockModel.AssertionsExact` shows that the assertions
  on it are exact in every interleaving all the same.

## Model

| member | source | states |
|---|---|---|
| `InodeLayout.ByteToSectorIsLookup` | pintos/src/filesys/inode.c:87-129 | the byte-wise walk through direct, single- and double-indirect pointers agrees, for every position, with a lookup by file sector |
| `InodeLayout.LookupFinds` | pintos/src/filesys/inode.c:87-129 | in an inode that holds the data sectors `data`, the lookup of file sector k is the k-th of them, for every k |
| `InodeLayout.ByteToSectorFinds` | pintos/src/filesys/inode.c:87-129 | every byte below the length is found in the sector that was allocated for it, in allocation order; bytes at or past the length give -1 |
| `InodeGrowLaws.FillMarks` | pintos/src/filesys/inode.c:171-178 | the sectors a filled block takes are distinct, were free, are zeroed, and no other sector or bit changes |
| `InodeGrowLaws.FillSlots` | pintos/src/filesys/inode.c:171-178 | they go into consecutive slots of the pointer block, and the other slots keep what they had |
| `InodeGrowLaws.FillFree` | pintos/src/filesys/inode.c:171-178 | filling succeeds if and only if the free map has enough sectors, and uses up one free sector for each |
| `InodeGrowLaws.ExtendsTrans` | pintos/src/filesys/inode.c:142-237 | two growths that each append to the file compose to one that appends both parts and changes no earlier mapping |
| `InodeSteps.DirectExtends` | pintos/src/filesys/inode.c:155-160 | a direct step appends exactly one zeroed data sector and keeps every existing mapping |
| `InodeSteps.IndirectExtends` | pintos/src/filesys/inode.c:163-186 | a single-indirect step appends the sectors that fit the current block, with a new pointer block exactly when it opens one |
| `InodeSteps.DoubleExtends` | pintos/src/filesys/inode.c:189-231 | a double-indirect step that stays in one second-level block appends its sectors, with a new root and block exactly when needed |
| `InodeTheorems.FreeAfterGrowth` | pintos/src/filesys/inode.c:142-237 | a growth lowers the number of free sectors by exactly the data and pointer sectors it added |
| `InodeFail.FailedGrowth` | pintos/src/filesys/inode.c:142-237 | whatever the state of the disk, growth gives back no sector, reports no space only once every sector is in use, and leaves the inode's place as before if it does not end normally |
| `InodeTheorems.GrowLoopExtends` | pintos/src/filesys/inode.c:152-232 | the whole loop appends all the sectors asked for whenever the file stays addressable, the growth is confined to one second-level block and enough sectors are free |
| `InodeExact.ExtendsNeedsRoom` | pintos/src/filesys/inode.c:142-237 | whatever the code does, appending m sectors needs that many free sectors and room for their pointer blocks |
| `InodeExact.CrossingFails` | pintos/src/filesys/inode.c:196-222 | with zeros in the free sectors, a growth that runs from one second-level block into the next leaves an inode that does not hold the grown file, whatever the stack buffers held |
| `InodeExact.CrossingHappens` | pintos/src/filesys/inode.c:196-222 | on an empty disk of 2000 sectors a new file cannot grow by 129 sectors more than the single-indirect pointers reach |
| `InodeExact.GrowExact` | pintos/src/filesys/inode.c:142-237 | growing works for all contents of free sectors and stack buffers if and only if the file stays addressable, the growth stays in one second-level block and enough sectors are free |
| `InodeRelease.CloseReleasesExactly` | pintos/src/filesys/inode.c:385-436 | closing a removed inode releases its data sectors, its pointer blocks and its own sector, each exactly once and nothing else, and no assertion of the free map fails |
| `InodeRelease.RunExtends` | pintos/src/filesys/inode.c:142-237 | any series of growths extends the file by the sum of what was asked for, old mappings unchanged |
| `InodeRelease.CreateGrowClose` | pintos/src/filesys/inode.c:385-436 | conservation: create in a free sector, grow any number of times, remove and close, and the free map is what it was, whatever the fresh inode's pointers held |
| `FileSystemModel.FileSystem.Fill` | pintos/src/filesys/inode.c:171-178 | the allocation loop on disk and free map computes the filled block of the model |
| `FileSystemModel.FileSystem.Open` | pintos/src/filesys/inode.c:164-169 | a pointer block is allocated when its region is entered and read back otherwise |
| `FileSystemModel.FileSystem.StepDirect` | pintos/src/filesys/inode.c:155-160 | one turn in the direct region, as the model's step |
| `FileSystemModel.FileSystem.StepIndirect` | pintos/src/filesys/inode.c:163-186 | one turn in the single-indirect region, as the model's step |
| `FileSystemModel.FileSystem.TurnDouble` | pintos/src/filesys/inode.c:197-215 | one turn of the loop over second-level blocks, through the inode's index for the read and the loop's own for the write |
| `FileSystemModel.FileSystem.StepDouble` | pintos/src/filesys/inode.c:189-231 | one turn in the double-indirect region, as the model's step |
| `FileSystemModel.FileSystem.GrowInode` | pintos/src/filesys/inode.c:142-237 | the method leaves disk, free map and inode as the model's growth does, and its boolean result is true on every path, a failed allocation included |
| `FileClose.ReleaseSector` | pintos/src/filesys/inode.c:388-388 | one sector is released; the result says whether the assertion that it is in use held |
| `FileClose.ReleaseSlots` | pintos/src/filesys/inode.c:407-411 | the sectors of a pointer block are released until none is left to release |
| `FileClose.ReleaseDouble` | pintos/src/filesys/inode.c:416-429 | each second-level block's sectors, then the block, in order |
| `FileClose.Deallocate` | pintos/src/filesys/inode.c:385-436 | the deallocation loop releases exactly what the model's close releases, and reports whether every assertion held |
| `FileContents.FileSpared` | pintos/src/filesys/inode.c:474-586 | cache operations that leave a file's data sectors and pointer blocks alone leave its mapping and its bytes alone, whatever else the cache holds |
| `FileContents.OtherFile` | pintos/src/filesys/inode.c:518-586 | what a write does within its own sectors leaves every file with other sectors intact, bytes and pointer blocks included |
| `FileContents.GrowBesideCache` | pintos/src/filesys/inode.c:142-237 | growing beside the cache, with nothing waiting to be written over a pointer block, keeps the file intact except for new data sectors with clean copies |
| `FileWriting.ProgressStep` | pintos/src/filesys/inode.c:550-583 | each chunk is in place, the earlier chunks and the bytes that are not written stay, and sectors of other files are left alone |
| `FileWriting.RestShown` | pintos/src/filesys/inode.c:531-583 | after the last chunk the other bytes of old sectors show what they showed; those of new sectors are zero if the sector was not cached, what the copy held if that was dirty, and one of the two if it was clean |
| `FileWriting.Finished` | pintos/src/filesys/inode.c:531-583 | so a file that was in order is its old contents with the buffer in place |
| `FileWriting.WrittenExactly` | pintos/src/filesys/inode.c:518-586 | with no gap between the old end and the write that determines the new contents byte by byte |
| `FileIO.ReadAt` | pintos/src/filesys/inode.c:474-507 | for every offset and size the result is the bytes of the file in that range, cut at the shown length; exactly so for a file in order, and for one with stale copies each byte is what the copy or the disk held; nothing happens to any sector |
| `FileIO.NoBlocksNeeded` | pintos/src/filesys/inode.c:142-237 | a growth that needs no new pointer block works whatever the cache holds of the sectors it takes |
| `FileIO.DirectNeedsNone` | pintos/src/filesys/inode.c:152-160 | so does one within the direct sectors |
| `FileIO.WriteNext` | pintos/src/filesys/inode.c:550-583 | one turn of the write loop stores a nonempty chunk and moves the shown length up to the length |
| `FileIO.WriteChunks` | pintos/src/filesys/inode.c:550-583 | the loop writes the whole buffer, and the shown length follows up to the length |
| `FileIO.GrowFor` | pintos/src/filesys/inode.c:531-539 | the growth at the head of a write reaches the new length, keeps the old sectors, zeroes the new ones past the cache, takes only free sectors and leaves all others alone |
| `FileIO.WriteAt` | pintos/src/filesys/inode.c:518-586 | a denied write changes nothing; any other returns its full size, the file has the new length, the buffer at the offset, its old bytes elsewhere and the gap as said, also if it had stale copies before; other files are untouched, and the shown length grows by the bytes written, up to the length |
| `FileIO.ShownInFull` | pintos/src/filesys/inode.c:575-576 | the shown length that a write leaves equals the new length, from a file shown in full, if and only if the write does not start past the end |
| `FileIO.WriteThenRead` | pintos/src/filesys/inode.c:474-586 | a read of the range just written returns exactly the bytes written |
| `OpenFiles.OthersStay` | pintos/src/filesys/inode.c:518-586 | when one file changes within its own and free sectors, all open files stay intact and apart, and the others keep their bytes |
| `OpenFiles.FileJoins` | pintos/src/filesys/inode.c:244-298 | when a file of free sectors is created, likewise |
| `OpenFiles.FileLeaves` | pintos/src/filesys/inode.c:385-436 | when the sectors of a removed file are released, likewise |
| `FileRun.CreateOne` | pintos/src/filesys/inode.c:244-298 | creating an empty file takes the lowest free sector and no other for its inode, whose image is then in that sector of the disk, and leaves every open file as it was |
| `FileRun.CloseOne` | pintos/src/filesys/inode.c:385-436 | the last close of a removed file frees exactly its sectors, leaves the cache alone and every other file as it was |
| `FileRun.Do` | pintos/src/filesys/inode.c:244-586 | each read, write, creation, removal and write-behind pass has the answer and the effect it would have on one plain byte array per file |
| `FileRun.Run` | pintos/src/filesys/inode.c:244-586 | so has every run of them, on any number of files, with sectors passing from file to file, as long as no write leaves a gap, each growth is one that can succeed and, if it takes pointer blocks, free sectors are not dirty in the cache |
| `StaleCache.NewSectorReadsZero` | pintos/src/filesys/inode.c:157-174 | a new data sector reads as zeros if and only if it was not in the cache, or the cache held zeros for it: zeros go to the disk, reads go to the cache |
| `StaleCache.OldCopy` | pintos/src/filesys/inode.c:157-174 | a dirty copy of a new sector goes over the zeros and shows for good; a clean one shows until it is dropped, and then the zeros do |
| `StaleCache.ReusedSector` | pintos/src/filesys/inode.c:157-159 | closing a removed file frees its cached data sector and leaves the cache alone; if it is then the lowest free sector, the first growth of a new file takes it and the new file shows the old bytes there |
| `StaleCache.ReuseHappens` | pintos/src/filesys/inode.c:157-159 | a disk, a cache and a file for which that happens |
| `StaleCache.WriteBehindOverBlock` | pintos/src/filesys/inode.c:168-180 | if a file's pointer block is cached, then after the next write-behind pass the file's sector is found if and only if the copy was clean or the cached bytes name it |
| `StaleCache.BlockDestroyed` | pintos/src/filesys/inode.c:163-186 | a removed file, a new one that is given its dirty sector as a pointer block, and a write-behind pass after which the new file's fifth sector is no longer found |
| `StaleCache.BlockIsDirty` | pintos/src/filesys/inode.c:163-186 | in that run the growth itself can succeed; only the condition on dirty pointer blocks fails |
| `StaleCache.InodeSurvivesPass` | pintos/src/filesys/inode.c:289-289 | an inode written past the cache is still in its sector after a write-behind pass if and only if no copy of the sector was dirty, or the copy was the same |
| `FreeMapModel.Allocate` | pintos/src/filesys/free-map.c:26-40 | the lowest run of free sectors is taken, if there is one and the map could be stored; otherwise the map is unchanged |
| `FreeMapModel.Release` | pintos/src/filesys/free-map.c:43-49 | exactly the given sectors become free |
| `FreeMapModel.AllocateThenRelease` | pintos/src/filesys/free-map.c:26-49 | releasing what was just allocated restores the free map |
| `CacheModel.SelectEffect` | pintos/src/filesys/cache.c:35-77 | the victim is the first entry neither pinned nor used, else the first unpinned one; there is a victim if and only if some entry is unpinned; exactly the unpinned entries up to which all are pinned or used lose their mark |
| `CacheModel.FetchMarks` | pintos/src/filesys/cache.c:97-140 | a hit sets the used mark of its entry and changes nothing else; with room left a clean used entry is appended; otherwise the sector takes the victim's place, clean, unused and pinned, and the other entries change only as the selection says |
| `CacheModel.FetchEffect` | pintos/src/filesys/cache.c:22-116 | fetching fails if and only if the cache is full of pinned entries and misses; otherwise what users see is unchanged and the entry has the sector's current bytes |
| `CacheModel.FetchSpares` | pintos/src/filesys/cache.c:22-116 | whatever its clean entries hold, a fetch hands out what the sector showed, and neither a sector whose copy agrees with the disk nor the disk under a clean copy changes |
| `CacheModel.FetchTouches` | pintos/src/filesys/cache.c:22-95 | a fetch caches at most one more sector and writes no disk sector that was not cached |
| `CacheModel.ReadIsInvisible` | pintos/src/filesys/cache.c:97-119 | a read changes nothing that users can see |
| `CacheModel.WriteStores` | pintos/src/filesys/cache.c:121-145 | likewise a write stores exactly the addressed bytes of the addressed sector, and nothing happens to any other |
| `CacheModel.WriteIsSplice` | pintos/src/filesys/cache.c:121-145 | a write changes exactly the addressed bytes of the addressed sector |
| `CacheModel.FlushEffect` | pintos/src/filesys/cache.c:147-165 | a write-behind pass does nothing to any sector and leaves no entry dirty |
| `CacheModel.FlushMakesDiskCurrent` | pintos/src/filesys/cache.c:147-165 | after a write-behind pass the disk itself equals the logical contents |
| `CacheModel.StepRefines` | pintos/src/filesys/cache.c:97-165 | each operation never gets stuck, gives the answer of a plain sector array and leaves the same logical contents |
| `CacheModel.CacheIsInvisible` | pintos/src/filesys/cache.c:22-165 | every run of reads, writes and write-behind passes with the evictions they cause answers exactly as a plain array of sectors; cached sectors stay distinct and at most 64 |
| `CacheRace.UndisturbedWrite` | pintos/src/filesys/cache.c:129-133 | a write whose late dirty mark nothing precedes leaves the sector holding what was written |
| `CacheRace.EvictedBeforeMark` | pintos/src/filesys/cache.c:129-133 | if the entry is evicted between the copy and the late dirty mark, the write survives if and only if the entry was dirty already, or the disk held the same bytes |
| `CacheRace.MissTakesFirst` | pintos/src/filesys/cache.c:35-77 | in a full cache whose first entry is neither pinned nor used a miss takes that entry, and leaves it unused |
| `CacheRace.LostWrite` | pintos/src/filesys/cache.c:121-133 | two misses by two threads then take the same entry, and the first thread's write, caught before its mark, survives if and only if it changed nothing |
| `CacheRace.FullCacheExists` | pintos/src/filesys/cache.c:35-77 | there is such a cache |
| `CacheModel.BufferCache.FindCache` | pintos/src/filesys/cache.c:22-33 | the first entry that holds the sector |
| `CacheModel.BufferCache.EvictCache` | pintos/src/filesys/cache.c:35-77 | the two sweeps over the list, as the model's selection and replacement |
| `CacheModel.BufferCache.AllocateNewCache` | pintos/src/filesys/cache.c:79-95 | a new entry with the sector's bytes from disk |
| `CacheModel.BufferCache.Obtain` | pintos/src/filesys/cache.c:97-112 | find, allocate or evict, as the model's fetch |
| `CacheModel.BufferCache.Read` | pintos/src/filesys/cache.c:97-119 | the bytes read are those of the logical sector, and nothing happens to any sector |
| `CacheModel.BufferCache.Write` | pintos/src/filesys/cache.c:121-145 | the sector shows its old bytes with the new ones spliced in, and nothing happens to any other |
| `CacheModel.BufferCache.WriteBehindLoop` | pintos/src/filesys/cache.c:147-165 | the loop leaves the disk equal to the logical contents wherever clean copies agreed with it, and nothing happens to any sector |
| `BitmapModel.UpdateWord` | pintos/src/lib/kernel/bitmap.c:35-70 | replacing one word changes the bits packed in that word and no others |
| `BitmapModel.Bitmap.Mark` | pintos/src/lib/kernel/bitmap.c:158-167 | sets exactly the one position |
| `BitmapModel.Bitmap.Reset` | pintos/src/lib/kernel/bitmap.c:171-180 | clears exactly the one position |
| `BitmapModel.Bitmap.Flip` | pintos/src/lib/kernel/bitmap.c:186-195 | inverts exactly the one position |
| `BitmapModel.Bitmap.Test` | pintos/src/lib/kernel/bitmap.c:199-204 | reads the position |
| `BitmapModel.Bitmap.SetMultiple` | pintos/src/lib/kernel/bitmap.c:219-230 | sets exactly the run of positions to the value |
| `BitmapModel.Bitmap.CountOf` | pintos/src/lib/kernel/bitmap.c:234-248 | the number of positions in the range that hold the value |
| `BitmapModel.Bitmap.Contains` | pintos/src/lib/kernel/bitmap.c:252-265 | true if and only if some position in the range holds the value |
| `BitmapModel.Bitmap.Scan` | pintos/src/lib/kernel/bitmap.c:297-311 | the least index at or after the start of a run of the value that fits, or none if there is none |
| `BitmapModel.Bitmap.ScanAndFlip` | pintos/src/lib/kernel/bitmap.c:321-327 | that run is inverted and nothing else; with count zero it returns the start, although its comment says 0 |
| `BitmapModel.LastMaskKeeps` | pintos/src/lib/kernel/bitmap.c:66-70 | masking the last word changes none of the bits in use |
| `BitmapModel.Bitmap.ReadFrom` | pintos/src/lib/kernel/bitmap.c:342-352 | a full read replaces the contents by those of the file and clears the padding |
| `BitmapModel.StoreAndLoad` | pintos/src/lib/kernel/bitmap.c:341-361 | writing a bitmap out and reading it back restores every bit, whatever the padding bits and the destination held |
| `LinkedListModel.List.constructor` | pintos/src/lib/kernel/list.c:60-68 | a new list is well linked and empty |
| `LinkedListModel.List.Insert` | pintos/src/lib/kernel/list.c:168-178 | the list stays well linked, with the element just before the given one |
| `LinkedListModel.List.Remove` | pintos/src/lib/kernel/list.c:256-263 | the list stays well linked without the element, and the element after it is returned |
| `LinkedListModel.Relinked` | pintos/src/lib/kernel/list.c:195-203 | three links across two adjacent ranges, all other links kept, are the links of the list with the ranges exchanged |
| `LinkedListModel.Relink` | pintos/src/lib/kernel/list.c:183-204 | the pointer assignments of the splice give exactly that list |
| `LinkedListModel.List.Splice` | pintos/src/lib/kernel/list.c:183-204 | the range moves to just before the given element, for every place of the range and of the target outside it |
| `ListSort.MergeAscending` | pintos/src/lib/kernel/list.c:387-407 | merging two sorted runs gives a sorted run |
| `ListSort.MergeElements` | pintos/src/lib/kernel/list.c:387-407 | with the elements of both |
| `ListSort.MergeStable` | pintos/src/lib/kernel/list.c:387-407 | and elements that compare equal keep their order, the first run's first |
| `ListSort.PassHalves` | pintos/src/lib/kernel/list.c:429-443 | a pass puts out half as many runs as there are maximal runs, rounded up |
| `ListSort.PassOutput` | pintos/src/lib/kernel/list.c:429-443 | the list after a pass has at most as many maximal runs as the pass put out |
| `ListSort.FewerRuns` | pintos/src/lib/kernel/list.c:422-445 | the number of maximal nondecreasing runs strictly falls with each pass that is repeated, so the sort terminates |
| `ListSort.SortSorts` | pintos/src/lib/kernel/list.c:412-448 | for any strict weak order the result is sorted, every pair of elements included, and is a permutation of the input |
| `ListSort.SortStable` | pintos/src/lib/kernel/list.c:412-448 | elements that the order does not tell apart keep their order |
| `LinkedListSort.FindEndOfRun` | pintos/src/lib/kernel/list.c:365-380 | the pointer walk ends exactly behind the maximal run that starts at the element |
| `LinkedListSort.InplaceMerge` | pintos/src/lib/kernel/list.c:387-407 | merging by splices leaves a well-linked list in which the two runs are replaced by their merge |
| `LinkedListSort.SortPass` | pintos/src/lib/kernel/list.c:428-443 | one pass over the links is the pass on the sequence, with the count of output runs |
| `LinkedListSort.Sort` | pintos/src/lib/kernel/list.c:412-448 | the list stays well linked and becomes the stable sorted permutation of itself |
| `LinkedListSort.InsertOrdered` | pintos/src/lib/kernel/list.c:453-467 | the element is inserted before the first one it is less than |
| `SchedulerModel.InsertSorts` | pintos/src/lib/kernel/list.c:453-467 | ordered insertion keeps the list sorted and puts the new element behind all its equals |
| `SchedulerCode.InsertOrdered` | pintos/src/lib/kernel/list.c:463-466 | the loop finds the place of that insertion |
| `LinkedListReverse.Reverse` | pintos/src/lib/kernel/list.c:333-345 | the links turned round are a well-linked list of the elements in reverse order |
| `LinkedListReverse.MirrorTwice` | pintos/src/lib/kernel/list.c:333-345 | reversing twice restores the list |
| `HashModel.AndMask` | pintos/src/lib/kernel/hash.c:305-310 | masking the hash with the bucket count less one is the remainder by it, for a power of two |
| `HashModel.TurnOffKeepsTop` | pintos/src/lib/kernel/hash.c:328-340 | turning off the lowest bit keeps the highest one unless the number is a power of two, which is what the power-of-two test detects |
| `HashModel.BucketCount` | pintos/src/lib/kernel/hash.c:364-372 | the loop finds the largest power of two, at least four, that is no more than the ideal number of buckets |
| `HashTableModel.HashTable.constructor` | pintos/src/lib/kernel/hash.c:24-42 | a new table of four buckets is the empty set |
| `HashTableModel.HashInit` | pintos/src/lib/kernel/hash.c:24-42 | an empty table, or none exactly when the memory for its buckets is refused |
| `HashTableModel.HashTable.FindBucket` | pintos/src/lib/kernel/hash.c:305-310 | the bucket of an element is its hash modulo the number of buckets |
| `HashTableModel.HashTable.FindElem` | pintos/src/lib/kernel/hash.c:314-326 | an equal element of the bucket, or none if there is none |
| `HashTableModel.HashTable.Find` | pintos/src/lib/kernel/hash.c:131-135 | an equal element of the set, and none if and only if the set has none |
| `HashTableModel.HashTable.OnlyEqual` | pintos/src/lib/kernel/hash.c:98-154 | no two elements of the table are equal |
| `HashTableModel.HashTable.Insert` | pintos/src/lib/kernel/hash.c:98-110 | adds the element if no equal one is there; otherwise returns that one and changes no contents; with memory the bucket count then fits the new size |
| `HashTableModel.HashTable.Replace` | pintos/src/lib/kernel/hash.c:114-127 | the element replaces the equal one, which is returned; with memory the bucket count then fits the new size |
| `HashTableModel.HashTable.Delete` | pintos/src/lib/kernel/hash.c:144-154 | the equal element is removed and returned and the bucket count then fits, if memory allows; or nothing changes |
| `HashTableModel.HashTable.Rehash` | pintos/src/lib/kernel/hash.c:351-413 | contents never change, also when memory is refused; with memory the bucket count is the largest power of two within the ideal |
| `HashTableModel.MoveAll` | pintos/src/lib/kernel/hash.c:394-410 | moving all elements into new buckets keeps every element and puts each in the bucket of its hash |
| `HashIteratorModel.HashIterator.Next` | pintos/src/lib/kernel/hash.c:218-235 | the next element of the iteration order, or none exactly when none remains |
| `HashIteratorModel.EachOnce` | pintos/src/lib/kernel/hash.c:200-235 | the iteration order has every element of the table exactly once |
| `HashIteratorModel.VisitAll` | pintos/src/lib/kernel/hash.c:182-235 | the iteration idiom visits every element of the table exactly once |
| `Division.NlzIs` | pintos/src/lib/arithmetic.c:41-73 | shifting by the computed count puts the leading one in the top bit |
| `Division.CountLeadingZeros` | pintos/src/lib/arithmetic.c:41-73 | the in-place version computes that count |
| `Division.BigNoTrap` | pintos/src/lib/arithmetic.c:121-123 | the normalised divisor has its top bit set, so the divide instruction does not trap |
| `Division.BigEstimate` | pintos/src/lib/arithmetic.c:121-123 | the shifted quotient is the true quotient or one more |
| `Division.Udiv64IsFloor` | pintos/src/lib/arithmetic.c:77-127 | for all 64-bit operands the result is the floor of the quotient and no divide instruction traps |
| `Division.Umod64Exact` | pintos/src/lib/arithmetic.c:131-135 | the 32-bit result is the true remainder for every dividend if and only if the divisor is at most 2^32 |
| `Division.Sdiv64Truncates` | pintos/src/lib/arithmetic.c:139-146 | division truncates toward zero (section 6.5.5 of ISO C99) if and only if the operands are not the least value and -1 |
| `Division.Smod64Exact` | pintos/src/lib/arithmetic.c:150-154 | the 32-bit result is the true remainder for every dividend if and only if the divisor is at most 2^31 in absolute value |
| `Sorting.HeapifyRestores` | pintos/src/lib/stdlib.c:97-123 | floating down restores the heap from the element on and touches nothing outside it |
| `Sorting.RootIsLargest` | pintos/src/lib/stdlib.c:97-123 | the root of a heap is its largest element |
| `Sorting.ExtractMax` | pintos/src/lib/stdlib.c:146-151 | moving the root behind the heap and floating its replacement down extends the sorted part by the right element |
| `Sorting.FloatDown` | pintos/src/lib/stdlib.c:97-123 | the loop on the array is the model's floating down |
| `Sorting.Sort` | pintos/src/lib/stdlib.c:132-152 | for any consistent comparison the array becomes a sorted permutation of itself |
| `Sorting.BinarySearch` | pintos/src/lib/stdlib.c:185-207 | an element equal to the key if and only if there is one |
| `Atoi.ParseString` | pintos/src/lib/stdlib.c:10-41 | the loops compute the parsed value, and signed overflow is reported exactly where the accumulation or the negation leaves the range |
| `Atoi.ParsesExactly` | pintos/src/lib/stdlib.c:10-41 | after any run of the six white-space characters, an optional sign and decimal digits, the result is the number they denote if and only if it is an int, whatever follows the digits |
| `Atoi.ReadDigits` | pintos/src/lib/stdlib.c:27-35 | accumulating the digits of v downward gives -v with no overflow down to the least int |
| `Printf.DigitsFit` | pintos/src/lib/stdio.c:501-513 | the digits and separators of any 64-bit value in any base fit the buffer |
| `Printf.BasesOk` | pintos/src/lib/stdio.c:138-141 | the digits of the four bases are in ascending order from 0 and enough for the base |
| `Printf.DigitCharacters` | pintos/src/lib/stdio.c:138-141 | the digit of value i is the decimal digit, or the letter counted from a or A |
| `Printf.DigitsValue` | pintos/src/lib/stdio.c:501-513 | the digits in the buffer, read in their base with separators passed over, denote the value |
| `PrintfLayout.FormatDenotes` | pintos/src/lib/stdio.c:469-547 | in every base and for all flags, width and precision: the sign and the prefix appear exactly when asked for and due; the digits denote the value, have no leading zero and have a separator exactly after each full group; the zeros ahead of them are the fewest that make up the precision, 1 if none was given and at most 63, and octal's leading zero; the field is filled to the width, and no further, on the side the flags say |
| `PrintfLayout.SeparatorsExact` | pintos/src/lib/stdio.c:504-508 | from the lowest digit up a separator follows every full group, and nothing else is one |
| `PrintfLayout.DigitsTop` | pintos/src/lib/stdio.c:504-511 | the last character in the buffer is the highest digit: neither a zero nor a separator |
| `PrintfLayout.PaddedIs` | pintos/src/lib/stdio.c:515-524 | the buffer then holds the fewest zeros that make up the precision and, for octal with #, one at least |
| `PrintfLayout.WidthExactly` | pintos/src/lib/stdio.c:526-547 | the output is as long as the larger of the width and the length it has without a width if and only if it is not padded twice, which happens when both flags are set and the width is larger |
| `PrintfLayout.PaddedTwice` | pintos/src/lib/stdio.c:532-546 | with both flags set, 7 in a field of 3 is 007 and two spaces |
| `PrintfCode.FormatInteger` | pintos/src/lib/stdio.c:469-547 | no store leaves the 64-byte buffer, for every 64-bit value, base, flags, width and precision; sign, prefix, digits, zeros and padding are as FormatDenotes says |
| `Atoi.RoundTrip` | pintos/src/lib/stdio.c:469-547 | for every int and every choice of flags, width and precision, atoi of the %d rendering is the same int without overflow if and only if no thousands separator was printed |
| `SemaphoreModel.StepSound` | pintos/src/threads/synch.c:61-123 | every step keeps: waiters are distinct, no thread is both blocked and woken, and while threads wait the value is at most the number of woken threads |
| `SemaphoreModel.RunSound` | pintos/src/threads/synch.c:61-123 | that holds after every interleaving of downs, tries and ups |
| `SemaphoreModel.Conservation` | pintos/src/threads/synch.c:61-123 | in every interleaving value plus completed downs is initial value plus ups, less whole turns of the 32-bit counter, and exactly so while the sum fits |
| `SemaphoreModel.FirstComeFirstServed` | pintos/src/threads/synch.c:70-119 | threads are unblocked in the order in which they blocked |
| `SemaphoreModel.NoLostWakeup` | pintos/src/threads/synch.c:61-123 | whenever the value is positive and a thread waits, some woken thread can take a unit |
| `SemaphoreModel.WokenExactly` | pintos/src/threads/synch.c:61-123 | in every run the threads on their way to the value are exactly those that an up has unblocked and that have not tested it since |
| `SemaphoreModel.Semaphore.DownTurn` | pintos/src/threads/synch.c:69-76 | one turn of the loop, as the model's step |
| `SemaphoreModel.Semaphore.TryDownOnce` | pintos/src/threads/synch.c:84-103 | as the model's step |
| `SemaphoreModel.Semaphore.UpOnce` | pintos/src/threads/synch.c:109-123 | as the model's step; the thread unblocked is the first that waits |
| `LockModel.MutualExclusion` | pintos/src/threads/synch.c:194-239 | two threads between sema_down and sema_up are the same thread |
| `LockModel.AssertionsExact` | pintos/src/threads/synch.c:199-235 | the acquire assertions fail if and only if the caller owns the lock, the release assertion if and only if it does not |
| `LockModel.LockStepSound` | pintos/src/threads/synch.c:194-239 | every step keeps value plus threads inside equal to one, and the recorded holder equal to the owner |
| `LockModel.EveryLockRun` | pintos/src/threads/synch.c:194-239 | that holds after every interleaving |
| `LockModel.AcquireEffect` | pintos/src/threads/synch.c:194-206 | acquiring a free lock puts the thread inside, alone, and leaves value 0; acquiring a taken one makes the thread the last waiter and changes nothing else |
| `LockModel.TryAcquireEffect` | pintos/src/threads/synch.c:211-226 | trying a free lock takes it and leaves value 0; trying a taken one changes nothing |
| `LockModel.SetHolderEffect` | pintos/src/threads/synch.c:205-205 | the thread that took the lock becomes its holder and nothing else changes |
| `LockModel.ReleaseEffect` | pintos/src/threads/synch.c:231-239 | releasing leaves no holder, value 1, the thread outside and exactly the first waiter woken, which may then try again |
| `LockModel.AcquireThenRelease` | pintos/src/threads/synch.c:194-239 | acquire and release of a free lock for which nobody waits can always be taken to the end and restore it |
| `MonitorModel.MonitorStepSound` | pintos/src/threads/synch.c:290-325 | every step of waiters, signallers and lock users keeps: a waiter's semaphore holds one unit exactly when it was signalled |
| `MonitorModel.NewMonitorSound` | pintos/src/threads/synch.c:262-268 | it holds of a new lock and condition variable |
| `MonitorModel.EveryMonitorRun` | pintos/src/threads/synch.c:290-325 | that holds after every interleaving |
| `MonitorModel.SignalUpSound` | pintos/src/threads/synch.c:322-324 | a signal always reaches a waiter that is still inside cond_wait, so its semaphore is still there |
| `MonitorModel.ReturnsIffSignalled` | pintos/src/threads/synch.c:300-304 | a waiter gets past its sema_down if and only if it was signalled: none returns unsignalled, and a signal before its sema_down is not lost |
| `MonitorModel.SignalReleasesEarliest` | pintos/src/threads/synch.c:315-325 | a signal releases the waiter it took off the queue and no other |
| `MonitorModel.SignalsInOrder` | pintos/src/threads/synch.c:290-325 | waiters are signalled in the order in which they began to wait |
| `MonitorModel.OnlyOwnerQueues` | pintos/src/threads/synch.c:297-324 | only the owner of the lock changes the queue |
| `MonitorModel.BroadcastDrains` | pintos/src/threads/synch.c:333-341 | whatever other threads do in between, the loop ends after one signal for each thread that waited when it began |
| `MonitorModel.WaitReleases` | pintos/src/threads/synch.c:291-306 | cond_wait by the owner can be taken to its sema_down, and leaves the thread last in the queue, blocked on a semaphore of its own, and the lock free with its first waiter woken |
| `MonitorModel.SignalDelivers` | pintos/src/threads/synch.c:315-325 | cond_signal takes the earliest waiter off the queue and gives its semaphore one unit; nothing else changes |
| `MonitorModel.SignalNobody` | pintos/src/threads/synch.c:322-324 | with an empty queue cond_signal changes nothing |
| `MonitorModel.WaiterReturns` | pintos/src/threads/synch.c:300-306 | a signalled waiter can go on past its semaphore, take the lock when it is free and return as its owner |
| `SchedulerTheorems.StepSound` | pintos/src/threads/thread.c:241-405 | every step keeps: no thread is on two lists or twice on one, both lists are sorted, each status says where the thread is, and the alarm is early enough |
| `SchedulerTheorems.EveryRun` | pintos/src/threads/thread.c:241-405 | that holds after every run, so no thread is lost |
| `SchedulerTheorems.BootedSound` | pintos/src/threads/thread.c:95-127 | it holds after boot |
| `SchedulerCode.Scheduler.WaitOn` | pintos/src/threads/thread.c:298-306 | blocking on a semaphore's waiter list, as the model's step |
| `SchedulerTheorems.WakeAllExact` | pintos/src/threads/thread.c:241-260 | the wake-up loop removes exactly the sleepers whose time has come |
| `SchedulerEffects.WakeAllEffect` | pintos/src/threads/thread.c:241-260 | every sleeper that is due ends up on the ready list with status ready, every other thread keeps its status, and those that were ready stay so |
| `SchedulerEffects.WakeAllOrder` | pintos/src/threads/thread.c:241-260 | the sleepers that become ready come behind ready threads of their priority, and among themselves in the order of the sleep list |
| `SchedulerEffects.RunsNext` | pintos/src/threads/thread.c:384-398 | which thread runs after each step: the head of the ready list, the idle thread if there is none, or a yielding thread that has a higher priority than all |
| `SchedulerEffects.StepStatus` | pintos/src/threads/thread.c:241-405 | the status of every thread after every step: only exit makes a thread dying; a thread that is woken, created or yields is ready; one that sleeps or waits is blocked; all others keep theirs |
| `SchedulerEffects.StepFields` | pintos/src/threads/thread.c:278-405 | priority, wake-up time and stage of every thread after every step; only the running thread sets its own |
| `SchedulerEffects.StepWaiters` | pintos/src/threads/thread.c:298-328 | blocking on a semaphore puts the running thread last among its waiters, waking takes off the first, no other step changes them |
| `SchedulerEffects.StepSleepers` | pintos/src/threads/thread.c:241-276 | who sleeps after every step, and that sleepers keep their order; a new one comes behind those that wake no later |
| `SchedulerEffects.StepReady` | pintos/src/threads/thread.c:316-398 | the order of the ready list after every step: higher priority first, and equals in the order in which they became ready |
| `SchedulerTheorems.DispatchPicks` | pintos/src/threads/thread.c:569-576 | the thread that runs next has the highest priority of the ready ones, and the idle thread runs if and only if none is ready |
| `SchedulerTheorems.StepMovesUp` | pintos/src/threads/thread.c:298-405 | while no thread of higher priority becomes ready, the threads ahead of a ready thread go down by one with each dispatch and by no other step |
| `SchedulerTheorems.BoundedDispatch` | pintos/src/threads/thread.c:298-405 | so a thread with j threads ahead of it runs within j + 1 dispatches |
| `SchedulerCode.Scheduler.ThreadUnblock` | pintos/src/threads/thread.c:316-328 | as the model's step |
| `SchedulerCode.Scheduler.Schedule` | pintos/src/threads/thread.c:569-645 | as the model's dispatch |
| `SchedulerCode.Scheduler.ThreadYield` | pintos/src/threads/thread.c:384-398 | as the model's step |
| `SchedulerCode.Scheduler.ThreadSleep` | pintos/src/threads/thread.c:263-276 | as the model's step |
| `SchedulerCode.Scheduler.ThreadWakeup` | pintos/src/threads/thread.c:241-260 | the loop over the sleep list makes every sleeper that is due ready and changes no other status, list or thread |
| `SchedulerTheorems.NoRecompute` | pintos/src/threads/thread.c:248-259 | the updates at the end of the wake-up loop never change the alarm |
| `SchedulerTheorems.AlarmOnlyEarlier` | pintos/src/threads/thread.c:241-290 | no step but an announcement changes the alarm, and that only to an earlier time |
| `SchedulerTheorems.AlarmStaysPast` | pintos/src/threads/thread.c:241-290 | once an alarm has gone off the alarm time stays in the past in every run, so every later interrupt walks the sleep list |
| `AlarmRace.RaceKeeps` | pintos/src/threads/thread.c:241-405 | with the compare and the store of the update as two steps that other threads may come between, every step still keeps the lists, their order and the statuses |
| `AlarmRace.EveryRace` | pintos/src/threads/thread.c:241-405 | and so does every run |
| `AlarmRace.PassedOverExactly` | pintos/src/threads/thread.c:241-290 | in such runs a sleeper that is due is still asleep after an interrupt if and only if the alarm is set to a later time |
| `AlarmRace.StoreExact` | pintos/src/threads/thread.c:284-290 | a store leaves the alarm early enough for all if and only if no thread that has announced waits for an earlier time than is stored or, when the compare had failed, the alarm is not later than the thread's own time |
| `AlarmRace.OneAtATimeIsSafe` | pintos/src/threads/thread.c:284-290 | in every run in which no thread compares while another is between compare and store, the alarm is always early enough |
| `AlarmRace.BootedUndisturbed` | pintos/src/threads/thread.c:33-127 | such runs can start at boot |
| `AlarmRace.NobodyPassedOver` | pintos/src/threads/thread.c:241-290 | and then no interrupt passes over a thread that is due |
| `AlarmRace.Oversleeps` | pintos/src/threads/thread.c:284-290 | a run from boot, with a preemption at the end of a time slice, after which a thread that is due at tick 20 sleeps on through every interrupt before the 50th |
| `AlarmRace.ScriptOnlyPreempts` | pintos/src/threads/thread.c:131-149 | in that run a thread is preempted only by the interrupt that ends its time slice of four ticks |
| `AlarmRace.WakesAt50` | pintos/src/threads/thread.c:284-290 | and the 50th interrupt wakes it |
| `SchedulerCode.Scheduler.UpdateWakeupCallTime` | pintos/src/threads/thread.c:284-290 | the time is only ever lowered |
| `SchedulerTheorems.AlarmExact` | pintos/src/devices/timer.c:96-148 | a sleeper leaves the sleep list if and only if a timer interrupt reaches its wake-up time: none wakes early, none that is due still sleeps after the interrupt |
| `SchedulerTheorems.AnnounceSound` | pintos/src/devices/timer.c:103-105 | announcing a wake-up time keeps the next alarm no later than any sleeper needs |
| `SchedulerEffects.TickEffect` | pintos/src/devices/timer.c:138-148 | a timer interrupt makes exactly the sleepers ready whose time has come, and changes no other thread |
| `SchedulerEffects.SleepsUntil` | pintos/src/devices/timer.c:96-107 | a running thread outside timer_sleep may take any step, and timer_sleep takes it in three to the sleep list, blocked, with its time stored and the alarm set for it |
| `SchedulerCode.Scheduler.TimerInterrupt` | pintos/src/devices/timer.c:138-148 | one tick later: every sleeper that is due is ready and on the ready list, no other status changes, and no other thread leaves or joins a list |
| `MallocLayout.InitDescriptors` | pintos/src/threads/malloc.c:71-85 | seven descriptors of 16 to 1024 bytes, with as many blocks as fit a page behind its header |
| `MallocLayout.FindDescriptor` | pintos/src/threads/malloc.c:100-104 | the smallest descriptor whose blocks hold the request, if there is one |
| `MallocLayout.OffsetsApart` | pintos/src/threads/malloc.c:285-294 | blocks of an arena do not overlap |
| `MallocLayout.BlockFindsArena` | pintos/src/threads/malloc.c:267-294 | rounding a block's address down to its page finds its arena, and different blocks have different addresses |
| `MallocLayout.PagesSuffice` | pintos/src/threads/malloc.c:109-110 | the pages of a big request hold it if and only if size and header fit 32 bits; exactly when only the rounding overflows no pages are asked for |
| `MallocModel.LiveInside` | pintos/src/threads/malloc.c:90-154 | a live block lies inside its pages, behind the header |
| `MallocModel.LiveDisjoint` | pintos/src/threads/malloc.c:90-154 | live blocks are pairwise disjoint |
| `MallocSteps.WhollyFree` | pintos/src/threads/malloc.c:241-253 | when the count reaches the number of blocks all are free and none is live, so the assertion holds |
| `MallocTheorems.MallocValid` | pintos/src/threads/malloc.c:90-154 | a refused call changes nothing; a granted one adds one live block distinct from all others and keeps the invariant, counts and sizes included |
| `MallocExact.RefusedExactly` | pintos/src/threads/malloc.c:90-154 | malloc returns no block if and only if the size is 0; or it is over 1024 and no pages are asked for or granted; or it is at most 1024, the list of the smallest fitting blocks is empty and no page is granted |
| `MallocExact.SmallestIs` | pintos/src/threads/malloc.c:100-104 | exactly one descriptor has the smallest blocks that hold a request of up to 1024 bytes, and that one is used |
| `MallocExact.ListedBlock` | pintos/src/threads/malloc.c:125-153 | if the list of the smallest fitting blocks has any, its head is handed out; its arena counts one free block fewer, and no other list, arena or block changes |
| `MallocExact.NewArenaBlock` | pintos/src/threads/malloc.c:125-153 | if it has none, the granted page becomes an arena: its first block is handed out and the others are the list, in order of address |
| `MallocExact.FewestPages` | pintos/src/threads/malloc.c:109-110 | a big request asks for the fewest pages that hold it and the header, unless the sum overflows |
| `MallocExact.BigBlockExactly` | pintos/src/threads/malloc.c:106-122 | a big block starts behind the header of the pages granted, and no list changes |
| `MallocTheorems.FreeValid` | pintos/src/threads/malloc.c:218-264 | the block is no longer live, the others are untouched, and no wholly free arena is kept |
| `MallocExact.SmallFreed` | pintos/src/threads/malloc.c:218-256 | a freed small block goes to the front of its list, unless all other blocks of its arena are free: exactly then the arena is given back and its blocks leave the list, which keeps its order; nothing else changes |
| `MallocExact.BigFreed` | pintos/src/threads/malloc.c:257-262 | the pages of a big block are given back and nothing else changes |
| `MallocTheorems.FreeUndoesMalloc` | pintos/src/threads/malloc.c:90-264 | free right after malloc restores the heap exactly, free lists and arenas included |
| `MallocTheorems.EmptyHeapValid` | pintos/src/threads/malloc.c:71-85 | the invariant holds of the heap before the first call |
| `MallocHistory.EveryHistory` | pintos/src/threads/malloc.c:90-264 | over every history of malloc, realloc and free calls and owners' writes live blocks are disjoint, inside their arenas and large enough, counts are right and no wholly free arena is kept |
| `MallocHistory.OnlyOwnerWrites` | pintos/src/threads/malloc.c:90-264 | over every history that neither frees nor moves a live block it stays live with all its bytes, and they are what its owner's writes have made of them |
| `MallocCode.Allocator.MallocBlock` | pintos/src/threads/malloc.c:90-154 | the method computes the model's malloc, and returns no block in exactly the three cases of RefusedExactly |
| `MallocCode.Allocator.FreeBlock` | pintos/src/threads/malloc.c:218-264 | the method computes the model's free, fills a small block with 0xcc and writes no byte outside the block |
| `MallocCode.Allocator.Move` | pintos/src/threads/malloc.c:204-212 | realloc of a live block: refused, nothing changes; granted, the new block begins with the old one's bytes, as many as both hold, and all other live blocks keep their bytes, whenever the copy fits |
| `MallocCode.Allocator.Realloc` | pintos/src/threads/malloc.c:194-214 | null block, zero size and move, each as the source promises: the heap is that of malloc followed by free, and memory changes as in a move |
| `MallocCode.CopyFitsExactly` | pintos/src/threads/malloc.c:204-212 | the bytes that realloc copies fit the new block if and only if size and header fit 32 bits or the old block has at most 4084 bytes |
| `MallocCode.CopyOverruns` | pintos/src/threads/malloc.c:204-212 | a live block of two pages and a request for 2^32 - 1 bytes: 8180 bytes go to a block of 4084 |
| `SwapModel.SlotArithmetic` | pintos/src/vm/swap.c:14-80 | on a disk of any size each slot has eight sectors of its own and its sector number leads back to it, wrap-around included |
| `SwapModel.SwapDevice.WriteToDisk` | pintos/src/vm/swap.c:62-70 | the eight sectors joined are the page, and no other sector changes |
| `SwapModel.SwapDevice.ReadFromDisk` | pintos/src/vm/swap.c:51-59 | the page is the eight sectors joined |
| `SwapModel.SwapDevice.SwapOut` | pintos/src/vm/swap.c:37-49 | the lowest free slot gets the page and its bit; a full table panics; other slots keep their pages |
| `SwapModel.SwapDevice.SwapIn` | pintos/src/vm/swap.c:21-35 | the page of a used slot comes back and its bit is cleared; an unused slot panics; all slots keep their pages |
| `PagingModel.ExpelKeeps` | pintos/src/vm/frame.c:98-108 | expelling a page to swap or dropping it changes what no page holds |
| `PagingTheorems.EvictKeeps` | pintos/src/vm/frame.c:88-142 | eviction fails if and only if the frame table is empty or the chosen page needs a slot and none is free; otherwise no page's contents change and one frame is freed |
| `PagingModel.VictimChosen` | pintos/src/vm/frame.c:88-139 | the victim is the first frame whose page was not accessed, or the first of all if every page was; exactly the pages of the frames passed over lose their accessed bit |
| `PagingEffects.EvictExactly` | pintos/src/vm/frame.c:88-142 | the chosen page leaves the frame table and the others keep their order, contents and entries; a clean file page is dropped, any other goes to the lowest free slot |
| `PagingEffects.AllocateExactly` | pintos/src/vm/frame.c:47-62 | a spare frame is taken if there is one, otherwise the one an eviction frees; the number of frames drops by one |
| `PagingTheorems.AllocateKeeps` | pintos/src/vm/frame.c:47-62 | a frame can be had if and only if one is spare or eviction succeeds, and getting it changes no contents |
| `PagingCode.PageSystem.Sweep` | pintos/src/vm/frame.c:93-115 | a sweep stops at the first page not accessed and clears the bits of those before it |
| `PagingCode.PageSystem.TwoSweeps` | pintos/src/vm/frame.c:93-139 | the two sweeps settle on the first frame whose page was not accessed, or on the first of all, and clear exactly the bits of the frames passed over |
| `PagingCode.PageSystem.ExpelFrame` | pintos/src/vm/frame.c:98-110 | as the model's step, on the swap device |
| `PagingCode.PageSystem.EvictFrame` | pintos/src/vm/frame.c:88-142 | as the model's eviction: the chosen page, and only it, leaves the table, to swap or dropped; refused if and only if the table is empty |
| `PagingCode.PageSystem.TakeFrame` | pintos/src/vm/frame.c:47-62 | as the model's allocation |
| `PagingRace.UndisturbedEviction` | pintos/src/vm/frame.c:98-104 | with no access in between, the sector-by-sector eviction is the eviction of the model |
| `PagingRace.WriteDuringCopy` | pintos/src/vm/frame.c:98-104 | a byte that the owner writes while its page is copied out survives if and only if its sector was not yet copied, or what was copied is the same |
| `PagingRace.WriteDuringEviction` | pintos/src/vm/frame.c:98-104 | so in what the page holds after the eviction |
| `PagingRace.ByteLost` | pintos/src/vm/frame.c:98-104 | a page and a slot for which a byte is lost |
| `PagingRace.WriteAfterTest` | pintos/src/vm/frame.c:98-104 | a byte that the owner writes to a clean page between the dirty test and the unmapping is lost unless it is the byte the file gives |
| `PagingTheorems.FaultKeeps` | pintos/src/vm/page.c:113-175 | a fault brings the page back as it was and leaves every other page as it was; it fails if and only if no frame can be had |
| `PagingTheorems.GrowStackKeeps` | pintos/src/vm/page.c:177-204 | a new stack page holds what its frame held, and every other page is as it was |
| `PagingTheorems.AccessKeeps` | pintos/src/vm/page.c:113-175 | a read sees the page's contents, a write replaces those of the page alone, with or without a fault |
| `PagingEffects.FaultExactly` | pintos/src/vm/page.c:113-175 | the page joins the end of the frame table with both bits clear, the slot it was in is free again, and nothing else changes beyond the allocation of its frame |
| `PagingEffects.GrowExactly` | pintos/src/vm/page.c:177-204 | so does a new stack page, which lives in swap |
| `PagingEffects.AccessMarks` | pintos/src/vm/page.c:113-175 | an accessed page is in the table and marked accessed, and dirty if and only if it was written, or was in memory and dirty already |
| `PagingEffects.EveryRunKeepsFrames` | pintos/src/vm/page.c:50-204 | over every run the frames in the table and the spare ones add up to the same number |
| `PagingTheorems.StepTransparent` | pintos/src/vm/page.c:50-204 | each step leaves every page reading as with unlimited memory, and swap bits and swapped pages one to one |
| `PagingTheorems.EveryRunTransparent` | pintos/src/vm/page.c:50-204 | that holds after every sequence of lazy loads, stack growth and accesses, with all evictions and faults they cause |
| `PagingCode.PageSystem.PageHandling` | pintos/src/vm/page.c:113-175 | as the model's fault, on the swap device |
| `PagingCode.PageSystem.Grow` | pintos/src/vm/page.c:177-204 | as the model's stack growth |

## Left out

- FileIO.WriteAt: asks of the caller that a growth can succeed (`InodeExact.GrowExact` says exactly when) and that nothing waits in the cache to be written over a sector the growth takes for a pointer block (`StaleCache.BlockDestroyed` shows what happens otherwise). When a clean stale copy is dropped is not predicted, so bytes under one are given as one of two values. `off_t` is unbounded here, so sizes near 2^31 are not covered.
- FileRun.Run: writes that start behind the end of their file, where the shown length stays behind, creation with a nonzero size and reopening are not part of the runs.
- FileSystemModel.FileSystem.GrowInode: the free map's own file is taken to be stored whenever a sector is allocated.
- PagingTheorems.EveryRunTransparent: runs without process exit, with the backing file unchanged, and with no access to a page while it is evicted, which the source does not prevent and `PagingRace` describes; a step that cannot get a frame, or meets a full swap, ends the run.
- PagingCode.PageSystem.TakeFrame: when no frame is spare and the frame table is empty the source still enters a null frame into the table before it reports failure; the model stops at the failure. The entry of a swapped page records its slot; the source records the slot's first sector, which `SwapModel.SlotArithmetic` shows to be the same information.
- SchedulerTheorems.AlarmExact: takes `update_wakeup_call_time` as one step; interrupts are on when `timer_sleep` calls it, and `AlarmRace` takes it as two. Wake-up times are unbounded integers.
- SemaphoreModel.Conservation, LockModel.EveryLockRun, MonitorModel.EveryMonitorRun: steps are taken by any thread that may run, whatever the scheduler would choose; locks and condition variables are modelled on values, since their point is what happens between steps.
- CacheModel.CacheIsInvisible: takes cache operations one at a time. The source clears its pin outside its lock and sets the dirty flag after that; `CacheRace` says exactly when an eviction in that window loses the write, and other interleavings inside an operation are not modelled.
- LinkedListModel.List.Splice: moves a range within one list; between two lists is not modelled. A range spliced before its own first element breaks the links in the source and is excluded by the precondition.
- BitmapModel.Bitmap.ReadFrom: a short read of the file is counted in whole words.
- HashTableModel.HashTable: buckets are sequences; that they are linked lists is the subject of `LinkedListModel`. `hash_clear`, `hash_apply` and the hash functions themselves are not modelled.
- MallocCode.Allocator: free lists are sequences of addresses; the links that the source keeps inside free blocks, the arena magic and the locks are not modelled, and the page allocator is a promise of unused pages.
- Writing an inode back to its sector on close, opening, the free map's own file beyond whether a write succeeded, and file locks.
- Page directories and the page allocator beyond accessed and dirty bits and fresh pages; freeing frames at exit; memory-mapped files.
- Directories and path parsing, process creation, waiting and exit, ELF loading, system calls.
- Device drivers, interrupts and thread switching; the tests and tools.
- `vprintf` apart from `%d` and `format_integer`, whose flags, width and precision are parameters; `calloc`; `list_unique`, `list_max`, `list_min`; `bitmap_any`, `bitmap_none` and the like, which would only add easy members.
- The multi-level feedback queue and priority donation, which the source does not have.
