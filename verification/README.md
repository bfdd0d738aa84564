# HaoOS: machine-checked models of the kernel's stateful core

HaoOS is a small i686 kernel. This project models five of its components and proves that their fast or
low-level structures agree with simple ones over every run.

- **Memory** (`PhysicalMemory.dfy`, `Paging.dfy`). The page allocator keeps a bitmap, a counter and a free
  list whose links live inside the free pages; the two-level page tables are built from pages of the same
  memory. Both work on one array of pages, so that separation of link words, tables and live data is proved
  and not assumed. Directories are shown to refine finite maps (32-bit paging: section 4.3 of the Intel SDM,
  Volume 3A; access rights: section 4.6).
- **Tasks** (`Scheduling.dfy`, `Ownership.dfy`, `Tasks.dfy`). The scheduler is an abstract machine with safety
  and bounded-waiting theorems; the kernel class runs the linked lists, PCB fields and page tables and follows
  that machine step by step. Every page is free, part of the paging structures, or owned by one task.
- **FAT** (`FatTable.dfy`, `FatFile.dfy`, `FatFree.dfy`, `FatTrail.dfy`). Entries are bytes on sectors, tables
  are values per cluster, chains are lists of clusters, files are bytes: four levels, each shown to follow from
  the one below (background: "FAT Data Structure" in the Microsoft FAT32 File System Specification, version 1.03).
- **Screen, pointer and line editor** (`Console.dfy`, `LineEditor.dfy`). Text output and the mouse pointer
  share video memory; the shell's editor keeps its buffer and the screen in step through wraps and scrolls.
  The editor's `screen` is such a `Text` as `Terminal.Console` maintains under the pointer.
- **Calendar** (`Calendar.dfy`). The closed-form day count against counting days.

Hardware addresses, sectors and registers are unbounded naturals where the code's ranges cannot overflow;
where 32-bit arithmetic matters (file sizes, sector numbers, the clock) the wrap is written out.

## Where the code does not do what one would expect

These are properties that fail. Each comes with the condition under which it holds, proved in both directions,
and with a case in which it does not. (For freeing a chain, two corners are excepted; see `FatTrails.SmallVolumeIff`
below under what is left out.)

- `mm/pmm.c:226-239`: a contiguous allocation writes link words into pages it hands out. A handed-out page
  keeps its contents exactly if its link did not lead to a lower page of the run
  (`ContiguousKeepsPageIff`). Pages that were in use are never touched.
- `mm/pmm.c:204-245`: address 0 means failure, and nothing keeps page 0 off the free list: a memory map that
  begins with a usable region at 0 puts it there (`boot/stage2.asm:53-83`, `mm/pmm.c:124-156`). No success
  looks like a failure exactly while page 0 is not free (`PageZeroIff`, `RunAtZeroIsLost`).
- `mm/vmm.c:169-245`: a map without user access or an unmap through a kernel slot acts on every directory.
  Isolation holds exactly for slots the kernel does not use (`IsolatedIff`, `UnmapReachesKernel`).
- `fs/fat.c:346-374`: when a FAT12 entry straddles two sectors, the buffer holds the second sector by the time
  the first is written back, so the first 511 bytes of the first are replaced. The write is local exactly if
  the entry does not straddle or the two sectors agree there (`WriteIsLocalIff`, `TornFreesAnother`).
  Allocation and creation are right on every disk exactly where no valid cluster straddles: on FAT16, on FAT32
  and on FAT12 volumes with at most 341 cluster numbers (`AllocationIff`, `CreationIff`).
- `fs/fat.c:657-666, 756-759`: the guard of 65536 stops the undoing of a failed allocation; the table is
  restored exactly if at most 65537 clusters were free (`ShortageIff`, `ShortageLeaks`, `ShortageFails`).
- `fs/fat.c:663, 760`: the end mark written (0xFFF8) is below the bound tested (0x0FFFFFF8) in every entry
  width. Loads stop by counting bytes; freeing a file's chain goes on at the mark. On a FAT32 volume with more
  than 65528 cluster numbers another file loses cluster 65528 unless it is in the chain or free
  (`LargeVolumeIff`). Elsewhere the mark's entry lies past the last cluster. It may be the second copy's entry of
  a cluster, as for cluster 1016 on a floppy disk with 9 table sectors: while another file has that cluster,
  every delete frees the rest of that file (`SecondCopyIff`, `SecondCopyFails`). Or it lies outside the tables, and
  a sector there is cleared in part or copied over another (`ZeroAtMarkIff`, `SmallVolumeFails`). In general the
  run is known from the disk before it, and it is harmless exactly under the conditions of `SmallVolumeIff`.
- `fs/fat.c:744-745`: the rounding of a file size wraps at 32 bits; creation then reports success and stores
  nothing. The round trip holds exactly for sizes that fit (`CreateAndLoad`).
- `user/shell.c:534-536`: Enter prints the newline at the cursor. Output goes below the line exactly if the
  cursor was on the row of the last character or below (`Enter`, `EnterInsideTheLine`).

## Model

| member | source | states |
|---|---|---|
| PhysicalMemory.Pmm.Init | mm/pmm.c:158-201 | succeeds exactly when a page the memory map offers lies outside the kernel and the bitmap; the free list is then exactly those pages, page 0 included if it is offered, in descending order, and no other page is written |
| PhysicalMemory.Pmm.BuildList | mm/pmm.c:194-200 | the list threaded by the loop contains exactly the pages whose bit is set, runs downwards, and only free pages receive link words |
| PhysicalMemory.Pmm.CountFree | mm/pmm.c:159-162 | the counter is the number of set bits |
| PhysicalMemory.Pmm.Reserve | mm/pmm.c:164-185 | exactly the bits of the range are cleared and the counter is still the number of set bits |
| PhysicalMemory.Pmm.SetPageBit | mm/pmm.c:44-49 | one bit changes and every other bit of the bitmap reads as before |
| PhysicalMemory.Pmm.AllocPage | mm/pmm.c:204-212 | fails exactly when no page is free, otherwise hands out the head page; bitmap, counter and list stay views of one set, and memory is not written |
| PhysicalMemory.Pmm.FreePage | mm/pmm.c:249-263 | a used page inside memory goes to the front of the list, an out-of-range or already free one changes nothing; of all memory only that page's link word may change |
| PhysicalMemory.Pmm.AllocContiguous | mm/pmm.c:216-245 | in spite of the skip-ahead the result is the lowest start of a run of free pages, failure means there is no run (a run at page 0 also returns address 0, see `PageZeroIff`), exactly the run leaves the list, and no page in use is written |
| Tasks.TakePages | mm/pmm.c:216-245 | a contiguous allocation, link words and all, leaves every page of the paging structures and so every translation as it was, and the pages it takes are in none of them |
| PhysicalMemory.Pmm.RunLength | mm/pmm.c:220-223 | all pages counted are free, and a count below the request means the next page is not |
| PhysicalMemory.Pmm.UnlinkPage | mm/pmm.c:227-238 | walking the links finds the page and splices out that page alone |
| PhysicalMemory.Pmm.TakeRun | mm/pmm.c:226-239 | taking the pages one by one removes exactly the run and leaves a well-formed list |
| PhysicalMemory.UnlinkRunFrame | mm/pmm.c:226-239 | a contiguous allocation changes no byte of a page that was not free, and in free pages only the link word |
| PhysicalMemory.ContiguousKeepsPageIff | mm/pmm.c:226-239 | a page handed out in a run keeps its contents if and only if its link did not lead to a lower page of the same run |
| PhysicalMemory.ContiguousWritesHandedOutPage | mm/pmm.c:194-239 | a concrete memory on which a run handed out from the boot list is written during the call |
| Bitmaps.WithBitEffect | mm/pmm.c:40-49 | setting or clearing a bit is seen by the reader of that bit and by no other |
| FreeLists.RemoveFacts | mm/pmm.c:226-239 | taking a page out leaves a list without repetition and with exactly the other members |
| FreeLists.RemoveRunFacts | mm/pmm.c:226-239 | taking a run out leaves exactly the pages outside the run |
| FreeLists.FirstFitUnique | mm/pmm.c:216-245 | at most one page is the first fit |
| AllocatorRuns.FindRunIsFirstFit | mm/pmm.c:216-224 | the search function returns the lowest start of a free run, or none exists at all |
| AllocatorRuns.CallFacts | mm/pmm.c:204-263 | each call hands out only free pages, and none of them is free afterwards |
| AllocatorRuns.FreedBetween | mm/pmm.c:204-263 | a page that went from used to free during a run was freed by a call in between |
| AllocatorRuns.NoDoubleHandout | mm/pmm.c:204-263 | over every run of single and contiguous allocations, frees and double frees, a page handed out twice was freed in between |
| AllocatorRuns.PageZeroIff | mm/pmm.c:204-245 | no call hands out pages and returns the address that means failure if and only if page 0 is not free |
| AllocatorRuns.RunAtZeroIsLost | mm/pmm.c:216-245 | a contiguous allocation that finds its run at page 0 returns failure and takes every page of the run off the list |
| AllocatorRuns.PageZeroLooksLikeFailure | mm/pmm.c:204-263 | freeing page 0 makes the next single allocation such a hidden success |
| AllocatorRuns.Execute | mm/pmm.c:204-263 | over every run of calls the allocator returns what the abstract free list returns, and the counter is its length |
| PageTables.KernelTestExact | mm/vmm.c:148-155 | comparing frames with the leading kernel slots says exactly whether the slot is a kernel slot |
| PageTables.UserAccessByEntry | mm/vmm.c:249-263 | on well-formed directories the page-table entry alone decides the two-level access rule, and no kernel slot is user accessible |
| PageTables.WriteAccessByEntry | mm/vmm.c:180-212 | every directory entry in use grants writing, so that the page-table entry alone decides whether a page can be written |
| PageTables.EntryFormat | mm/vmm.c:31-33 | an entry is the page address plus the flags with bit 0 set; bit 1 is the write right and bit 2 the user right |
| PageTables.UserMapMissesKernel | mm/vmm.c:195-207 | a user map that passes the kernel test goes through a slot the kernel does not use |
| PageTables.PagingFrame | mm/vmm.c:266-280 | memory that agrees on directories and tables has the same translations, whatever else changed |
| PageTables.AddDirectory | mm/vmm.c:115-130 | a fresh page filled with the kernel's entries translates like the kernel and changes no other directory |
| PageTables.AddTable | mm/vmm.c:180-193 | a zeroed page put into an empty slot changes no translation of any directory |
| PageTables.MarkUser | mm/vmm.c:208-211 | widening a private slot's rights changes no translation |
| PageTables.WritePte | mm/vmm.c:213-223 | one entry written changes that one translation, here and exactly where the slot is shared |
| PageTables.DropDirectory | mm/vmm.c:135-165 | a destroyed directory's tables are its own alone; the rest stays well-formed |
| PageTables.AddKernelTable | mm/vmm.c:76-97 | while no user directory exists, a table without user entries can be given to a kernel slot |
| VirtualMemory.Vmm.Init | mm/vmm.c:61-102 | succeeds exactly when enough pages are free; the kernel directory then maps each physical page onto itself and nothing else |
| VirtualMemory.BootIdentity | mm/vmm.c:61-102 | from boot on, every address of a whole page of physical memory is translated to itself, and addresses past the end of memory are not translated |
| VirtualMemory.IdentityAt | mm/vmm.c:76-97 | the entry of every page of memory is its own address with present and write bits and no user bit |
| VirtualMemory.Vmm.FillTable | mm/vmm.c:82-95 | the filled table is the identity map of its 4 MiB up to the end of memory, without user access |
| VirtualMemory.Vmm.CreateDirectory | mm/vmm.c:115-130 | fails exactly without a free page; the new directory translates like the kernel's and all others as before |
| VirtualMemory.Vmm.DestroyDirectory | mm/vmm.c:135-165 | exactly the directory page and its private tables go back to the free list; every other directory translates as before |
| VirtualMemory.Vmm.FreeSlotTable | mm/vmm.c:146-160 | a slot's table is freed exactly if the kernel does not own it |
| VirtualMemory.Vmm.EnsureTable | mm/vmm.c:180-212 | a table behind the slot exists afterwards, at the price of at most one page, with all translations unchanged; its directory entry grants writing, and a new one has exactly the low bits 7 with user access and 3 without |
| VirtualMemory.Vmm.MapPage | mm/vmm.c:169-223 | the exact condition for success (page unmapped, a table present or to be had, no user access through a kernel slot); then exactly one translation is added, and at both levels the page is writable exactly if the write flag is given and user accessible exactly if the user flag is; else no translation changes |
| VirtualMemory.Vmm.UnmapPage | mm/vmm.c:227-245 | on user directories and the kernel's: removes exactly one translation, there and in sharers of the slot, or fails and writes nothing |
| VirtualMemory.Vmm.GetPhysAddr | mm/vmm.c:266-280 | agrees with the two-level walk for every address |
| VirtualMemory.Vmm.IsUserAccessible | mm/vmm.c:249-263 | true exactly when both levels grant user access |
| AddressSpaces.WroteOneBinding | mm/vmm.c:213-245 | in terms of the finite map of a directory, a write adds, changes or removes exactly one binding, in the named directory and in sharers of the slot |
| AddressSpaces.IsolatedIff | mm/vmm.c:169-245 | a change through one user directory leaves every other directory's map alone if and only if the slot is not the kernel's |
| AddressSpaces.OnlyOwnCallsMatter | mm/vmm.c:115-245 | over every run of the machine of finite maps, and given the results of its calls, what a directory maps depends on the calls that name it or go through kernel slots, and on nothing else |
| AddressSpaces.KernelKept | mm/vmm.c:115-245 | over every run without calls through kernel slots the kernel maps what it did |
| AddressSpaces.PerformAll | mm/vmm.c:115-245 | over every run of create, map, unmap and destroy the page tables, the private tables and the number of free pages are those of the machine of finite maps, and every call succeeds exactly when the machine says so |
| AddressSpaces.UnmapReachesKernel | mm/vmm.c:227-245 | from boot on: an unmap made on a fresh user directory takes page 1 out of the kernel's map |
| AddressSpaces.OwnSlotsSize | mm/vmm.c:135-165 | a directory has as many private tables as slots of its own, so that destroying it frees that many pages |
| RoundRobin.FollowingMembers | proc/task.c:419-432 | the cyclic order from a task visits every other task exactly once |
| RoundRobin.FollowingShift | proc/task.c:419-432 | cyclic order seen from a later task is the rest, then the earlier viewpoint, then what was skipped |
| SchedulerProperties.StepSafe | proc/task.c:354-485 | after every tick, yield, exit or creation no task is on a list twice, zombies are off the task list, and the current task is listed and running |
| SchedulerProperties.FreedOncePerExit | proc/task.c:164-181 | over every run, exits of a task and releases of its PCB balance, but for one pending zombie |
| SchedulerProperties.EventAdvances | proc/task.c:354-445 | every tick, yield or exit runs a waiting task or strictly lowers the bound on its wait |
| SchedulerProperties.BoundedWaiting | proc/task.c:354-445 | a ready task with d - 1 ready tasks before it in cyclic order runs within 3d ticks, yields and exits in any mix, all runnable tasks being user tasks; for any number of tasks as long as none is blocked, and with blocked ones for up to 34 |
| SchedulerProperties.WaitEnds | driver/pit.c:33-53 | the same with the bound computed from the current time slice |
| SchedulerProperties.LivelyRun | proc/task.c:354-485 | over every run in which tasks are entered directly from the idle task only: all tasks but the current one and the idle task are ready |
| SchedulerProperties.LivelyReach | proc/task.c:385-432 | with no task blocked and more than two tasks both bounded scans find a ready task, however long the list |
| SchedulerProperties.ReachIff | proc/task.c:385-432 | if tasks were blocked, as the state type allows and no code does, both scans would find every ready task exactly with at most 34 tasks |
| SchedulerProperties.SwitchAdvances | proc/task.c:419-445 | the task switched to is the waiting one or was ahead of it |
| SchedulerLaws.FollowingAtIndex | proc/task.c:385-432 | the cyclic order both scans follow is the order of the task list, the head after the last |
| SchedulerLaws.YieldLaw | proc/task.c:419-453 | the first ready task among the next 33 places of the list takes over, with its own stack top and directory, and the zombies go; with none ready nothing changes |
| SchedulerLaws.EarlyTickLaw | driver/pit.c:46-48 | a kernel task does not notice a tick, and before the third a user task's count grows by one and nothing else changes |
| SchedulerLaws.ThirdTickLaw | driver/pit.c:48-51 | at the third tick the count starts again and the first ready task in reach takes over |
| SchedulerLaws.FullSlice | driver/pit.c:46-52 | a user task switched to with count 0 is current, with everything else unchanged, after one and after two ticks, and hands over at the third |
| SchedulerLaws.ExitLaw | proc/task.c:364-407 | the exiting task leaves its place in the list for the front of the zombies, and the first ready task in reach, or else its successor in the list, runs in its directory; the TSS stack stays |
| PageOwnership.FootprintOwned | proc/task.c:139-162 | every page a user task occupies is recorded as its own or lies in its own directory |
| PageOwnership.FootprintsDisjoint | proc/task.c:269-337 | two user tasks have no page in common |
| PageOwnership.FootprintNotFree | proc/task.c:139-162 | nothing a live task occupies is on the free list |
| PageOwnership.FootprintGrows | kmain.c:148-175 | a page added to a task enlarges its footprint by exactly the pages that left the free list |
| PageOwnership.DropTask | proc/task.c:139-162 | giving back a whole footprint leaves all other tasks' pages and footprints as they were |
| PageOwnership.PoolDeterminesFree | proc/task.c:139-181 | if the same tasks occupy the same pages, the same pages are free |
| PageOwnership.KeepsPoolTransitive | proc/task.c:139-337 | conservation of pages composes over steps |
| Tasks.FreeUserPages | proc/task.c:144-151 | each registered frame goes back exactly once, and no other page does |
| Tasks.Kernel.FreeTask | proc/task.c:139-162 | exactly the footprint of the task goes to the free list and the task is gone |
| Tasks.Kernel.FreeTaskLater | proc/task.c:170-173 | the PCB goes in front of the zombies |
| Tasks.Kernel.ReapZombies | proc/task.c:175-181 | exactly the footprints of all zombies are freed, each once, and no zombie is left |
| Tasks.Kernel.TaskInit | proc/task.c:193-209 | succeeds exactly with two free pages, leaving one running kernel task and a sound state in which no task is blocked |
| Tasks.Kernel.TaskCreate | proc/task.c:214-264 | takes exactly two pages or none |
| Tasks.Kernel.TaskCreateUser | proc/task.c:269-337 | fails exactly with missing arguments or fewer than three free pages, leaving nothing changed; otherwise the first three free pages become block, kernel stack and directory of a ready task with these addresses, and the footprint is exactly what left the free list |
| Tasks.Kernel.AddUserPage | kmain.c:148-175 | one frame, and a table if needed, move from the free list to the task, or nothing does; the page is then mapped to the first free frame, present, writable and user accessible at both levels |
| Tasks.Kernel.FindNext | proc/task.c:419-432 | the bounded walk along the links finds the first ready task in cyclic order among those it may look at |
| Tasks.Kernel.PickReady | proc/task.c:390-398 | after the current task left, the walk finds the first ready one, else stays where it started |
| Tasks.Kernel.UnlinkCurrent | proc/task.c:365-375 | the walk for the predecessor takes exactly the current task out of the list |
| Tasks.Kernel.Depart | proc/task.c:365-398 | the exited task moves from the list to the zombies and its successor is chosen in cyclic order |
| Tasks.Kernel.Schedule | proc/task.c:354-471 | on linked lists and page tables, a call does to lists, states, TSS stack and directory what the abstract scheduler does; false exactly when an exited task was the last |
| Tasks.Kernel.Tick | driver/pit.c:33-53 | a tick is the abstract tick: nothing for a kernel task, one more count before the third, and a fresh count at the third |
| Tasks.Kernel.Exit | proc/task.c:478-486 | an exit is the abstract exit, and no page enters or leaves the pool by it |
| Tasks.Kernel.Launch | kmain.c:255-281 | entering a ready task directly keeps the state sound while the task that was running stays marked running |
| Tasks.Kernel.Grow | kmain.c:148-175 | while the scheduler runs, only the named task's footprint can grow |
| Tasks.Kernel.PerformAll | proc/task.c:139-485 | over every run of ticks, yields, exits, creations, added pages and entries, memory stays partitioned, the pool of free and task pages never gains or loses a page, and lists, states, TSS stack and directory are what the abstract scheduler makes of the events of these actions |
| Tasks.Kernel.ServeWithin | proc/task.c:354-485 | bounded waiting on the linked lists: among 3d ticks, yields and exits there is one after which the waiting task is current |
| Tasks.Kernel.UserLife | proc/task.c:139-337 | create a user task, try any 96 distinct pages or fewer, enter, exit and reap it: the free set and the counter are what they were |
| FatCodec.ReadWritten | fs/fat.c:24-62 | reading a written entry gives the value cut to the entry width, straddling entries included |
| FatCodec.ReadOther | fs/fat.c:24-62 | an entry written byte by byte as specified leaves every other cluster's value, also the one sharing its byte |
| FatCodec.ReservedBitsKept | fs/fat.c:329-332 | the top four bits of a FAT32 entry survive a write |
| FatVolume.EntryFormats | fs/fat.c:24-62 | two FAT12 entries share three bytes, FAT16 entries are two bytes and FAT32 entries the low 28 bits of four, lowest byte first |
| FatVolume.Straddlers | fs/fat.c:336-341 | the entries in two sectors are exactly those of clusters 341 and 682 modulo 1024 |
| FatVolume.WriteIsLocalIff | fs/fat.c:312-376 | a write changes its entry alone if and only if the entry lies in one sector or its two sectors agree on their first 511 bytes |
| FatVolume.TornFreesAnother | fs/fat.c:346-374 | on every FAT12 volume with more than 341 cluster numbers there is a disk on which writing cluster 341 turns used cluster 2 into a free one |
| FatVolume.UntornIsLocal | fs/fat.c:312-376 | on all other volumes every write changes one entry of the table and no other |
| FatVolume.ReadBack | fs/fat.c:312-376 | the written cluster itself always reads back |
| FatVolume.WriteFrame | fs/fat.c:312-376 | a write stays inside the two tables and keeps equal copies equal |
| FatVolume.BytesFromEntries | fs/fat.c:24-62 | the entries together with the bits that belong to no entry determine every byte of the table |
| FatVolume.SameTableSameDisk | fs/fat.c:312-376 | with two equal copies, the same entries and spare bits mean the same disk |
| FatVolume.Fat.ReadFatEntry | fs/fat.c:26-62 | agrees with the byte-level entry for all three types, with the driver's failure values outside the device |
| FatVolume.Fat.WriteFatEntry | fs/fat.c:312-376 | the disk after the call is the specified one for every cluster number, torn writes included |
| FatChains.FreeFromFacts | fs/fat.c:748-755 | the scan order lists exactly the free clusters, ascending |
| FatChains.RollbackIff | fs/fat.c:657-666 | undoing a freshly linked chain restores the table if and only if it has at most 65537 clusters |
| FatChains.FreeChain | fs/fat.c:657-666 | from every first cluster the loop leaves the disk that the one-step rule describes, so that the results below hold for it |
| FatChains.FreedUndoes | fs/fat.c:657-666 | on a zero-terminated chain of formerly free clusters the entries up to the guard become free again and nothing else changes |
| FatFreeing.EndIsNeverSeen | fs/fat.c:657-666 | in every entry width the end mark is below the bound the driver tests for, and is taken for a cluster |
| FatFreeing.AllocatedChain | fs/fat.c:743-760 | what an allocation links is a file chain ending in the mark |
| FatFreeing.FreedToMark | fs/fat.c:657-666 | freeing a file chain clears its entries in order, as far as the guard allows, and then goes on at the mark as at any cluster |
| FatFreeing.TableRightIff | fs/fat.c:657-666 | the table is right after freeing if and only if the chain is within the guard and the run past the mark meets no cluster in use, followed step by step; on FAT12 as long as it comes to no entry in two sectors |
| FatFreeing.LargeVolumeIff | fs/fat.c:657-666 | on a FAT32 volume with more than 65528 cluster numbers freeing is right if and only if the guard stops it just before the mark, or cluster 65528 is in the chain or free; otherwise that cluster is lost to its file |
| FatFreeing.LargeVolumeFails | fs/fat.c:657-666 | a disk of every such layout on which it is lost |
| FatFreeing.ZeroAtMarkIff | fs/fat.c:657-666 | where the mark is past the last cluster and the entry read there is 0, freeing is right if and only if the mirrored write back of that sector falls into the tables, off the disk, or on equal contents |
| FatFreeing.SmallVolumeFails | fs/fat.c:657-666 | a disk of every layout with a table too small for the mark on which a sector outside the tables is overwritten |
| FatTrails.ElsewhereKept | fs/fat.c:312-376 | clearing an entry in one sector, in the tables or not, leaves every other such entry alone that does not lie in the mirror of its sector |
| FatTrails.FreedTrail | fs/fat.c:657-666 | the run clears the numbers that the disk links before its first write, in order, and goes on with the value at their end |
| FatTrails.TrailExists | fs/fat.c:657-666 | every disk has such a trail from the mark, provided no number on it has its entry in two sectors or in the sector where the mirrored write for another lands |
| FatTrails.ReturnsToZero | fs/fat.c:657-666 | a number the run comes to again reads 0, so it never runs in a circle |
| FatTrails.SmallVolumeIff | fs/fat.c:657-666 | where the mark is past the last cluster, freeing is right if and only if the trail past the mark ends at no cluster in use, clearing its entries changes no sector outside the tables, and equal copies stay equal; a cluster it ends at is lost |
| FatTrails.RunIsClean | fs/fat.c:657-666 | on FAT12 the run comes to no entry in two sectors if after its trail it stops, or comes to a free cluster, or to a file from which it goes back to the mark and settles |
| FatTrails.MarkOffDisk | fs/fat.c:657-666 | where the sector of the mark's entry is off the disk, freeing is always right |
| FatTrails.CopyEntries | fs/fat.c:657-666 | the layouts on which the entry read at the mark is the second copy's entry of a cluster: 128 to 255 table sectors on FAT16, 6 or 9 on FAT12, 256 to 511 on FAT32 |
| FatTrails.SecondCopyIff | fs/fat.c:657-666 | on these, with equal copies and no link into a free cluster, freeing is right if and only if that cluster is free or in the chain, and the mirror of the sector does no harm |
| FatTrails.SecondCopyFails | fs/fat.c:657-666 | a disk of every such layout on which deleting one file frees a cluster of another |
| FatChains.LinkFree | fs/fat.c:746-755 | the loop leaves the disk and the chain's ends as the specified scan does |
| FatChains.AllocateChain | fs/fat.c:743-760 | on every disk, disk, success and first cluster are the specified ones |
| FatChains.AllocationIsRight | fs/fat.c:743-760 | if no entry to be written is torn, allocation succeeds exactly if enough clusters are free, with the lowest free ones chained in ascending order and every other entry unchanged; a shortage is undone up to the guard |
| FatChains.AllocationIff | fs/fat.c:743-760 | this holds on every disk and for every request if and only if no valid cluster of the volume straddles |
| FatChains.UntornRequest | fs/fat.c:743-760 | where no valid cluster straddles, no request needs the previous proviso |
| FatChains.ShortageIff | fs/fat.c:756-759 | a failed allocation restores the table if and only if at most 65537 clusters were free |
| FatChains.ShortageRestoresDisk | fs/fat.c:756-759 | with equal copies the whole disk is then the same, byte for byte |
| FatChains.ShortageLeaks | fs/fat.c:756-759 | otherwise the clusters past the guard stay linked, in use by no file |
| FatChains.ShortageFails | fs/fat.c:756-759 | an empty FAT32 volume with more than 65539 cluster numbers and a request too big by one are an example |
| FatChains.SmallVolumesRestore | fs/fat.c:756-759 | FAT12 and FAT16 volumes are always restored |
| FatFiles.LoadFileOff | fs/fat.c:609-654 | on a chain long enough for the size, the load gives the smaller of `max` and what is left of the file behind the offset, nothing past its end, and byte k of it is byte offset + k of the file |
| FatFiles.LoadFile | fs/fat.c:573-604 | on a chain long enough for the size, the load gives the file's first bytes, all of it if it fits `max` |
| FatFiles.ReadInChunks | fs/fat.c:606-654 | reads of any chunk size, one after the other, concatenate to the whole file |
| FatFiles.SectorsApart | fs/fat.c:770 | different sectors of an ascending chain are different sectors of the disk |
| FatFiles.ByteOnDisk | fs/fat.c:588-600 | the bytes of a file lie in the sectors of its clusters in order, cluster 2 first behind the reserved sectors, two tables and the root directory |
| FatFiles.ClusterExistsIff | fs/fat.c:719-720 | the clusters of a volume are exactly those whose sectors are all on it |
| FatFiles.WriteData | fs/fat.c:765-786 | the nested loops leave the disk and the success that writing sector by sector along the chain does, failures included |
| FatFiles.WriteIsRight | fs/fat.c:765-786 | on a chain that can hold the data no write fails, reading the chain gives the data, and no sector outside it changes |
| FatFiles.StoredIsRead | fs/fat.c:770-782 | the sectors written hold the data, with zeros to the end of the last one |
| FatFiles.DirentRoundTrip | fs/fat.c:789-803 | a directory entry reads back with its name, cluster and size, and its neighbours in the sector stay |
| FatFiles.DirentBytes | fs/fat.c:789-803 | the 32 bytes of a new entry at their offsets: name, attribute 0x20, cluster at 26 and 20, size at 28, lowest byte first, zeros elsewhere |
| FatFiles.NeededWraps | fs/fat.c:744-745 | a size that does not fit 32 bits when rounded up asks for no cluster at all |
| FatFiles.NeededIsLeast | fs/fat.c:744-745 | where the size fits, the clusters asked for are the least number that holds it, 0 exactly for an empty file |
| FatFiles.CreateFile | fs/fat.c:743-805 | on every disk, disk and success are those of allocation, data and directory entry one after the other |
| FatFiles.CreationIsRight | fs/fat.c:743-805 | if no entry to be written is torn: success exactly if the free clusters hold the size; then the file has the least number of clusters that does, chain, entry and data are in place and everything else on the disk is unchanged; a failure touches only the tables |
| FatFiles.CreationIff | fs/fat.c:743-805 | this holds on every disk, for every slot and all data, if and only if no valid cluster of the volume straddles |
| FatFiles.TornCreation | fs/fat.c:743-805 | a disk of every other layout on which a file of one byte fails it |
| FatFiles.OtherFilesKept | fs/fat.c:743-805 | whether creation succeeds or fails, every other file whose clusters are in use keeps its chain and its bytes |
| FatFiles.CreateAndLoad | fs/fat.c:573-805 | where creation is right, create then load gives the written bytes, all of them if `max` allows, for all three types, if and only if the size rounded up fits 32 bits; beyond that success is reported and nothing is stored |
| Screen.Put | driver/vga.c:106-187 | cursor and boundary stay on the screen for every character |
| Screen.Run | driver/vga.c:68-332 | and over every run of requests |
| CharacterLaws.ShowLaw | driver/vga.c:165-183 | a character fills the cursor's cell with colour and code and moves the cursor one cell on, except from the last cell; on protected text nothing happens |
| CharacterLaws.BackspaceLaw | driver/vga.c:126-155 | the cursor goes one to the left, or from the start of a row to the last character shown above, and blanks that cell; at the boundary and in the corner nothing happens |
| CharacterLaws.ShowAndErase | driver/vga.c:126-183 | a character and Backspace leave the cursor where it was with a blank in its cell, if and only if it was not in the last column or the character is not a space |
| CharacterLaws.TabLaw | driver/vga.c:157-163 | a tab leaves blanks up to the next multiple of 4 |
| CharacterLaws.NewlineLaw | driver/vga.c:110-124 | newline goes to the start of the next row, and on the last row moves the screen and the boundary up by one; return goes to the start of the row |
| CharacterLaws.RequestLaw | driver/vga.c:235-332 | cursor and boundary requests are kept on the screen, protected places are refused, and clearing leaves blanks and no protection |
| ProtectedText.ApplyKeeps | driver/vga.c:81-187 | one request moves protected text up by the rows it scrolls and changes nothing in it |
| ProtectedText.ProtectedTextIsImmutable | driver/vga.c:81-187 | over every run of output and cursor moves with k scrolls, k at most the boundary row, each cell before the moved boundary is the original cell k rows lower |
| ProtectedText.ProtectionEndsAtTheTop | driver/vga.c:81-103 | one scroll more replaces protected text of the top row |
| MouseMotion.DivisionFacts | driver/mouse.c:130-135 | C division splits a sum into quotient and remainder with the sign of the sum |
| MouseMotion.Moved | driver/mouse.c:128-148 | the pointer stays on the screen and the remainders below the largest sensitivity |
| MouseMotion.NoMotionLost | driver/mouse.c:128-135 | as long as no step is cut off at an edge, position and remainder account for every unit of motion on both axes |
| MouseMotion.BytesArePackets | driver/mouse.c:118-154 | bytes fed one by one amount to whole packets, invalid ones dropped |
| MouseMotion.PacketLaw | driver/mouse.c:118-154 | the second byte with sign bit 4 goes to the right and the third with sign bit 5 up, in steps of the sensitivity with the rest kept, cut at columns 0 and 79 and rows 0 and 24; bits 0 to 2 are the buttons |
| MouseMotion.ReportLaw | driver/mouse.c:230-249 | a USB report's signed second byte goes to the right and its third down, the same way |
| Terminal.Console.PointerErase | driver/mouse.c:80-89 | what is under the pointer is what video memory then shows |
| Terminal.Console.PointerDraw | driver/mouse.c:91-112 | drawing or moving the pointer does not change the screen under it, and shows the pointer there with the colours of the cell swapped |
| Terminal.Console.Scroll | driver/vga.c:81-103 | the copying loops move the screen up one row and blank the last |
| Terminal.Console.PutChar | driver/vga.c:106-187 | on video memory with a pointer in it, a character does to the screen under the pointer what the abstract screen does |
| Terminal.Console.Serve | driver/vga.c:68-332 | the same for every request, tabs, backspaces over line ends and clearing included |
| Terminal.Console.FeedByte | driver/mouse.c:118-154 | a mouse byte never changes the screen under the pointer, the cursor or the protection, and a whole packet leaves the pointer at the mouse's position |
| Terminal.Console.ProcessReport | driver/mouse.c:230-249 | nor does a USB report |
| Terminal.Console.PerformAll | driver/mouse.c:80-249 | any interleaving of text and mouse leaves screen, cursor and protection as the text alone and the mouse as its own bytes alone |
| EditedScreen.PutOne | user/shell.c:380-388 | a printable character away from the last cell changes one cell and moves the cursor by one |
| EditedScreen.ScrollPaints | user/shell.c:370-376 | a newline on the bottom row moves line, boundary and old screen up together |
| EditedScreen.RowAndColumn | user/shell.c:360-363 | row and column of an offset are one linear step from the start |
| EditedLine.KeyKeepsLine | user/shell.c:498-562 | every key keeps the cursor in the line, the line in the buffer and the history position in the history |
| EditedLine.TypeAndErase | user/shell.c:541-559 | a character typed and taken back leaves the line as it was |
| EditedLine.RememberKeepsHistory | user/shell.c:418-442 | at most eight entries of 1 to 127 characters |
| EditedLine.UpRecallsTheLast | user/shell.c:418-505 | the line entered last is what Up recalls |
| EditingLaws.UpsRecall | user/shell.c:498-505 | k presses of Up bring the k-th entry from the end of the history, cut to the buffer, cursor at its end |
| EditingLaws.HistoryWalk | user/shell.c:498-521 | j presses of Down after k of Up bring the entry j places newer, and below the newest the empty line |
| EditingLaws.HistoryEnds | user/shell.c:500-508 | past the oldest entry Up does nothing, and outside the history Down does nothing |
| EditingLaws.CursorKeys | user/shell.c:522-533 | Left and Right move the cursor by one and nothing else, stop at the ends, and undo each other inside the line |
| EditingLaws.TypingLaw | user/shell.c:541-560 | a character appears at the cursor while there is room, Backspace takes out the one before it, and the others keep their order |
| EditingLaws.RowLaw | user/shell.c:370-376 | the line moves up only as far as the new text needs, 127 characters for a recalled entry; cursor keys do not move it |
| EditingLaws.ClickLaw | user/shell.c:463-488 | press and release on one cell of the line put the cursor there, right of the end and left of the start on its rows at the end and the start, and elsewhere do nothing |
| EditingLaws.DragLaw | user/shell.c:466-470 | press and release on different cells do nothing |
| EditingLaws.RememberLaw | user/shell.c:418-442 | an empty line or a repetition of the newest changes nothing; any other is added, cut to 127 characters, behind the seven newest |
| EditingLaws.HistoryIsLog | user/shell.c:418-442 | after any sequence of lines the history is the last eight of those that were neither empty nor a repetition, in order |
| LineEditor.Editor.LineSetCursor | user/shell.c:360-363 | the cursor goes to the offset and the picture stays |
| LineEditor.Editor.EnsureEditSpace | user/shell.c:370-376 | scrolls just as often as the line needs, with start row and protected boundary in step |
| LineEditor.Editor.LineRedraw | user/shell.c:380-388 | the screen shows the new line, and blanks over the old one |
| LineEditor.Editor.HistApply | user/shell.c:391-399 | buffer and screen hold the entry so many places from the end of the history, cut to the buffer |
| LineEditor.Editor.ShiftRight | user/shell.c:407-410 | the stretch moves one up without overwriting itself |
| LineEditor.Editor.ShiftLeft | user/shell.c:413-415 | and one down |
| LineEditor.Editor.HandleKey | user/shell.c:498-562 | after every key the cells from the tracked start show exactly the buffer, every other cell ever written is blank, all else is the old screen moved up, and the line is what the key makes of it |
| LineEditor.Editor.PollMouse | user/shell.c:460-488 | the same after every mouse state; a click inside the line puts the cursor on the clicked cell |
| LineEditor.Editor.ReadEvents | user/shell.c:445-564 | over every run of keys and mouse states up to Enter |
| LineEditor.Editor.Enter | user/shell.c:534-540 | returns and remembers the line; the cursor's new row is below all text of the line if and only if the cursor was on the row of the last character or below, and otherwise that row begins with text of the line |
| LineEditor.EnterInsideTheLine | user/shell.c:445-540 | a line typed over a row end, the cursor brought back to its start: after Enter the cursor stands on a character of the line |
| Calendar.DaysAreCounted | driver/rtc.c:69-76 | for every valid date of every year the closed form equals counting year by year and month by month from 1970 |
| Calendar.EpochStartsAtZero | driver/rtc.c:69-76 | 1 January 1970 is day 0 |
| Calendar.NextDayIsOneMore | driver/rtc.c:69-76 | each date is one more than the date before it |
| Calendar.DaysFollowTheCalendar | driver/rtc.c:69-76 | day numbers order dates as the calendar does, and are equal only for equal dates |
| Calendar.BcdRoundTrip | driver/rtc.c:39-41 | BCD bytes and the numbers below 100 correspond one to one |
| Calendar.FromDigits | driver/rtc.c:39-41 | the tens are in the high half of the byte and the ones in the low |
| Calendar.EpochIsExact | driver/rtc.c:89-96 | from 2000 to 2099 the 32-bit clock is the number of seconds since 1970 and never wraps |
| Calendar.EpochIsMonotone | driver/rtc.c:89-96 | later date-times have strictly larger 32-bit clock values |
| Calendar.EpochTicks | driver/rtc.c:89-96 | the year 2000 begins at 946684800 and the clock goes up by one each second, through midnights and year ends |
| Calendar.Clock.Init | driver/rtc.c:83-86 | the boot time is recorded exactly |
| Calendar.Clock.GetUptime | driver/rtc.c:99-105 | the uptime is the exact number of seconds since boot, recorded on first use if it was not |

## Left out

- PhysicalMemory.Pmm.FreePage: unaligned addresses are excluded, because the code would write the link into the middle of the page (mm/pmm.c:259) and the list would lose everything behind it.
- AllocatorRuns.Execute: runs free page-aligned addresses only, as do the results on runs, for the same reason.
- PhysicalMemory.Pmm.Init: the multiboot memory map is the bitmap before the call; parsing it is not part of this model.
- VirtualMemory.Vmm.Init: page 0 is not free, here and in everything built on page tables, because its address reads as failure or no directory; a memory map that offers page 0 breaks this (`PageZeroIff`). TLB flushes, `cr0` and `cr3` writes are left out; the active directory is a number.
- VirtualMemory.Vmm.MapPage: on the kernel's directory only through slots that have a table; the new kernel table of kmain.c:186-190, above the leading kernel slots, is left out, since the driver's kernel test does not see it.
- AddressSpaces.Perform: calls name user directories; which free page a new directory or table gets is not part of the machine.
- Tasks.Kernel.FreeTask: user tasks with their own directories only; on a kernel task the code would hand the shared kernel directory to the destroyer.
- Tasks.Kernel.AddUserPage: merges the frame, map and register steps of kmain.c:148-175 and 236-246 for one page; loading the program's bytes is left out.
- Tasks.Kernel.Exit: user tasks only, since reclaiming a kernel task would destroy the kernel's directory.
- Tasks.Kernel.TaskCreate: while the kernel's directory is active, as at boot, the only time it is called; names and the initial register frame on the kernel stack are left out; PCBs and stacks are pages of the shared memory whose PCB fields are kept in maps keyed by the page's address.
- Tasks.Kernel.Schedule: the stack switch itself and `irq_lock`; a call is one atomic step in which the current task becomes the next. In the branch of an exited task the TSS stack is left alone, as in the code.
- Tasks.TakePages: nothing in the kernel's task code asks for a run of pages; it stands for the drivers that do.
- SchedulerProperties.BoundedWaiting: creations and direct entries during the wait are excluded; kernel tasks that are ready give up no time slices, so all runnable tasks are user tasks.
- FatVolume.Fat.WriteFatEntry: the read one byte past the buffer (fs/fat.c:349) is dropped; its value is never used.
- FatTrails.SmallVolumeIff: not for trails on which one number's mirrored write lands on the sector of another number, nor for FAT12 runs that come to an entry in two sectors; the first leaves `TableRightIff`, which follows the run.
- FatTrails.SecondCopyIff: where the copies differ, or a file links to a free cluster, `SmallVolumeIff` applies.
- AddressSpaces.OnlyOwnCallsMatter: whether a call finds a free page depends on all directories; the results carry that.
- Tasks.Kernel.PerformAll: kernel tasks are made before a run, as in kmain.c; runs make user tasks.
- FatFiles.CreateFile: a device that fails exactly outside its sectors; path resolution, the search for a slot, extending a directory and overwriting are left out, and the free slot is a parameter.
- FatFiles.LoadFile: the cluster walk is written once and shared with `LoadFileOff`, called with nothing to skip.
- FatFiles.ReadInChunks: the caller's loop is the file manager's, in outline.
- Deleting and overwriting beyond freeing the chain; making directories and scanning them; the partition offset (`base_lba`), mounting and type detection (fs/fat.c:65-182).
- Unix metadata kept in spare fields of directory entries.
- Terminal.Console.Serve: the hardware cursor registers, the unused cursor-move functions and hexadecimal output; sensitivity and pointer glyph are fixed while the machine runs.
- LineEditor.Editor.ReadEvents: buffers of at most 1921 bytes, so that a line fits the screen (the shell uses 128); one writer on the screen while a line is edited.
- LineEditor.Editor.Enter: history entries are sequences and not fixed arrays of 128 bytes; their copying loops are one step each.
- Calendar.DaysAreCounted: years are unbounded; the code's 32-bit year overflows only within 400 years of its smallest value.
- Calendar.EpochIsExact: the six registers are one consistent reading; waiting for the update flag is left out.
- `resolve_path`, the shell's commands, the settings screen, system calls, credentials, the virtual file system, USB, ATA, PCI, sound, GDT and IDT setup and the boot code.
