# Verified model of a small x86-64 kernel's memory and process core

The project models, in Dafny, the parts of the kernel that lock together: the physical page
list and its reference counts, the four-level page tables, copy-on-write fork and the
page-fault handlers, demand paging of files, the region list and mmap, the first user stack
that exec builds, kernel stacks and context switches, the scheduler with fork, exit, wait and
kill, and the archive the file system reads. `dafny verify dfyconfig.toml` checks all of it.

The code is modelled as it is written. Where it does not do what its name or its comments say,
the model follows the code, and a lemma states exactly when the intended property holds; where
it takes more than a look at that condition to see a failing input, another lemma gives one.

## How the modules fit

* `Basics`: the page size and what else several modules use.
* `PageList`: the page list as values and as the array `FrameList` updates in place; runs of
  allocations, frees and count changes.
* `EntryBits`, `PageTables`, `PageFlags`, `Overrun`, `Mapping`, `Presence`, `Permissions`,
  `TableCopy`: entries as words, walk, flag changes, the byte that clearing a table writes too far,
  the map on any page list, what the processor sees of it and what it allows, and copies of whole
  table trees.
* `Isolation`: runs of maps in many spaces.
* `Leaves`, `Sharing`, `CowRuns`, `Fork`, `ForkedWrites`, `Stores`, `FileFaults`, `Protocol`,
  `Boot`: the mapped pages of all address spaces as one finite map; every handler, and stores of
  user programs, as steps on memory, page list and that map; runs of any interleaving, from the
  state that boot leaves. `SharedPage` is a state in which two spaces share a frame; `Miscounts`,
  `ExposedPage` and `ForkedStack` are forks after which counts, unloaded pages and argument strings
  are not what they should be.
* `FaultPermissions`, `ChildRights`: what a program may do with a page after a fault on it, and
  the child of a fork with the pages it gets.
* `LoadedTables`: which top-level table the processor is left with.
* `MemoryManager`: the same operations statement by statement on one mutable object.
* `Util`, `FileReads`, `DemandPaging`, `FaultRuns`, `FailedFault`, `ExecStack`, `Archive`: byte
  loops, reads, file-backed pages, runs of file faults on the machine, what a failed one leads
  to, the exec stack with its reader, and the archive walk against an archive writer.
* `Vmas`, `RegionList`: the region list as values and as a doubly linked list.
* `ContextSwitch`: registers and kernel stacks, word by word.
* `Queues`, `Processes`, `Lifecycle`: the queues as chains of descriptors through their one link
  field, scheduling as steps on values, and whole runs. `StepEffects` says of each step what it
  comes to, and `Preemption` when a process loses the processor. `LostChild` and `StuckExit` are
  two runs from boot that go wrong, made of system calls and timer ticks only.
* `Descriptors`, `StepParts`, `Scheduler`: the kernel object, with descriptors on the heap and
  four linked queues, whose methods take the steps of `Lifecycle` assignment by assignment.

## What holds only under a condition

* `remove_process_from_queue` never moves along the queue: it ends exactly when the process is
  in one of the first two places or there is no second (`RemoveLoop`). The runs of `Lifecycle`
  ask for this of the waiting queue; of the run queue it is proved. `ExitNeverEnds` is a run from
  boot, of forks, waits and a timer tick, after which an exit does not end.
* The scheduler is meant to be preemptive and round-robin, but `schedule` takes the head of the
  run queue, where the running process stays. A process loses the processor if and only if it
  gives it up itself (`LosesProcessor`); no number of ticks takes it away (`TicksChangeNothing`),
  and a forked child can wait for ever behind a parent that only computes (`ChildStarves`).
* Nothing calls `block_process`, and `sys_sleep_process` is not in the system call table. In runs
  without them no process is ever blocked or asleep (`NothingBlocks`), so what the model says of
  those two queues, the part of `ExitExact` about a blocked or sleeping parent and
  `WakeFromWrongQueue` are about functions that the kernel as it is does not call that way.
* All queues are linked through one field. A wake-up by way of a queue that the process is not
  in leads the queue it is in into the run queue (`WakeFromWrongQueue`, `AddFrontFrom`).
* `do_fork` records only the newest child, so an exit can wake a parent that is gone. `Runs` is
  such a run from boot; `ExitExact` says for every exit what the parent has to be.
* `delete_from_allproc` drops the last entry when the process is not listed
  (`DeletedIsWithout`).
* Clearing a new table with length 4096 clears a byte of the next frame. Exactly the pages whose
  way goes through entry 0 of a frame that follows a new table are lost (`ZeroFillExact`,
  `WithTableExact`, `MapPageRefines`, `SpacesIsolated`); after a failed file fault that happens
  (`MapCutsOff`, `OverrunLosesPage`). In runs where pages are only allocated the next frame is
  free (`MapPageDense`), which is how `Protocol` avoids it. A new kernel stack is cleared the same
  way (`ClearKeepsSuspended`).
* The page list covers itself only when the number of pages is a multiple of 256
  (`FirstPageClearOfList`). Otherwise the super block of the file system is written over its last
  records (`MountExact`), as it is with the memory the kernel is given (`ActualCount`); the records
  before are all right, and allocations do not reach the others until those are used up
  (`CutKeeps`, `AllocOfCut`). Then the allocator hands out a pointer of the super block as a page
  (`MountGivesPointer`).
* A fault on a page of a file gives the permissions of the segment to the entries it makes, and
  leaves the upper ones that are there as they are. The page of a writable segment can be written
  if and only if those allow it (`FileFaultPermits`, `FileFaultWritable`); with the text loaded
  first they do not (`DataAfterText`). An anonymous fault adds its flags at all levels
  (`AnonFaultPermits`).
* Flag changes only add flags: the parent of a fork can write a shared page exactly when all
  four entries had the write flag before (`ForkParentWrites`), and its child then reads what it
  stores (`ForkSharesStores`), while the child cannot write (`ForkChildCannotWrite`). An unmapped
  page whose tables exist becomes visible as frame 0 (`ChangeFlagsExposes`, `ForkExposes`): a fault
  loads a page exactly when the processor does not see it, so that such a page of the parent, not
  loaded before the fork, is not loaded after it (`LoadedIffUnseen`, `NeverLoaded`), and each
  attempt to write it takes a frame (`AttemptsTakeFrames`). A copy is writable after one fault
  exactly when its upper tables allow writing (`CopyGrantsWrite`), which in a forked child they do
  not (`ChildFaultsTwice`); two faults are always enough (`TwoFaultsGrantWrite`).
* Maps and flag changes load the tables they worked on, so a fork that shares a page goes on in
  the parent with the child's tables (`ForkLoadsChild`).
* Fork counts references right exactly when the mapped addresses it visits are aligned and lie
  in different pages (`ShareExact`, `UnalignedMiscounts`, `TwiceMiscounts`).
* The loop of fork over the stack's region stops below the page at its start, where exec has put
  the argument strings: a forked child reads zeros there (`StringsNotShared`, `ChildReadsZeros`).
* A copy on write copies 4095 bytes: it is the original exactly when the last byte was in the new
  frame already (`CopyExact`).
* A file fault that fails frees the frame it has mapped; counts are kept exactly when it
  succeeds (`FileFaultExact`). It fails for a segment that starts on the page and has no file
  bytes (`DemandPaging.FileFault`). The frame goes to the next fault, so the page of the failed
  one is right exactly while what that fault read is blank (`FaultsLoadProgram`,
  `FrameFilledTwice`).
* Two segments that share a page: the page read by a fault is right exactly when the others are
  blank in it (`PageIsProgramPage`, `SharedPageLosesByte`).
* The size of an archive member is kept in an int: it is the written one exactly below 2 GiB
  (`SizeExact`).
* A forked child gets the callee-saved registers of user mode back exactly when the skipped
  words of the parent's frame happened to hold them (`ForkedChildResumes`).
* mmap's first test compares with the end of the first region (`PlacementAccepted`), and an
  anonymous region can be shorter than asked (`RegionLengthExact`, `PageTooShort`). With the stack
  entry last, whose end is below its start, a region can be placed so that it runs into the stack
  from below or lies inside it (`PlacementByStack`, `RunsIntoStack`), and add_vma refuses only what
  covers the stack's start (`FindPlaceByStack`).
* `page_round_up` rounds down, except below 4096 where it does nothing; `page_round_down` rounds
  up (`PageRoundUp`, `PageRoundDown`).

## Model

| member | source | states |
|---|---|---|
| `PageList.InitialListed` | sys/phys_mmgr.c:181-200 | the list set up at boot is well formed, its first pages are taken, and a free page has count 0 |
| `PageList.FirstPageClearOfList` | sys/phys_mmgr.c:193-197 | the first page handed out does not overlap the list itself if and only if the number of pages is a multiple of 256 |
| `PageList.AllocTakesLowest` | sys/phys_mmgr.c:24-47 | an allocation returns a page if and only if it is the lowest free one, which then has count 1; every other record is as it was, except that a count of 0 below that page becomes 1 |
| `PageList.RunKeeps` | sys/phys_mmgr.c:24-179 | after every run of allocations, frees, increments and decrements within their conditions, the list is well formed and free pages have count 0 |
| `PageList.HeldOrFreed` | sys/phys_mmgr.c:98-123 | through any run a page in use stays in use unless a free brings its count to zero at a step the lemma returns |
| `PageList.NoDoubleAllocation` | sys/phys_mmgr.c:24-123 | two allocations in a run return the same page only if it was freed in between |
| `PageList.FrameList.Alloc` | sys/phys_mmgr.c:24-47 | the loop over the array, repair of zero counts included, changes it to the list after an allocation and returns the page |
| `PageList.FrameList.Free` | sys/phys_mmgr.c:98-123 | the loop changes the array to the list after a free: count down, flag cleared at zero |
| `PageList.FrameList.Increment` | sys/phys_mmgr.c:147-162 | the count of the page goes up, everything else stays |
| `PageList.FrameList.Decrement` | sys/phys_mmgr.c:164-179 | the count of the page goes down, everything else stays |
| `PageList.FrameList.Find` | sys/phys_mmgr.c:136-144 | the record of the page, or an empty record |
| `EntryBits.WordReads` | sys/virt_mmgr.c:168-186 | the masks that read the address and test the present bit of a word give the address and the bit of the entry |
| `EntryBits.WordInstalls` | sys/virt_mmgr.c:306-309 | replacing the address in the word and or-ing flags changes just these parts |
| `EntryBits.WordFlags` | sys/virt_mmgr.c:370-392 | or-ing flags into the word adds them to the flags and changes nothing else |
| `EntryBits.WordInjective` | include/sys/mmgr.h:13-55 | different entries have different words |
| `PageTables.PathRoundTrip` | sys/virt_mmgr.c:44-62 | the four indices of an aligned 48-bit address determine it, and every combination of indices is some address's |
| `PageFlags.ChangeFlagsKeeps` | sys/virt_mmgr.c:362-396 | a flag change keeps every translation and only adds flags along the page's way |
| `PageFlags.ChangeFlagsExposes` | sys/virt_mmgr.c:388-392 | a change with PRESENT leaves what the hardware sees at the page as it was if and only if a table is missing or the last entry was present; otherwise the hardware now sees the address field of an entry nobody mapped |
| `PageFlags.ChangeFlagsGrantsWrite` | sys/virt_mmgr.c:362-396 | after a change with READWRITE the hardware allows writes to the page if and only if all tables on its way are present |
| `Overrun.LostPage` | sys/util.c:75-82 | clearing a fresh table loses exactly the pages whose way goes through entry 0 of the next frame |
| `Overrun.ZeroFillExact` | sys/util.c:75-82 | all translations survive the clearing if and only if the next frame is no table with a page mapped below entry 0 |
| `Mapping.LevelGrows` | sys/virt_mmgr.c:298-311 | on any page list one level of the map takes at most one page, adds the missing table at its place with no entries, keeps the tables a forest, and changes exactly the translations that go through entry 0 of the next frame |
| `Mapping.WithTableExact` | sys/virt_mmgr.c:298-311 | one level of the map keeps all translations if and only if no table was needed or the next frame is no table with a page mapped below entry 0 |
| `Mapping.MapPageRefines` | sys/virt_mmgr.c:280-357 | on any page list, holes included, the map takes just the pages it needs and adds just those tables, the walk returns the frame at the page unless its own way was cut, and every other page of every space translates as before if and only if no frame after a new table has a page below its entry 0; exactly those pages are lost |
| `Mapping.MapPageDense` | sys/virt_mmgr.c:280-357 | on a list without holes nothing is lost: the walk returns the frame, every other translation of every space and all data in use are kept |
| `Presence.MapSight` | sys/virt_mmgr.c:280-357 | on a list without holes the processor, which wants all four entries present, sees the frame at the mapped page and every other page of every space as before |
| `Presence.SeenWhereWalked` | sys/virt_mmgr.c:398-425 | a page that the processor sees is seen where the walk of the kernel leads; one that is seen and not mapped is seen as frame 0 |
| `Permissions.MapFlags` | sys/virt_mmgr.c:298-352 | on a list without holes a map adds its flags to the entries of the page that it makes, the last one in any case, and leaves the upper ones that were there |
| `Permissions.MapKeepsEntries` | sys/virt_mmgr.c:280-357 | on a list without holes a map changes no entry on the way to another page whose tables exist, in any space |
| `TableCopy.CopyTablesKeeps` | sys/virt_mmgr.c:189-267 | on any page list the recursive copy takes one page per table, its root has the entries of the copied one, and no other frame is written |
| `TableCopy.NewSpace` | sys/virt_mmgr.c:189-267 | on any page list a copy of the kernel's tables translates every address as the kernel does, all other spaces translate as before, and no other frame changes |
| `Leaves.LeafMapUnique` | sys/virt_mmgr.c:398-425 | the tables determine the map from user pages to frames |
| `Leaves.SharersBound` | sys/virt_mmgr.c:280-357 | a frame has at most 512 sharers per page in use, so counts cannot wrap |
| `Sharing.FillKeeps` | sys/page_faults.c:127-175 | a fault on an unmapped page maps it to a frame nothing else uses, with the given bytes; every other page, its contents and all counts are kept |
| `Sharing.CowCopyKeeps` | sys/page_faults.c:106-118 | the copying branch moves one page to a private copy and takes one reference from the shared frame; counts stay exact |
| `Sharing.CowFaultKeeps` | sys/page_faults.c:80-125 | a write fault leaves a page alone with its frame where it is and moves a sharing page to a copy of bytes 0 to 4094 whose last byte is the one that was in the new frame; contents of all other frames, the translation of every other page of every space and the exactness of counts are kept |
| `Sharing.CopyExact` | sys/page_faults.c:113 | such a copy is the original if and only if that last byte was already the same |
| `CowRuns.CowAnswer` | sys/page_faults.c:94-124 | the handler answers 1 if and only if the page is mapped; otherwise it returns -1 having only used up a frame |
| `CowRuns.CowAloneGrantsWrite` | sys/page_faults.c:96-105 | a page alone with its frame is writable after one fault |
| `CowRuns.TwoFaultsGrantWrite` | sys/page_faults.c:80-125 | any mapped page is writable after two faults |
| `CowRuns.CopyGrantsWrite` | sys/page_faults.c:106-118 | after the copying fault the page is writable if and only if the three tables above allowed it before |
| `CowRuns.FaultAllPrivatises` | sys/page_faults.c:80-125 | if k pages share a frame and each takes one fault, in any order, the first k-1 get private copies in every other of the next frames, each with the last byte that was there, the last keeps the frame, and nothing else moves or changes |
| `Fork.GoodIffAlignedOnce` | sys/process.c:482-491 | every round of the sharing loop maps a page for each reference it counts if and only if mapped addresses are aligned and in different pages |
| `Fork.ShareExact` | sys/process.c:468-493 | after the loop every count is the number of pages mapped to the frame if and only if mapped addresses are aligned and in different pages |
| `Fork.VisitedExact` | sys/process.c:444-480 | both loops of copy_vm visit exactly the addresses at a whole number of pages from the lower bound of a region and below the upper one, whichever way round the entry has them |
| `Fork.SharedPages` | sys/process.c:468-493 | the child has exactly the visited mapped pages of the parent, at the same frames, and no other space has any page more or less |
| `Fork.NewSpaceKeeps` | sys/process.c:440 | the child's new space has no user page, and everything counted and mapped before is kept |
| `Fork.ProtectKeeps` | sys/process.c:442-466 | the first loop of copy_vm changes no translation and only adds flags in the parent |
| `Fork.ForkKeeps` | sys/process.c:429-495 | fork gives the child exactly the parent's visited pages at the same frames, keeps the translation of every page of every other space, the kernel's half included, and all contents, and keeps counts exact |
| `Miscounts.UnalignedMiscounts` | sys/process.c:482-491 | a concrete fork of a region that starts at address 1, after which a count is not the number of pages |
| `Miscounts.TwiceMiscounts` | sys/process.c:482-491 | a concrete fork that visits one page twice, after which a count is not the number of pages |
| `ForkedStack.StringsNotShared` | sys/process.c:456-491 | after a fork of regions that end at or below the start of the stack the page there is as it was for the parent and not mapped for the child |
| `ForkedStack.ChildReadsZeros` | sys/memory.c:511-559 | the fault of the child at that page is accepted as one of the stack and fills it with zeros, while the parent still reads what exec put there |
| `ForkedWrites.ForkProtects` | sys/process.c:442-466 | fork adds its two flags to all four entries of every visited page of the parent whose tables exist, and changes nothing else on its way |
| `ForkedWrites.ForkParentWrites` | sys/process.c:456-464 | after a fork the parent can write a shared page if and only if all four entries had the write flag before, while the child is mapped to the same frame |
| `ForkedWrites.ForkChildCannotWrite` | sys/process.c:482-491 | after a fork no user page of the child can be written |
| `ChildRights.ForkChildReads` | sys/process.c:482-491 | after a fork the four entries of every page mapped in the child have PRESENT and USER and no other flag |
| `ChildRights.ChildHasRegions` | sys/process.c:429-495 | a fork of page-aligned regions that share no page: the child has a page if and only if the parent has it and it lies in a region, at the same frame and readable |
| `ForkedWrites.ForkSharesStores` | sys/process.c:456-491 | a store of the parent to such a page is what the child then reads there |
| `ForkedWrites.ForkExposes` | sys/virt_mmgr.c:388-392 | after a fork the processor sees at every visited page of the parent whose tables exist the address in the last entry, which for an unmapped page is frame 0; it is what the processor saw before if and only if the last entry was present |
| `ExposedPage.NeverLoaded` | sys/virt_mmgr.c:388-392 | a concrete fork of a process with a region not loaded yet: however often the process reads it afterwards, the processor sees frame 0 and nothing is loaded |
| `ExposedPage.AttemptsTakeFrames` | sys/page_faults.c:65-124 | however often a store to a page seen as frame 0 is tried, the handler answers -1 and takes one frame each time, the page stays as it is, and nothing else changes |
| `ForkedWrites.ChildFaultsTwice` | sys/page_faults.c:106-118 | the first write fault of a forked child on a shared page does not let it write, the second does |
| `SharedPage.ForkedParentWrites` | sys/process.c:429-495 | a concrete fork, all its allocations possible, after which the parent can write the shared page and the child can only after two faults |
| `LoadedTables.ForkLoadsChild` | sys/virt_mmgr.c:356 | copy_vm, begun with other tables than the child's, leaves the child's loaded if and only if the parent has a mapped page among those visited |
| `LoadedTables.ProtectLoadsParent` | sys/virt_mmgr.c:394 | the first loop of copy_vm loads the parent's tables if and only if one of the visited addresses has all its tables |
| `LoadedTables.RefusedMap` | sys/virt_mmgr.c:282-289 | a map of an address or frame that is not aligned changes nothing and loads nothing; any other loads the tables |
| `LoadedTables.FlagsReach` | sys/virt_mmgr.c:362-396 | the flag change reaches its end, where it loads the tables, if and only if the walk finds all of them |
| `Stores.StoreKeeps` | sys/page_faults.c:80-125 | a store of a user program that the tables allow keeps tables, mappings and counts, and changes that byte of the frame the page is mapped to and no other byte of a mapped frame |
| `Stores.StoreSeen` | sys/process.c:482-491 | a store in one space changes what a load in any space reads if and only if both pages are mapped to one frame, the addresses have the same place in it, and the byte is not there already |
| `FileFaults.FileFaultExact` | sys/page_faults.c:156-236 | a file fault keeps counts exact if and only if it succeeds, and leaves the page mapped to the frame the next allocation returns if and only if it fails |
| `FaultPermissions.FileFaultPermits` | sys/page_faults.c:164-173 | after a file fault the entries it made, the last one in any case, have their old flags and PRESENT and USER, and WRITE if and only if the segment is writable; the upper ones that were there are unchanged; from this, exactly when the page can be read and written |
| `FaultPermissions.FileFaultWritable` | sys/page_faults.c:164-173 | where no made entry had the write flag, the page can be written if and only if the segment is writable and every upper entry that was there allows it; in a space with no tables there, if and only if the segment is writable |
| `FaultPermissions.FirstDataFault` | sys/page_faults.c:164-173 | the first fault of a concrete data segment, writable or not, in a space with no tables there |
| `FaultPermissions.DataAfterText` | sys/page_faults.c:164-173 | a read-only text page is loaded and then a page of a writable segment: that page cannot be written |
| `FaultPermissions.FileFaultKeepsRights` | sys/page_faults.c:173 | a file fault gives or takes the right to write to no other page of any space |
| `FaultPermissions.AnonFaultPermits` | sys/page_faults.c:134-150 | after an anonymous fault the page can be read, and it can be written if the region is writable, whatever the tables that were there allowed, and otherwise if and only if all four levels had the write flag |
| `Isolation.MapsKeepShape` | sys/virt_mmgr.c:280-357 | on any page list, after any sequence of user maps in many spaces each page of each space translates to what was last mapped there, unless its own way was cut or a later map cut it off |
| `Isolation.SpacesIsolated` | sys/virt_mmgr.c:280-357 | a page not mapped itself in the run, kernel pages included, translates as before it if and only if no map of the run takes a frame just below a table whose entry 0 is on its way |
| `Isolation.SpacesIsolatedDense` | sys/virt_mmgr.c:280-357 | from a list without holes no map in one space shows in another or in the kernel half |
| `Protocol.ProperIsAlignedOnce` | sys/process.c:442-493 | page-aligned regions that share no page meet fork's exactness condition |
| `Protocol.StepKeeps` | sys/page_faults.c:80-175 | every fault, write faults on pages only seen included, every fork, exec and user store keeps counts exact, keeps the translation of every page of every space but the one that faults, the kernel's half included, and changes mapped frames only by the byte of a store that hits them |
| `Protocol.CountsConserved` | sys/phys_mmgr.c:147-179 | after any interleaving of faults, forks, execs and user stores the reference count of each mapped user frame is the number of pages of all spaces mapped to it |
| `Protocol.SpaceUndisturbed` | sys/process.c:429-495 | through any run without a fault of its own a space keeps the translation of every page, the kernel's half included, and each mapped user frame ends up with exactly the stores of the run that hit it, whichever space made them |
| `Protocol.NotHit` | sys/process.c:429-495 | a frame that no store of the run hits holds what it held |
| `SharedPage.Possible` | sys/process.c:482-491 | a concrete state, two spaces sharing a frame with count 2, satisfies what the runs keep |
| `SharedPage.Parted` | sys/page_faults.c:80-125 | one fault in each space leaves the first with a private copy and the second with the frame, both counted once |
| `Boot.BootKeeps` | sys/virt_mmgr.c:69-166 | for every number of pages, after the pages of the super block, of the directory cache and any frames for records are taken, the page list and the first tables are a state the runs can start from, no table lies over the list, and the tables map exactly the first 6 MiB from 0xFFFFFFFF80000000 on, present and writable at all four levels and nothing else |
| `Boot.MountExact` | sys/phys_mmgr.c:203-228 | once the super block has been filled in, the state is one the runs can start from if and only if the number of pages is a multiple of 256 |
| `Boot.ActualCount` | sys/main.c:56-58 | with the memory from 0x31E000 to 0x5000000 there are 19682 pages, which is 226 modulo 256, and record 19456 of the list then holds a pointer of the super block as its address |
| `Boot.MountGivesPointer` | sys/tarfs.c:105-125 | with two records overwritten, the first reads as that of a page in use and the second, with the magic number 100, as that of a free page at the address of the inodes, which is what the allocator returns once the pages before are used up |
| `Boot.CutKeeps` | sys/phys_mmgr.c:181-228 | the list cut before the super block's page is a state the runs can start from, for every number of pages |
| `Boot.AllocOfCut` | sys/phys_mmgr.c:24-47 | while a page of the cut list is free, an allocation on the whole list is one on the cut list |
| `MemoryManager.Manager.WalkPml4` | sys/virt_mmgr.c:398-425 | the lookup level by level returns what the walk of the model returns |
| `MemoryManager.Manager.Map` | sys/virt_mmgr.c:280-357 | the statements of the map, level by level, have exactly the effect of the map on values, and the tables are loaded unless an address is not aligned |
| `MemoryManager.Manager.AddFlags` | sys/virt_mmgr.c:362-396 | the statements of the flag change have exactly the effect of the flag change on values, and the tables are loaded if and only if none is missing |
| `MemoryManager.Manager.CopyPageTables` | sys/virt_mmgr.c:189-267 | the recursive loop copies as the copy on values does, and only the root of the copy is returned |
| `MemoryManager.Manager.AnonFault` | sys/page_faults.c:127-154 | the anonymous handler has the effect of the anonymous fault on values; AnonFaultPermits says with which permissions |
| `MemoryManager.Manager.FileFault` | sys/page_faults.c:156-236 | the file handler, reading included, has the effect of the file fault on values, and says whether it succeeded; FileFaultPermits says with which permissions |
| `MemoryManager.Manager.CopyOnWriteFault` | sys/page_faults.c:80-125 | the handler has the effect and the answer of the write fault on values |
| `MemoryManager.Manager.ProtectRegions` | sys/process.c:442-466 | the first loop of copy_vm over the region list changes memory as on values |
| `MemoryManager.Manager.ShareRegions` | sys/process.c:468-493 | the second loop maps and counts as on values |
| `MemoryManager.Manager.CopyVmInto` | sys/process.c:429-495 | copy_vm as a whole: copy of the kernel's tables, then both loops, with the table that is loaded at the end |
| `Util.PageRoundUp` | sys/util.c:34-38 | the result is at or below the address, and is the start of its page if and only if the address is not between 1 and 4095 |
| `Util.PageRoundDown` | sys/util.c:40-45 | the result is the first page boundary at or above the address |
| `Util.MemZero` | sys/util.c:75-82 | for n above 0 exactly the n + 1 bytes from the start are zero, all others as before |
| `Util.MemCopy` | sys/util.c:96-103 | exactly the n bytes are copied |
| `FileReads.OpenFile.Read` | sys/tarfs.c:417-433 | a read copies what is asked for or left, and moves the file's own offset by that much |
| `FileReads.OpenFile.SysRead` | sys/fs.c:103-111 | a read from the current offset delivers the next piece of the file |
| `FileReads.ReadsDeliver` | sys/fs.c:103-111 | any sequence of reads delivers consecutive pieces whose concatenation is the file from the starting offset, up to what was asked for or the end |
| `FileReads.ZeroOnlyAtEnd` | sys/tarfs.c:424-427 | a read with a positive size returns 0 if and only if the offset is at the end, and otherwise makes progress |
| `DemandPaging.FileFault` | sys/page_faults.c:156-232 | whatever the alignment, the page afterwards holds the file's bytes inside the segment and zeros elsewhere; the handler fails if and only if the segment starts on the page and has no file bytes |
| `DemandPaging.PageIsProgramPage` | sys/page_faults.c:156-232 | the page read in one segment is the page of the program loaded at once if and only if every other segment is blank in it |
| `DemandPaging.SharedPageLosesByte` | sys/page_faults.c:156-232 | two concrete segments in one page: the page read for the first lacks the byte of the second |
| `FaultRuns.FaultsLoadProgram` | sys/page_faults.c:156-236 | after any run of accesses, each a fault on the machine if the processor does not see its page, the page of every access that faulted is seen and holds what the last fault given its frame read; if its own fault succeeded it is the page of the program if and only if the other segments are blank in it, and if not, the frame went to the next fault and it is right if and only if what that one read is blank |
| `FaultRuns.LoadedIffUnseen` | sys/page_faults.c:65-76 | an accessed page is loaded by the run if and only if the processor did not see it at the start; a page seen without being mapped stays unmapped and seen as frame 0 |
| `FaultRuns.FaultsMapAccessed` | sys/page_faults.c:156-236 | after such a run the pages that were accessed and not seen before are mapped and seen, and every other user page of every space is mapped and seen as before and holds what it held |
| `FailedFault.FrameFilledTwice` | sys/page_faults.c:226-235 | a concrete run, first fault failed, after which the first page holds the bytes of the second |
| `FailedFault.MapCutsOff` | sys/virt_mmgr.c:298-311 | after a failed fault at the first page of an empty part of a space, any map that needs a table, in any space, unmaps that page |
| `FailedFault.OverrunLosesPage` | sys/virt_mmgr.c:298-311 | such a fault and map from a concrete state that the runs can be in |
| `ExecStack.CopyParams` | sys/memory.c:576-590 | strings are laid from last to first with their terminators, pointers in order below a null word, and nothing else is written |
| `ExecStack.TextsRead` | crt/crt1.c:5-10 | reading a laid pointer list from any position gives the strings from there on |
| `ExecStack.StartRecovers` | crt/crt1.c:5-10 | from such a stack the start code recovers argc, every argument and every environment string in order |
| `ExecStack.BuildStack` | sys/memory.c:521-561 | for all arguments and environments that fit, the two pages and the stack pointer are such that the start code recovers them exactly |
| `Archive.OctalRoundTrip` | sys/util.c:47-58 | the value read from an octal size field is the number that was written |
| `Archive.OctToDec` | sys/util.c:47-58 | the loop computes the value of the digits |
| `Archive.MemCmp` | sys/util.c:60-73 | the result is the difference of the byte sums, so 0 does not mean equality |
| `Archive.DataAt` | sys/tarfs.c:155-158 | the place recorded for a regular file is where its contents are in the archive |
| `Archive.Walk` | sys/tarfs.c:128-189 | on every well-formed archive the loop ends and records each member once, in order and numbered from 3, with the type and name the writer gave it and its size truncated to an int; it has a place if and only if its type flag is 48, and its contents are at that place |
| `Archive.SizeExact` | include/sys/vfs.h:61 | the recorded size is the written one if and only if it is below 2 GiB, and it is negative if and only if the size modulo 4 GiB is 2 GiB or more |
| `Vmas.OverlappingIsShare` | sys/memory.c:335-355 | on regions that are not empty the four tests say if and only if there is a common address |
| `Vmas.FindPlaceExact` | sys/memory.c:287-333 | on an ordered list the search fails if and only if an entry shares an address with the new region, never leaves its result unset, and otherwise finds the only place that fits |
| `Vmas.InsertedOrdered` | sys/memory.c:357-375 | insertion at that place keeps the list ordered and disjoint |
| `Vmas.RegionLengthExact` | sys/memory.c:232-235 | an anonymous region covers the length if and only if the two bytes lost per 4097 leave the rest covered; it is short by at most one byte more than those, and exactly when |
| `Vmas.PageTooShort` | sys/memory.c:234 | a region of a whole page is a byte short |
| `Vmas.FirstFitExact` | sys/memory.c:118-145 | the search returns an address if and only if it is the hint with the first test met, else the candidate after the first entry with room and a page to spare, else one past the last entry; it fails if and only if there is no room after any entry and the last one ends too high |
| `Vmas.FirstMalloc` | libc/malloc.c:17 | the hint 0 stands for 0x555555552AAAAAAA, and the first request of malloc in a concrete program is placed right after the heap |
| `Vmas.PlacementAccepted` | sys/memory.c:105-145 | on ordered lists every address the search returns is accepted by add_vma, except that with the first test met it is if and only if the region ends before the first one starts |
| `Vmas.FindPlaceByStack` | sys/memory.c:287-355 | with the stack entry last the search for a place fails if and only if the region shares an address with another entry or covers the start of the stack, and otherwise gives the place among the others, or after the stack for what lies above it |
| `Vmas.PlacementByStack` | sys/memory.c:118-145 | with the stack entry last: in a gap between others the region is taken and clear of the stack; in the gap below the stack it is taken, and runs into the stack if and only if its end is above the stack's; a search that gets to the stack gives an address inside it, and the region is taken if and only if all of it lies there |
| `Vmas.RunsIntoStack` | sys/memory.c:132-144 | a concrete list, hint and length: the region placed below the stack runs into it |
| `Vmas.FirstTestByStack` | sys/memory.c:120-128 | with the stack entry last and the first test met, the region is taken if and only if it ends before the first entry starts |
| `Vmas.UnsetExact` | sys/memory.c:305-332 | find_vma_prev returns without setting its result if and only if it met no overlap and no gap and the region starts below the end of the last entry |
| `RegionList.Regions.FindPrev` | sys/memory.c:287-333 | on any list the loop over the links reports an overlap, finds the predecessor of the place, or leaves its result unset, as the search on values does |
| `RegionList.Regions.Insert` | sys/memory.c:357-375 | the four link updates put the entry at its place with both directions of links consistent |
| `RegionList.Regions.Add` | sys/memory.c:274-285 | on any list where a place is set, the entry is linked in at that place if there is no overlap and nothing changes otherwise; on ordered lists that is if and only if no entry shares an address, and the list stays ordered |
| `RegionList.Regions.FirstFitSearch` | sys/memory.c:118-145 | the loop over the links returns the first fit: the candidate after the first entry with room, or that there is none |
| `RegionList.Regions.Mmap` | sys/memory.c:147-257 | mmap returns the address of the search if it is below the kernel and add_vma takes the region there, and then exactly the new region is added; otherwise the list is unchanged; on ordered lists with a hint not below the first region it fails only when there is no room |
| `RegionList.AlwaysPlaced` | sys/memory.c:287-333 | on ordered lists, and on ones that end with the stack, find_vma_prev sets its result for every region mmap asks for |
| `RegionList.Regions.Duplicate` | sys/process.c:342-370 | a fresh list with the same regions and consistent links |
| `ContextSwitch.SwitchSaves` | sys/scheduler.s:9-17 | switching away leaves a process suspended with the context it had |
| `ContextSwitch.SwitchRestores` | sys/scheduler.s:17-24 | switching to a suspended process gives it its context back |
| `ContextSwitch.SwitchIsTransparent` | sys/scheduler.s:9-24 | over any run of switches and of work on other stacks a process resumes with the callee-saved registers, stack pointer and return address it left with |
| `ContextSwitch.SyscallReturns` | sys/do_syscall.s:7-46 | a system call returns with every register as it was but rax |
| `ContextSwitch.ForkedChildResumes` | sys/process.c:372-426 | the first switch to a forked child reaches user mode with the parent's instruction pointer, segments, flags and caller-saved registers, rax 0 and the stack pointer asked for, if one was; callee-saved registers are the parent's if and only if the skipped words held them |
| `ContextSwitch.Cpu.DoSwitch` | sys/scheduler.s:9-24 | the pushes, the stack change and the pops have the effect of the switch on values |
| `ContextSwitch.Cpu.EnterSyscall` | sys/do_syscall.s:7-27 | the pushes of the entry build the frame of the model |
| `ContextSwitch.Cpu.CopyThread` | sys/process.c:375-426 | clearing, the word loop and the field updates leave every word of the child's stack as the model says, and outside it only the first byte after the stack page is changed, to zero |
| `ContextSwitch.ClearKeepsSuspended` | sys/process.c:390 | that byte costs another process its saved context if and only if its stack lies just above, is filled to the last word, and the saved r15 has a low byte |
| `ContextSwitch.ClearKeepsFrame` | sys/process.c:390 | the system call frame of the parent survives it |
| `Processes.RemoveLoop` | sys/queue.c:63-84 | the removal loop is over after one round, with the process taken out, if the process is in the first two places or there is no second; otherwise it never ends and changes nothing |
| `Processes.RemovedElements` | sys/queue.c:63-84 | a removal that ends takes out the process and no other |
| `Processes.DeletedIsWithout` | sys/process.c:43-78 | deletion from a process list takes out the process and only it if and only if it is listed or there is at most one entry |
| `Processes.ScheduleKeeps` | sys/scheduler.c:116-188 | schedule keeps every process in the queue of its state; afterwards the head of the run queue runs, or the queue is empty and the idle task does |
| `Processes.WakeExact` | sys/scheduler.c:100-112 | a wake-up leaves every process in the queue and list of its state if and only if the process is live and can run already or waits in the queue given |
| `Processes.WrongQueue` | sys/scheduler.c:100-112 | woken by way of another queue than its own, a process ends up in two queues; WakeFromWrongQueue has the links |
| `Queues.Chain.AddFront` | sys/queue.c:24-38 | the descriptor becomes the head of the chain |
| `Queues.Chain.Add` | sys/queue.c:40-59 | the loop to the last descriptor appends the new one, and the chain stays linked and acyclic |
| `Queues.Chain.Remove` | sys/queue.c:63-84 | however many rounds it is given, the loop is over exactly when the process is in the first two places or there is no second, with just that descriptor unlinked |
| `Queues.Chain.Acyclic` | sys/queue.c:24-84 | the links from the head lead through the descriptors of the queue in order and then end |
| `Queues.Chain.AddFrontFrom` | sys/queue.c:24-38 | a descriptor still in another queue: that queue then leads through it into the old contents of this one, what came after it is cut off, and the other queue is intact if and only if the descriptor was its last and this queue was empty |
| `Lifecycle.StepKeeps` | sys/process.c:213-312 | fork, wait, exit, kill, blocking and timer steps keep the invariant; after one that calls schedule the head of the run queue runs or the idle task with an empty queue |
| `Lifecycle.PreparedReady` | sys/scheduler.c:116-163 | whenever a step calls schedule the current process is where its removal from the run queue ends |
| `Lifecycle.BootedKeeps` | sys/scheduler.c:7-53 | the state set up at boot satisfies the invariant |
| `Lifecycle.RunKeeps` | sys/scheduler.c:100-202 | the invariant holds in every state of every run |
| `Lifecycle.InOneQueue` | sys/scheduler.c:116-163 | on_rq is set exactly for processes in the run queue, no process is in two queues or twice in one, and none is both in allproc and in zombproc |
| `Lifecycle.LivesMoveOn` | sys/process.c:626-782 | in every run the state of a process only moves from NORMAL to ZOMBIE to DEAD |
| `Lifecycle.CollectedOnce` | sys/process.c:732-782 | sys_wait returns a pid at most once in a run |
| `Lifecycle.CollectedStatus` | sys/process.c:732-782 | the status sys_wait reports for a child is the one that child gave sys_exit, at a step the lemma returns |
| `Lifecycle.ExitExact` | sys/process.c:666-702 | an exit leaves processes in the queues and lists of their states if and only if the recorded parent is live and neither blocked nor asleep, and brings the parent back to life if and only if it had exited |
| `Lifecycle.NothingBlocks` | sys/syscalls.c:6-21 | in every run from boot without block_process and sys_sleep_process no process is ever blocked or asleep, and both queues stay empty |
| `StepEffects.StepHas` | sys/process.c:213-312 | in every state of every run each step has its effect on the state: who runs after it, what is in the queues and lists in which order, and which fields of which processes differ |
| `StepEffects.ForkHas` | sys/process.c:236-310 | the child is last in the run queue and in allproc and is the only recorded child; the parent goes on |
| `StepEffects.WaitHas` | sys/process.c:732-782 | the first zombie among the recorded children is dead and off zombproc, and nothing else differs; with children and no zombie the process goes to the end of the waiting queue and the next in the run queue runs |
| `StepEffects.ExitHas` | sys/process.c:626-702 | the process is a zombie in no queue, each recorded child has init as parent, init records them if and only if it had a recorded child, and the parent can run and is first if it was not in the run queue |
| `StepEffects.KillHas` | sys/signal.c:41-61 | a live process off the run queue leaves its queue, the order of the others kept, and runs at once as head of the run queue; nothing else differs, and any other process is left as it is |
| `StepEffects.HaltHas` | sys/scheduler.c:89-163 | the process goes to the end of the queue for its state and the next in the run queue runs, or the idle task |
| `StepEffects.TickHas` | sys/pit.c:115-120 | a tick changes the current process if and only if it is the idle task and the run queue is not empty, and nothing else |
| `Preemption.LosesProcessor` | sys/scheduler.c:166-188 | a process other than the idle task loses the processor in a step if and only if it stops, exits, waits for children of which none has ended, or kills a live process that is off the run queue |
| `Preemption.KeepsProcessor` | sys/scheduler.c:1-202 | in every run a process that does none of these keeps the processor, however many ticks there are |
| `Preemption.TicksChangeNothing` | sys/pit.c:115-120 | any number of ticks while such a process runs leaves the whole state as it is |
| `Preemption.ChildStarves` | sys/scheduler.c:198-202 | a run from boot after which a forked child can run and, after any number of ticks, has not |
| `LostChild.Runs` | sys/process.c:236-253 | a run from boot, every step allowed, after which the current process's recorded parent is dead |
| `LostChild.DeadParentRuns` | sys/process.c:696-702 | the exit then makes that dead parent live and first in the run queue, in no list of processes |
| `StuckExit.Reached` | sys/process.c:732-762 | a run from boot of forks, waits and a timer tick, every step allowed, after which three processes wait, each for the next, and the child of the third is current |
| `StuckExit.KillSecond` | sys/signal.c:41-61 | in a state of that run, with two processes waiting, the second is killed: it runs at once, and the first waits on |
| `StuckExit.ExitNeverEnds` | sys/queue.c:63-84 | the exit of that child does not end: after any number of rounds the removal of its waiting parent from the waiting queue goes on and has changed nothing |
| `Descriptors.Delete` | sys/process.c:43-115 | the loop with its two pointers computes the deletion of the model |
| `Scheduler.Kernel.constructor` | sys/scheduler.c:7-53 | at boot the four queues are empty and apart, and the state is that of the runs |
| `Scheduler.Kernel.Dequeue` | sys/scheduler.c:128-140 | a process leaves the run queue: the links of the queue are closed, all queues stay linked and apart, and on_rq is off |
| `Scheduler.Kernel.Enqueue` | sys/scheduler.c:134-163 | a process in no queue joins the end of one, and all queues stay linked and apart |
| `Scheduler.Kernel.Schedule` | sys/scheduler.c:116-202 | the link updates and assignments of schedule keep every queue linked without cycles, no descriptor in two queues and on_rq set exactly for the run queue, and take the step of the model |
| `Scheduler.Kernel.TryToWakeUp` | sys/scheduler.c:100-112 | for a process in no queue but the given one and the run queue, the wake-up keeps the queues linked and apart and takes the step of the model |
| `Scheduler.Kernel.WakeFromWrongQueue` | sys/scheduler.c:100-112 | for a process parked in another queue: it joins the run queue, the links of the other queue lead through it into the run queue, that queue is intact if and only if the process was its last and the run queue empty, and the queues are never apart |
| `Scheduler.Kernel.TimerTick` | sys/pit.c:119 | a timer tick keeps the invariant and leaves the head of the run queue, or the idle task with an empty queue, running |
| `Scheduler.Kernel.Stop` | sys/scheduler.c:89-95 | a process that blocks or sleeps leaves the run queue for the queue of its state; queues and invariant are kept |
| `Scheduler.Kernel.DoFork` | sys/process.c:213-312 | the new descriptor is linked at the end of the run queue, takes the place of the recorded children, and has a new pid; queues and invariant are kept and the step is that of the model |
| `Scheduler.Kernel.FindProcess` | sys/process.c:175-204 | the descriptor with the pid, if and only if it is listed in allproc |
| `Scheduler.Kernel.SendSignal` | sys/signal.c:28-65 | the wake-up of kill by way of the queue of the process's state keeps queues and invariant; a live process off the run queue is then current and head of the run queue and in no other queue, the order of the others is kept, and nothing else differs |
| `Scheduler.Kernel.Perform` | sys/process.c:213-782 | every step of a run, on the heap, keeps queues and invariant and has the effect of its kind |
| `Scheduler.Kernel.SysKill` | sys/signal.c:5-26 | the idle task, init and the caller are spared with results 0, 0 and 9; otherwise the signal is sent |
| `Scheduler.Kernel.ReparentToInit` | sys/process.c:675-694 | the child gets init as its parent, and init records it only if it has a recorded child |
| `Scheduler.Kernel.ReparentChildren` | sys/process.c:636-642 | the loop hands every recorded child to init as the model does |
| `Scheduler.Kernel.SysExit` | sys/process.c:626-673 | exit, with its moves between lists and queues, keeps queues and invariant and takes the step of the model |
| `Scheduler.Kernel.SysWait` | sys/process.c:732-762 | a pass of sys_wait keeps queues and invariant and takes the step of the model, and what it returns is the first zombie among the recorded children with its status, if there is one |
| `Scheduler.Kernel.RunQueueWalk` | sys/queue.c:24-84 | the links from the head of the run queue lead to every process with on_rq set exactly once, to no other, and end |
| `Scheduler.RunFromBoot` | sys/scheduler.c:100-202 | every run from boot, on the heap: after it the queues are linked without cycles and apart, on_rq is right, and the state is that of the run on values |

## Left out

- Devices (AHCI, PCI, PIC, PIT, keyboard, screen), GDT, IDT and MSRs: hardware without state in the model; of the loads of cr3 only the loaded value is kept, not the flushing of the TLB.
- The C library, the shell and the programs under bin: thin, and they would only add easy members.
- Path and directory-entry lookup: it rests on a comparison that is not an equality test; a file's inode is taken as found.
- The capacity of the inode and directory-entry tables: the archive walk records into a sequence.
- FaultRuns.FaultsLoadProgram: loads, and stores to pages that the processor does not see, in one space, in which no allocation fails; other stores are in Protocol. An access is decided by the present bits; the user bit, which every map and flag change of a user page sets, is not looked at.
- exit_files, exit_vmmaps, free_page_range and the freeing of list records: as written they reclaim nothing, since they pass addresses that phys_mem_free does not find; no claim is made that exit returns memory.
- remove_vma, munmap, expand_stack and find_closest_vma: removal of the list head leaves links that do not fit, and the others are not called or only scan.
- Scheduler.Kernel.SysExit: closing of files and release of the address space are not part of its state.
- Scheduler.Kernel.DoFork: file descriptors, command and working directory are not part of its state; the memory side is Fork, the stack side ContextSwitch.
- Scheduler.Kernel.TryToWakeUp: for a process in no other queue; WakeFromWrongQueue says what the links are otherwise, and runs that go on from there are not modelled.
- Scheduler.Kernel.SysWait: a pass is atomic; timer ticks between setting WAITING and the end of the scan are not modelled, and neither is a wait of the idle task.
- Lifecycle.StepKeeps: interrupts are on in system calls, but fork, exit, kill and a pass of wait are taken as one step each; a timer tick within one is not modelled.
- Lifecycle.RunKeeps: runs stop before pids wrap round at 65536, and ask of an exit that the recorded parent is live and neither blocked nor asleep; ExitExact shows that this is what it takes.
- The scan for sleepers in the timer handler: it follows next_in_queue after the wake-up has relinked it.
- StepEffects.KillHas: the pending-signal flags that kill sets are not part of the state; a tick of a process that has one set calls sys_exit, which is an exit step of the runs.
- The time slice: a tick in the runs is one at which the slice has run out.
- RegionList.Regions.Add: where find_vma_prev leaves its result unset, add_vma goes on with an unset pointer; UnsetExact says when, and nothing is claimed then.
- RegionList.Regions.Mmap: anonymous mappings without 64-bit wrap-around and with at least one region in the list, where find_vma_prev sets its result; file mappings are not modelled.
- MemoryManager.Manager.AnonFault: for addresses from 4096 on, below which page_round_up does not round and no region lies.
- Boot.CutKeeps: frees and count changes, which look a page up by its address, are not followed on a list with overwritten records.
- Protocol.CountsConserved: runs in which no allocation fails and no page is freed; runs of file faults that fail are in FaultRuns, maps on lists with holes in Mapping and Isolation.
- Sharing.FillKeeps: the page is filled through physical memory; that user and kernel see the same bytes is the walk's result, not modelled by addresses of the direct map.
- ContextSwitch.ForkedChildResumes: user threads; kernel threads start in a function instead and are not modelled.
- ExecStack.BuildStack: the region entry that do_stack_vma fills is taken from a global pointer and is not part of the model.
