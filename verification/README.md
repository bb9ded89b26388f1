# A verified model of asynclear

asynclear is a RISC-V kernel whose tasks are futures. This project models, in Dafny 4.11, the parts of it that keep the
hardest state, and proves what they promise:

- **User memory.** `Sv39`, `PageTree`, `PageTables` model the three-level page table of section 4.4 (Sv39) of the RISC-V
  Privileged Specification, version 20211203, as frames in memory. `AddressSpace` is the address space as a value: areas,
  their pages, and the flat translation they should add up to. `MmapSearch`, `MemorySpaces`, `Segments`, `FileMaps` and
  `Forks` are the operations on the heap of objects; each is proved to do to the real tree what its value counterpart says,
  and to touch no frame of another address space. `SideBySide` lets any number of address spaces, and the page cache, act
  in any order on one memory. `ProcessMemory` holds the break and the stack layout.
- **Processes.** `Ids` is the id allocator. `WaitProtocol` is the exit / reparent / notify protocol against wait4, as
  interleaved atomic steps of any number of processes, with its invariant; `WaitRuns` is what every run of it promises.
- **FAT32.** `Fat`, `FatFiles`, `FatReads` model the allocation table, the chains of all files over whole runs, the sector
  geometry and the page reader (Microsoft FAT32 File System Specification 1.03, sections "FAT Data Structure" and "FAT32
  FSInfo Sector Structure"). `DirEntries` and `DirReaders` model long-name directories (section "FAT Long Directory
  Entries") and prove that reading undoes an encoder.
- **Page cache.** `PageFill` is the double-checked fill of one page under any number of readers and writers;
  `CachedFiles` the page-wise reads and writes of a file as operations on one flat sequence of bytes.
- **Signals.** `Signals` and `SignalRuns` model delivery and return as a stack of saved contexts in user memory.
- **Stack, descriptors, paths.** `InitStacks` writes the first user stack, `FdTables` hands out descriptors, `Paths` prints
  and walks paths.

Code that updates state in place is modelled by classes and loops; pure code by functions. Hardware, clocks and unseen
libraries are parameters: a frame allocator that hands out fresh zeroed frames while there are any, a disk as a function
from sector numbers to sectors, text decoders as predicates, the clock as two numbers, user memory probes as predicates.

`dafny verify dfyconfig.toml` checks everything. Some proofs use `hide` to keep definitions out of a goal that does not
need them.

## What the code does differently from what one would expect

Each of these is proved, with an input that shows it and the exact condition under which the expectation holds.

- The mmap search adds a length to an address without an overflow check: the result is first fit exactly when no end
  address it computes wraps (`MmapSearch.TryFindMmapArea`, `MmapSearch.LengthCanWrap`).
- Growing the break never looks at the areas above: areas stay disjoint exactly when the range up to the new break is free
  (`AddressSpace.BrkWfIff`, `AddressSpace.BrkCanOverlap`).
- Clearing a page table keeps the first table ever linked, though the comment there says all but the root are freed
  (`PageTables.PageTable.Clear`).
- An orphan that has begun to exit before it is handed to init can stay unnoticed while init sleeps. Init hears of an orphan
  exactly when the orphan had not begun to exit at the handover; in general a sleeper hears of a zombie exactly when the
  zombie took it as its parent when its exit began, which every child the sleeper forked does (`WaitRuns.NoLostWakeup`,
  `WaitRuns.OrphanHeardIff`, `WaitRuns.OrphanCanBeMissed`).
- A write tests a page number against a range of bytes when it decides whether to read the page first; what is lost, and
  exactly when nothing is, is in `CachedFiles.WriteKeepsIff` and `CachedFiles.SecondPageLoses`.
- The mount check computes the end of the tables in 32 bits; clusters lie behind the tables exactly when it does not wrap
  (`FatReads.DataClearOfTables`, `FatReads.WrappedTablesAccepted`).
- The page reader cuts its sector index to 32 bits (`FatReads.SectorIndexExact`); truncation compares a link with all its
  32 bits and stops on a link whose top bits are set (`FatReads.FatFile.Truncate`, `FatReads.TopBitsStopTruncate`,
  `FatFiles.ApplyClean`).
- The word pushed behind the environment strings is not aligned: its bytes leave the current frame exactly for one class of
  string lengths, and it is aligned exactly for another (`InitStacks.StackWriter.InitStack`, `InitStacks.StrayAt`,
  `InitStacks.LongEnvironmentStrays`, `InitStacks.WordAligned`).
- A read that fails halfway leaves its bytes in the cached frame, and a writer that does not fill first makes them visible.
  A byte shows them exactly where neither a finished fill nor a copy went (`PageFill.StaleByte`,
  `PageFill.FailedReadShows`).
- A signal return whose interrupted a0 holds -1023 ends the thread, because that value is the "thread should exit" result
  (`Signals.UserThread.TrapSigreturn`, `SignalRuns.DeliveryUndone`, `Signals.ReturnCanEnd`).
- Adding several descriptors at once gives consecutive numbers from the least unused one, used or not
  (`FdTables.AddManyKeepsIff`, `FdTables.AddManyCanOverwrite`).

## Model

| member | source | states |
|---|---|---|
| `Sv39.VpnFloor` | crates/libkernel/src/memory/address.rs:82-85 | the page an address lies in |
| `Sv39.VpnCeil` | crates/libkernel/src/memory/address.rs:87-90 | the first page that starts at or above an address |
| `Sv39.Indexes` | crates/libkernel/src/memory/address.rs:138-147 | the loop fills the three table indexes, highest level first |
| `Sv39.IndexesCompose` | crates/libkernel/src/memory/address.rs:138-147 | the indexes are below 512 and make up the page number again; the user half has root lines below 256 |
| `Sv39.IndexesInjective` | crates/libkernel/src/memory/address.rs:138-147 | different page numbers have different index triples |
| `Sv39.PteRoundTrip` | crates/libkernel/src/memory/memory_space/page_table.rs:41-62 | flags come back from an entry, and the frame number comes back exactly when it fits 44 bits |
| `PageTree.NoSharing` | crates/libkernel/src/memory/memory_space/page_table.rs:114-134 | in a well-formed tree no table is reached by two paths, and none is the root |
| `PageTree.LinkMidOk` | crates/libkernel/src/memory/memory_space/page_table.rs:118-129 | linking an empty table under the root keeps the tree well formed and every translation as it was |
| `PageTree.LinkLowOk` | crates/libkernel/src/memory/memory_space/page_table.rs:118-129 | linking an empty table at the second level does the same |
| `PageTree.StoreLeaf` | crates/libkernel/src/memory/memory_space/page_table.rs:136-146 | storing a leaf entry changes the translation of that one page number and of no other, for any well-formed tree |
| `PageTree.ClearedOk` | crates/libkernel/src/memory/memory_space/page_table.rs:83-88 | with the user half of the root zeroed nothing there translates, the kernel half translates as before |
| `PageTree.TreeFrame` | crates/libkernel/src/memory/memory_space/page_table.rs:114-146 | a tree and its translations depend on its own tables only |
| `PageTree.SharedOk` | crates/libkernel/src/memory/memory_space/page_table.rs:100-112 | copying the kernel's root lines makes the kernel half translate as the kernel's and leaves the rest |
| `PageTables.PageTable.constructor` | crates/libkernel/src/memory/memory_space/page_table.rs:74-80 | a new table owns one fresh zeroed frame and translates nothing |
| `PageTables.PageTable.FindPteCreate` | crates/libkernel/src/memory/memory_space/page_table.rs:114-134 | the walk ends at the table of the leaf, changes no translation, links tables from free frames only |
| `PageTables.PageTable.Map` | crates/libkernel/src/memory/memory_space/page_table.rs:136-140 | exactly one page number translates differently, to the given frame and rights, also over a page that translates |
| `PageTables.PageTable.Unmap` | crates/libkernel/src/memory/memory_space/page_table.rs:142-146 | exactly one page number stops translating; no frame is taken when it did translate |
| `PageTables.PageTable.Clear` | crates/libkernel/src/memory/memory_space/page_table.rs:83-88 | no user page translates, the kernel half is unchanged, all own tables but the first one linked are freed |
| `PageTables.PageTable.MapKernelAreas` | crates/libkernel/src/memory/memory_space/page_table.rs:100-112 | kernel lines translate as in the kernel's table, every other page as before, both trees stay valid |
| `AddressSpace.MapAreaWfIff` | crates/libkernel/src/memory/memory_space/mod.rs:345-352 | inserting an area keeps the invariant exactly when the range is non-empty, in the user half and free of other areas, and an area it replaces has no page |
| `AddressSpace.FaultWf` | crates/libkernel/src/memory/memory_space/vm_area.rs:114-123 | giving a page of a lazy area an unused frame keeps the invariant |
| `AddressSpace.MapFileWf` | crates/libkernel/src/memory/memory_space/vm_area.rs:97-112 | mapping cached file pages into a free range keeps the invariant |
| `AddressSpace.LoadedWf` | crates/libkernel/src/memory/memory_space/mod.rs:372-385 | inserting a fully loaded area keeps the invariant |
| `AddressSpace.RemoveAreasWf` | crates/libkernel/src/memory/memory_space/vm_area.rs:143-152 | removing any set of areas with their translations keeps the invariant |
| `AddressSpace.ShrinkWf` | crates/libkernel/src/memory/memory_space/vm_area.rs:154-165 | moving an area's end down keeps the invariant |
| `AddressSpace.ExpandWfIff` | crates/libkernel/src/memory/memory_space/vm_area.rs:167-170 | moving an area's end up keeps the invariant exactly when the range above is free and in the user half |
| `AddressSpace.BrkWfIff` | crates/libkernel/src/memory/memory_space/mod.rs:214-233 | a break keeps the invariant exactly when it shrinks the heap or the range up to it is free |
| `AddressSpace.BrkCanOverlap` | crates/libkernel/src/memory/memory_space/mod.rs:214-233 | a break over another area breaks the invariant: a concrete space |
| `AddressSpace.TranslatedByOwner` | crates/libkernel/src/memory/memory_space/vm_area.rs:114-123 | a page inside an area translates exactly when it is one of the area's mapped pages |
| `AddressSpace.TranslatedHasOwner` | crates/libkernel/src/memory/memory_space/vm_area.rs:97-123 | every translated user page belongs to an area that maps it |
| `AddressSpace.TranslatedOutside` | crates/libkernel/src/memory/memory_space/vm_area.rs:97-123 | nothing translates in a range free of areas |
| `AddressSpace.UnmappedFree` | crates/libkernel/src/memory/memory_space/mod.rs:302-332 | after an unmap that is not refused, the page range is free and nothing in it translates |
| `AddressSpace.MapFaultUnmapRestores` | crates/libkernel/src/memory/memory_space/mod.rs:235-332 | mapping a free range, any faults in it, then unmapping it restores areas and translation |
| `AddressSpace.ApplyWf` | crates/libkernel/src/memory/memory_space/mod.rs:215-437 | each of map, file map, load, fault, break, unmap, remove and recycle keeps the invariant |
| `AddressSpace.RunWf` | crates/libkernel/src/memory/memory_space/mod.rs:215-437 | every run of these operations does: areas non-empty, disjoint, keyed by start, pages in range, frames private, translation exactly the union of the areas' pages |
| `MmapSearch.TryFindMmapArea` | crates/libkernel/src/memory/memory_space/mod.rs:270-300 | the cursor search returns the lowest fitting page at or above the hint, ENOMEM when there is none, exactly when no end address wraps; fixed mappings are refused |
| `MmapSearch.LengthCanWrap` | crates/libkernel/src/memory/memory_space/mod.rs:270-300 | a length that fits nowhere and is placed all the same |
| `MmapSearch.FindArea` | crates/libkernel/src/memory/memory_space/mod.rs:422-425 | the last area starting at or before a page is the one that owns it, if any does |
| `MmapSearch.PlanUnmap` | crates/libkernel/src/memory/memory_space/mod.rs:302-327 | the cursor collects exactly the areas inside the range, and stops exactly when some area straddles it |
| `MemorySpaces.MemorySpace.NewBare` | crates/libkernel/src/memory/memory_space/mod.rs:40-45 | a valid space with no areas and no translation, made of one free frame |
| `MemorySpaces.MemorySpace.EnsureAllocated` | crates/libkernel/src/memory/memory_space/vm_area.rs:114-123 | the page has its frame afterwards; a new one is zeroed, mapped with the area's rights and was free; otherwise nothing changes |
| `MemorySpaces.MemorySpace.HandleMemoryException` | crates/libkernel/src/memory/memory_space/mod.rs:416-438 | a fault in a lazy area makes the page translate, one outside all areas is refused unchanged, the unimplemented cases change nothing |
| `MemorySpaces.MemorySpace.UserMap` | crates/libkernel/src/memory/memory_space/mod.rs:345-352 | the area is in the map under its first page, one already there is replaced and its frames freed |
| `MemorySpaces.MemorySpace.TryMap` | crates/libkernel/src/memory/memory_space/mod.rs:235-249 | a placed mapping is a new empty area at the first fit; every refusal changes nothing |
| `MemorySpaces.MemorySpace.UnmapPages` | crates/libkernel/src/memory/memory_space/vm_area.rs:143-152 | the given pages, and no others, stop translating |
| `MemorySpaces.MemorySpace.RemoveAreaWithStartVpn` | crates/libkernel/src/memory/memory_space/mod.rs:334-340 | the area at that page goes with its translations and frames; without one nothing changes |
| `MemorySpaces.MemorySpace.Unmap` | crates/libkernel/src/memory/memory_space/mod.rs:302-332 | all areas inside the page range go; an area across its edge stops it before any change |
| `MemorySpaces.MemorySpace.ShrinkArea` | crates/libkernel/src/memory/memory_space/vm_area.rs:154-165 | the pages above the new end stop translating and their frames are freed |
| `MemorySpaces.MemorySpace.ExpandArea` | crates/libkernel/src/memory/memory_space/vm_area.rs:167-170 | only the end of the area moves |
| `MemorySpaces.MemorySpace.SetUserBrk` | crates/libkernel/src/memory/memory_space/mod.rs:214-233 | the heap area is created, grown or shrunk; the space stays valid exactly when the heap shrank or its range was free |
| `MemorySpaces.MemorySpace.RecycleUserPages` | crates/libkernel/src/memory/memory_space/mod.rs:410-413 | no areas, no user translation, the frames of all areas freed |
| `Segments.SliceIsImage` | crates/libkernel/src/memory/memory_space/vm_area.rs:125-141 | the slice copied in one turn is that page of the whole image |
| `Segments.MapWithData` | crates/libkernel/src/memory/memory_space/vm_area.rs:125-141 | the copy loop gives every page a fresh frame holding its part of the image |
| `Segments.UserMapWithData` | crates/libkernel/src/memory/memory_space/mod.rs:372-385 | the area is fully allocated and holds the data at its offset with zeros around it; older pages keep their bytes, tables of others stay, and every new table and page comes from the free frames |
| `FileMaps.InitBackedInode` | crates/libkernel/src/memory/memory_space/vm_area.rs:97-112 | exactly the cached pages of the range are mapped, each to its cached frame |
| `FileMaps.UserMapWithFile` | crates/libkernel/src/memory/memory_space/mod.rs:355-370 | a file area over a free range with those mappings; no page of memory changes |
| `Forks.CopyLazyArea` | crates/libkernel/src/memory/memory_space/mod.rs:121-133 | the child gets the area with its own frames holding equal bytes; its other areas stay |
| `Forks.CopyFileArea` | crates/libkernel/src/memory/memory_space/mod.rs:114-120 | the child maps the cached pages of the file area |
| `Forks.ForkAreas` | crates/libkernel/src/memory/memory_space/mod.rs:112-134 | after the loop every area of the parent is copied |
| `Forks.FromOther` | crates/libkernel/src/memory/memory_space/mod.rs:110-137 | child and parent read alike in every private page, own disjoint frames, the parent and all older pages are unchanged, the kernel half is the kernel's; parent and child stand side by side, each apart from the other's frames and both from the kernel's tables |
| `Forks.ForkIsSnapshot` | crates/libkernel/src/memory/memory_space/mod.rs:110-137 | whatever the other address spaces do after a fork, in any order, an idle child reads in every lazy area what the parent read when it forked, and so does an idle parent |
| `SideBySide.StepLeavesOthers` | crates/libkernel/src/memory/memory_space/vm_area.rs:114-169 | one event of any of many address spaces keeps their frames apart and leaves every other one's translation and bytes alone |
| `SideBySide.RunLeavesOthers` | crates/libkernel/src/memory/memory_space/vm_area.rs:114-169 | so does every event of a run in which any of them act and new ones appear in any order |
| `SideBySide.IdleReadsAlike` | crates/libkernel/src/memory/memory_space/vm_area.rs:114-169 | while only others act, an address space translates every page number and reads every page as at the start |
| `SideBySide.OperationHappens` | crates/libkernel/src/memory/memory_space/mod.rs:215-437 | every operation of a memory space that keeps to its frames and kernel tables is such an event |
| `SideBySide.WriteHappens` | crates/libkernel/src/memory/memory_space/vm_area.rs:114-123 | so is a program's write to a page of its own, and it reads back |
| `SideBySide.CacheWriteHappens` | crates/libkernel/src/fs/inode.rs:158-241 | so is a write to a page-cache frame, which no address space owns |
| `SideBySide.SpawnHappens` | crates/libkernel/src/memory/memory_space/mod.rs:110-137 | so is the appearance of an address space that took free frames |
| `ProcessMemory.BreakPages` | crates/libkernel/src/process/inner.rs:64-75 | the page condition the comment in the code asserts |
| `ProcessMemory.ProcessHeap.SetUserBrk` | crates/libkernel/src/process/inner.rs:64-75 | bad breaks answer the old one and change nothing, others answer the new one; when the space stays valid |
| `ProcessMemory.StacksApart` | crates/libkernel/src/thread/mod.rs:96-105 | user stacks of different threads lie in the user half with a guard page between them |
| `Ids.TakenFresh` | crates/utils/idallocator/src/lib.rs:37-44 | an id handed out was not in use, is now, and no other id changes |
| `Ids.ReturnedOk` | crates/utils/idallocator/src/lib.rs:46-50 | returning an id in use ends that use and no other |
| `Ids.RecycleAllocator.BeginWith` | crates/utils/idallocator/src/lib.rs:30-35 | a fresh allocator has handed out nothing |
| `Ids.RecycleAllocator.Alloc` | crates/utils/idallocator/src/lib.rs:37-44 | the last returned id, else the next new one |
| `Ids.RecycleAllocator.Dealloc` | crates/utils/idallocator/src/lib.rs:46-50 | the id is free again, the free list stays without repetition |
| `WaitProtocol.StepInv` | crates/libkernel/src/thread/mod.rs:121-182 | every step of every process keeps the protocol invariant |
| `WaitProtocol.RunInv` | crates/libkernel/src/thread/mod.rs:121-182 | so does every run |
| `WaitRuns.NoLostWakeup` | crates/kernel/src/syscall/process.rs:221-266 | over every reachable state: a sleeper in wait4 with an un-notified listener has the notification of a zombie it waits for still to come exactly when the zombie took it as its parent when its exit began; every zombie it forked did, and only init waits for others |
| `WaitRuns.OrphanHeardIff` | crates/libkernel/src/thread/mod.rs:158-172 | whatever runs after an orphan is handed to init, a sleeping init has its notification to come exactly when the orphan had not begun to exit at the handover |
| `WaitRuns.SleeperReaps` | crates/kernel/src/syscall/process.rs:221-266 | a sleep over a zombie whose notification is owed, adopted or forked, always can end: from any reachable state a run of steps by the sleeper and the zombie alone ends with the sleeper reaping a child |
| `WaitRuns.NotificationArrives` | crates/libkernel/src/thread/mod.rs:158-181 | the exiting child's own steps (hand on each orphan, end the handover, notify) lead to that reap, however many orphans it holds |
| `WaitRuns.EveryRunReaps` | crates/kernel/src/syscall/process.rs:221-266 | on every run from such a sleep, whoever else acts: until the sleeper reaps, the zombie has taken no more steps than its exit had left, once it has taken them the sleeper is awake, and the sleeper has taken at most one step per child and one to wake |
| `WaitRuns.WaitNeverStuck` | crates/kernel/src/syscall/process.rs:221-266 | at every point of every such run before the reap, the sleeper or the zombie has its next step |
| `WaitRuns.ScanReaps` | crates/kernel/src/syscall/process.rs:229-258 | a scan that has found a fitting zombie or has one ahead runs to its end and reaps |
| `WaitRuns.HeldOnce` | crates/libkernel/src/thread/mod.rs:137-168 | every forked, unreaped process is in exactly one children list or in the hands of exactly one exiting process, once, and is in the manager |
| `WaitRuns.ReapedOnce` | crates/kernel/src/syscall/process.rs:244-258 | wait4 removes a process at most once, only as a zombie, and never init |
| `WaitRuns.PidsUnique` | crates/libkernel/src/process/mod.rs:331-337 | no two live processes share a pid |
| `WaitRuns.ForkOverwritesNothing` | crates/libkernel/src/process/mod.rs:146-176 | a fork's pid is no live process's and no manager key |
| `WaitRuns.InitManaged` | crates/libkernel/src/process/manager.rs:27-29 | looking up init never fails |
| `WaitRuns.ScanAnswers` | crates/kernel/src/syscall/process.rs:229-262 | ECHILD exactly when no child fits; a reaped child is a zombie that fits |
| `WaitRuns.OrphanCanBeMissed` | crates/libkernel/src/thread/mod.rs:158-172 | a run after which init sleeps un-notified over a zombie whose exit is over |
| `Fat.FileAllocTable.MaintainAllocMeta` | crates/utils/fat32/src/fat.rs:75-106 | plausible metadata is kept; otherwise the count is the number of free entries and the hint the first free cluster, or none |
| `Fat.FileAllocTable.FindFreeCluster` | crates/utils/fat32/src/fat.rs:122-132 | the first free cluster of a range, or none exactly when there is none |
| `Fat.FileAllocTable.AllocCluster` | crates/utils/fat32/src/fat.rs:109-155 | the first free cluster in cyclic order from the hint, none exactly when the table is full; an exact count stays exact |
| `Fat.FileAllocTable.FreeClusters` | crates/utils/fat32/src/fat.rs:157-170 | the clusters are free and the chain is cut; stops unchanged exactly when the link before differs in any of its 32 bits; an exact count stays exact |
| `Fat.FileAllocTable.ClusterChain` | crates/utils/fat32/src/fat.rs:172-188 | the clusters from link to link up to the end, on every table on which the loop comes to an end |
| `Fat.StopsOnWalk` | crates/utils/fat32/src/fat.rs:180-185 | whenever the loop ends without leaving the table there is such a walk |
| `Fat.WalkIsChain` | crates/utils/fat32/src/fat.rs:180-185 | a walk that ends visits no cluster twice, and is a chain exactly when it avoids the reserved entries |
| `Fat.ChainUnique` | crates/utils/fat32/src/fat.rs:172-188 | a table and a first cluster decide the chain |
| `Fat.AllocatedChain` | crates/utils/fat32/src/fat.rs:139-151 | an allocation behind the tail is the chain with one more cluster |
| `Fat.AllocatedFree` | crates/utils/fat32/src/fat.rs:139-151 | exactly that cluster stops being free |
| `Fat.CutChain` | crates/utils/fat32/src/fat.rs:157-170 | freeing a suffix leaves exactly the prefix as a chain |
| `Fat.FreedFree` | crates/utils/fat32/src/fat.rs:157-170 | exactly the freed clusters become free, and the count grows by their number |
| `FatFiles.ApplyWf` | crates/utils/fat32/src/fat.rs:109-170 | create, append and cut keep chains in range, acyclic and pairwise disjoint, and the free count exact |
| `FatFiles.ApplyClean` | crates/utils/fat32/src/fat.rs:157-165 | links without top bits stay so, hence no later truncation stops |
| `FatFiles.RunWf` | crates/utils/fat32/src/fat.rs:109-188 | all of this over every run; a file no operation names keeps its chain |
| `FatReads.ClusterInVolume` | crates/utils/fat32/src/fat.rs:190-195 | a cluster's sectors, computed in 32 bits, are in place and inside the volume the mount check accepted |
| `FatReads.ClustersApart` | crates/utils/fat32/src/fat.rs:190-195 | distinct clusters own disjoint sectors |
| `FatReads.DataClearOfTables` | crates/fs/fat32_vfs/src/lib.rs:60-101 | all clusters lie behind the tables exactly when the tables' end fits 32 bits |
| `FatReads.WrappedTablesAccepted` | crates/fs/fat32_vfs/src/lib.rs:60-101 | the check accepts a block for which it does not |
| `FatReads.SectorIndexExact` | crates/fs/fat32_vfs/src/file.rs:66-71 | the truncated sector index is the page's own exactly below page 2^29 |
| `FatReads.SectorsPlaced` | crates/fs/fat32_vfs/src/file.rs:137-157 | the sectors of the i-th cluster stand at their place in the file |
| `FatReads.FatFile.ReadPage` | crates/fs/fat32_vfs/src/file.rs:123-159 | the page is the slice of the concatenated sectors of the chain from its first sector on, clipped to the end, the rest of the buffer unchanged, for every cluster size |
| `FatReads.FatFile.ReadFrom` | crates/fs/fat32_vfs/src/file.rs:135-157 | the loop over clusters, from any sector in a cluster |
| `FatReads.FatFile.ReadCluster` | crates/fs/fat32_vfs/src/file.rs:139-153 | the loop over one cluster's sectors stops exactly when the page is full |
| `FatReads.FatFile.Truncate` | crates/fs/fat32_vfs/src/file.rs:93-119 | exactly the clusters the new length needs stay, the others are freed and the chain cut; exactly when it stops instead |
| `FatReads.TopBitsStopTruncate` | crates/utils/fat32/src/fat.rs:157-170 | opening a file whose link is 0x10000003 succeeds and truncating it behind that link stops |
| `FatReads.CeilFits` | crates/fs/fat32_vfs/src/file.rs:97-98 | the clusters kept hold the new length and one fewer would not |
| `FatReads.FatFile.FromDirEntry` | crates/fs/fat32_vfs/src/file.rs:27-46 | an opened file has the whole chain of its first cluster |
| `FatReads.FatFile.Create` | crates/fs/fat32_vfs/src/file.rs:48-63 | a new file has one cluster that was free; ENOSPC exactly when there is none |
| `PageFill.StepInv` | crates/libkernel/src/fs/inode.rs:158-184 | every step of every reader and writer keeps the fill invariant |
| `PageFill.RunInv` | crates/libkernel/src/fs/inode.rs:158-241 | so does every run, and a page out of Invalid stays out |
| `PageFill.FilledOnce` | crates/libkernel/src/fs/inode.rs:158-241 | the fill finishes at most once and never covers a byte a writer copied in; what lies below is the fresh frame unless a read failed |
| `PageFill.StaleByte` | crates/libkernel/src/fs/inode.rs:158-241 | a byte of the page is what it would be had no read failed where the fill or a copy went, and what a failed read left everywhere else |
| `PageFill.FailedReadShows` | crates/libkernel/src/fs/inode.rs:211-241 | a run in which a failed read's bytes, whatever they are, become the content of a page that is not Invalid |
| `PageFill.NeverInvalidAgain` | crates/libkernel/src/fs/inode.rs:220-241 | once an agent may copy, the page is never Invalid nor filled again |
| `CachedFiles.CachedFile.GetOrInitPage` | crates/libkernel/src/fs/page_cache.rs:24-41 | the page is cached, a new one is a fresh frame, no byte of the file changes |
| `CachedFiles.CachedFile.LoadPage` | crates/libkernel/src/fs/inode.rs:155-170 | the page is resident and no byte of the file changes |
| `CachedFiles.CachedFile.ReadAt` | crates/libkernel/src/fs/inode.rs:141-194 | exactly the bytes of the flat file from the offset on, clipped to its length and the buffer; file and rest of the buffer unchanged |
| `CachedFiles.CachedFile.PreparePage` | crates/libkernel/src/fs/inode.rs:219-234 | what a page holds before it is written, by the code's own test |
| `CachedFiles.CachedFile.WritePage` | crates/libkernel/src/fs/inode.rs:214-243 | one turn of the write loop |
| `CachedFiles.CachedFile.WriteAt` | crates/libkernel/src/fs/inode.rs:202-258 | every byte of the file after a write, and its length |
| `CachedFiles.WriteKeepsIff` | crates/libkernel/src/fs/inode.rs:207-234 | every other old byte stays, whatever the file behind holds, exactly when each partly written page is resident or passes the test |
| `CachedFiles.WriteRefines` | crates/libkernel/src/fs/inode.rs:202-258 | such a write is a splice of one flat sequence |
| `CachedFiles.FirstPageKeeps` | crates/libkernel/src/fs/inode.rs:207-234 | a write that starts in page 0 loses nothing |
| `CachedFiles.SecondPageLoses` | crates/libkernel/src/fs/inode.rs:207-234 | a one-byte write to an uncached page 1 zeroes the rest of that page |
| `DirEntries.LfnRoundTrip` | crates/utils/fat32/src/dir_entry.rs:160-264 | an encoded long-name entry gives back its part, order, final mark and checksum, and passes the fixed checks |
| `DirEntries.ReadOne` | crates/utils/fat32/src/dir_entry.rs:160-211 | reading the next part in descending order succeeds with every slice in bounds, and the name is right from there on |
| `DirEntries.RestParsed` | crates/utils/fat32/src/dir_entry.rs:213-245 | from any part of a file on, the parser yields that file and goes on behind it |
| `DirEntries.ParseUndoesEncode` | crates/utils/fat32/src/dir_entry.rs:141-264 | for every list of files with names of 1 to 255 non-zero units the parser yields exactly them, in order |
| `DirReaders.LfnPart` | crates/utils/fat32/src/dir_entry.rs:248-264 | the three copy loops collect the thirteen units |
| `DirReaders.CalcChecksum` | crates/utils/fat32/src/dir_entry.rs:314-321 | the loop computes the rotate-and-add checksum |
| `DirReaders.DirEntryBuilder.ReadLfnEntry` | crates/utils/fat32/src/dir_entry.rs:160-211 | the builder after an entry, and when it is refused or would index out of bounds |
| `DirReaders.DirEntryBuilder.AddEntry` | crates/utils/fat32/src/dir_entry.rs:213-245 | another part, a completed file, or a refusal |
| `DirReaders.DirEntryBuilder.LongNameLen` | crates/utils/fat32/src/dir_entry.rs:234-237 | the loop stops at the first zero unit |
| `DirReaders.FromEntry` | crates/utils/fat32/src/dir_entry.rs:141-158 | a builder is started exactly by a long-name entry that is in order |
| `DirReaders.RawEntries` | crates/fs/fat32_vfs/src/dir.rs:92-109 | over clusters, sectors and entries: all pieces up to the first that starts with a zero byte |
| `DirReaders.ParseEntries` | crates/fs/fat32_vfs/src/dir.rs:111-127 | the output of the builder loop over raw entries |
| `DirReaders.DirEntryIter` | crates/fs/fat32_vfs/src/dir.rs:90-128 | everything the iterator yields for a directory's chain |
| `DirReaders.DirectoryReadsBack` | crates/fs/fat32_vfs/src/dir.rs:90-128 | an encoded directory gives back its files whatever sectors and clusters it lies in |
| `Signals.FirstPending` | crates/libkernel/src/signal/mod.rs:102-104 | the lowest pending signal, none exactly when there is none |
| `Signals.MaskRoundTrip` | crates/libkernel/src/signal/mod.rs:92-100 | which signal sets survive the conversion to the user and back |
| `Signals.UserThread.CheckSignal` | crates/libkernel/src/trap/mod.rs:19-103 | the lowest unmasked pending signal is taken and its action carried out; nothing changes without one |
| `Signals.UserThread.Act` | crates/libkernel/src/trap/mod.rs:42-102 | default, ignore, terminate or deliver with the context and mask saved below the stack pointer |
| `Signals.UserThread.TrapSigreturn` | crates/kernel/src/syscall/signal.rs:103-119 | with the glue around it: context and mask of what lies at the stack pointer are restored, a0 included; the thread ends exactly on unreadable memory or the one reserved a0 |
| `Signals.ReturnCanEnd` | crates/kernel/src/syscall/signal.rs:103-119 | a delivery and its return that end a thread whose a0 held -1023 |
| `SignalRuns.StackedKept` | crates/libkernel/src/trap/mod.rs:60-96 | live frames stay whole and apart, each below the one it interrupted |
| `SignalRuns.NestedRestores` | crates/kernel/src/syscall/signal.rs:103-119 | a return gives back what the handler at that depth saved, however deep it nested in between |
| `SignalRuns.DeliveryUndone` | crates/libkernel/src/trap/mod.rs:60-96 | after a delivery and its return, all integer registers, the return address and the mask are as before, and the thread goes on exactly when the interrupted a0 was not -1023 |
| `SignalRuns.DepthBound` | crates/libkernel/src/trap/mod.rs:60-67 | without SA_NODEFER and mask edits at most 31 handlers are live at once |
| `InitStacks.WordReadsBack` | crates/libkernel/src/memory/memory_space/init_stack.rs:108-115 | a stored 64-bit word reads back |
| `InitStacks.StackWriter.SpDown` | crates/libkernel/src/memory/memory_space/init_stack.rs:75-82 | the current frame is the one mapped at the new stack pointer |
| `InitStacks.StackWriter.PushUsize` | crates/libkernel/src/memory/memory_space/init_stack.rs:108-115 | the word lands at its own address when it does not cross a page |
| `InitStacks.StackWriter.PushStr` | crates/libkernel/src/memory/memory_space/init_stack.rs:84-91 | the string and its zero lie from the returned address on |
| `InitStacks.StackWriter.PushPtrs` | crates/libkernel/src/memory/memory_space/init_stack.rs:93-97 | the vector lies in order from the new stack pointer on |
| `InitStacks.StackWriter.AlignDown` | crates/libkernel/src/memory/memory_space/init_stack.rs:45-46 | aligning stays in the page and keeps what is on the stack |
| `InitStacks.StrayAt` | crates/libkernel/src/memory/memory_space/init_stack.rs:40-40 | which environment lengths make the word behind them cross a page |
| `InitStacks.StackWriter.InitStack` | crates/libkernel/src/memory/memory_space/init_stack.rs:26-73 | every byte is in the frame of its own address, with strings and vectors laid out, exactly when that word does not cross |
| `InitStacks.InitStack` | crates/libkernel/src/memory/memory_space/mod.rs:440-453 | on a real address space: the stack's range is mapped and written, and the program finds argc, every argument, every environment string and the nulls by loads through the page table from the returned stack pointer; only that area gained pages, and no frame that was neither its own nor free was touched |
| `InitStacks.LaidSeen` | crates/libkernel/src/memory/memory_space/init_stack.rs:26-73 | a stack laid out in pages that translate to their frames is what a program's loads see |
| `InitStacks.StackWriter.Touch` | crates/libkernel/src/memory/memory_space/vm_area.rs:114-123 | the frame of a stack page, allocated if it was not; what was written stays in place |
| `InitStacks.LongEnvironmentStrays` | crates/libkernel/src/memory/memory_space/init_stack.rs:26-73 | one environment string of 4064 bytes makes it cross |
| `InitStacks.WordAligned` | crates/libkernel/src/memory/memory_space/init_stack.rs:40-40 | that word is aligned exactly when the environment strings together are a multiple of eight bytes; a crossing word never is |
| `InitStacks.ProgramReads` | crates/libkernel/src/memory/memory_space/init_stack.rs:61-72 | from the returned pointers a program loads argc and the nulls behind both vectors |
| `InitStacks.ProgramReadsArg` | crates/libkernel/src/memory/memory_space/init_stack.rs:65-69 | the i-th argument pointer leads to the i-th argument, closed by a zero |
| `InitStacks.ProgramReadsEnv` | crates/libkernel/src/memory/memory_space/init_stack.rs:61-63 | the same for environment strings |
| `FdTables.FdTable.AddFrom` | crates/libkernel/src/fs/file.rs:188-201 | the least unused descriptor not below the bound, as in section 2.14 of POSIX.1-2017 XSH; all others stay; refused exactly at the limit |
| `FdTables.FdTable.Add` | crates/libkernel/src/fs/file.rs:152-154 | the same from 0 |
| `FdTables.FdTable.AddMany` | crates/libkernel/src/fs/file.rs:156-183 | consecutive numbers from the least unused one; refused exactly above the limit |
| `FdTables.AddManyKeepsIff` | crates/libkernel/src/fs/file.rs:156-183 | old descriptors stay exactly when all those numbers are free |
| `FdTables.AddManyCanOverwrite` | crates/libkernel/src/fs/file.rs:156-183 | a table where one is lost |
| `Paths.DEntries.Lookup` | crates/libkernel/src/fs/dentry.rs:77-117 | self, parent, known child or a child the inode knows, which is remembered; the tree stays parent-consistent and only grows |
| `Paths.DEntries.PathWalk` | crates/libkernel/src/fs/mod.rs:245-283 | the directory all but the last component lead to, the last component and its type; ENOTDIR where the walk meets a file, ENOENT where it meets nothing |
| `Paths.BlockedOnce` | crates/libkernel/src/fs/mod.rs:268-275 | a walk is stopped by a file or by a missing name, never by both |
| `Paths.Path` | crates/libkernel/src/fs/dentry.rs:194-210 | climbing and printing back gives a slash and the names from the root joined by slashes |
| `Paths.Getcwd` | crates/kernel/src/syscall/fs.rs:642-679 | the buffer holds exactly the path and a zero; ERANGE exactly when that does not fit |
| `Paths.PathLen` | crates/kernel/src/syscall/fs.rs:647-657 | the length computed beforehand is the path's plus one |
| `Paths.PathComponents` | crates/libkernel/src/fs/mod.rs:248-255 | splitting a printed path gives the names it was printed from |
| `Paths.NamesResolve` | crates/libkernel/src/fs/mod.rs:268-275 | the names of a directory lead from the root to it |
| `Paths.PathWalksBack` | crates/libkernel/src/fs/mod.rs:245-288 | walking the path of any directory, the root included, and looking up the last component gives it back |

## Left out

- Trap assembly, control registers, TLB flushes, interrupt controller, serial line, virtio and firmware calls: hardware effects.
- Float registers: only whether a saved context holds them is modelled.
- The frame allocator, the async runtime, the event and lock libraries and the text decoders are taken at their contracts.
- Running out of frames: the kernel stops; every operation that takes frames asks that enough are free.
- Several threads in one process: creating a thread is not implemented in the kernel, so each process of `WaitProtocol` has one.
- Locks in `WaitProtocol` and `PageFill`: a lock only removes interleavings, so steps are enabled without them; nothing is said about deadlock.
- `CachedFiles` takes reads of the file behind as successful; failing ones are in `PageFill`.
- Two tasks that create the same cached page at the same time: the kernel stops on its own assertion there.
- Fault permissions, copy-on-write and faults in file areas: not implemented in the kernel; the model has them as outcomes.
- Loading ELF headers, and the mapping of kernel sections at boot.
- Reading the allocation table from the device: the table is given, with an entry for every cluster and no cluster number that reads as an end of chain.
- Fat.FileAllocTable.ClusterChain: asks for a walk that ends; without one the kernel's loop never ends or leaves the table.
- Write-back to disk, growing a FAT file, reads of holes after truncation, and the resize of cached files.
- 64-bit overflow of file offsets and of process and descriptor counters.
- AT_RANDOM: its pair is pushed in the opposite order to the others; only its words are in the layout, nothing is said about their use.
- Times of directory entries, rename, unlink, mount points, symbolic links, pipes and the terminal.
- Signals.UserThread.TrapSigreturn: what bytes say where no saved context stands is a parameter.
- WaitRuns.SleeperReaps: the run is one of the two processes; while another process holds init's lock, the kernel waits for it before an orphan is handed on. `WaitRuns.EveryRunReaps` is about all runs, so also about those that locks allow.
- WaitRuns.NotificationArrives: the same lock is left out.
- InitStacks.StackWriter.PushUsize: asks that the word does not cross its frame; where a crossing word's bytes land in physical memory is not modelled.
- InitStacks.StackWriter.InitStack: says only `None` for the crossing word, and takes the unaligned store of that word byte by byte, though the kernel makes an unaligned reference there.
- sigaction and kill: they only store an action or set a pending bit.
- Dafny sequences stand for the kernel's vectors and ordered maps, and numbers for its reference-counted objects.
