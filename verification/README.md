# Verified models of SBUNIX kernel algorithms

SBUNIX is a small x86-64 teaching kernel. This project models five of its parts in Dafny and proves what they
guarantee, over all inputs and over whole runs. Where the code does not always deliver what it is for, the exact
condition under which it does is proved, together with what happens otherwise.

**Paging and copy-on-write fork** (`PageBits`, `PageTables`, `ForkTables`, `ForkSpaces`, `UserAccess`, `CowSteps`,
`UserStores`, `FaultBranches`, `DenseTables`, `CowRuns`, `ForkProgress`, `ClearProgress`, `CowProgress`, `Vmm`, `Bump`,
`BootMemory`). Entry words and index macros are 64-bit vectors in `PageBits`; everywhere else
an entry is a record, and `PageBits` proves that the record operations are the word operations. Physical memory is a map from page numbers to
tables. `None` and `false` stand for a panic, or for a loop that would leave its table. Each table page has a place in
a tree, which makes "no two address spaces share a table" a local invariant. `Vmm.Manager` is the code with its loops
and in-place stores; each of its methods is proved equal to a function, and the theorems are about those functions.
`UserAccess` has the permission test of the processor and the flags that the table code leaves in every entry. `CowSteps`
has the single steps: maps, forks, copy-on-write faults, exec's clear, stores in user mode and kernel maps. A store names
any address and succeeds where the processor permits it, be it in a data page or in a table. `CowRuns` joins the steps to
the frame allocator of `BlockBitmap`, which every map and fault takes its frame from, and shows that over every run memory
reads as if fork had copied all pages at once, as long as a block is left for each map and fault and no store goes through
a slot 510 that lets programs through. `UserStores` shows that this last condition is exact. `ForkProgress`,
`ClearProgress` and `CowProgress` say exactly when each of these calls succeeds. `DenseTables` shows that programs that
stay below 1 GiB, as all user programs of this kernel do, never need a side condition on the shape of the tables.

**SLOB allocator** (`Slob`, `SlobRuns`). Addresses count 16-byte units and headers are maps from addresses, so that
aliasing of `prev`, `cur` and `next` is as in the source. A ring of free blocks is described by its address-ordered
sequence. `slob_alloc` is modelled whole, including the resumption of the search from a donated page, and a call of it is
a run of donations and one allocation.

**Scheduler** (`RunQueue`, `Scheduler`, `SchedulerRuns`). Threads are addresses, 0 is null, and the link fields are maps. A step runs
from a trap to the next dispatch. The interrupt window inside `Yield` is not modelled, so a step is atomic.

**Block bitmaps** (`WordBits`, `BlockBitmap`). `mmgr.c` and `fs_mmgr.c` contain the same algorithm; the model takes the
number of blocks as a parameter. The code writes the mask as an `int` literal shifted left; following the comments at
lines 95-98 and 125-131 of `mmgr.c`, a mask is read as a 64-bit one-hot value. `BlockManager` works on an array of 64-bit
words; `WordBits` proves that its shifts and masks are updates and tests of the 64 bits of a word. `mmgr_is_block_free` is nonzero when the block is used, and its caller negates it.

**ustar walk and trap frames** (`Ustar`, `TrapFrame`). The archive layout is that of the ustar format of pax (IEEE Std
1003.1). Both parts are round trips: layout against lookup, pushes against pops.

## Findings

Properties that do not hold without a condition, each with the condition proved to be exact:

- Mapping a page leaves all others of all address spaces alone exactly when the page taken for a new page table holds no other present entry
  (`PageTables.MapFrame`), because the `memset` of a new page table clears one word only.
- Fork separates parent and child exactly when the used slots of the top-level table come first
  (`ForkSpaces.ForkSeparates`), and gives the child a page exactly when it is not behind a gap in a pointer table
  (`ForkSpaces.ForkPreserves`). Both always hold for programs below 1 GiB (`CowRuns.LowRunRefines`).
- The stores of a program can change a mapped page of another address space if and only if the program's own slot 510 is a
  user entry, because every top-level table shows itself there (`UserStores.IsolationExact`). `clone_pgdir` makes it one
  and `vmmgr_init` does not, so over every run from boot these are exactly the address spaces made by fork
  (`CowRuns.RunForked`, `CowRuns.RunIsolationExact`). No store of any program reaches the kernel half
  (`CowRuns.RunKernelClosed`).
- Writable pages stay exclusive exactly when the frame handed out is not in use (`CowSteps.FreshExact`). As long as the
  frame allocator has a block this is always so (`CowRuns.BlockIsFresh`). When it has run out it returns address 0, which
  is mapped like any other frame: the first page mapped then is still private and the second one is not
  (`CowRuns.ExhaustedExact`, `CowRuns.ExhaustedTwice`).
- Fork succeeds exactly when an empty slot ends each of its loops and there is a page for the new top-level table and for
  each table it copies (`ForkProgress.ForkTakes`). Right after it, no fault in a user slot of the parent or the child
  reaches the branch that kills the thread, because the absent entries of shared page tables are marked copy-on-write too
  (`FaultBranches.ForkedFate`).
- A thread goes on after a trap as if nothing had happened exactly when rax already held the handler's result, which is 1
  for a page fault (`TrapFrame.TrapReturns`).
- The pages for tables stay clear of the tables made at boot exactly as long as their addresses stay below 4 MiB of
  physical memory (`BootMemory.BootApart`, `BootMemory.BootCalls`).
- `slob_free` breaks the ring exactly when the only free block starts where the freed one ends, and `slob_alloc` exactly
  when it uses the only free block from its start (`Slob.ReleaseExact`, `Slob.CarveExact`, `Slob.CallExact`). With a static block that no
  page is next to, neither can happen (`SlobRuns.RunPartitions`).
- Unlinking a thread that is not queued leaves the queue alone exactly when its stale links name neighbours, or two
  threads that have both left the queue (`RunQueue.UnlinkStale`). The first is so for every thread that can exit, and not
  for Start (`Scheduler.SpawnOutdates`).
- A killed thread is never dispatched again, but it stays in the run queue for ever (`SchedulerRuns.KilledStaysDead`).
- A second boundary comes every 100 timer interrupts, except that the 16-bit counter makes one of 656 come after 36
  (`SchedulerRuns.SecondLength`, `SchedulerRuns.RunSeconds`).
- `sleep(n)` stores n exactly when n is below 2^31. Otherwise it sleeps for as many seconds as the low 32 bits say, not at
  all when they are 0, and for ever exactly when they are at least 2^31 (`Scheduler.StoredExact`, `Scheduler.SleepRun`).
- The archive walk looks exactly at the headers if and only if no member's size is a positive multiple of 512
  (`Ustar.WalkExact`). An empty member behind such a one, anywhere in an archive, is not found (`Ustar.SkipsNext`).
- The argument of a kernel thread reaches its start function exactly when it is 0 (`TrapFrame.ArgumentLost`).
- Freeing the address of an allocated block restores the allocator exactly when it is not block 0, whose address is null
  (`BlockBitmap.FreeUndoes`).
- Freeing a block keeps the used counter in step exactly when the block was in use (`BlockBitmap.FreeExact`).

## Model

| member | source | states |
|---|---|---|
| `PageBits.WindowIndices` | SBUNIX-C-H/sys/mm/vmmgr_virtual.c:137-188 | for every address, the indices of the four computed entry addresses are the indices of the address shifted down by one to four levels with 510 filled in |
| `PageBits.WindowCanonical` | SBUNIX-C-H/sys/mm/vmmgr_virtual.c:137-188 | the processor accepts all four computed addresses |
| `PageBits.SetEntryDecodes` | SBUNIX-C-H/sys/mm/vmmgr_virtual.c:96-135 | storing a page below 2^44 in an entry word sets present, writable, the requested user bit and the frame and keeps every other bit |
| `PageBits.LeafUpdateOrder` | SBUNIX-C-H/sys/mm/vmmgr_virtual.c:454-458 | setting the frame before the attributes leaves the same word as setting it after them |
| `PageBits.ShareDecodes` | SBUNIX-C-H/sys/mm/vmmgr_virtual.c:253-258 | the two attribute changes of fork clear writable, set copy-on-write and keep everything else |
| `PageBits.DecodeInjective` | SBUNIX-C-H/sys/mm/vmmgr_pte.c:3-37 | the record of an entry determines its word |
| `PageBits.EmptyIsZero` | SBUNIX-C-H/sys/mm/vmmgr_virtual.c:211-240 | the zero test of the copy and clear loops is the test for the empty record |
| `PageBits.PageIsPhysicalAddress` | SBUNIX-C-H/include/sys/mm/vmmgr_virtual.h:19-19 | PAGE_PHYSICAL_ADDRESS gives the page number of the record |
| `PageBits.FaultPageBase` | SBUNIX-C-H/sys/isr.c:89-95 | the address the fault handler copies from and to is the base of the faulting page, and usable exactly in the lower half |
| `PageTables.WindowReachesSlots` | SBUNIX-C-H/sys/mm/vmmgr_virtual.c:137-188 | for every address and every self-referencing top-level table, the hardware walk of each computed address lands on the entry of the explicit walk, and faults exactly when that walk has no table |
| `PageTables.SelfMapNoOp` | SBUNIX-C-H/sys/mm/vmmgr_virtual.c:470-489 | mapping the top-level table at its own window address changes nothing exactly when the slot is writable with a small frame |
| `PageTables.WalkStaysInTree` | SBUNIX-C-H/sys/mm/vmmgr_virtual.c:407-460 | a walk only meets tables that belong to its address space and place |
| `PageTables.MapTranslates` | SBUNIX-C-H/sys/mm/vmmgr_virtual.c:407-460 | mapping succeeds exactly when the allocator has the missing tables; then the page translates to the frame, writable, and the trees stay sound |
| `PageTables.MapEverywhere` | SBUNIX-C-H/sys/mm/vmmgr_virtual.c:407-460 | for every page of every address space, kernel pages included: a page whose walk ends in another page table than that of the mapped page keeps its leaf, and one whose walk ends in the same page table reads as that table's entry does in the address space mapped into |
| `PageTables.MapFrame` | SBUNIX-C-H/sys/mm/vmmgr_virtual.c:443-452 | all other pages of all address spaces keep their translation if and only if no entry of the page taken for the page table is stale |
| `PageTables.WindowRefinesWalk` | SBUNIX-C-H/sys/mm/vmmgr_virtual.c:299-345 | mapping through the recursive window has exactly the effect of mapping by walking, whichever tables are missing |
| `ForkTables.CopyPdDone` | SBUNIX-C-H/sys/mm/vmmgr_virtual.c:239-261 | copying a directory gives the child its own shared copy of every page table, shares the parent's, and keeps all other tables |
| `ForkTables.CopyPdptDone` | SBUNIX-C-H/sys/mm/vmmgr_virtual.c:225-262 | the same for a pointer table up to its first empty slot, beyond which the child's stays empty |
| `ForkTables.CopyPmlDone` | SBUNIX-C-H/sys/mm/vmmgr_virtual.c:201-264 | the same for the top-level table up to its first empty slot |
| `ForkSpaces.CloneSound` | SBUNIX-C-H/sys/mm/vmmgr_virtual.c:189-199 | the clone copies all slots but 510, which refers to the clone itself, and no other table changes |
| `ForkSpaces.ForkTranslates` | SBUNIX-C-H/sys/mm/vmmgr_virtual.c:189-264 | page by page: pages that are reached become read-only and copy-on-write with the same frame in parent and child; pages behind a gap and all other address spaces are as described |
| `ForkSpaces.SpacesDisjoint` | SBUNIX-C-H/sys/mm/vmmgr_virtual.c:201-264 | two address spaces have no user table in common at any level |
| `ForkSpaces.ForkSound` | SBUNIX-C-H/sys/isr.c:196-199 | fork from a dense address space leaves sound trees with one more address space |
| `ForkSpaces.ForkSeparates` | SBUNIX-C-H/sys/mm/vmmgr_virtual.c:211-220 | parent and child refer to different tables in every user slot if and only if the used slots come first |
| `ForkSpaces.ForkPreserves` | SBUNIX-C-H/sys/mm/vmmgr_virtual.c:211-262 | a page names the same frame in the child as in the parent if and only if it is not behind a gap in a pointer table |
| `ForkSpaces.ClearPmlDone` | SBUNIX-C-H/sys/mm/vmmgr_virtual.c:268-296 | clearing empties the used top-level slots and otherwise only entries of this address space's own tables |
| `ForkSpaces.ClearTranslates` | SBUNIX-C-H/sys/mm/vmmgr_virtual.c:268-296 | after the clear the pages under the used slots are gone, no other address space and no kernel page notices, and the trees stay sound |
| `ClearProgress.ClearExact` | SBUNIX-C-H/sys/mm/vmmgr_virtual.c:268-296 | clearing succeeds if and only if an empty slot ends the loop over the top-level table and each loop over a pointer table it reaches |
| `ClearProgress.LowClearSucceeds` | SBUNIX-C-H/sys/exec.c:249-249 | for a program below 1 GiB clearing always succeeds |
| `ClearProgress.ClearEmpties` | SBUNIX-C-H/sys/mm/vmmgr_virtual.c:274-295 | the slots of a reached address at the two upper levels, and its whole directory and page table, are empty afterwards |
| `Vmm.Manager.MapPage` | SBUNIX-C-H/sys/mm/vmmgr_virtual.c:407-460 | the in-place code has the effect of the walk specification |
| `Vmm.Manager.MapPageAfterPaging` | SBUNIX-C-H/sys/mm/vmmgr_virtual.c:299-345 | the in-place code has the effect of the window specification |
| `Vmm.Manager.ClonePgdir` | SBUNIX-C-H/sys/mm/vmmgr_virtual.c:189-199 | the copy loop has the effect of the clone specification |
| `Vmm.Manager.ShareTable` | SBUNIX-C-H/sys/mm/vmmgr_virtual.c:250-258 | copy and attribute loop leave both page tables with every entry shared |
| `Vmm.Manager.CopyPageTable` | SBUNIX-C-H/sys/mm/vmmgr_virtual.c:201-264 | the nested loops have the effect of the copy specification |
| `Vmm.Manager.Fork` | SBUNIX-C-H/sys/isr.c:196-199 | clone and copy in sequence have the effect of the fork specification |
| `Vmm.Manager.ClearPageTables` | SBUNIX-C-H/sys/mm/vmmgr_virtual.c:268-296 | the nested loops have the effect of the clear specification |
| `CowSteps.FreshExact` | SBUNIX-C-H/sys/isr.c:84-99 | after mapping or resolving a fault, writable leaves are exclusive if and only if no other user page was kept in the frame |
| `CowRuns.BlockIsFresh` | SBUNIX-C-H/sys/mm/mmgr.c:180-199 | in every state of a run, no user page is kept in the block that the allocator hands out next, and the block holds no table |
| `CowRuns.FrameIsAddress` | SBUNIX-C-H/sys/mmap.c:28-29 | the frame that a map or fault takes is the one at the address the allocator returns, null being the address of frame 0 |
| `CowRuns.CallMarks` | SBUNIX-C-H/sys/mm/mmgr.c:180-199 | a call marks the block it is given, when it allocates and there is one, and no other |
| `CowRuns.CallRefines` | SBUNIX-C-H/sys/isr.c:84-99 | mmap, fork, fault, exec's clear, kernel map, the kernel's own allocations, each with the frame the allocator yields, and every permitted store that does not go through a user slot 510, keep the invariant and change what programs read as they would with eager copies; a copy-on-write fault changes nothing |
| `CowRuns.RunRefines` | SBUNIX-C-H/sys/isr.c:84-99 | over every run of such calls in which the allocator has a block for each map and fault, the contents of all user pages are those of the machine that copies at fork |
| `CowRuns.RunIsolates` | SBUNIX-C-H/sys/isr.c:84-99 | over every such run, a page keeps its contents whatever the other address spaces do and whatever is forked from its own |
| `CowRuns.RunForked` | SBUNIX-C-H/sys/mm/vmmgr_virtual.c:189-199 | over every run from boot, slot 510 of an address space is a user entry if and only if fork made the address space |
| `CowRuns.RunIsolationExact` | SBUNIX-C-H/sys/mm/vmmgr_virtual.c:196-197 | in every state of such a run, the stores of a program can change a mapped page of another address space if and only if fork made its address space |
| `CowRuns.RunKernelClosed` | SBUNIX-C-H/sys/mm/vmmgr_virtual.c:481-488 | in every state of a run, every store of every program to slot 511 faults |
| `UserAccess.MapKeepsFlags` | SBUNIX-C-H/sys/mm/vmmgr_virtual.c:299-345 | mapping keeps the flags: user tables hang in entries that permit user stores, user leaves are user entries, slot 511 is closed to programs and slot 510 unchanged |
| `UserAccess.ForkKeepsFlags` | SBUNIX-C-H/sys/mm/vmmgr_virtual.c:189-264 | fork keeps the flags, and slot 510 of the child is a user entry |
| `UserAccess.ClearKeepsFlags` | SBUNIX-C-H/sys/mm/vmmgr_virtual.c:268-296 | clearing keeps the flags |
| `UserAccess.UserPages` | SBUNIX-C-H/sys/mm/vmmgr_virtual.c:105-111 | the processor permits a user store to a page below slot 510 if and only if its leaf is present and writable |
| `UserAccess.WindowExact` | SBUNIX-C-H/sys/mm/vmmgr_virtual.c:196-197 | some user store goes through slot 510 if and only if that slot is a user entry |
| `UserStores.PrivateExact` | SBUNIX-C-H/sys/mm/vmmgr_virtual.c:196-197 | no store of any program changes a page it does not go through if and only if every writable leaf is the only one naming its frame and, once any page is mapped, no slot 510 is a user entry |
| `UserStores.TwoStores` | SBUNIX-C-H/sys/mm/vmmgr_virtual.c:196-197 | where slot 510 is a user entry, two stores take any mapped page of any other address space away |
| `UserStores.IsolationExact` | SBUNIX-C-H/sys/mm/vmmgr_virtual.c:196-197 | some sequence of stores of a program changes a given mapped page of another address space if and only if its own slot 510 is a user entry |
| `UserStores.StepSelf` | SBUNIX-C-H/sys/mm/vmmgr_virtual.c:189-199 | no step changes whether a slot 510 is a user entry, and fork makes one that is |
| `CowSteps.FrameTwice` | SBUNIX-C-H/sys/mmap.c:28-29 | mapping the same frame at two pages makes some store through one of them visible in the other |
| `CowSteps.StoreSucceeds` | SBUNIX-C-H/sys/isr.c:84-99 | a user store to a mapped user page in the lower half is permitted and takes place at the latest after one fault |
| `CowSteps.BootInv` | SBUNIX-C-H/sys/mm/vmmgr_virtual.c:470-477 | the first table of the initialisation satisfies the invariant, with no user page |
| `CowSteps.KernelStep` | SBUNIX-C-H/sys/mm/vmmgr_virtual.c:481-488 | mapping a kernel page in slot 511, from whichever address space, keeps the invariant and what every program reads |
| `DenseTables.LowIsDense` | SBUNIX-C-H/sys/mm/vmmgr_virtual.c:211-225 | an address space without a directory above 1 GiB is dense |
| `CowRuns.LowRunRefines` | SBUNIX-C-H/sys/exec.c:11-15 | for programs with all pages below 1 GiB, every such run refines eager copying and keeps the tables dense, with no condition on them |
| `CowRuns.LowRunIsolates` | SBUNIX-C-H/sys/exec.c:11-15 | such runs isolate the address spaces |
| `CowRuns.BootSystem` | SBUNIX-C-H/sys/mm/vmmgr_virtual.c:470-477 | the first table, and any bitmap whose free blocks hold no table, satisfy the invariant of the runs, low tables included, with no user page and slot 510 closed |
| `CowRuns.RunReserved` | SBUNIX-C-H/sys/mm/mmgr.c:334-337 | over every run, a block that is marked without being a user page, or that the kernel takes at any step, never becomes a user page afterwards |
| `CowRuns.ExhaustedExact` | SBUNIX-C-H/sys/mm/mmgr.c:187-192 | without a free block, a map or fault keeps writable leaves exclusive if and only if no other page is kept in frame 0 |
| `CowRuns.ExhaustedTwice` | SBUNIX-C-H/sys/mm/mmgr.c:187-192 | without a free block, the first map still does what it would with eager copies, and after a second one at another page some store shows in the other page |
| `ForkProgress.ForkTakes` | SBUNIX-C-H/sys/mm/vmmgr_virtual.c:201-264 | fork succeeds if and only if its loops end and a page is left for the new top-level table and for each table they reach, and then takes exactly these |
| `ForkProgress.LowForkExact` | SBUNIX-C-H/sys/isr.c:196-199 | for a program below 1 GiB the loops end and that number is at most 515 |
| `CowProgress.CallSucceeds` | SBUNIX-C-H/sys/isr.c:84-99 | in every state of a run of programs below 1 GiB, a fault, an exec and a kernel allocation always succeed, a store if and only if its leaf is writable, and a map or a fork if and only if there are pages for the tables it adds |
| `CowProgress.KernelMapped` | SBUNIX-C-H/sys/mm/vmmgr_virtual.c:481-488 | a map in slot 511 succeeds if and only if there are pages for the missing tables, and then translates to the frame, writable and closed to programs |
| `CowProgress.SharedKernel` | SBUNIX-C-H/sys/mm/vmmgr_virtual.c:193-195 | every address space that shares the pointer table of slot 511 sees that page too |
| `FaultBranches.ForkedFate` | SBUNIX-C-H/sys/isr.c:84-107 | right after a fork, a fault in a user slot of parent or child is resolved if and only if the page is mapped; otherwise the handler faults, and it never reaches the kill branch |
| `FaultBranches.FateExact` | SBUNIX-C-H/sys/isr.c:84-107 | in every consistent state, a fault in a user slot kills the thread if and only if there is a page table and its entry is not marked, and is resolved if and only if the page is mapped and marked |
| `FaultBranches.FreshTableKills` | SBUNIX-C-H/sys/isr.c:100-107 | after a map that adds a page table, a fault at any other page of that table kills the thread |
| `Bump.RegionsDisjoint` | SBUNIX-C-H/sys/mm/vmmgr_virtual.c:87-91 | with 64-bit wrap-around, the regions handed out are pairwise disjoint if and only if together they fit in the address space |
| `Bump.TablePages` | SBUNIX-C-H/sys/mm/vmmgr_virtual.c:212-215 | the table pages taken from the allocator are distinct and small enough for an entry |
| `Bump.PagesForTables` | SBUNIX-C-H/sys/mm/vmmgr_virtual.c:87-91 | the pages of any of the allocator's calls, as long as they are untouched, are what the table theorems ask of the pages for tables |
| `Bump.Allocator.AllocPage` | SBUNIX-C-H/sys/mm/vmmgr_virtual.c:87-91 | each call returns the start of the next region |
| `Bump.PagesInRegion` | SBUNIX-C-H/sys/isr.c:189-191 | a call with argument n owns n + 1 whole pages from the address it returns |
| `BootMemory.BootBlock` | SBUNIX-C-H/sys/mm/mmgr.c:334-337 | the j-th table made at boot lies in block 1024 + j |
| `BootMemory.BootApart` | SBUNIX-C-H/sys/mm/vmmgr_virtual.c:83-91 | no call of the page allocator hands out a byte of a boot table if and only if the calls stay below 4 MiB of physical memory |
| `BootMemory.BootCalls` | SBUNIX-C-H/sys/mm/vmmgr_virtual.c:83-91 | for calls of one page, the exact number of calls for which that is so |
| `BootMemory.RootApart` | SBUNIX-C-H/sys/mm/vmmgr_virtual.c:470-477 | pages of calls that stay below do not contain the first table |
| `Slob.ReleaseRing` | SBUNIX-C-H/sys/mm/slob.c:42-56 | freeing keeps the ring circular, strictly ordered and fully coalesced in all four merge cases, with slobfree on it |
| `Slob.ReleaseUnits` | SBUNIX-C-H/sys/mm/slob.c:42-56 | freeing adds exactly the freed units |
| `Slob.ReleaseExact` | SBUNIX-C-H/sys/mm/slob.c:42-56 | the result is such a ring with exactly these units if and only if it is not the case that the only free block starts where the freed one ends |
| `Slob.StopsAt` | SBUNIX-C-H/sys/mm/slob.c:37-40 | the stop test of the walk is true at exactly one block of the ring |
| `Slob.DeltaAligns` | SBUNIX-C-H/sys/mm/slob.c:66-69 | the aligned address is a multiple of the alignment, less than one alignment away |
| `Slob.UnitsCover` | SBUNIX-C-H/sys/mm/slob.c:7-7 | the units of a size cover it with less than one unit to spare |
| `Slob.CutRing` | SBUNIX-C-H/sys/mm/slob.c:70-88 | taking units out of a block keeps the ring, with the front and tail remainders in order |
| `Slob.CutLoses` | SBUNIX-C-H/sys/mm/slob.c:70-88 | exactly the allocated units stop being free, and the header says how many they are |
| `Slob.CarveExact` | SBUNIX-C-H/sys/mm/slob.c:70-88 | the result is such a ring if and only if it is not the case that the only free block is used from its start |
| `Slob.FirstDonation` | SBUNIX-C-H/sys/mm/slob.c:91-100 | after a failed lap and a donation the search can resume from the page although it may have been merged, and finds it exactly when it was |
| `Slob.SecondDonation` | SBUNIX-C-H/sys/mm/slob.c:91-100 | after a second, higher donation the resumed search always finds a block |
| `Slob.Allocator.Free` | SBUNIX-C-H/sys/mm/slob.c:30-57 | the code terminates on every ring, ignores null, and leaves the ring with exactly the freed units added |
| `Slob.Allocator.FindBefore` | SBUNIX-C-H/sys/mm/slob.c:37-40 | the walk ends at the block before the freed one |
| `Slob.Allocator.Scan` | SBUNIX-C-H/sys/mm/slob.c:64-91 | the search takes the first block on its way that fits, and finds one exactly when there is one |
| `Slob.Allocator.Lap` | SBUNIX-C-H/sys/mm/slob.c:64-91 | one lap from slobfree finds a block exactly when some free block fits after alignment |
| `Slob.CallExact` | SBUNIX-C-H/sys/mm/slob.c:59-101 | what a call hands out is aligned and comes out of what was free and the pages it took, leaving a good ring, if and only if it does not use the only free block from its start |
| `Slob.Allocator.Alloc` | SBUNIX-C-H/sys/mm/slob.c:59-101 | the whole function donates at most two pages one after the other and cuts the units out of a block that fits, or gives null exactly for a whole page when nothing fits; the result is a good allocation if and only if it does not use the only free block from its start |
| `SlobRuns.RunPartitions` | SBUNIX-C-H/sys/mm/slob.c:30-101 | over every run of allocations, frees and donations, live and free blocks partition the given units, live blocks are disjoint, and the ring stays good |
| `SlobRuns.StartInv` | SBUNIX-C-H/sys/mm/slob.c:26-27 | the static block alone satisfies the invariant |
| `SlobRuns.StepExists` | SBUNIX-C-H/sys/mm/slob.c:30-101 | every possible allocation, free and donation has a next state |
| `SlobRuns.CallSupplied` | SBUNIX-C-H/sys/mm/slob.c:59-101 | in every state of a run, and with new pages, the function finds what it needs |
| `SlobRuns.CallIsRun` | SBUNIX-C-H/sys/mm/slob.c:59-101 | a whole call is a run of one donation for each page it takes and one allocation, and keeps the partition |
| `RunQueue.AppendQueue` | SBUNIX-C-H/sys/kthread.c:62-78 | append puts a new thread at the end of the represented sequence |
| `RunQueue.UnlinkMember` | SBUNIX-C-H/sys/kthread.c:171-183 | removing a queued thread takes it out of the sequence and leaves its own links naming its former neighbours |
| `RunQueue.UnlinkStale` | SBUNIX-C-H/sys/kthread.c:171-183 | removing a thread that is not queued leaves the queue unchanged if and only if its links name neighbours or two threads that are not queued |
| `Scheduler.PickFinds` | SBUNIX-C-H/sys/kthread.c:213-228 | with every thread queued the pick finds one, and the invariant holds after the switch |
| `Scheduler.UnlinkCurrentSame` | SBUNIX-C-H/sys/isr.c:38-51 | in every state of a run, unlinking the running thread at exit or kill changes nothing |
| `Scheduler.StepInv` | SBUNIX-C-H/sys/isr.s:152-158 | every step succeeds without the panic and leaves every thread that is not gone running or queued exactly once |
| `Scheduler.RunInv` | SBUNIX-C-H/sys/kthread.c:218-226 | the invariant holds throughout every run |
| `Scheduler.RunNeverPanics` | SBUNIX-C-H/sys/kthread.c:218-226 | no step that is possible in a run reaches the panic of the pick |
| `Scheduler.BootInv` | SBUNIX-C-H/sys/kthread.c:505-518 | the first dispatch establishes the invariant, without the boot thread |
| `Scheduler.BoundedWaiting` | SBUNIX-C-H/sys/kthread.c:213-228 | an awake and alive thread at index k is dispatched no later than the pick number k + 1, whatever happens in between |
| `Scheduler.SleepExact` | SBUNIX-C-H/sys/timer.c:22-35 | a sleeping thread with counter n is skipped until exactly n second boundaries have passed, then awake; the counter never goes negative |
| `Scheduler.SleepForever` | SBUNIX-C-H/sys/timer.c:31-35 | a negative counter is never changed and its thread never dispatched |
| `Scheduler.SleepStarts` | SBUNIX-C-H/sys/isr.c:208-210 | for every n, sleep(n) queues the thread with the low 32 bits of n as a signed counter, or leaves it awake when they are 0 |
| `Scheduler.StoredExact` | SBUNIX-C-H/sys/isr.c:208-210 | the counter is n if and only if n is below 2^31, negative if and only if the low 32 bits are at least 2^31, and 0 if and only if they are 0 |
| `Scheduler.SleepRun` | SBUNIX-C-H/sys/isr.c:208-210 | over every run, from sleep(n) on the thread is skipped until exactly the stored number of boundaries have passed, for ever when that number is negative and not at all when it is 0 |
| `SchedulerRuns.RunTicks` | SBUNIX-C-H/sys/timer.c:27-27 | over every run, the tick counter moves by the number of timer interrupts, in 16 bits, and by nothing else |
| `SchedulerRuns.RunSeconds` | SBUNIX-C-H/sys/timer.c:27-35 | over every run, the number of second boundaries as a function of the tick counter and the number of timer interrupts |
| `SchedulerRuns.SecondLength` | SBUNIX-C-H/sys/timer.c:27-29 | from a boundary the next one comes after exactly 100 interrupts, or 36 where the counter wraps |
| `SchedulerRuns.SleepByClock` | SBUNIX-C-H/sys/timer.c:27-35 | over every run, a thread that calls sleep is skipped until timer interrupts have brought the stored number of boundaries since, and awake after the one that brings the last |
| `SchedulerRuns.KilledStaysDead` | SBUNIX-C-H/sys/isr.c:100-107 | over every run, a killed thread is dead and queued, and not dispatched, in every later state |
| `SchedulerRuns.ExitedStaysGone` | SBUNIX-C-H/sys/isr.s:104-109 | over every run, a thread that exits is neither queued nor dispatched in any later state |
| `SchedulerRuns.RequeuedLast` | SBUNIX-C-H/sys/isr.s:152-158 | after a timer interrupt, a plain system call, a yield or an exec the thread is awake and alive, and last in the queue unless it goes on at once |
| `SchedulerRuns.SpawnStarts` | SBUNIX-C-H/sys/exec.c:196-198 | a spawned thread is awake, alive and last in the queue |
| `SchedulerRuns.ForkStarts` | SBUNIX-C-H/sys/isr.c:184-206 | after a fork both threads are awake and alive, the parent last in the queue and the child dispatched or right before it |
| `SchedulerRuns.ChildRuns` | SBUNIX-C-H/sys/isr.c:184-206 | over every run, a forked child is dispatched within as many picks as threads were queued at the fork |
| `Scheduler.SpawnOutdates` | SBUNIX-C-H/sys/exec.c:196-198 | after Start, picked from the end, spawns a thread, unlinking Start would change the queue |
| `Scheduler.Kernel.RunnableKthread` | SBUNIX-C-H/sys/kthread.c:62-78 | the pointer code has the effect of the append specification |
| `Scheduler.Kernel.RemoveRunnable` | SBUNIX-C-H/sys/kthread.c:171-183 | the pointer code has the effect of the unlink specification |
| `Scheduler.Kernel.FindRunnable` | SBUNIX-C-H/sys/kthread.c:218-223 | the crawl stops at the first awake and alive thread, or at null |
| `Scheduler.Kernel.NextRunnable` | SBUNIX-C-H/sys/kthread.c:213-228 | the crawl removes and dispatches the first awake and alive thread, or reports that there is none |
| `Scheduler.Kernel.Timer` | SBUNIX-C-H/sys/timer.c:22-35 | the handler counts the tick in 16 bits and at a boundary decrements every queued sleeper |
| `Scheduler.Kernel.TimerInterrupt` | SBUNIX-C-H/sys/irq.s:243-261 | the interrupt is the tick step and keeps the invariant |
| `Scheduler.Kernel.SysExit` | SBUNIX-C-H/sys/isr.s:104-109 | exit is the exit step and keeps the invariant |
| `Scheduler.Kernel.PageFaultKill` | SBUNIX-C-H/sys/isr.c:100-107 | a fatal fault is the kill step and keeps the invariant |
| `Scheduler.Kernel.ForkSyscall` | SBUNIX-C-H/sys/isr.c:184-206 | fork queues the child before the parent, dispatches, and keeps the invariant |
| `Scheduler.Kernel.YieldCpu` | SBUNIX-C-H/sys/kthread.c:455-461 | yield is the requeue and pick step and keeps the invariant |
| `Scheduler.Kernel.SleepSyscall` | SBUNIX-C-H/sys/isr.c:208-210 | sleep is the sleep step and keeps the invariant |
| `Scheduler.Kernel.ExecSyscall` | SBUNIX-C-H/sys/isr.c:272-285 | exec of a member of the archive resets and requeues the thread, dispatches, and keeps the invariant |
| `WordBits.TestBits` | SBUNIX-C-H/sys/mm/mmgr.c:107-109 | the mask test of a word is the value of that one of its 64 bits |
| `WordBits.SetBits` | SBUNIX-C-H/sys/mm/mmgr.c:99-101 | or-ing the mask into a word sets that bit and keeps the 63 others |
| `WordBits.ClearBits` | SBUNIX-C-H/sys/mm/mmgr.c:114-116 | and-ing with the complement clears that bit and keeps the 63 others |
| `WordBits.FullBits` | SBUNIX-C-H/sys/mm/mmgr.c:136-136 | a word compares equal to all ones if and only if all its 64 bits are set |
| `BlockBitmap.SetRangeUsed` | SBUNIX-C-H/sys/mm/mmgr.c:215-217 | marking a range marks exactly its blocks |
| `BlockBitmap.ClearRangeUsed` | SBUNIX-C-H/sys/mm/mmgr.c:243-244 | unmarking a range unmarks exactly its blocks |
| `BlockBitmap.Obstacle` | SBUNIX-C-H/sys/mm/mmgr.c:159-165 | a used block inside a range rules out every start the search skips |
| `BlockBitmap.BlockManager.GetFirstFree` | SBUNIX-C-H/sys/mm/mmgr.c:132-145 | the result is the least free block of the scanned words, or -1 exactly when there is none |
| `BlockBitmap.BlockManager.GetFirstRangeFree` | SBUNIX-C-H/sys/mm/mmgr.c:148-174 | the result is the least start of a free range, or -1 exactly when there is none; -1 for size 0 |
| `BlockBitmap.AddressNames` | SBUNIX-C-H/sys/mm/mmgr.c:198-198 | the address returned is page-aligned and that of the block taken, and null exactly for a failure or block 0 |
| `BlockBitmap.ChosenRangeExact` | SBUNIX-C-H/sys/mm/mmgr.c:204-213 | a ranged allocation succeeds if and only if the range is not empty, the counter leaves more blocks than it has, and a free range of that size starts in the scanned words |
| `BlockBitmap.InStepExact` | SBUNIX-C-H/sys/mm/mmgr.c:182-192 | while the counter is in step, an allocation fails if and only if every block is used |
| `BlockBitmap.FreeUndoes` | SBUNIX-C-H/sys/mm/mmgr.c:225-234 | freeing the address of an allocation restores bitmap and counter if and only if it is not that of block 0 |
| `BlockBitmap.FreeManyUndoes` | SBUNIX-C-H/sys/mm/mmgr.c:236-247 | the same for a range |
| `BlockBitmap.BlockManager.AllocBlock` | SBUNIX-C-H/sys/mm/mmgr.c:180-199 | the least free block is marked, counted and its address returned, or nothing changes and 0 is returned; a nonnull address divided by the block size is the block taken |
| `BlockBitmap.BlockManager.AllocSizeBlocks` | SBUNIX-C-H/sys/mm/mmgr.c:201-222 | the least free range is marked and counted, or nothing changes; a nonnull address divided by the block size is its first block |
| `BlockBitmap.BlockManager.FreeBlock` | SBUNIX-C-H/sys/mm/mmgr.c:225-234 | the block is cleared and the counter decremented, unless the address is null |
| `BlockBitmap.BlockManager.FreeSizeBlocks` | SBUNIX-C-H/sys/mm/mmgr.c:236-247 | the same for a range |
| `BlockBitmap.RunInv` | SBUNIX-C-H/sys/mm/mmgr.c:180-247 | over every run of the four calls, with the blocks their searches choose and their null results, a bit is set exactly when its block is outstanding or was marked at the start, and the counter keeps its distance from the number of set bits |
| `BlockBitmap.RunNeverTwice` | SBUNIX-C-H/sys/mm/mmgr.c:180-222 | over every run, no call hands out a block that is outstanding or was marked at the start |
| `BlockBitmap.StepInv` | SBUNIX-C-H/sys/mm/mmgr.c:180-247 | one call keeps both, and the block or range its search chooses was neither outstanding nor marked at the start |
| `BlockBitmap.FreeExact` | SBUNIX-C-H/sys/mm/mmgr.c:225-234 | freeing a block keeps that distance if and only if the block was marked |
| `Ustar.OctalReads` | SBUNIX-C-H/sys/stdfns.c:352-360 | reading octal digits gives back the number that was written |
| `Ustar.HeaderReads` | SBUNIX-C-H/sys/elf.c:148-159 | the name and size read at a header are those of its member, wherever it lies |
| `Ustar.ReadScans` | SBUNIX-C-H/sys/elf.c:148-159 | for every memory and name, the result is the data behind the first offset the loop looks at that has the name, and nothing when none has |
| `Ustar.WalkExact` | SBUNIX-C-H/sys/elf.c:148-159 | for every archive, the offsets the loop looks at are the member headers, then the zero blocks, then the block after the archive, if and only if no member's size is a positive multiple of 512 |
| `Ustar.ReadFindsFirst` | SBUNIX-C-H/sys/elf.c:140-165 | for every archive without aligned sizes, reading a nonempty name gives the data of the first member so named, or null |
| `Ustar.ReadGivesData` | SBUNIX-C-H/sys/elf.c:140-165 | for every archive without aligned sizes, the bytes at the address returned are the data of the first member so named, and null is returned if and only if there is none |
| `Ustar.SkipsNext` | SBUNIX-C-H/sys/elf.c:155-158 | an empty member behind one of aligned size, anywhere in an archive, is there but not found: the result is that of the members behind it |
| `Ustar.Strlen` | SBUNIX-C-H/sys/stdfns.c:317-325 | the length of the string |
| `Ustar.StrCmp` | SBUNIX-C-H/sys/stdfns.c:362-379 | 0 if and only if the strings are equal |
| `Ustar.MyAtool` | SBUNIX-C-H/sys/stdfns.c:352-360 | the octal value of the string in 32 bits |
| `Ustar.TarfsRead` | SBUNIX-C-H/sys/elf.c:140-165 | the loop returns what the walk specification gives |
| `TrapFrame.RestorePops` | SBUNIX-C-H/sys/isr.s:33-52 | the pop sequence undoes the pushes, last word first |
| `TrapFrame.ForkRestores` | SBUNIX-C-H/sys/isr.s:195-198 | for all registers, the frame of fork_int resumes the child with the parent's registers except rax and ss |
| `TrapFrame.TrapReturns` | SBUNIX-C-H/sys/isr.s:116-121 | after a trap the thread resumes with its own registers except that rax holds the handler's result; the whole context comes back if and only if rax held it already |
| `TrapFrame.LaunchReturns` | SBUNIX-C-H/sys/kthread.c:394-448 | a kernel thread resumes in Launch_Thread, returns to its start function, and from there to thread_exit |
| `TrapFrame.ArgumentLost` | SBUNIX-C-H/sys/kthread.c:394-448 | the start function sees its argument if and only if it is 0 |
| `TrapFrame.UserRestores` | SBUNIX-C-H/sys/exec.c:54-99 | a user thread resumes at its entry in user mode with interrupts on |
| `TrapFrame.KernelStack.Push` | SBUNIX-C-H/sys/kthread.c:259-263 | a push adds one word below the others |
| `TrapFrame.KernelStack.ForkInt` | SBUNIX-C-H/sys/isr.c:152-182 | the words pushed, in order |
| `TrapFrame.KernelStack.SaveContext` | SBUNIX-C-H/sys/isr.s:10-29 | the 22 words that a trap leaves, in order |
| `TrapFrame.KernelStack.StoreResult` | SBUNIX-C-H/sys/isr.s:121-121 | after the store at 0x70 above the stack pointer the restore sequence gives that context |
| `TrapFrame.KernelStack.SetupKthread` | SBUNIX-C-H/sys/kthread.c:394-448 | the words pushed, in order, one of them an address in the same stack |
| `TrapFrame.KernelStack.SetupUser` | SBUNIX-C-H/sys/exec.c:54-99 | the words pushed, in order |

## Left out

- The translation lookaside buffer, the accessed and dirty bits, and kernel-mode stores to read-only user pages.
- What happens after the handler itself faults, on an absent page that carries the copy-on-write mark or without a page
  table; `FaultBranches.ForkedFate` says which faults these are.
- CowRuns.RunRefines: fork and exec steps need dense tables when programs go above 1 GiB; `ForkSpaces.ForkSeparates`
  and `ForkSpaces.ForkPreserves` say what happens otherwise, and `CowRuns.LowRunRefines` needs no such condition.
- CowRuns.RunRefines: pages still to be handed out for tables are zero, and free blocks hold no table. The tables that
  `vmmgr_init` itself takes come from the frame allocator in the source and from the pages for tables in the model;
  `BootMemory.BootApart` says for how many calls the two are apart.
- CowRuns.RunRefines: after the allocator has run out, only single steps are described (`CowRuns.ExhaustedExact`).
- CowRuns.RunRefines: runs after a store through a user slot 510; `UserStores.IsolationExact` says what such stores can
  do, and `CowRuns.RunForked` which programs can make them.
- Stores that cross an 8-byte boundary are two stores.
- Which faults count as stack growth; growth itself is a map step.
- Frames and tables are never returned by exit or exec, so there is no step for it.
- Slob.Allocator.Alloc: alignments that are no divisor of a page, and requests of more than a page: the search may then
  need more donations than two.
- SlobRuns.RunPartitions: requests of a single unit, which may use up the static block that the invariant keeps on the
  ring; `Slob.CallExact` covers a single call of that kind.
- 32-bit overflow of sizes in `slob.c`, and requests of 0 bytes, which leave a block without units on the ring.
- Exec of a name that does not fit the 30 bytes of `main_execve`, or that is not in the archive; the latter is a plain
  system call to the scheduler.
- The interrupt window inside `Yield` between the requeue and the pick.
- Process numbers, `ptable`, the list of all threads, child lists and `wait`.
- The return conventions of `fs_mmgr.c`, which hands out block numbers and -1 instead of addresses and null.
- BlockBitmap.BlockManager.GetFirstRangeFree: the array must extend past the scanned words by the size searched for.
- Ustar.TarfsRead: a size field of 2^31 - 512 or more, where the int arithmetic of the source overflows.
- Names of 100 characters, which have no terminator, and size fields ended by a space.
- `tarfs_dir`, `tarfs_open` and the directory tree: further loops over the same headers.
- `myalloc.c`, the file system's read and write paths, drivers, the shell and the C library.
