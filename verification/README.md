# Verified models of a teaching kernel's memory, scheduling and locking core

The project models, in Dafny, the parts of the kernel that keep state and whose promises span
several functions, and proves what they keep over every run.

- **Frames.** `Orders`, `Buddy`: the buddy allocator over `pages[]` with one free list per order.
- **Page tables.** `Paging` gives four-level tables as values: what they translate, what makes them
  well formed, and how one change of an entry, a table or a reference count acts on the translation.
  `Effects` says what a walk over a range does to the address spaces (`Walked`), `Callbacks`,
  `Tables` and `Merging` give each callback's whole effect, `Compaction` what merging is for, and `Memory` is the imperative code:
  page tables in physical frames taken from the allocator, and the walks of unmap, protect,
  populate and insert. `Walk` is the walker over 64-bit addresses.
- **Copy-on-write.** `Areas`, `Places`, `Cow`, `Forking`: tasks, fork, the page fault handler, user
  loads and stores, mmap with its search for a place, and munmap over the shared tables. `Eager` is
  the machine they are measured against, in which every task has pages of its own and fork copies
  them all. `Spill` is a state in which a fault opens a read-only VMA, and munmap leaves pages mapped.
- **VMAs.** `VmaLists`, `Vma` (module `VmaLayer`): the sorted list and the search tree of a task.
- **Data structures.** `RbTree` (nodes linked by pointers in memory, with the trees they stand
  for), `CircularList`.
- **Kernel heap.** `Slab`: slabs on top of the buddy allocator, kmalloc and kfree.
- **Concurrency.** `Spinlock`: ranked spinlocks as interleaved steps of the CPUs. `Sched`: the run
  queues of one CPU.

`Common` holds what several of them share.

Page tables number pages, not bytes; `Walk` and `VmaLists` work on addresses. Memory that C code
reaches through pointers is a map from addresses to records (`RbTree`, `CircularList`) or a field
that the methods reassign. `PageTables.held` counts references that exist outside table entries,
for instance between the two stores of an insertion, so that `pp_ref` is accounted for at every
step.

An operation that allocates returns `ok`. It is false only if the frame allocator had no free page
(`NoRun(s, 0)`) or no free 2M block (`NoRun(s, HUGE)`), and the contracts say which of the two each
operation can run into. `unmerged` is the case in which all pages are in place and only ptbl_merge
found no 2M block; fork and the fault handler go on then, as the code does.

## What the code does not keep

Where a promise does not hold on every input, the exact condition under which it does is proved.

- `remove_vma_range` takes exactly its range out of the address map if and only if
  `VmaLists.RangeOk`: always for a range that is neither empty nor wraps around; an empty range
  strictly inside a VMA removes the VMA from there to its end (`EmptyRangeRemoves`). `sys_munmap`
  rounds both ends down, so a length that stays inside one page reaches this.
- For the pages behind the VMAs that munmap is worse. The address space loses nothing if and only if
  the empty range is not strictly inside a VMA (`EmptyUnmapExact`), and what it loses stays mapped:
  the task is in order afterwards if and only if no page up to the end of that VMA was mapped
  (`EmptyUnmapKeeps`, `Munmap`). `StaleHappens` is such a state, and `StaleShows` how the old bytes
  come back with the next mmap. `Run` takes every munmap and stops before one of this kind
  (`Overcuts`).
- `add_vma` is to find a free place that is large enough. It tries one address in every `size`, so,
  unless it strays, it finds one if and only if one of those is free (`FindPlace`): always where
  nearly twice the room is free (`WideGapFound`), not always where just the room is
  (`NarrowGapMissed`). Its loop subtracts
  the size from a 64-bit address, so if its first way down finds nothing and does not end at address
  0 exactly, the address wraps around, and a VMA that ends before it begins is inserted past the user
  half; with size 0 and a place inside a VMA the loop does not end (`Strays` is the exact condition,
  `EscapeHappens` and `NeverHappens` the inputs, `Mmap` the outcome). `Run` stops before such a step.
- `sys_mmap` returns the base of the VMA that `add_vma` returns. That is the address of the new pages
  if and only if the VMA was not merged with a non-empty one before it (`MergedStart`, `AddVma`); in
  `ReturnedBelow` the task gets the address of the older pages. `Placed` in `Eager` has both addresses.
- `split_vma` gives both parts the source of the VMA, so the right part starts over at its beginning:
  what is behind every address stays the same if and only if the VMA has no source (`SplitBacking`,
  with a program whose second page shows the first in `SourceShifts`). `merge_vma` keeps it if and
  only if there is no source or one of the two VMAs is empty (`MergeBacking`), and undoes a split up to
  the length if and only if that was in the middle of a page-aligned VMA (`SplitMerges`).
- `add_executable_vma` gives no VMA back when the place is taken: one is lost each time (`AddVma`).
  Splitting, merging and removing lose none.
- `check_user_vma_range` also looks at empty VMAs inside the range, which mmap of length 0
  creates (`EmptyVmaRefused`); it accepts exactly if the range is accessible and those have the
  flags (`CheckUserVmaRange`).
- `print_vmas` shows every VMA that is not empty exactly once, and empty ones never: it shows all
  VMAs if and only if none is empty (`AllShown`, with the input in `EmptyVmaHidden`).
- A lock of rank 2^63 can be taken but never released: doubling the rank gives 0
  (`TopRankStuck`).
- `walk_page_range` between equal page-aligned bounds walks no page, except from 0 to 0: the end wraps
  around, and it walks the whole address space (`EmptyWalk`). `walk_user_pages` visits one page of
  the kernel half as well (`WalkUserPages`).
- "What a task can write without a fault lies in writable VMAs" (`Fits`) is kept by every step but
  one. `populate_pde` gives a shared 2M page the new permissions as a whole, also outside the range
  (`PopulateShared`, `FaultRenews`), and a 2M page may span two VMAs, because fork merges the 4K
  pages of the child. A page fault keeps `Fits` if and only if it does not hit a shared 2M page from
  a writable VMA while some page of that 2M lies in no writable VMA (`FaultFits`, `PageFault`);
  `SpillHappens` is such a state, and `SpillOpens` what it leads to. The pages are private then, so
  no other task sees the stores. `Eager.Answered` refuses every store to a page of a VMA without
  write permission, except for tasks that took part in a fork and have had such a mixed 2M since
  their last one.
- `count_free_pages` counts the blocks of one order, not their pages as its comment says.
- The comment on `kmalloc` says that a size equal to the largest object size is refused; the code
  serves it (1024 bytes), and the model follows the code.

## Model

| member | source | states |
|---|---|---|
| Buddy.Allocator.constructor | kernel/mem/init.c:249-259 | at boot every page is an allocated block of order 0 and the free lists are empty |
| Buddy.Allocator.MarkAvailable | kernel/mem/init.c:293-328 | a page that the memory map declares usable becomes a block that can be freed; nothing else changes |
| Buddy.Allocator.BuddySplit | kernel/mem/buddy.c:132-152 | the block shrinks to the requested order, the upper halves go to the ends of the lists of their orders, and no other page changes sides |
| Buddy.Allocator.BuddyMerge | kernel/mem/buddy.c:170-203 | merging goes on until the buddy is not a free block of the same order; the set of free pages stays the same |
| Buddy.Allocator.BuddyFind | kernel/mem/buddy.c:212-226 | a block of the requested order is found exactly if an aligned run of that many free pages exists; it is cut from the first free block of the least order that has one |
| Buddy.Allocator.PageAlloc | kernel/mem/buddy.c:243-287 | NULL exactly if no aligned run of 1 or 512 pages is entirely free; otherwise the block leaves the free pages and becomes an allocated block with count 0, cut from the first free block of the least order that has one |
| Buddy.Allocator.PageFree | kernel/mem/buddy.c:297-335 | the pages of the block, and no others, become free, and the free lists are coalesced again |
| Buddy.Allocator.PageDecref | kernel/mem/buddy.c:341-347 | the block goes back to the free pages exactly with its last reference |
| Buddy.Allocator.CountFreePages | kernel/mem/buddy.c:62-76 | the number of free blocks of the order; 0 above the largest order |
| Buddy.Allocator.CountTotalFreePages | kernel/mem/buddy.c:105-119 | the total is the number of free pages |
| Buddy.LargerRunsKept | kernel/mem/buddy.c:212-226 | an allocation breaks no free run that is larger than the least free block that would do |
| Buddy.CanonicalForm | kernel/mem/buddy.c:170-203 | two valid states with the same free pages have the same free blocks, whatever their histories |
| Buddy.FreeBlocksAreMaximalRuns | kernel/mem/buddy.c:170-203 | a block is free exactly if it is a maximal aligned run of free pages |
| Buddy.RunInOneBlock | kernel/mem/buddy.c:170-226 | an aligned run of free pages lies inside one free block |
| Buddy.AllocFreeRestores | kernel/mem/buddy.c:243-335 | allocating a block and freeing it restores the set of free blocks |
| Buddy.CountMoves | kernel/mem/buddy.c:105-119 | one operation moves the total by exactly 2^order |
| Buddy.BlockShape | kernel/mem/buddy.c:132-203 | every block is aligned to its order and in range |
| Buddy.BlocksCover | kernel/mem/buddy.c:132-203 | every page that the memory map declares usable lies in a block |
| Buddy.BlocksDisjoint | kernel/mem/buddy.c:132-203 | two blocks that share a page are the same |
| Buddy.FreeIffListed | kernel/mem/buddy.c:62-76 | pp_free is set exactly for heads on the list of their own order |
| Orders.FlipIsMate | kernel/mem/buddy.c:170-203 | the exclusive-or that finds the buddy finds the other half of the block of the next order |
| Paging.FindPath | kernel/mem/walk.c:68-272 | a table that covers a page is on the walk to it, so translation can be followed from any table |
| Paging.LastEntryDecides | kernel/mem/ptbl.c:24-46 | what the processor allows in a page, over all entries on the way, is what the last entry allows |
| Paging.SwapInv | kernel/mem/ptbl.c:24-248 | changing a leaf entry keeps the tables well formed, with the reference moved to or from the kernel |
| Paging.SwapFind | kernel/mem/ptbl.c:24-248 | and changes the translation under that entry only |
| Callbacks.UniqueTable | kernel/mem/walk.c:68-272 | an address space has one table per level and position |
| Callbacks.RemoveLeaf | kernel/mem/remove.c:19-62 | clearing an entry with page_decref removes the pages under it, no others, and frees the block with its last entry |
| Callbacks.ProtectLeaf | kernel/mem/protect.c:17-63 | changing the permission bits of an entry changes the permissions of its pages and nothing else |
| Callbacks.PopulateShared | kernel/mem/populate.c:24-127 | copy-on-write: all pages under the entry, also those outside the range, get a private copy with the same bytes and the new permissions; everyone else's view stays |
| Callbacks.PopulateAbsent | kernel/mem/populate.c:24-127 | an absent page becomes a private zeroed one |
| Callbacks.InsertLeaf | kernel/mem/insert.c:25-94 | insertion replaces what was mapped at the entry and counts both pages right |
| Callbacks.Reinserted | kernel/mem/insert.c:25-46 | re-inserting a page at its own address never frees it and leaves its count as it was |
| Effects.WalkedTrans | kernel/mem/walk.c:68-272 | consecutive pieces of a walk make one walk, in effect, sharing, reference counts and freed tables |
| Tables.SplitEnd | kernel/mem/ptbl.c:78-143 | after ptbl_split every page of every address space has the bytes and permissions it had, and private pages stay private |
| Tables.FreeTable | kernel/mem/ptbl.c:223-248 | freeing an empty table keeps every page, and a table is freed only when nothing under it is mapped |
| Merging.MergeEnd | kernel/mem/ptbl.c:164-215 | after ptbl_merge every page has the bytes and permissions it had |
| Compaction.CompactHuge | kernel/mem/ptbl.c:164-215 | where no table is left to be merged, 512 pages of an aligned 2M with equal permissions are mapped by one entry |
| Compaction.OneUnmerged | kernel/mem/ptbl.c:164-215 | a range within 2M has at most one table that could not be merged |
| Memory.PageTables.MergeUnder | kernel/mem/walk.c:143-147 | after a walk that maps pages ptbl_merge leaves no table under the entry that could be a 2M page, except for want of a 2M block |
| Memory.PageTables.PtblAlloc | kernel/mem/ptbl.c:24-46 | a present entry is left alone; otherwise an empty table is linked in and no page changes; fails only without a free page, and then nothing has changed |
| Memory.PageTables.PtblSplit | kernel/mem/ptbl.c:78-143 | the 2M page becomes a full table of 4K pages with the same permissions, and every page looks the same; fails only without a free page |
| Memory.PageTables.PtblMerge | kernel/mem/ptbl.c:164-215 | a full table with equal permissions becomes a 2M page with those permissions, and every page looks the same; any other table stays as it is; fails only for a full table without a free 2M block, and then nothing has changed |
| Memory.PageTables.SplitThenMerge | kernel/mem/ptbl.c:78-215 | split followed by merge restores a 2M entry with the same contents and permissions; fails only without a free 2M block |
| Memory.PageTables.PtblFree | kernel/mem/ptbl.c:223-248 | completes an unmapping walk: no empty table is left behind |
| Memory.PageTables.PteCallback | kernel/mem/remove.c:19-34 | the PTE callbacks of unmap, protect, populate and insert have the effect of their walk on one page; only populate can fail, and only without a free page |
| Memory.PageTables.PdeCallback | kernel/mem/remove.c:40-62 | the PDE callbacks finish the 2M under the entry, or leave a table and every page as it was; removal and protection fail only if the range cuts a 2M page and no page is free, populate only without a free page, or without a free 2M block where the range has a shared 2M page or a whole 2M, insertion only without a free page |
| Memory.PageTables.PopulateEntry | kernel/mem/populate.c:24-127 | shared, private and absent entries: afterwards the page is mapped and private; fails only without a free block of its size |
| Memory.PageTables.InsertEntry | kernel/mem/insert.c:25-94 | pp_ref++ of the new page, page_decref of the old one, new entry |
| Memory.PageTables.Walk | kernel/mem/walk.c:68-272 | the walker of every level has the effect of the operation on exactly the range it is given; it stops early only where the allocator has no page, or no 2M block, that the operation needs; after mapping pages no table of the range is left that could be a 2M page, except one that no block was free for |
| Memory.PageTables.UnmapPageRange | kernel/mem/remove.c:66-85 | every translation of the range goes, bytes and permissions elsewhere stay even where a 2M page had to be split, exactly the visited tables left empty are freed; never fails for a 2M-aligned range, otherwise only without a free page |
| Memory.PageTables.ProtectRegion | kernel/mem/protect.c:68-85 | the mapped pages of the range get the permissions, nothing else changes; never fails for exactly one aligned 2M, otherwise only without a free page |
| Memory.PageTables.PopulateRegion | kernel/mem/populate.c:132-155 | every page of the range is mapped and private afterwards; pages mapped before keep their bytes, the others are zero; a shared 2M page gets the permissions as a whole; fails only if misaligned, without a free page, or without a free 2M block where the range has a shared 2M page or a whole 2M; afterwards no table of the range could be a 2M page |
| Memory.PageTables.PageInsert | kernel/mem/insert.c:123-162 | the page appears at the address with its bytes and the given permissions, behind the very frame unless it was merged into a 2M page, and nothing else changes; refused for a misaligned 2M page, and otherwise only without a free page; afterwards no table of the range could be a 2M page; without a free 2M block for merging the page is in place all the same, and a full table is left |
| Memory.PageTables.PageLookup | kernel/mem/lookup.c:49-74 | finds the entry that maps the page, and none exactly if the page is not mapped |
| Memory.PageTables.NewSpace | kernel/sched/task.c:129-156 | a new address space with nothing mapped; the others look the same; none only without a free page |
| Memory.FreedWithLastEntry | kernel/mem/buddy.c:341-347 | over every walk the count of a frame is the number of entries that point at it and the references held elsewhere, and a frame whose last entry goes is given back |
| Walk.WalkRange | kernel/mem/walk.c:68-272 | terminates, and calls pte_callback exactly for the pages of the range below a present PDE that is not a 2M page, each once, in increasing order, across the canonical gap and up to the top |
| Walk.WalkPageRange | kernel/mem/walk.c:277-282 | the same for byte bounds that are rounded to pages; end 0 is the top |
| Walk.EmptyWalk | kernel/mem/walk.c:277-282 | equal page-aligned bounds give no page to walk, and the bounds 0 and 0 all pages |
| Walk.WalkUserPages | kernel/mem/walk.c:291-294 | visits the user half and the first page after it |
| Walk.WalkAllPages | kernel/mem/walk.c:285-288 | visits both halves |
| Walk.PagesAre | kernel/mem/walk.c:68-272 | the pages of the specification are strictly increasing and exactly those of the range with a PTE |
| Walk.SlotStep | kernel/mem/walk.c:8-55 | the next address after a slot is the next page in order, over the gap, or the end |
| Areas.CutLookup | kernel/vma/remove.c:38-61 | cutting a range out of the VMAs takes exactly its pages away |
| Areas.CutEmpty | kernel/vma/split.c:57-74 | cutting out an empty range takes everything from there to the end of the VMA that it is strictly inside of, and otherwise nothing |
| Areas.InsertLookup | kernel/vma/insert.c:20-67 | inserting a VMA gives exactly its pages its flags |
| Areas.MergeLookup | kernel/vma/merge.c:14-45 | merging adjacent VMAs gives no page other flags |
| Areas.MergeAround | kernel/vma/merge.c:51-72 | with the VMA before and the one after: sorted, the same flags on every page, and where the VMA returned begins |
| Places.Scan | kernel/vma/insert.c:139-153 | a loop of add_vma in 64-bit arithmetic: the first free candidate, or none; it leaves the user half exactly if no candidate is free and the last step goes below 0 |
| Places.FindPlace | kernel/vma/insert.c:124-157 | the address asked for, else the first free one on the way down from there, else from the end of the user half; outside the user half, or without end, exactly under `Strays` |
| Places.WideGapFound | kernel/vma/insert.c:114-122 | a gap of twice the size less one page holds one of the addresses tried |
| Places.NarrowGapMissed | kernel/vma/insert.c:114-122 | the input on which a gap of the size is missed |
| Places.EscapeHappens | kernel/vma/insert.c:139-143 | the input on which the search leaves the user half |
| Places.NeverHappens | kernel/vma/insert.c:139-143 | the input on which the search does not end |
| Cow.PopulatePage | kernel/vma/populate.c:18-63 | populating inside a VMA keeps every task's contents, and writable pages private |
| Cow.FaultRenews | kernel/mem/populate.c:81-127 | after a fault in a shared 2M page all its 512 pages have the permissions of the VMA of the fault |
| Cow.FaultFits | kernel/vma/populate.c:18-63 | after a fault the writable entries lie in writable VMAs if and only if it did not renew a shared 2M page that reaches out of the writable VMAs |
| Cow.WalkAlone | kernel/mem/insert.c:25-94 | an address space without shared pages stays so in every walk, except that page_insert shares the page it inserts |
| Cow.LessFits | kernel/mem/remove.c:66-85 | unmapping, and clearing PAGE_WRITE, keep the writable entries in writable VMAs |
| Spill.SpillHappens | kernel/mem/populate.c:81-127 | a state of two tasks in which all entries fit their VMAs and the next fault breaks that |
| Spill.SpillOpens | kernel/mem/populate.c:81-127 | after that fault a page of a read-only VMA can be written |
| Spill.StaleHappens | kernel/vma/syscall.c:145-154 | a state of two tasks in which munmap of an empty range takes pages out of the VMAs and leaves them mapped |
| Spill.StaleShows | kernel/vma/syscall.c:98-143 | when these pages are mapped again they show the old bytes and not zeros |
| Forking.EmptyUnmapExact | kernel/vma/syscall.c:145-154 | munmap of an empty range takes nothing from the address space if and only if it is not strictly inside a VMA |
| Forking.EmptyUnmapKeeps | kernel/vma/remove.c:38-53 | afterwards all mapped pages lie in VMAs if and only if no page of what it took was mapped |
| Forking.FreeSame | kernel/vma/insert.c:20-67 | a range meets no VMA if and only if it has no page of the task, provided no VMA is empty |
| Forking.SpillsMixed | kernel/vma/populate.c:18-63 | a fault breaks it only where 2M reach from a writable VMA into one that is only readable |
| Cow.SharedNotWritable | kernel/sched/fork.c:66-81 | a block behind an entry without PAGE_WRITE is writable nowhere |
| Cow.CopyingInsert | kernel/sched/fork.c:66-81 | one turn of fork's loop: the child has what the parent has mapped up to the page, with 2M pages as a whole, and neither can write it |
| Cow.CopyingInside | kernel/sched/fork.c:66-81 | the failing insertions inside a 2M page are harmless, since the page came with its first one |
| Cow.ClearWhereFree | kernel/mem/insert.c:55-94 | fork's insertions meet neither a 2M page nor a table in their way |
| Cow.PrivateFrame | kernel/mem/populate.c:24-127 | the frame of a private page is behind no other page of any address space |
| Cow.WritePage | kernel/mem/populate.c:24-127 | a store to a private page is seen in that page only |
| Eager.ReadsBack | kernel/sched/fork.c:33-99 | the reference: a load gives the byte stored last, and a store shows in no other byte of any task |
| Eager.ForkCopies | kernel/sched/fork.c:33-99 | the reference: after fork the child reads what its parent reads |
| Eager.ForkSeparates | kernel/sched/fork.c:33-99 | the reference: what one of them stores after fork the other does not read |
| Eager.MapZeros | kernel/vma/syscall.c:98-143 | the reference: new pages read as zero and allow reading, writing and executing as the flags say |
| Eager.UnmapForgets | kernel/vma/syscall.c:145-154 | the reference: unmapped pages cannot be read, and the others stay |
| Eager.RunsSnoc | kernel/sched/fork.c:33-99 | a run of the eager machine, with the notes on tasks that took part in a fork, whose read-only pages may have been opened, or that may have an empty VMA, can be extended by one step |
| Forking.Tasks.PageFault | kernel/vma/pfault.c:14-33 | refused exactly if the VMA does not allow the access; otherwise the page is mapped for the user, writable and executable exactly if the VMA is, a shared 2M page as a whole, and nobody else has it; no task's contents change; entries stay within their VMAs if and only if the fault does not spill; fails only without a free page, or without a free 2M block where the page is in a shared one or the VMA has all of the 2M around it |
| Forking.Tasks.PopulateVma | kernel/vma/populate.c:18-63 | the same for the VMA of the fault; where it has all of the 2M around the page, all 512 pages are mapped and private |
| Forking.WriteXorExecute | kernel/vma/populate.c:33-38 | in every state of every run the processor lets a task execute a mapped page exactly if its VMA does, and write it only if it cannot be executed |
| Cow.RenewsAlike | kernel/mem/populate.c:81-127 | renewing a shared 2M page across VMAs never changes PAGE_NO_EXEC: its pages all had the same |
| Forking.Tasks.Clone | kernel/sched/fork.c:33-99 | the child's pages are a copy of the parent's, neither can write them without a fault, and no other task's pages change; fails only without a free page |
| Forking.Tasks.CloneAreas | kernel/sched/fork.c:50-82 | the loops over VMAs and pages share everything the parent has mapped; the child has the same VMAs, merged where they are alike; fails only without a free page |
| Forking.Tasks.ClonePage | kernel/sched/fork.c:66-81 | the child's page is behind the parent's block and not a copy, unless the child's pages were merged into a 2M page; fails only without a free page |
| Forking.Tasks.UserWrite | kernel/vma/pfault.c:14-33 | a store acts as on pages of one's own, after a fault if need be; it goes through exactly if the VMA is writable or the entry already is, and entries stay within their VMAs unless the fault spills; fails only as the fault does |
| Forking.Tasks.UserRead | kernel/vma/pfault.c:14-33 | a load gives the byte the eager machine would give; fails only as the fault does |
| Forking.Tasks.UserExec | kernel/vma/pfault.c:14-33 | an instruction fetch goes through exactly if the eager machine has the page readable and executable; fails only as the fault does |
| Forking.Tasks.Munmap | kernel/vma/remove.c:38-61 | the range disappears from the task and from nobody else; never fails for a 2M-aligned range, otherwise only without a free page; an empty range strictly inside a VMA takes the VMA from there on and unmaps nothing, and the tasks are in order afterwards exactly if nothing was mapped there |
| Forking.Tasks.Mmap | kernel/vma/syscall.c:98-143 | refused if the protection bits or the range are not allowed; otherwise placed at the first free address of the search, or refused exactly if there is none; the new pages read as zero, also where the VMA is merged with its neighbours; the address returned is theirs, or that of the pages with the same flags right below them; an inverted VMA past the user half, or no end, exactly under `Misplaces` |
| Forking.Tasks.Create | kernel/sched/task.c:129-156 | a task with nothing mapped; fails only without a free page |
| Forking.Tasks.Run | kernel/sched/fork.c:33-99 | copy-on-write refines eager copying: over every run of creation, fork, fault, read, write, instruction fetch, mmap and munmap steps every answer is one the eager machine gives, and the contents agree; stores to read-only pages are refused for every task that took part in no fork or had no mixed 2M since its last one; mmap answers with the first free place among the pages for every task that mapped no empty range; a run stops early only at a step for which the allocator had no page, or no 2M block where one is needed, or before a munmap or mmap under `Overcuts` or `Misplaces`, and all answers up to there are right |
| RbTree.RotatedInorder | lib/rbtree.c:5-25 | rotation keeps the order |
| RbTree.Rb.RotateNode | lib/rbtree.c:5-25 | the pointers left behind stand for the rotated tree, with consistent parent links and root |
| RbTree.Rb.Balance | lib/rbtree.c:78-117 | terminates with a black root, no red child of a red node, equal black heights and the same order |
| RbTree.Rb.Insert | kernel/vma/insert.c:26-53 | attaching a leaf and rebalancing keeps a red-black tree, and the node comes right before or after its parent in order |
| RbTree.HeightBound | lib/rbtree.c:78-117 | such a tree of n nodes has height at most 2 log2(n + 1) |
| RbTree.Rb.DoRemove | lib/rbtree.c:119-162 | the node's subtree is replaced by one with the same order without the node, links consistent |
| RbTree.Rb.Remove | lib/rbtree.c:119-162 | exactly the node leaves the order |
| RbTree.RemovedInorder | lib/rbtree.c:119-162 | the predecessor takes the node's place in order |
| RbTree.Rb.Outermost | lib/rbtree.c:27-39 | the first or last node in order of a subtree |
| RbTree.Rb.Closest | lib/rbtree.c:41-56 | the neighbour in order, NULL at the ends |
| RbTree.Rb.End | lib/rbtree.c:58-66 | rb_first and rb_last |
| CircularList.Lists.InsertAfter | lib/list.c:9-16 | the node comes right behind the other in the circle; memory outside the list, and so every other list, stays |
| CircularList.Lists.InsertBefore | lib/list.c:18-25 | the node comes right before the other |
| CircularList.Lists.Del | lib/list.c:27-34 | the node leaves its list and is a list of its own |
| CircularList.Lists.Add | lib/list.c:36-39 | the sequence gets a new first element |
| CircularList.Lists.AddTail | lib/list.c:41-44 | the sequence gets a new last element |
| CircularList.Lists.PopTail | lib/list.c:46-57 | the last element comes off, NULL if there is none |
| CircularList.Lists.Pop | lib/list.c:59-70 | the first element comes off, NULL if there is none |
| CircularList.Lists.Neighbour | include/list.h:38-46 | the next or previous element, NULL at the ends |
| CircularList.Lists.Init | lib/list.c:3-7 | an empty list; all others stay as they are |
| CircularList.RingFrame | lib/list.c:9-70 | an operation on one list disturbs no list that shares no node with it |
| VmaLayer.Space.FindVma | kernel/vma/find.c:17-52 | the tree search agrees with a linear scan for the first VMA that ends above the address |
| VmaLayer.Space.InsertVma | kernel/vma/insert.c:20-67 | -1 exactly if the interval overlaps a VMA; otherwise list and tree have it at its place in order, sorted and disjoint |
| VmaLayer.Space.AddVma | kernel/vma/insert.c:79-103 | NULL exactly without memory or with an overlap, and then one VMA is lost if there was memory; otherwise none is lost and it goes in at its place and is merged around, and exactly its addresses get its name and flags; the VMA returned begins below them exactly if it was merged with the one before |
| VmaLayer.Space.SplitVma | kernel/vma/split.c:13-49 | the VMA is cut in two at an address strictly inside it; both parts keep name, flags and source, and each has its own length; no address changes its meaning, no VMA is lost, and NULL exactly where a cut is needed without memory |
| VmaLayer.Space.SplitVmas | kernel/vma/split.c:57-73 | the up to three parts, and which one is returned; new parts keep name, flags and source and have their own length; NULL exactly if there is not memory for the cuts; no VMA is lost and no address changes its meaning, also then |
| VmaLists.CutsAre | kernel/vma/split.c:57-73 | how many new VMAs the split takes: one for each end of the range inside the VMA, and none for the end of an empty range |
| VmaLists.SplitTiles | kernel/vma/split.c:57-73 | the parts follow one another from the base to the end of the VMA, and where the middle one begins and ends |
| VmaLists.SplitBacking | kernel/vma/split.c:31-37 | a split keeps the source byte behind every address if and only if there is no source |
| VmaLists.SourceShifts | kernel/vma/split.c:31-37 | a program whose second page shows the bytes of the first after munmap of that |
| VmaLists.SplitMerges | kernel/vma/merge.c:14-45 | the parts of a split merge again if and only if it was in the middle of a page-aligned VMA |
| VmaLists.MergeBacking | kernel/vma/merge.c:14-45 | merging keeps the source byte behind every address if and only if there is no source or one of the VMAs is empty |
| VmaLists.SplitMeaning | kernel/vma/split.c:13-49 | splitting changes the meaning of no address |
| VmaLayer.Space.MergeVma | kernel/vma/merge.c:14-45 | neighbours merge exactly if aligned, adjacent and alike, and the right one is given back |
| VmaLayer.Space.MergeVmas | kernel/vma/merge.c:51-72 | merges with the VMA before and then with the one after, each exactly if they are adjacent and alike; the meaning of no address changes |
| VmaLists.MergedStart | kernel/vma/merge.c:51-72 | the VMA returned begins where the given one did, if and only if no non-empty VMA before it was merged |
| VmaLists.ReturnedBelow | kernel/vma/syscall.c:130-142 | the input on which mmap returns an address below the new pages |
| VmaLists.MergeMeaning | kernel/vma/merge.c:14-45 | the same for one pair |
| VmaLayer.Space.RemoveVma | kernel/vma/remove.c:9-18 | exactly that VMA leaves list and tree and is given back |
| VmaLayer.Space.DoRemoveVma | kernel/vma/remove.c:38-53 | the VMA is replaced by what lies outside the range; fails exactly if there is not memory for the cuts, and then no address changes its meaning; no VMA is lost |
| VmaLayer.Space.RemoveVmaRange | kernel/vma/remove.c:58-61 | nothing changes if no VMA meets the range; otherwise every VMA that meets it is cut; it stops only at a VMA that reaches over an end of the range and without memory, and then exactly those before it are cut; no VMA is lost |
| VmaLists.CutOutMeaning | kernel/vma/walk.c:11-46 | which addresses lose their meaning |
| VmaLists.RemoveExactly | kernel/vma/remove.c:58-61 | exactly the range is removed if and only if the range is not empty and does not wrap, or the stated conditions on the VMAs hold |
| VmaLists.EmptyRangeRemoves | kernel/vma/walk.c:11-46 | an empty range inside a VMA removes the rest of the VMA |
| VmaLayer.Space.CheckUserVmaRange | kernel/vma/user.c:12-50 | 0 exactly if every address lies in a VMA with the flags and the empty VMAs inside have them too; otherwise the address reported is the first of the range that is not accessible, or has an empty VMA without the flags |
| VmaLists.EmptyVmaRefused | kernel/vma/user.c:12-50 | an accessible range that is refused because of an empty VMA |
| VmaLayer.Space.Mquery | kernel/vma/syscall.c:17-96 | the answer contains the address, -1 exactly above USER_LIM |
| VmaLists.FirstBadOnly | kernel/vma/user.c:12-50 | there is at most one such address, and one only in a range that is refused |
| VmaLists.QueryExact | kernel/vma/syscall.c:17-96 | a VMA is reported exactly if one has the address, and a gap reaches from one VMA to the next |
| VmaLists.QueryFacts | kernel/vma/syscall.c:17-96 | the answer is a VMA or a gap in which no address has a meaning |
| VmaLayer.Space.PrintVmas | lib/vma.c:5-31 | terminates; the lines tile [0, USER_LIM) without gap or overlap and show every non-empty VMA exactly once, in order |
| VmaLists.AllShown | lib/vma.c:5-31 | all VMAs are shown if and only if none is empty |
| VmaLists.EmptyVmaHidden | lib/vma.c:5-31 | a VMA that is never shown |
| VmaLists.BoundaryNext | lib/vma.c:5-31 | each answer starts where the one before ended |
| Slab.SlabSetup | kernel/mem/slab.c:95-110 | objects with headers and the footer fit in a page, one more object would not, and objects are no larger than aligning makes them |
| Slab.Kmem.SlabAllocChunk | kernel/mem/slab.c:44-73 | a new slab with all objects free, exactly if the frame allocator has a page; exactly that page is taken |
| Slab.Kmem.SlabAlloc | kernel/mem/slab.c:126-147 | an object that was not live becomes live; NULL exactly without partial slab and free page; with a partial slab the object comes from the first one and the frame allocator is not touched, otherwise exactly one page is taken |
| Slab.Kmem.SlabFree | kernel/mem/slab.c:160-183 | exactly that object stops being live, and the page goes back to the frame allocator exactly with the last one; otherwise that is not touched |
| Slab.Kmem.SlabFreeChunk | kernel/mem/slab.c:78-86 | the page is freed, no live object is affected |
| Slab.Kmem.Kmalloc | kernel/mem/kmem.c:43-60 | NULL for 0, for more than 1024 bytes, or without memory; otherwise a new object of the least size class that has the requested bytes; a page is taken exactly if that class has no partial slab |
| Slab.Kmem.Kfree | kernel/mem/kmem.c:63-66 | exactly that object is freed, and its page exactly if it was the last |
| Slab.LiveSeparate | kernel/mem/slab.c:44-183 | the bytes of a live object lie in one page and belong to no other live object, to no header and to no footer |
| Slab.ReplaceSlab | kernel/mem/slab.c:126-183 | every step keeps: free_count is the length of the free list, a slab is on full exactly if it is 0 and on partial otherwise |
| Spinlock.StepInv | kernel/spinlock.c:46-199 | every step of every CPU keeps the invariant |
| Spinlock.MutualExclusion | kernel/spinlock.c:46-199 | in every reachable state a lock has at most one holder and is locked exactly while it has one |
| Spinlock.RankIsUnion | kernel/spinlock.c:63-78 | between calls a CPU's spinlock_rank is the union of the ranks it holds |
| Spinlock.LastInFirstOut | kernel/spinlock.c:136-199 | between calls a CPU can unlock exactly the lock it took last, of all locks |
| Spinlock.OwnerIsHolder | kernel/spinlock.c:20-28 | between calls the cpu field names the CPU in exactly the locks it holds |
| Spinlock.LockInOrder | kernel/spinlock.c:46-76 | between calls a CPU can lock exactly the locks that outrank all it holds |
| Spinlock.LockUnlock | kernel/spinlock.c:46-199 | however the CPUs interleave, spin_lock returns only with the lock as the last one, which can then be unlocked; unlock takes three steps after its checks and gives back what was held and the rank |
| Spinlock.TryLock | kernel/spinlock.c:89-134 | trylock takes three steps at most after its checks; it returns 1 with the lock as the last one and its rank, or 0 with nothing changed, and then the lock was taken on the way |
| Spinlock.Uncontended | kernel/spinlock.c:46-86 | a free lock is taken in four steps if no other CPU moves |
| Spinlock.UnlockSteps | kernel/spinlock.c:136-199 | and given back in four |
| Spinlock.SomeoneMoves | kernel/spinlock.c:46-199 | in every reachable state some CPU is not held up by a lock |
| Spinlock.ReleaseInOrder | kernel/spinlock.c:163-188 | the two comparisons of ranks accept exactly the most significant bit |
| Spinlock.NoCircle | kernel/spinlock.c:46-199 | in no reachable state do CPUs spin on each other's locks in a circle |
| Spinlock.TopRankStuck | kernel/spinlock.c:163-188 | a lock of rank 2^63 can never be released |
| Sched.Scheduler.Yield | kernel/sched/sched.c:50-147 | runs the first runnable task in line, in the order of the run queue and then of the next queue |
| Sched.Scheduler.PopRunnable | kernel/sched/sched.c:89-110 | drops tasks that are not runnable and takes the first that is |
| Sched.Scheduler.Refill | kernel/sched/sched.c:137-147 | the next queue becomes the run queue in the same order |
| Sched.NobodyLost | kernel/sched/sched.c:56-72 | no runnable task leaves the CPU's queues, and none appears |
| Sched.RoundRobin | kernel/sched/sched.c:56-147 | between two runs of a task every other task that stays runnable runs exactly once |
| Sched.TurnComes | kernel/sched/sched.c:56-147 | a task runs after at most as many ticks as tasks are ahead of it |

## Left out

- Memory.PageTables.UnmapPageRange: the range is page-aligned and lies in the user half; the wrapped range from 0 to 0 is in `Walk`.
- Memory.PageTables.PageInsert: a 4K page over a mapped 2M page and a 2M page over a table are excluded, because the code neither splits nor reclaims there.
- Forking.Tasks.Run: ends at the first step whose allocation fails; the retry after oom_kill_task is left out.
- Memory.PageTables.PdeCallback: stops when a split fails; the code goes on. remove_pde and protect_pde ignore the -1 of ptbl_split. If the split found no page for its table, the unmapping walker then calls ptbl_free on the 2M entry, which reads the page's own bytes as a table and unmaps the 2M as a whole if no present bit is set in them. If it ran out later, the pages not yet copied are lost, and the reference to the 2M page as well; the model keeps that reference in `held`.
- Forking.Tasks.Munmap: ranges that reach above USER_LIM or wrap around are excluded; sys_munmap does not refuse them.
- Forking.Tasks.Mmap: without MAP_FIXED, which unmaps the range first, and MAP_POPULATE; kmalloc of the VMAs succeeds, and the VMAs that failed attempts do not give back are left to `VmaLayer.Space.AddVma`; the end of the range does not wrap around 64 bits.
- Spill.SpillHappens: the state is given as tables, counts and VMAs, and not reached by a run from boot; `StaleHappens` starts from the same state.
- Forking.Tasks.Clone: kmalloc of the child's VMAs succeeds.
- Slab.Kmem.Kmalloc: the bytes of the objects, which slab_free clears.
- Areas.MergeAround: whether names, sources and lengths agree is left open; `VmaLayer.Space.MergeVmas` has them. `Areas` keeps to whole pages and to what faults, fork and munmap look at, `VmaLists` has addresses, names, tree and list.
- Walk.WalkRange: base and end are canonical addresses.
- RbTree.Rb.Remove: the recolouring loop of rb_remove, which reads the colour of a node that do_remove has cleared.
- Kernel-half entries of the PML4, which all tasks share, and static mappings with count 0.
- The PAGE_HUGE bit that populate_region with that flag also stores in 4K entries; nothing reads it there except the page size that mquery reports.
- mprotect, PROT_NONE entries, VMAs backed by an executable, swapping, the dirty and accessed bits.
- Out-of-memory killing, task_rss, active_pages and the kernel daemons.
- Memory hot-plug in the buddy allocator (buddy_grow), interior-page debugging marks.
- The TLB is taken to be coherent; interrupts, CR3 loads and assembly are left out.
- kfree of an address that kmalloc did not return.
- Locks of rank 0, which the rank rules do not order, and the big kernel lock.
- The branch of sched_yield for a lock that could not be taken, migration between CPUs, time budgets.
- wait, waitpid, kill and task_free.
- Devices, boot, console, monitor, ELF loading, string and printf helpers.
