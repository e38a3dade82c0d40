# A verified model of an i386 kernel

This project models the parts of the kernel under `kernel/arch/i386` that carry its hardest invariants, and proves what they
promise: the boundary-tag heap and the physical frames behind it, the page tables and the way they are built at boot, the
scheduler, the printing engine, and the two text screens.

Check it with `dafny verify dfyconfig.toml`.

## How the model is built

| files | what they model |
|---|---|
| `Machine.dfy` | 32-bit words, and the rounding of `mem.h` |
| `Heap.dfy`, `HeapSteps.dfy`, `HeapMoves.dfy`, `HeapStages.dfy`, `Coalescing.dfy`, `FirstFit.dfy` | the heap on values: chunks, descriptors in memory, the free list, and what each operation does to all three |
| `Frames.dfy`, `KernelState.dfy`, `Requests.dfy` | frames, pages and the page free list; the state of the kernel heap as one value, and its steps |
| `KernelMemory.dfy` | the class `Kernel`: `alloc`, `free`, `page_new` and `page_free`, word by word over memory |
| `HeapTheorems.dfy`, `HeapScenarios.dfy` | what the invariant of the heap means, what a broken heap is, and three runs that lead to such states |
| `PageTables.dfy`, `Paging.dfy` | two-level tables on values, and the routines of `page.c` that reach them through virtual addresses |
| `BootSpace.dfy`, `BootTables.dfy`, `Boot.dfy` | `init.c`: the address space that boot asks for, the tables that describe it, and the loops that build them |
| `HeapTables.dfy` | how boot leaves the tables to the kernel heap, and why the flat page table of the heap stands for the two-level ones |
| `Rotation.dfy`, `Processes.dfy`, `Histories.dfy`, `Scheduler.dfy` | `proc.c`: whose turn it is, what a switch changes, what holds over all histories, and the code itself |
| `Screen.dfy`, `Drivers.dfy` | an unbounded tape of rows, where text stands cell by cell, and the two drivers that show the end of the tape |
| `Numerals.dfy`, `KernelMath.dfy`, `Printer.dfy`, `Formats.dfy`, `Printk.dfy` | numerals, `math.h`, the number printers, format strings, and the driver of `_print.c` |
| `Specifiers.dfy` | what format strings come to, on their characters and arguments alone |

Routines that change memory, tables or queues in place are methods of classes over arrays and linked nodes. Each is proved against
a specification on values, and the theorems are lemmas about those values.

### Memory and nested calls

`alloc` calls `page_new`, which calls `free`; `free` calls `page_free`, which calls `alloc`. The class `Kernel` has the same calls.
Its state is in one of three modes: at rest, growing (`end` is raised and the descriptors of the new block are not written yet), and
shrinking (inside the page loop of `free`). These are predicates on the fields of the source, and no flag says which of them holds.
A `free` while growing is proved to succeed and to leave the end of the heap alone, even when it merges with alignment padding. An
`alloc` that extends the heap while shrinking is run as in the source, and so is the next turn of the loop, up to a fault. All loads and stores of the class go
through `Load` and `Store`, which demand that the page is a mapped heap page; so no step takes a page fault unless it says so.

Predicates of the form `true == (...)` are conjunctions: the equation makes the verifier pass them on as one fact, which keeps proofs
over the whole state quick.

### What was found

* The page loop of `free` starts one page too high when `end` is on a page boundary (`kernel/arch/i386/alloc.c:227`), and an allocation
  inside that loop is lost when it extends the heap, because `end` is then overwritten (`kernel/arch/i386/alloc.c:232`). The result of
  `Kernel.Free` is a function of the heap before the call, `Requests.FreeOutcome`, which counts the requests that the free list serves
  against the turns of the loop:
  * `Intact` if and only if `FreeSafe` holds: the heap is in order.
  * `Broken`: `free` returns, and `HeapTheorems.RuinIsFinal` proves that no choice of chunks, lists and places of frames makes what it
    leaves behind a heap again. The page free list starts at a block beyond the new end, or names a frame that is somewhere else.
  * `Crashed`: a request that is not served extends the heap next to a page that the loop has already unmapped, and the store to the
    descriptor there faults.
  * `Adrift`: neither is claimed. The loop has more turns to come over a page free list that is no longer sound, and over memory that the
    model does not describe. This takes two turns or more, and an `end` that is 8 bytes below a page boundary while the free list serves
    nothing, or on a boundary while it serves one request, or none with a page free list that is not empty.

  The last step of `kmalloc_test` (`kernel/arch/i386/alloc.c:337-338`) crashes a new heap that starts on a page boundary, as boot makes it;
  `HeapScenarios.FreeLargeBlock` runs it for every start. `HeapScenarios.FreePageBlock` frees one page instead, and ruins the heap.
* A padding gap of exactly one descriptor makes `alloc` die (`kernel/arch/i386/alloc.c:146-148`). The result `Died` has the exact condition.
* Freed pages are remembered in heap blocks, so a heap without callers' blocks need not be empty:
  `HeapTheorems.EmptyWithoutListedPages`. `HeapScenarios.FreeThreeBlocks` allocates three blocks, frees all of them, and is left with one.
* The comment at `kernel/arch/i386/init.c:130-136` says that page tables allocated while the tables are being mapped are accounted for.
  The estimate at lines 142-149 is zero unless all 1024 slots have a table (`BootSpace.NoExtraTables`), so boot is right
  exactly when the last loop needs no table; `BootSpace.FitByAddress` says when that is, and `BootSpace.SomeDoNotFit` gives a kernel
  for which it is not.
* A priority of zero is worth 65536 ticks, because the counter is decremented before it is compared (`kernel/arch/i386/proc.c:50`).
* `div64` is exact if and only if the product just above its dividend fits in 64 bits; the decimal printers get their first digit right
  exactly below 10^19 (`KernelMath.DecimalIsExact`).
* `page_table_map` of a table that is reached through the slot being set looks the frame up in the table itself, because the lookup
  table has changed by then (`kernel/arch/i386/page.c:32-38`). `Paging.ReachesItself` says which tables are found again, in terms of the
  tables before the call, and `Paging.SomeTableIsLost` gives one that is not.
* `alloc_new_heap` reads the entry of the first heap page through the lookup table (`kernel/arch/i386/alloc.c:248`). After boot that
  faults if the tables end where a directory slot does: `HeapTables.HeapStartReadable` has the exact condition, and
  `HeapTables.SomeHeapFaults` a kernel.
* A new page table is not cleared (`kernel/arch/i386/proc.c:181-186`): all its words but that of the stack stay as the page had them, as the
  contract of `Scheduler.System.Register` says.
* `%p` of a four-byte pointer prints ten characters and counts eighteen (`kernel/arch/i386/_print.c:348`).
* `%hp`, `%hhp` and `%llp` are parsed but not printed (`kernel/arch/i386/_print.c:577-581`): they give `???`, and the letters after the
  first one are then printed as text.

### What is taken from outside

The addresses of the linker symbols and the contents of memory at boot are parameters. So are the interrupted contexts, the pages and
frames that a new process is given, and the arguments of `printk`. `invlpg`, `set_cr3`, `cli` and `sti` have no effect in the model.

## Model

| member | source | states |
|---|---|---|
| Machine.AlignIsLeast | kernel/arch/i386/mem.h:62-65 | rounding up gives the least multiple that is not below the address |
| Heap.LayoutFromLive | kernel/arch/i386/alloc.c:194-239 | in a heap at rest the live blocks alone determine every chunk and the end of the heap |
| Heap.EmptyWhenAllFreed | kernel/arch/i386/alloc.c:224-238 | a heap at rest without live blocks has no chunk, an empty free list, and ends where it began |
| Heap.WalkVisitsAll | kernel/arch/i386/alloc.c:32-35 | following the sizes in memory visits every chunk once, in address order, up to the end |
| Heap.Predecessor | kernel/arch/i386/alloc.c:44-48 | every chunk but the first has a chunk that ends exactly where it begins |
| Heap.FreeNodesAreSpaced | kernel/arch/i386/alloc.c:57-74 | list nodes in free payloads never overlap each other or a descriptor |
| HeapSteps.UnlinkKeepsLinks | kernel/arch/i386/alloc.c:57-65 | unlinking leaves a doubly linked list of the other nodes, in order |
| HeapSteps.PushKeepsLinks | kernel/arch/i386/alloc.c:67-74 | adding leaves a doubly linked list with the new node in front |
| HeapSteps.MoveKeepsLinks | kernel/arch/i386/alloc.c:121-130 | moving a node keeps its position in the list |
| HeapSteps.MergeKeepsTiling | kernel/arch/i386/alloc.c:200-222 | two neighbours made one still tile the heap |
| HeapSteps.SplitKeepsTiling | kernel/arch/i386/alloc.c:110-119 | a chunk cut in two still tiles the heap |
| HeapMoves.SplitStep | kernel/arch/i386/alloc.c:107-131 | the stores of a split bring tags, links and chunks back in agreement |
| HeapMoves.ExtendStep | kernel/arch/i386/alloc.c:177-184 | the three descriptor stores of an extension do the same for the new last block |
| HeapStages.TakeStep | kernel/arch/i386/alloc.c:102-106 | so do the stores of a perfect fit |
| HeapStages.PadStage | kernel/arch/i386/alloc.c:150-158 | so do those of alignment padding |
| HeapStages.MergeAfterStage | kernel/arch/i386/alloc.c:200-208 | so do those of merging with the next chunk |
| HeapStages.MergeBeforeStage | kernel/arch/i386/alloc.c:210-222 | so do those of merging with the previous chunk |
| HeapStages.PayloadStores | kernel/arch/i386/alloc.c:200-238 | stores of a caller inside its own block never disturb tags or links |
| Coalescing.SizePrevLeadsBack | kernel/arch/i386/alloc.c:44-48 | the free bit of `size_prev` tells whether the chunk before is free, and its size leads there |
| Coalescing.MergeAfterFacts | kernel/arch/i386/alloc.c:200-208 | after the first merge no free chunk follows the block, and no live block but it changed |
| Coalescing.MergeBeforeFacts | kernel/arch/i386/alloc.c:210-222 | after the second merge the block has live neighbours only |
| FirstFit.SearchFindsFirst | kernel/arch/i386/alloc.c:99-134 | the search returns the first chunk of the list that fits exactly or by more than a descriptor, and none only if none fits |
| FirstFit.FitOrNone | kernel/arch/i386/alloc.c:99-134 | a list has a first fit or no fit |
| FirstFit.CapacityIsExact | kernel/arch/i386/alloc.c:93-134 | the free list serves n page list nodes in a row if and only if n is at most a sum over its chunks |
| Requests.SizesDecide | kernel/arch/i386/alloc.c:90-187 | whatever an allocation does is decided by the sizes of the free chunks: which chunk serves it, what is left of it, and when the heap grows and where |
| Frames.PopPage | kernel/arch/i386/page.c:144-149 | taking a node off the page free list leaves a list that accounts for all other frames |
| Frames.PushPage | kernel/arch/i386/page.c:164-175 | recording a frame on the list accounts for it there and nowhere else |
| Frames.MapPage | kernel/arch/i386/alloc.c:170-175 | a held frame behind the next heap page is accounted for there |
| Frames.UnmapPage | kernel/arch/i386/page.c:95-101 | unmapping the last heap page takes its frame out of the map |
| Frames.FreshFrame | kernel/arch/i386/page.c:150-154 | a frame from the frontier was never handed out before |
| Requests.FirstWorld | kernel/arch/i386/alloc.c:242-259 | a new heap meets the whole invariant |
| KernelMemory.Kernel.constructor | kernel/arch/i386/alloc.c:242-264 | sets up such a heap over the frames that boot has used, mapping its first page only if it is absent |
| KernelMemory.Kernel.NodeUnlink | kernel/arch/i386/alloc.c:57-65 | the new memory and list head after unlinking a node |
| KernelMemory.Kernel.NodeAdd | kernel/arch/i386/alloc.c:67-74 | the new memory and list head after adding a node |
| KernelMemory.Kernel.ClearFree | kernel/arch/i386/alloc.c:77-81 | clears the free bit in both copies of the tag |
| KernelMemory.Kernel.SetFree | kernel/arch/i386/alloc.c:84-88 | sets it in both copies |
| KernelMemory.Kernel.TakeWhole | kernel/arch/i386/alloc.c:102-106 | a perfect fit becomes live and leaves the list; no live payload changes |
| KernelMemory.Kernel.Split | kernel/arch/i386/alloc.c:107-131 | the front of a chunk becomes live, and the rest takes its place in the list |
| KernelMemory.Kernel.FindFit | kernel/arch/i386/alloc.c:99-134 | returns the first fit of the list, or zero when there is none |
| KernelMemory.Kernel.ExtendHeap | kernel/arch/i386/alloc.c:139-186 | a block at the aligned end, frames drawn from the page free list first; dies exactly on a gap of eight bytes |
| KernelMemory.Kernel.MapPages | kernel/arch/i386/alloc.c:169-175 | maps one frame behind every new page, through nested calls of `free` that leave the new end alone |
| KernelMemory.Kernel.Alloc | kernel/arch/i386/alloc.c:90-187 | returns an aligned new block of the rounded size, inside the page loop of `free` too: with the least alignment the first free chunk of the list that has the size or at least 16 bytes more, and then neither the end nor a page nor a frame changes, and otherwise a block at the old end; no word of another live block changes; says exactly when it dies, and when it needs a page that is not mapped |
| KernelMemory.Kernel.PageNew | kernel/arch/i386/page.c:140-156 | a frame that nobody holds, from the list if it has one; frames are conserved |
| KernelMemory.Kernel.PageFree | kernel/arch/i386/page.c:164-175 | the frame goes on the list: at rest that of a page of boot, in the page loop of `free` that of the page it has come to; the exact conditions under which it faults, and under which it leaves the list starting at a node on the unmapped page |
| KernelMemory.Kernel.GivePagesBack | kernel/arch/i386/alloc.c:226-231 | what the page loop comes to, for every heap that it can start in: in order, ruined at its end, crashed, or not followed |
| KernelMemory.Kernel.Shrink | kernel/arch/i386/alloc.c:224-232 | the last block goes, its pages with it, and the end is where it began; each page given back is one node more on the list; the same outcomes |
| KernelMemory.Kernel.Free | kernel/arch/i386/alloc.c:194-239 | the block goes, merged with free neighbours, to the head of the list or with the end of the heap; no word of another live block changes; the outcome is `FreeOutcome` of the heap before, so the heap stays in order if and only if `FreeSafe` holds |
| HeapTheorems.HistoryIndependence | kernel/arch/i386/alloc.c:90-239 | two heaps at rest with the same live blocks have the same chunks, free set, end and mapped pages, whatever their histories |
| HeapTheorems.AllFreed | kernel/arch/i386/alloc.c:194-259 | once everything is freed, the heap is as it was set up |
| HeapTheorems.EmptyWithoutListedPages | kernel/arch/i386/page.c:164-175 | without callers' blocks the heap is empty if and only if the page free list is |
| HeapTheorems.BlocksAreDisjoint | kernel/arch/i386/alloc.c:90-187 | blocks of callers are aligned, inside the heap and apart from each other by a descriptor |
| HeapTheorems.WalkCoversHeap | kernel/arch/i386/alloc.c:32-35 | the walk over descriptors meets exactly the chunks, in ascending order |
| HeapTheorems.FramesConserved | kernel/arch/i386/page.c:140-175 | every frame below the frontier is where boot put it, behind one heap page, on the page free list once, or held by a caller, and only one of these |
| HeapTheorems.RuinIsFinal | kernel/arch/i386/alloc.c:224-232 | the state in which a broken `free` returns can be read as a heap at rest in no way |
| HeapTheorems.LostNode | kernel/arch/i386/alloc.c:226-232 | no heap at rest has a page list node at or beyond its end |
| HeapTheorems.StrayFrame | kernel/arch/i386/alloc.c:227-231 | a page free list that also names the frame of the page above the heap, whichever that was, fits no account of the frames, however many pages are given back after it |
| HeapScenarios.FreeLargeBlock | kernel/arch/i386/alloc.c:335-338 | the large allocation of `kmalloc_test`, freed on a new heap, makes the kernel fault, wherever the heap starts, unless its first block is 16 bytes below a page boundary |
| HeapScenarios.FreePageBlock | kernel/arch/i386/alloc.c:224-232 | an allocation of one page, freed on a new heap at a page boundary, leaves a heap that is ruined for good |
| HeapScenarios.FreeThreeBlocks | kernel/arch/i386/page.c:164-175 | a run after which no caller holds a block and the heap is not empty |
| HeapTheorems.PagesNeedService | kernel/arch/i386/alloc.c:224-232 | a loop of n pages is safe if and only if `end` is inside a page and the list serves n nodes |
| HeapTheorems.MappedPagesAreHeapPages | kernel/arch/i386/alloc.c:169-175 | mapped pages are exactly those that overlap the heap |
| PageTables.IndexSplit | kernel/arch/i386/page.c:62-70 | directory index, table index and offset are the digits of an address and stand for it alone |
| PageTables.LookupLeadsToTable | kernel/arch/i386/page.c:72-76 | the address in the lookup table leads to the entry that the processor walks |
| PageTables.ChangedHalves | kernel/arch/i386/page.c:79-116 | what each routine changes in an entry and what it keeps |
| PageTables.WriteRefines | kernel/arch/i386/page.c:87-92 | storing an entry changes one page of the flat address space |
| PageTables.WriteCoherent | kernel/arch/i386/page.c:78-116 | tables stay reachable if and only if the new entry moves none of them from its page |
| PageTables.RunRefines | kernel/arch/i386/page.c:78-116 | over every history of changes the two-level tables act as one flat map |
| PageTables.SlotCoherent | kernel/arch/i386/page.c:41-45 | setting a directory slot keeps all tables reachable if and only if its own table is found |
| PageTables.EmptySlotCoherent | kernel/arch/i386/page.c:47-60 | emptying a slot does if and only if no other table is reached through it |
| PageTables.MapTableCoherent | kernel/arch/i386/page.c:32-38 | a table mapped into an empty slot can be reached |
| PageTables.MapTableRefines | kernel/arch/i386/page.c:32-38 | it adds the pages that it describes and changes no other |
| Paging.Mmu.Walk | kernel/arch/i386/page.h:11-55 | the page walk of the processor (section 4.3 of the Intel SDM, volume 3A) |
| Paging.Mmu.GetEntry | kernel/arch/i386/page.c:118-123 | the entry of a page in the flat map |
| Paging.Mmu.GetPma | kernel/arch/i386/page.c:125-130 | the frame that the processor would use |
| Paging.Mmu.IsPresent | kernel/arch/i386/page.c:158-161 | whether an access would not fault |
| Paging.Mmu.RemapPage | kernel/arch/i386/page.c:78-85 | one page gets another frame and keeps its flags; exact condition for tables to stay reachable |
| Paging.Mmu.SetPageEntry | kernel/arch/i386/page.c:87-92 | one page gets the entry; same condition |
| Paging.Mmu.UnmapPage | kernel/arch/i386/page.c:94-101 | one page loses its present bit only; same condition |
| Paging.Mmu.DeletePage | kernel/arch/i386/page.c:103-109 | one page has no entry any more; same condition |
| Paging.Mmu.SetPageFlags | kernel/arch/i386/page.c:111-116 | one page gets other flags and keeps its frame; same condition |
| Paging.Mmu.SetDirEntry | kernel/arch/i386/page.c:40-45 | one slot of the directory and of the lookup table changes |
| Paging.Mmu.TableUnmap | kernel/arch/i386/page.c:47-60 | empties a slot; other tables stay reachable if and only if none is reached through it |
| Paging.Mmu.TableMap | kernel/arch/i386/page.c:32-38 | maps a table, also one that is reached through the slot being set; into an empty slot, all tables stay reachable; into one through which no other table is reached, exactly under a condition on the tables before |
| Paging.ReachesItself | kernel/arch/i386/page.c:32-38 | a table is found where it was mapped if and only if it is on a page boundary and, if it lies in its own slot, has for its own page the frame that is used for it |
| Paging.SomeTableIsLost | kernel/arch/i386/page.c:32-38 | tables that are all reachable, and a new one that is lost when it is mapped |
| BootSpace.BitOrBound | kernel/arch/i386/init.c:73 | flags that are added stay within the flag bits |
| BootSpace.PointedFacts | kernel/arch/i386/init.c:68-73 | the two stores of `init_page_map` point an entry to the frame |
| BootSpace.AllMapped | kernel/arch/i386/init.c:76-169 | disjoint ranges are all mapped as asked for, and nothing else is |
| BootSpace.NoExtraTables | kernel/arch/i386/init.c:140-149 | the estimate of further tables is zero unless every slot has one |
| BootSpace.FitMeansNoMoreTables | kernel/arch/i386/init.c:151-156 | the last loop needs no further table if and only if its pages lie in slots with tables |
| BootSpace.FitByAddress | kernel/arch/i386/init.c:151-156 | which is a comparison of two addresses |
| BootSpace.SomeDoNotFit | kernel/arch/i386/init.c:130-156 | a layout for which it needs one |
| BootTables.TableStep | kernel/arch/i386/init.c:37-47 | a cleared page becomes the table of a slot and describes nothing |
| BootTables.EntryStep | kernel/arch/i386/init.c:64-73 | a written entry describes its page and no other |
| BootTables.BootMapsAll | kernel/arch/i386/init.c:76-169 | after boot the processor translates every address of every region as asked for, through an entry with the flags that were asked for, and faults elsewhere |
| BootTables.BootSpaceIs | kernel/arch/i386/init.c:76-169 | after boot the init section is at its own addresses; text and read-only data lead to the frames behind it, with flags 5, and data and bss follow, with flags 7; the page directory, the lookup table, the screen at 0xB8000 and the tables are in the pages behind; the stack is in the last page; every other page faults |
| BootTables.SelfDescription | kernel/arch/i386/init.c:130-166 | after boot every table is found at its address in the lookup table if and only if the tables fit in slots with tables |
| BootTables.NothingAboveHeapEnd | kernel/arch/i386/init.c:168-188 | no page from the start of the heap up to the stack page is mapped |
| HeapTables.HeapAfterBoot | kernel/arch/i386/alloc.c:242-264 | the tables and frames that boot leaves meet all that a new kernel heap needs |
| HeapTables.HeapStartReadable | kernel/arch/i386/alloc.c:247-250 | asking whether the first heap page is present faults if and only if the page starts a slot without a table and page zero is not mapped |
| HeapTables.SomeHeapFaults | kernel/arch/i386/init.c:130-156 | a kernel whose tables fit and for which it does |
| HeapTables.EntriesRefine | kernel/arch/i386/page.c:78-116 | over every history of changes that spares the tables, the flat page table is the view of the two-level ones |
| HeapTables.BootTablesBelow | kernel/arch/i386/init.c:151-156 | after boot no table lies in the heap |
| HeapTables.HeapPagesRefine | kernel/arch/i386/alloc.c:169-175 | so whatever the heap does to its own pages after boot, its flat page table is what the processor walks |
| HeapTables.AddedIsChange | kernel/arch/i386/alloc.c:170-175 | mapping a page above the heap is such a change |
| HeapTables.RecordedIsChange | kernel/arch/i386/page.c:164-175 | so is giving a page back |
| Boot.Init.constructor | kernel/arch/i386/init.c:18-26 | the state before the first mapping |
| Boot.Init.PageClear | kernel/arch/i386/init.c:29-35 | zeros the page and nothing else |
| Boot.Init.TableNew | kernel/arch/i386/init.c:37-47 | the next frame, cleared, under the next distance in the lookup table |
| Boot.Init.PageMap | kernel/arch/i386/init.c:56-74 | maps one page, with a new table when its slot has none |
| Boot.Init.MapUpTo | kernel/arch/i386/init.c:83-98 | maps a whole range |
| Boot.Init.MapFixed | kernel/arch/i386/init.c:79-128 | maps all regions that are known beforehand, which `BootSpaceIs` lists |
| Boot.Init.MapTables | kernel/arch/i386/init.c:130-156 | maps the tables behind them |
| Boot.Init.FixLookup | kernel/arch/i386/init.c:158-166 | turns distances into addresses |
| Boot.Init.MapKernel | kernel/arch/i386/init.c:76-169 | builds exactly the address space of `BootSpaceIs`, writes nothing over the kernel image, and says when the tables describe themselves |
| Rotation.WithinSlice | kernel/arch/i386/proc.c:49-50 | while the running process has ticks left, only its counter moves |
| Rotation.Turn | kernel/arch/i386/proc.c:50-60 | then it goes to the end of the queue with a fresh counter |
| Rotation.FairStays | kernel/arch/i386/proc.c:46-60 | waiting processes always have their whole slice ahead |
| Rotation.Periodic | kernel/arch/i386/proc.c:46-79 | after as many ticks as all priorities together the queue and all counters are back, and each process ran for exactly its priority |
| Rotation.NobodyStarves | kernel/arch/i386/proc.c:46-79 | no process waits longer than a round |
| Processes.UnmapUndoesMap | kernel/arch/i386/proc.c:81-102 | taking out the tables of a process restores the kernel's own directory |
| Processes.MapInside | kernel/arch/i386/proc.c:81-90 | while they are in, each private slot holds its own entry |
| Processes.MapOutside | kernel/arch/i386/proc.c:81-90 | and every other slot is the kernel's |
| Processes.NextKeeps | kernel/arch/i386/proc.c:46-79 | `proc_next` keeps the invariant: one running process at the head of the queue, its tables and no others in the directory |
| Processes.TickKeeps | kernel/arch/i386/int_asm.s:32-39 | so does the timer interrupt, which rotates the queue by one tick |
| Histories.AlwaysOk | kernel/arch/i386/proc.c:46-192 | the invariant holds after every history of interrupts and registrations |
| Histories.NothingLeaks | kernel/arch/i386/proc.c:81-102 | in no reachable state does a private slot of another process hold anything |
| Histories.ContextsAreKept | kernel/arch/i386/proc.c:36-44 | a process goes on with the context it was last interrupted in, or registered with, whatever ran in between |
| Histories.RoundRestores | kernel/arch/i386/proc.c:46-79 | a round of interrupts restores the whole state but the saved contexts |
| Histories.RoundIsFair | kernel/arch/i386/proc.c:46-79 | and finds each process running exactly as often as its priority says |
| Histories.MappedIsCoherent | kernel/arch/i386/proc.c:81-90 | after a switch every table, private ones included, is where the lookup table says |
| Histories.AlwaysCoherent | kernel/arch/i386/proc.c:46-192 | so it is in every state that interrupts and registrations lead to |
| Scheduler.System.constructor | kernel/arch/i386/proc.c:274-297 | the kernel alone, running with one tick left |
| Scheduler.System.Rotate | kernel/arch/i386/proc.c:55-59 | the four stores rotate the linked queue, of one node too |
| Scheduler.System.MemMap | kernel/arch/i386/proc.c:81-90 | walks the list and maps it |
| Scheduler.System.MemUnmap | kernel/arch/i386/proc.c:92-102 | walks the list and empties its slots |
| Scheduler.System.SwitchProcess | kernel/arch/i386/proc.c:52-77 | the context switch |
| Scheduler.System.ProcNext | kernel/arch/i386/proc.c:46-79 | the scheduler step, which keeps the invariant |
| Scheduler.System.TimerInterrupt | kernel/arch/i386/int_asm.s:32-39 | store, next, load: returns the context of the process that is then current |
| Scheduler.System.NewPid | kernel/arch/i386/proc.c:104-117 | the nearest free identifier, around the end of the numbering |
| Scheduler.System.QueueAdd | kernel/arch/i386/proc.c:138-154 | appends a node, to an empty queue too |
| Scheduler.System.NewTable | kernel/arch/i386/proc.c:119-136 | the last word of the new table names the frame of the stack, and no other word of memory changes |
| Scheduler.System.Register | kernel/arch/i386/proc.c:119-192 | a new process on an identifier that was free, queued last, which starts at its entry point with user selectors and interrupts on; with its table in, every address of the page below 0xE0000000 leads to the frame of its stack, where it may write; no other word of memory and no other process changes |
| Scheduler.StackIsUsers | kernel/arch/i386/proc.c:181-186 | a table that ends with the entry of the stack, in the slot of the page below the kernel, makes the whole page the user's stack |
| Screen.WindowPut | kernel/arch/i386/vga.c:55-72 | what a character does to the screen depends on the screen alone |
| Screen.WindowPutAll | kernel/arch/i386/vga.c:74-78 | so it is for every text |
| Screen.TapeKeepsText | kernel/arch/i386/vga.c:55-72 | text behind the cursor is never rewritten |
| Screen.BreakShown | kernel/arch/i386/init_vga.c:54-59 | a line break above the last row changes no cell and goes to the start of the next row; in the last row every row moves up and a blank one comes in |
| Screen.PrintedOneMore | kernel/arch/i386/vga.c:74-78 | after any text each character is where the cells before it in the text put it, moved up by the rows that came in, and all other cells are as before |
| Screen.TextStands | kernel/arch/i386/vga.c:53-78 | text that ends on the screen moves nothing: cells before the cursor stay, and the k-th character of a line is k cells from the line's start |
| Drivers.InitVga.ScrollDown | kernel/arch/i386/init_vga.c:37-52 | every row moves up, and blank rows come in below |
| Drivers.InitVga.PutC | kernel/arch/i386/init_vga.c:54-75 | the screen shows the end of the tape with one character more; cell by cell, rows move up only if the cursor would leave the screen |
| Drivers.InitVga.Write | kernel/arch/i386/init_vga.c:77-81 | and for every text, each character at its place |
| Drivers.Vga.ScrollDown | kernel/arch/i386/vga.c:36-44 | every row moves up, and blank rows come in below |
| Drivers.Vga.LineBreak | kernel/arch/i386/vga.c:46-51 | the start of the next row, scrolled if it is below the last |
| Drivers.Vga.PutC | kernel/arch/i386/vga.c:53-72 | with a pending scroll done, from any position in the row below the screen, the screen shows the end of the tape with one character more, and cell by cell as for the other driver |
| Drivers.Vga.Write | kernel/arch/i386/vga.c:74-78 | and for every text, each character at its place |
| Drivers.Vga.SetPosition | kernel/arch/i386/vga.c:109-112 | the cursor at a row and a column |
| Drivers.PrintOnBoth | kernel/arch/i386/init_vga.c:37-81 | from the same screen both drivers show the same characters and cursor after every text |
| Drivers.PrintAcrossBoot | kernel/arch/i386/init.c:180-182 | changing from one driver to the other in the middle of a text makes no difference |
| Numerals.RoundTrip | kernel/arch/i386/_print.c:269-333 | reading a printed numeral gives the number back |
| Numerals.NoLeadingZero | kernel/arch/i386/_print.c:269-333 | there is no leading zero |
| Numerals.PaddedIsNumeral | kernel/arch/i386/_print.c:277-282 | the right number of last digits is the numeral |
| Numerals.LeadingDigit | kernel/arch/i386/_print.c:279-281 | dividing what is left by a power of the base gives the next digit, and leaves the digits after it |
| Numerals.BitsToDigits | kernel/arch/i386/_print.c:294-309 | how many octal or hexadecimal digits a number of so many bits has |
| KernelMath.Ilog10uDigits | kernel/arch/i386/math.h:37-62 | one less than the number of decimal digits |
| KernelMath.Ilog2u | kernel/arch/i386/math.h:72-82 | the position of the highest bit |
| KernelMath.DivisionIsExact | kernel/arch/i386/math.h:64-70 | the loop ends with the quotient if and only if the product above the dividend fits in 64 bits |
| KernelMath.Div64 | kernel/arch/i386/math.h:64-70 | returns one less than the first number whose 64-bit product exceeds the dividend, which is then the quotient |
| KernelMath.DecimalIsExact | kernel/arch/i386/_print.c:277-281 | for the powers of ten of the printers that is so exactly below 10^19, and the first digit is right for no other number |
| Printer.BytesRoundTrip | kernel/arch/i386/_print.c:273-275 | a number stored byte by byte is loaded again |
| Printer.SignedRoundTrip | kernel/arch/i386/_print.c:353-379 | reading a printed signed number gives it back |
| Printer.Console.LoadNumber | kernel/arch/i386/_print.c:272-275 | the number that the bytes stand for |
| Printer.Console.PrintDigits | kernel/arch/i386/_print.c:277-283 | prints the decimal numeral and counts its characters |
| Printer.Console.PrintDecUnsigned | kernel/arch/i386/_print.c:269-284 | the same for the number in memory |
| Printer.Console.PrintDecSigned | kernel/arch/i386/_print.c:353-379 | prints a number in two's complement, the smallest included |
| Printer.Console.PrintGroups | kernel/arch/i386/_print.c:294-333 | prints the numeral by groups of bits |
| Printer.Console.PrintOct | kernel/arch/i386/_print.c:286-299 | the octal numeral |
| Printer.Console.PrintHex | kernel/arch/i386/_print.c:301-333 | the hexadecimal numeral in either table |
| Printer.Console.PrintPtr | kernel/arch/i386/_print.c:335-351 | all digits of a pointer, and a count of eighteen |
| Formats.NumbersReadBack | kernel/arch/i386/_print.c:269-379 | what any number specifier prints reads as the number that it prints |
| Formats.TakenFits | kernel/arch/i386/_print.c:407-582 | a specifier ends before the NUL |
| Printk.LengthRead | kernel/arch/i386/_print.c:76-267 | a finished state of the parser is the specifier with the longest prefix |
| Printk.ParseFormat | kernel/arch/i386/_print.c:76-267 | the state machine finds the specifier of the reference definition, and reads nothing past the NUL |
| Printk.PrintString | kernel/arch/i386/_print.c:565-571 | prints a string up to its NUL |
| Printk.PrintNumber | kernel/arch/i386/_print.c:409-563 | prints and counts the number that a specifier shows of its argument |
| Printk.PrintFormat | kernel/arch/i386/_print.c:389-584 | prints one specifier and moves the index to its last character; unknown ones print `???` and leave it |
| Printk.Print | kernel/arch/i386/_print.c:586-607 | prints what the recursive reading of the format asks for, which the lemmas of `Specifiers` spell out on characters; the result is its length, plus eight for every four-byte pointer |
| Specifiers.UnsignedShown | kernel/arch/i386/_print.c:449-552 | `u`, `o`, `x` and `X` print the argument modulo 2^8 after `hh`, modulo 2^16 after `h`, whole without a prefix, and all eight bytes after `l` and `ll`, in bases 10, 8 and 16 without a leading zero |
| Specifiers.SignedShown | kernel/arch/i386/_print.c:409-441 | `d` and `i` print the number of 8, 16 or 32 bits that has the low bits of the argument in two's complement |
| Specifiers.PointersShown | kernel/arch/i386/_print.c:554-563 | `p` and `lp` print `0x` and all 8 or 16 digits |
| Specifiers.NumberStep | kernel/arch/i386/_print.c:586-607 | what follows a number is printed after it, with the arguments after its own |
| Specifiers.PointerStep | kernel/arch/i386/_print.c:586-607 | the same for a pointer |
| Specifiers.StringStep | kernel/arch/i386/_print.c:565-571 | `%s` prints its argument up to the NUL, and goes on |
| Specifiers.PercentStep | kernel/arch/i386/_print.c:573-576 | two percent signs print one |
| Specifiers.UnknownStep | kernel/arch/i386/_print.c:577-581 | a percent sign before anything else prints `???`, drops one character, and goes on |
| Specifiers.TextStep | kernel/arch/i386/_print.c:597-602 | text without percent signs is printed as it is |

## Left out

- KernelMemory.Kernel.Alloc: growth is assumed not to overflow 32 bits, which the source does not check.
- KernelMemory.Kernel.Free: is called for live blocks only. `Adrift` outcomes are not followed further, and what a crash leaves behind is not stated.
- KernelMemory.Kernel.GivePagesBack: the same two; among `Adrift` are the loops that would map a page to a frame which is in use, so that later stores change memory elsewhere.
- KernelMemory.Kernel.Shrink: the same.
- KernelMemory.Kernel.PageFree: at rest, for pages below the heap that boot mapped, as in `page_init_cleanup`; in the page loop of `free`, not for a request that would take the frame which the list names by mistake.
- KernelMemory.Kernel.constructor: takes a flat page table; `HeapTables.HeapStartReadable` says when reading it through the lookup table faults.
- KernelMemory.Kernel.MapPages: every page has a table, as `page_init_cleanup` provides for all slots of the kernel.
- Paging.Mmu.Walk: 4 KiB pages only; write and user permissions are not checked, only the present bits.
- KernelMath.Div64: operands with which the loop of the source never ends are not covered.
- Printer.Console.PrintDecSigned: eight-byte numbers of 2^31 and more are not covered, because the sign test shifts an `int` by 63.
- Printer.Console.PrintDigits: numbers of 10^19 and more are not covered, because `div64` is not exact for any of them and its result need not be a digit.
- Printer.Console.PrintDecUnsigned: the same.
- Printk.PrintNumber: eight-byte decimals as for these two.
- Printk.PrintFormat: the same eight-byte decimals.
- Printk.Print: the same eight-byte decimals.
- BootTables.BootMapsAll: supposes that sections are page aligned and in order, and that 1025 pages fit behind the kernel in both address spaces.
- Scheduler.System.constructor: the process table starts as zeros, which `kmalloc` does not promise.
- Scheduler.System.Register: the page and the frame that `kalloc` and `page_new` give are parameters, and so is what they hold.
- Histories.AlwaysCoherent: that the tables of processes lie in kernel memory and stay where they were is a hypothesis about physical memory.
- Drivers.PrintOnBoth: compares characters and cursors; the colour of blank cells differs between the drivers.
- The loops of `page_init_cleanup`, and `page_clear`.
- Memory of the page directory and the lookup table as part of the memory that they map.
- Alignments that are not powers of two from 8 to 4096.
- The TLB, interrupts inside the scheduler, and the task state segment.
- `vga_clear`, `vga_reset`, packing of colours, and printing that is interrupted by other printing.
- `strlen`, the variable-argument wrappers of `printk`, and passing on each character to a screen.
- Descriptor tables, interrupt vectors, the local APIC, and start-up code in assembly.
