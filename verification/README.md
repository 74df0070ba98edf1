# A verified model of the TrazelOS kernel

This project models the parts of TrazelOS (an x86-64 kernel) whose logic is plain C over explicit state, and proves
what they keep, for all inputs and over all runs. Each imperative source file is an imperative Dafny model (classes,
arrays, loops) proved against specification functions and predicates; the statements about runs are lemmas about those.

| files | part of the kernel |
|---|---|
| `Machine` | 64-bit unsigned arithmetic, page constants |
| `Bitmap`, `Pmm` | the bitmap and the physical page allocator |
| `PageTables`, `Clone`, `Walk`, `Vmm`, `Translation` | page tables as a tree of frames in physical memory; map, unmap, clone, delete; the processor's walk |
| `HeapSpec`, `Heap` | kmalloc and kfree: two intrusive lists, blocks tiling pages, large blocks |
| `PhysBytes`, `Loader`, `Costs`, `Brk`, `Programs` | physical memory by bytes, ELF segments, what mapping costs, brk, the address space of a new program |
| `UserMemory` | the kernel's accesses through user pointers |
| `ProcSpec`, `ProcInv`, `ProcRuns`, `ProcContexts`, `ProcScenes`, `ProcKeys`, `ProcFiles`, `ProcCalls`, `ProcStreams` | the process machine as steps, its invariant, what each call means, and theorems over runs |
| `RingBuffer`, `Vfs`, `Processes` | the ring buffer, open files, and the process manager in its imperative form |
| `Books`, `Kernel`, `KernelRuns`, `KernelViews` | processes, address spaces and heap over one allocator: fork, wait, dispatch, execve, brk, kmalloc, runs of them, and what programs see of them |
| `BlockDevice`, `Fat12` | byte reads over blocks, FAT12 chains, contents and directories |

`dafny verify dfyconfig.toml` checks everything.

## How to read it

- Physical memory is a map from frame number to a table of 512 entries or a page of bytes. `Vmm.AddressSpaces` keeps,
  for every pagemap, the tree its lower half spells; the invariant is that every tree is in memory, all frames are
  distinct and in use, and no two pagemaps share one.
- The heap's headers are a map from address to size and links. `HeapInvariant.Core` says that both lists are linked
  both ways, and that live, free and super blocks together tile the acquired pages.
- A step of the process machine is one kernel entry: interrupts are off inside the kernel, except in the idle loop,
  which is its own step (`Wake`). `Panic` ends a run; `Undefined` is a use of a released file. The class
  `Processes.ProcessManager` has the queues with their links, and its methods are proved to do what the steps say.
- `Kernel.System` puts processes, address spaces and heap over one allocator. An entry of the kernel is `Enter`,
  `EnterBrk` or `Execve`; the kmalloc and kfree calls it makes are `HeapWork`, and what it writes into its blocks is
  `OwnWrite`. Runs (`KernelRuns`) mix them in any order, so they include the order of the source.
- The page tables follow section 4.5 of the Intel SDM, Volume 3A, PT_LOAD follows chapter 5 ("Program Header") of the
  System V gABI, and the packed entries follow section 4.1 of the Microsoft FAT Specification.

## Where the code falls short of a property

Each of these is kept as the code has it; the members named state exactly when the property holds.

- `pmm_alloc_pages` with a count above the number of frames wraps its bound and returns an address that is no run of
  frames (`Pmm.PhysicalMemory.AllocPages`); `kmalloc` then goes on with it (`Heap.KernelHeap.Kmalloc`).
- `kmalloc` of more than 2^64 - 32 bytes rounds to 0 (`Heap.RoundedSize`, `Heap.RoundingWraps`).
- `vfs_read` can exceed the file when position + size wraps (`Vfs.ReadStaysInFile`, `Vfs.ReadPastEnd`).
- Reparenting hands zombies to init without waking it (`ProcContexts.InitMissesZombie`; a run from boot is in
  `ProcScenes.WakeupLostByInit`).
- Init's `/dev/tty` fills three descriptors with one reference, and the file init is loaded from is never closed
  (`ProcFiles.BootBalance`). So closing one descriptor of the terminal releases it under the other two
  (`ProcFiles.TtyDangles`); exactly which entries then use a released file is in `ProcFiles.StepUndefined`, and that
  only the terminal's address is affected in `ProcFiles.OnlyTtyDangles`.
- `open` with a full table leaves a file no descriptor names (`ProcFiles.StepBalance`, `ProcFiles.OpenBalance`).
- A brk call that runs out of frames part way leaves the pages it mapped, and a later call that grows over them loses
  their frames for good (`Brk.StopPartWay`, `Brk.LosesFrame`; exactly when, in `Brk.NothingLost` and
  `Kernel.System.EnterBrk`; over runs, in `KernelRuns.NothingLeaks`).
- An empty cluster chain, and a directory without entries, make the FAT12 reader ask the heap for 0 bytes, on which it
  panics (`Fat12.GetFileContent`, `Fat12.FilterValidEntries`).
- The header comment of `get_file_content` promises the number of bytes written; for a file the code returns the size
  from the directory entry. The model follows the code.
- The code ends a chain on 0xFFF only, while the FAT Specification reserves 0xFF8 to 0xFFF. The model follows the code.

## Model

| member | source | states |
|---|---|---|
| Vmm.CloneMeaning | kernel/mm/vmm/vmm.c:132-201 | A clone maps exactly the same lower-half pages with the same flags, each page to its own frame that was free before and holds what the original page held; the original tree and pages are unchanged. |
| Vmm.AddressSpaces.ClonePagemap | kernel/mm/vmm/vmm.c:196-201 | The clone is a separate, well-formed pagemap, the twin of its source, wholly in frames that were free; nothing else is written; its upper half is the one of the current pagemap. |
| Vmm.AddressSpaces.RecursiveClone | kernel/mm/vmm/vmm.c:150-194 | Walking one table clones every entry below it: twins in fresh, pairwise distinct frames, one frame taken per frame copied, and neither assertion of the source can fail. |
| Vmm.AddressSpaces.CloneEntry | kernel/mm/vmm/vmm.c:161-193 | One turn of the loop: a zero entry stays zero, any other gets a fresh frame, the same flags, and a recursive or page copy. |
| Vmm.AddressSpaces.EnterPage | kernel/mm/vmm/vmm.c:170-178 | The new page is cleared and entered with the flags of the cloned entry; one free frame is used up. |
| CloneSpec.ClonedSnoc | kernel/mm/vmm/vmm.c:161-193 | What is cloned so far survives the cloning of the next entry, and the two together are cloned. |
| CloneSpec.NextEntryReady | kernel/mm/vmm/vmm.c:161-184 | The entry about to be cloned is still as it was when the walk over the table began. |
| Vmm.TwinTranslates | kernel/mm/vmm/vmm.c:150-194 | Trees of the same shape and flags translate the same paths, to pages with equal contents. |
| Vmm.ClonePages | kernel/mm/vmm/vmm.c:150-194 | A clone maps exactly the pages of its source. |
| Vmm.ClonePage | kernel/mm/vmm/vmm.c:161-193 | Each page of a clone has the flags and the contents of the original. |
| Vmm.TranslationInjective | kernel/mm/vmm/vmm.c:150-194 | Two pages of a pagemap never translate to the same frame. |
| Vmm.OwnFrames | kernel/mm/vmm/vmm.c:48-100 | Every mapped page has a frame of its own that is in use and holds no table. |
| Vmm.AddressSpaces.DeletePagemap | kernel/mm/vmm/vmm.c:144-148 | Exactly the root, the lower-half tables and the leaf frames go back to the allocator; the upper half and every frame of another pagemap stay as they are. |
| Vmm.AddressSpaces.RecursiveDelete | kernel/mm/vmm/vmm.c:256-291 | Exactly the frames below one table are freed and its entries cleared, for tables without huge pages; stale entries are only cleared. |
| Vmm.AddressSpaces.DeleteEntry | kernel/mm/vmm/vmm.c:266-282 | One turn of the loop frees exactly the frames of one subtree. |
| DeleteSpec.NextStillHolds | kernel/mm/vmm/vmm.c:266-282 | The entry about to be deleted is untouched by the deletion of the earlier ones. |
| Vmm.CloneThenDelete | kernel/mm/vmm/vmm.c:144-201 | Cloning and then deleting the clone restores the set of used frames, all address spaces, and every frame that was in use. |
| Vmm.AddressSpaces.CloneAndDelete | kernel/mm/vmm/vmm.c:144-201 | The two calls one after the other leave the bitmap exactly as it was. |
| Vmm.AddressSpaces.CreateNewPagemap | kernel/mm/vmm/vmm.c:132-142 | A new pagemap with an empty lower half and the upper half of the current one, in a frame that was free; the panic exactly when none is, and then nothing changes. |
| Vmm.AddressSpaces.NewRoot | kernel/mm/vmm/vmm.c:132-142 | The root table itself: lower half zero, upper half copied, one frame taken; fails exactly when none is free. |
| Vmm.FreshRoot | kernel/mm/vmm/vmm.c:137-139 | The memcpy and memset give a table whose lower half is zero and whose upper half is the copied one. |
| Vmm.PagemapAdded | kernel/mm/vmm/vmm.c:132-142 | A pagemap built in free frames leaves all other pagemaps well formed and disjoint from it. |
| Vmm.PagemapRemoved | kernel/mm/vmm/vmm.c:144-148 | Returning the frames of one pagemap leaves the others well formed. |
| Vmm.AddressSpaces.MapPage | kernel/mm/vmm/vmm.c:48-100 | Success gives exactly one page the new frame and flags and changes no other translation; the frame the page had before, if any, leaves the pagemap, which otherwise gains only that frame and new tables; -1 exactly when the page is mapped and no override was asked for, and then nothing changes and no table is allocated; the out-of-memory panic exactly when fewer frames are free than tables are missing. |
| Vmm.AddressSpaces.WalkDown | kernel/mm/vmm/vmm.c:59-73 | The walk reaches the last table, allocating exactly the missing ones. |
| Vmm.AddressSpaces.Descend | kernel/mm/vmm/vmm.c:62-73 | One step of the walk, with allocate_page_table_page where an entry is zero; no translation changes. |
| Vmm.AddressSpaces.SetUserAccess | kernel/mm/vmm/vmm.c:68-70 | Setting the user bit of an entry on the way changes nothing, because tables are always entered with it. |
| Vmm.AddressSpaces.WriteLeaf | kernel/mm/vmm/vmm.c:75-96 | Writing the leaf entry changes one translation and keeps all pagemaps separate. |
| WalkSpec.TableAdded | kernel/mm/vmm/vmm.c:62-73 | Entering a fresh empty table keeps the tree well formed and every translation. |
| WalkSpec.LeafWritten | kernel/mm/vmm/vmm.c:75-96 | Writing the leaf entry maps one page and no other, keeps the tree well formed, and exchanges exactly the frame. |
| WalkSpec.LastTable | kernel/mm/vmm/vmm.c:75-79 | At the last table the entry is zero exactly when the page is not mapped. |
| WalkSpec.MappedNeedsTables | kernel/mm/vmm/vmm.c:62-79 | A page can be mapped only if no table on the way to it is missing. |
| WalkSpec.PathsDiffer | kernel/mm/vmm/vmm.c:51-57 | Different lower-half pages have different index paths, whose root index is in the lower half. |
| Translation.WalkAgrees | kernel/mm/vmm/vmm.c:213-220 | The processor's walk over memory, from a table along the indices, finds what the tree says, and the tables on the way withhold no access right. |
| Translation.SpaceIsTranslation | kernel/mm/vmm/vmm.c:48-100 | An address space is what the processor makes of its tables, with indices it takes from the address itself: same pages, same frames, and the access rights of the leaf entries. |
| Translation.SameIndices | include/paging_x86_64.h:13-20 | The source's index path of a page and the processor's four nine-bit fields of an address agree. |
| Translation.MappedIsReached | kernel/mm/vmm/vmm.c:48-100 | After a page is mapped, the processor reaches the new frame at every address of the page, with exactly the rights asked for, and every other address as before. |
| PageTables.PutHolds | kernel/mm/vmm/vmm.c:62-96 | Rewriting one entry in place: memory then holds the tree with that subtree replaced, its frames still distinct. |
| PageTables.LookupAfterPut | kernel/mm/vmm/vmm.c:62-96 | Replacing a subtree changes the translation of the paths through it and of no other. |
| PageTables.SizeIsFrameCount | kernel/mm/vmm/vmm.c:150-194 | The number of frames a clone needs is the number of distinct frames of its source. |
| Vmm.AddressSpaces.UnmapPage | kernel/mm/vmm/vmm.c:101-130 | -1, changing nothing, exactly when the page has no leaf entry; otherwise exactly that translation goes. |
| Vmm.AddressSpaces.FindTable | kernel/mm/vmm/vmm.c:110-120 | The read-only walk ends early only if the page is not mapped. |
| WalkSpec.EntryCleared | kernel/mm/vmm/vmm.c:122-127 | Clearing the entry removes one translation and keeps the tree well formed. |
| Vmm.UnmapUndoesMap | kernel/mm/vmm/vmm.c:48-130 | Unmapping a freshly mapped page restores the address space. |
| Vmm.AddressSpaces.MapAndUnmap | kernel/mm/vmm/vmm.c:48-130 | The two calls one after the other restore every translation and no data page in use was written. |
| Vmm.AddressSpaces.AllocFrame | kernel/mm/vmm/vmm.c:170-173 | A free frame, cleared. |
| Vmm.AddressSpaces.constructor | kernel/mm/vmm/vmm.c:26-30 | Before the first pagemap is created the invariant holds. |
| Pmm.InitPmm | kernel/mm/pmm/pmm_bitmap.c:20-52 | After initialisation a frame is free exactly if its page lies wholly inside a usable entry and holds no byte of the bitmap, which lies inside its region; with the end of RAM as computed from the map, it panics exactly when every usable entry has fewer than one bit for each frame. |
| Pmm.BootFree | kernel/mm/pmm/pmm_bitmap.c:41-50 | The loops over entries and over the pages of the bitmap leave exactly those frames free. |
| Pmm.BitmapPages | kernel/mm/pmm/pmm_bitmap.c:34-36 | The pages counted for the bitmap are exactly the pages that hold a byte of it. |
| Pmm.UsablePages | kernel/mm/pmm/pmm_bitmap.c:163-167 | The frames of the usable entries are exactly the pages that lie wholly inside one. |
| Pmm.PhysicalMemory.constructor | kernel/mm/pmm/pmm_bitmap.c:33-50 | The bitmap has a bit for each frame, fits its region, and exactly the pages wholly inside usable entries that hold no byte of it are free. |
| Pmm.PhysicalMemory.MarkUsable | kernel/mm/pmm/pmm_bitmap.c:41-46 | The loop frees the usable entries and nothing else. |
| Pmm.PhysicalMemory.MarkRegionFree | kernel/mm/pmm/pmm_bitmap.c:163-167 | The whole pages of one entry, counted from the page of its base, become free. |
| Pmm.PhysicalMemory.MarkRangeUsed | kernel/mm/pmm/pmm_bitmap.c:48-50 | Consecutive frames become used. |
| Pmm.RamMaxSize | kernel/mm/pmm/pmm_bitmap.c:115-131 | The highest end of the entries that count as RAM. |
| Pmm.BitmapRegion | kernel/mm/pmm/pmm_bitmap.c:133-149 | The first usable entry whose bytes have a bit for each frame, or -1 exactly when there is none. |
| Pmm.PhysicalMemory.AllocPage | kernel/mm/pmm/pmm_bitmap.c:54-66 | The lowest free frame, and exactly it is marked; NULL exactly when none is free. |
| Pmm.PhysicalMemory.AllocPages | kernel/mm/pmm/pmm_bitmap.c:67-91 | The lowest run of count free frames, and exactly it is marked; NULL exactly when there is none. For a count above the number of frames the unsigned bound wraps: nothing is marked and the result is 2^64 - count pages, modulo 2^64. |
| Pmm.PhysicalMemory.FindRun | kernel/mm/pmm/pmm_bitmap.c:70-82 | The skip-ahead search finds the lowest run or shows there is none. |
| Pmm.UsedFrameBlocksRuns | kernel/mm/pmm/pmm_bitmap.c:73-79 | Skipping to behind a used frame passes over no free run. |
| Pmm.NoRunAtZero | kernel/mm/pmm/pmm_bitmap.c:87-90 | With frame 0 in use no run starts at address 0, so 0 means failure. |
| Pmm.PhysicalMemory.FirstUsed | kernel/mm/pmm/pmm_bitmap.c:73-79 | The inner loop stops at the first frame that does not read as free. |
| Pmm.PhysicalMemory.MarkRun | kernel/mm/pmm/pmm_bitmap.c:84-86 | Exactly the frames of the run are marked. |
| Pmm.PhysicalMemory.FreePage | kernel/mm/pmm/pmm_bitmap.c:108-108 | Exactly one frame is freed; the panic exactly out of range. |
| Pmm.PhysicalMemory.FreePages | kernel/mm/pmm/pmm_bitmap.c:109-113 | Exactly count consecutive frames are freed; the panic exactly if they run out of range. |
| Bitmap.TzBitmap.SetBitValue | utils/libc_tz/bitmap.c:14-30 | Adds or removes one index from the set the bytes denote; -1 and no change out of range. |
| Bitmap.TzBitmap.GetBitValue | utils/libc_tz/bitmap.c:32-41 | Membership in the set as 1 or 0, and -1 out of range. |
| Bitmap.TzBitmap.constructor | utils/libc_tz/bitmap.c:4-12 | A new bitmap denotes the empty set. |
| Bitmap.WithBit | utils/libc_tz/bitmap.c:19-27 | Or-ing a mask in or and-ing it out changes one bit of the byte and no other. |
| Heap.KernelHeap.Session | kernel/mm/heap/heap.c:51-109 | After any sequence of kmalloc and kfree of held blocks whose every kmalloc returns a block: no kmalloc returned an address that was held at the time; the ranges held are those the calls returned and did not free, pairwise disjoint and each as long as was asked for (requests that rounding wraps hold nothing); exactly they are handed out besides what others hold; only frames of the heap came and went; and the whole invariant holds. |
| Heap.KernelHeap.Kmalloc | kernel/mm/heap/heap.c:51-88 | The block is new, leaves all blocks handed out before as they were, and is at least as large as the request exactly if the request is at most 2^64 - 32; says exactly when it panics, that nothing has changed then, and exactly when and where it goes astray after the page allocator. |
| Heap.KernelHeap.MallocSmall | kernel/mm/heap/heap.c:60-87 | First fit in the free list, then in the super list, then a new page; a frame is taken only if nothing fits; panics exactly if nothing fits and no frame is free. |
| Heap.KernelHeap.MallocFromNewPage | kernel/mm/heap/heap.c:70-87 | A page of one free frame becomes a block of 4064 bytes, from which the request is served. |
| Heap.KernelHeap.PushSuper | kernel/mm/heap/heap.c:76-85 | The new page joins the front of the super list and the tiling. |
| Heap.KernelHeap.FindFit | kernel/mm/heap/heap.c:114-124 | The first block of the list that is large enough, or NULL exactly if all are too small. |
| Heap.KernelHeap.MallocFromBlock | kernel/mm/heap/heap.c:126-143 | Hands out the block whole if the rest would be at most 64 bytes, else split with the rest in its place; keeps the invariant and all other live headers. |
| Heap.KernelHeap.TakeBlock | kernel/mm/heap/heap.c:130-133 | The block leaves its list whole. |
| Heap.KernelHeap.SplitBlock | kernel/mm/heap/heap.c:135-142 | The block keeps the requested size and its rest takes its place in the list. |
| Heap.KernelHeap.RemoveBlock | kernel/mm/heap/heap.c:145-177 | Exactly the neighbours are relinked, heads and tail follow, and the "Unknown memory block" panic is unreachable. |
| Heap.KernelHeap.ReplaceBlock | kernel/mm/heap/heap.c:178-204 | The new block takes over both links, heads and tail follow, and the panic is unreachable. |
| Heap.KernelHeap.MallocMore | kernel/mm/heap/heap.c:51-88 | kmalloc gives a caller an address it does not hold and keeps what it holds. |
| Heap.KernelHeap.FreeOne | kernel/mm/heap/heap.c:89-109 | kfree takes one block from what a caller holds and keeps the others. |
| Heap.KernelHeap.Kfree | kernel/mm/heap/heap.c:89-109 | A small block goes to the end of the free list; a large one leaves, and exactly its frames are freed; everything else handed out stays. |
| Heap.KernelHeap.FreeSmall | kernel/mm/heap/heap.c:98-108 | The list part: appended at the tail, back-linked, sizes kept. |
| Heap.KernelHeap.MallocLarge | kernel/mm/heap/heap.c:206-219 | Takes exactly the run of pages for the size and header; says exactly when it fails, and what address it returns when more pages are asked for than there are. |
| Heap.KernelHeap.FreeLarge | kernel/mm/heap/heap.c:221-230 | Frees exactly the frames its allocation took. |
| Heap.KernelHeap.LargeRoundTrip | kernel/mm/heap/heap.c:206-230 | A large kmalloc followed by its kfree restores the allocator. |
| Heap.KernelHeap.constructor | kernel/mm/heap/heap.c:41-49 | One page, one block, empty free list. |
| Heap.FitIsFirst | kernel/mm/heap/heap.c:114-124 | A block with only smaller ones before it is the first fit. |
| Heap.HeldApart | kernel/mm/heap/heap.c:51-143 | No two blocks handed out, small or large, share an address. |
| Heap.HeldDiffer | kernel/mm/heap/heap.c:54-58 | Small blocks have at most 4064 bytes and large ones more, so block_size tells them apart in kfree. |
| Heap.HeldInHeap | kernel/mm/heap/heap.c:51-143 | Every byte of a block handed out lies in a frame of the heap. |
| Heap.RoundedSize | kernel/mm/heap/heap.c:54-54 | Rounding up never shrinks a request, exactly except for the last 31 sizes, which wrap to 0. |
| Heap.RoundingWraps | kernel/mm/heap/heap.c:54-54 | A concrete size that wraps, and the largest that does not. |
| Heap.LargePagesSize | kernel/mm/heap/heap.c:206-208 | The pages of a large block hold header and payload, unless the sum wraps. |
| HeapTiles.TiledExactly | kernel/mm/heap/heap.c:51-143 | Every address of an acquired page lies in exactly one block. |
| HeapTiles.SplitTiles | kernel/mm/heap/heap.c:135-141 | A split keeps the tiling. |
| HeapTiles.PageTiles | kernel/mm/heap/heap.c:76-78 | A new page as one block keeps the tiling. |
| HeapTiles.LivePayloadsDisjoint | kernel/mm/heap/heap.c:51-143 | No payload byte belongs to the header or payload of another block. |
| HeapInvariant.TakeWhole | kernel/mm/heap/heap.c:145-177 | Unlinking a block keeps both lists acyclic, back-linked and disjoint, and the tiling. |
| HeapInvariant.SplitOff | kernel/mm/heap/heap.c:135-142 | So does replacing it by its rest. |
| HeapInvariant.AddPage | kernel/mm/heap/heap.c:76-85 | So does pushing a new page. |
| HeapInvariant.GiveBack | kernel/mm/heap/heap.c:98-108 | So does appending a freed block. |
| HeapSpec.UnlinkLinks | kernel/mm/heap/heap.c:145-177 | The list without one block is linked both ways from the right head. |
| HeapSpec.RelinkLinks | kernel/mm/heap/heap.c:178-204 | The list with one block replaced is linked both ways. |
| HeapSpec.AppendLinks | kernel/mm/heap/heap.c:98-108 | The list with a block appended is linked both ways. |
| Loader.LoadBinarySegments | kernel/elf_loader/elf_loader.c:87-95 | After a load every byte of every PT_LOAD segment, read through the page table, is the file byte below p_filesz and zero from there to p_memsz; exactly the segments' pages are added, as writable user pages; it halts only if segments overlap or frames run short, never loads overlapping ones, and finds no memory only if some segment has no free run of frames. |
| Loader.LoadSegment | kernel/elf_loader/elf_loader.c:97-122 | The same for one segment, unaligned p_vaddr included; existing translations and data stay; says exactly when it succeeds, when it finds no run of frames, and hence when it halts, and how many frames it takes. |
| Loader.SegmentsReadable | kernel/elf_loader/elf_loader.c:87-122 | The same read by the processor's own walk from the root table, as user code. |
| Loader.UserReads | kernel/mm/vmm/vmm.c:213-220 | Reading by that walk, with the indices of the address, and reading through the modelled address space agree on user pages. |
| Loader.FillSegment | kernel/elf_loader/elf_loader.c:112-121 | File bytes followed by zeros are written, at the segment's offset into its run of frames. |
| Loader.MapRun | kernel/elf_loader/elf_loader.c:101-110 | The pages of the run are mapped in order to the frames of the run; succeeds exactly if none of them was mapped and the free frames suffice for the missing tables, of which it takes exactly as many as are missing. |
| Loader.AllocRun | kernel/elf_loader/elf_loader.c:102-102 | The frames come from pmm_alloc_pages and belong to no pagemap. |
| Loader.Memcpy | kernel/elf_loader/elf_loader.c:116-116 | A byte-wise copy into physical memory, across page boundaries, leaving all other bytes. |
| Loader.PagesCoverSegment | kernel/elf_loader/elf_loader.c:124-131 | Every byte of a segment lies on one of the pages counted for it. |
| Loader.RunHoldsSegment | kernel/elf_loader/elf_loader.c:112-121 | A mapped run holding the bytes makes the segment readable through the page table. |
| Loader.SegmentKept | kernel/elf_loader/elf_loader.c:87-95 | A loaded segment survives changes that keep its translations and data. |
| Loader.FindHeapStart | kernel/elf_loader/elf_loader.c:68-85 | The lowest page boundary behind all segments; no answer exactly if there is none. |
| PhysBytes.CopiedTwice | kernel/elf_loader/elf_loader.c:115-121 | Two adjacent copies are one copy. |
| Brk.BrkHandler | kernel/syscall/syscall_memops.c:9-46 | Succeeds exactly if the free frames suffice for all pages and missing tables, fails exactly if they run out between two pages, which it then has reached, and halts exactly if they run out in the middle of one. Success maps every page up to the new break, failure keeps the break; no other page moves; the frames taken are counted exactly and are the caller's, and those mapped over leave its pagemap. |
| Brk.GrowOne | kernel/syscall/syscall_memops.c:27-42 | One page more, on a frame no pagemap had; says exactly when it finds no frame and when no table. |
| Costs.MissingNow | kernel/mm/vmm/vmm.c:62-73 | While consecutive pages are mapped, a page needs a new table of some height exactly if neither the tree nor the page before it has it. |
| Costs.MissingCounts | kernel/mm/vmm/vmm.c:59-73 | The tables a walk adds are the ones missing at the three heights. |
| Costs.SamePrefix | kernel/mm/vmm/vmm.c:55-60 | Two pages share a table exactly if their table numbers agree. |
| Costs.CostGrows | kernel/mm/vmm/vmm.c:48-100 | Each further page costs one to four frames. |
| Brk.StopsShort | kernel/syscall/syscall_memops.c:27-42 | Frames that run out between two pages neither suffice nor run out in the middle of one, so the three outcomes exclude each other. |
| Brk.StopPartWay | kernel/syscall/syscall_memops.c:27-32 | With one free frame and no table missing, a call for two pages stops after the first, which stays mapped, and the break is kept. |
| Brk.LosesFrame | kernel/syscall/syscall_memops.c:9-46 | The next call, once another frame is free, succeeds, and the frame of the first call is in use without belonging to any pagemap. |
| Brk.BrkSession | kernel/syscall/syscall_memops.c:9-46 | Over any sequence of calls below the stack, failing ones included: segments read as loaded, the heap is mapped up to the break, and the history of address spaces and breaks, each entry made from the one before by one call, shows that from each call on no page below its break moved; it halts only if some request asks for more than a page for each four free frames. |
| Brk.NeverMovedSnoc | kernel/syscall/syscall_memops.c:27-45 | One more call keeps every page that was below an earlier break where it is. |
| Brk.RecordedSnoc | kernel/syscall/syscall_memops.c:9-46 | The history gains exactly what one call did. |
| Brk.LoadThenBrk | kernel/elf_loader/elf_loader.c:27-50 | A load followed by any brk calls, end to end, from the page boundary behind the last segment, with every page on a frame of its own and the same history; stops only for overlapping or missing segments, for want of a run of frames, or with fewer than four free frames for each page. |
| Brk.PagesOwnFrames | kernel/mm/vmm/vmm.c:48-100 | No two pages of a well-formed address space share a frame. |
| ProcRuns.RunInv | kernel/process_manager/scheduler.c:31-121 | Every state reached by any run of ticks, faults, keys, idle wake-ups and system calls meets the whole invariant. |
| ProcRuns.StepInv | kernel/process_manager/process_manager.c:124-225 | Every single step keeps it. |
| ProcRuns.BootInv | kernel/process_manager/process_manager.c:28-68 | It holds when init starts. |
| ProcInv.ExactlyOnePlace | kernel/process_manager/scheduler.c:31-121 | Each process is in exactly one place: running, once in the run queue, once in one wait queue, or a zombie in none; its process_state agrees. |
| ProcInv.QueuesDisjoint | kernel/process_manager/scheduler.c:96-117 | No process is in two queues, so the shared next link never joins them. |
| ProcInv.BlockedInv | kernel/process_manager/scheduler.c:44-47 | Blocking keeps the invariant if there is no key to read, or a living child and no zombie. |
| ProcInv.WokenPlaced | kernel/process_manager/scheduler.c:48-54 | Draining a wait queue makes its members runnable once each and leaves everybody else where they are. |
| ProcInv.LoadNextInv | kernel/process_manager/scheduler.c:55-68 | Loading the head of the run queue, or idling, keeps the invariant. |
| ProcInv.PreemptedInv | kernel/process_manager/scheduler.c:86-88 | So does putting the current process at the end of the queue. |
| ProcInv.KeyInv | drivers/ps2_keyboard/ps2_keyboard.c:96-109 | A key leaves no reader waiting while the ring buffer has something. |
| ProcInv.ExitedInv | kernel/process_manager/process_manager.c:152-178 | Exit keeps the invariant: only init cannot exit, the parent is awake, and everybody who still waits, init included, has a living child. |
| ProcInv.InitCannotExit | kernel/process_manager/process_manager.c:176-177 | The parent assertion fails exactly for init. |
| ProcInv.BuriedParents | kernel/process_manager/process_manager.c:165-174 | After reparenting every process has an occupied, non-zombie parent slot, and nobody is a child of the dead. |
| ProcInv.ForkedInv | kernel/process_manager/process_manager.c:124-150 | Fork keeps the invariant. |
| ProcInv.ReapedInv | kernel/process_manager/process_manager.c:200-207 | Reaping keeps it: the zombie has no children to pass to a reused pid, and its own wait queue is empty. |
| ProcContexts.InitMissesZombie | kernel/process_manager/process_manager.c:165-177 | A step leaves init waiting beside a zombie child exactly if a process that is not init's child exits while it has a zombie child and init waits. |
| ProcScenes.WakeupLostByInit | kernel/process_manager/process_manager.c:165-177 | A run from boot of nine kernel entries (three forks, a wait, ticks and two exits) after which init waits beside a zombie child. |
| ProcScenes.ForkShows | kernel/process_manager/process_manager.c:124-150 | What fork does to the processes, queues and terminal references the run is told in. |
| ProcScenes.ExitShows | kernel/process_manager/process_manager.c:152-178 | The same for exit. |
| ProcScenes.WaitShows | kernel/process_manager/process_manager.c:180-216 | The same for a wait that blocks. |
| ProcScenes.TickShows | kernel/process_manager/scheduler.c:70-91 | The same for a tick. |
| ProcContexts.WaitMeaning | kernel/process_manager/process_manager.c:180-216 | wait reaps the lowest zombie child and nothing else, blocks exactly with living children only, and returns -1 exactly without children. |
| ProcContexts.KillTakesEffect | kernel/process_manager/scheduler.c:83-84 | A killed process is a zombie with status 139 after its next tick. |
| ProcRuns.FirstInFirstOut | kernel/process_manager/scheduler.c:55-68 | Over any run a process with k ahead of it is dispatched at exactly the (k+1)th dispatch, and until then has moved up one place per dispatch. |
| ProcRuns.QueueLaw | kernel/process_manager/scheduler.c:31-117 | Each step only appends to the run queue, and a dispatched process was its head. |
| ProcContexts.StepContext | kernel/syscall/syscall_entry.c:114-121 | A process is dispatched with the context last saved for it: its registers if preempted, rax 0 for a fork child, and for a blocked call the entry registers with the call number in rax and rip two less; a process that stays keeps its registers but for the result, except that a successful execve starts at the entry point with rcx, rsp and r11 set and rax 0. |
| ProcContexts.RunContexts | kernel/syscall/syscall_entry.c:44-122 | Over any run the saved contexts are the ones expected from outside the kernel. |
| ProcContexts.HandledFrame | kernel/syscall/syscall_entry.c:56-112 | No handler changes a saved context, or of the live one anything but rax, except execve, which when it succeeds sets rip, rcx, rsp, r11 and rax and nothing else. |
| ProcKeys.RunKeys | drivers/ps2_keyboard/ps2_keyboard.c:69-109 | Over any run and all readers, the keys stored are the keys delivered, in order, followed by those still waiting: none is lost, doubled or reordered. |
| ProcKeys.StepKeys | drivers/ps2_keyboard/ps2_keyboard.c:69-109 | The same for one step. |
| ProcKeys.ReadTakesFront | drivers/ps2_keyboard/ps2_keyboard.c:69-86 | A read takes as many keys from the front as it reports, and reports fewer than it may only if it took all. |
| ProcKeys.ForkMeaning | kernel/process_manager/process_manager.c:124-150 | The child has the lowest free pid, the parent's descriptors and the end of the run queue; the parent gets the pid; no other process changes; panics exactly if no pid is free. |
| ProcKeys.ExitMeaning | kernel/process_manager/process_manager.c:152-178 | A zombie with the status and no descriptors; children become init's; the waiting parent is runnable; other processes are otherwise as before. |
| ProcFiles.StepBalance | kernel/syscall/syscall_fileops.c:39-114 | Each step changes a file's reference count by exactly the change in the number of descriptors naming it, in all processes together; the only exception is open with a full table. |
| ProcFiles.RunBalance | kernel/vfs/vfs.c:81-98 | Over any run a file whose count was exact stays exact, and is in memory exactly while a descriptor names it. |
| ProcFiles.FromBoot | kernel/process_manager/process_manager.c:28-68 | From boot on, over every run without a leaking open of it, a file other than init's two is in memory exactly while some descriptor names it, with as many references as descriptors; the terminal is in memory exactly while more than two descriptors name it, and two always do; the file init was loaded from always is. |
| ProcFiles.OnlyTtyDangles | kernel/syscall/syscall_fileops.c:24-125 | Over every run from boot a kernel entry uses a released file only through the address of the terminal init starts with, when the current process has more descriptors for it than it has references. |
| ProcFiles.StepUndefined | kernel/syscall/syscall_fileops.c:24-125 | Exactly when a kernel entry uses a released file, call by call: exit, kill and fault with more descriptors for a file than references; fork with a free pid and a stale descriptor; read, write, close and lseek of a stale one; dup of one while a slot is free; dup2 of one, or between two descriptors of one file with a single reference. |
| ProcFiles.TtyDangles | kernel/process_manager/process_manager.c:37-45 | From boot, init closes descriptor 0 and reads from descriptor 1: the file is released. |
| ProcFiles.RunSolvent | kernel/vfs/vfs.c:81-98 | Over every run each other file has at least as many references as descriptors, also when open gets the address of a released file that descriptors still name. |
| ProcFiles.BootBalance | kernel/process_manager/process_manager.c:37-47 | At boot /dev/tty is two short, the file init was loaded from one over, every other file exact. |
| ProcFiles.Dup2Balance | kernel/syscall/syscall_fileops.c:93-114 | dup2 keeps the balance, also between two descriptors of one file. |
| ProcFiles.OpenBalance | kernel/syscall/syscall_fileops.c:39-57 | open adds one count and one descriptor, or one count alone when the table is full. |
| ProcFiles.ForkedBalance | kernel/process_manager/process_manager.c:132-137 | fork adds as many counts as descriptors. |
| ProcFiles.ExitedBalance | kernel/process_manager/process_manager.c:156-163 | exit drops as many counts as descriptors. |
| ProcCalls.KillKills | kernel/process_manager/scheduler.c:83-84 | After kill with signal 9, over any run in which the process it names stays in the table, a tick that finds that process running leaves a zombie with status 139. |
| ProcCalls.KillMeaning | kernel/syscall/syscall_process.c:37-45 | kill never panics; with signal 9 and a process in the table under the low half of the argument it returns 0, that process is condemned and nothing else changes; otherwise it returns -1 and nothing changes. |
| ProcCalls.StepPersists | kernel/process_manager/process_manager.c:152-225 | In every step the dead stay dead with their status until they are reaped, the condemned stay condemned, and only the dead leave the table. |
| ProcCalls.RunPersists | kernel/process_manager/process_manager.c:152-225 | So over every run in which a process stays in the table. |
| ProcCalls.FaultKills | kernel/process_manager/process_manager.c:248-269 | A fault of user code leaves a zombie with status 139 at once. |
| ProcCalls.ExitCallStatus | kernel/syscall/syscall_process.c:31-33 | The exit status is the low half of the argument, as an int. |
| ProcCalls.ExitStatusKept | kernel/process_manager/process_manager.c:152-178 | It is what the zombie holds, over every run until it is reaped. |
| ProcCalls.DupMeaning | kernel/syscall/syscall_fileops.c:71-91 | dup returns the lowest free descriptor, which then names the same file with one more reference; no other descriptor and nothing else changes; -1 and no change exactly without such a file or descriptor. |
| ProcCalls.Dup2Meaning | kernel/syscall/syscall_fileops.c:93-114 | dup2 returns its second argument, and that descriptor and no other changes, naming what the first one names; no change if they are equal; -1 and no change if the first names nothing or the second is out of range. |
| ProcCalls.OpenMeaning | kernel/syscall/syscall_fileops.c:39-57 | open returns the lowest free descriptor, which names a new file at position 0 with one reference; with a full table it returns -1 and the file stays; without a file it returns -1 and nothing changes. |
| ProcCalls.CloseMeaning | kernel/syscall/syscall_fileops.c:59-69 | close returns 0, clears that descriptor only, and drops one reference, releasing the file exactly with the last; -1 and no change for a descriptor that names nothing. |
| ProcCalls.SeekMeaning | kernel/syscall/syscall_fileops.c:115-125 | lseek leaves the file at the offset, the position plus it, or the size plus it, for whence 0, 1 and 2, exactly if that lies within the file, and returns it; otherwise -1 and nothing changes. |
| ProcCalls.WriteMeaning | kernel/vfs/vfs.c:64-80 | A write panics exactly for FAT12 files and the keyboard; a device returns the count (the framebuffer 0), the position moves by it and the size follows. |
| ProcCalls.GetPidMeaning | kernel/syscall/syscall_process.c:22-30 | getpid returns the pid of the caller, getppid that of its parent, and nothing else changes. |
| ProcCalls.ExecMeaning | kernel/process_manager/process_manager.c:115-118 | The registers after execve, one by one, and -1 if it fails; processes and files are as before. |
| ProcCalls.ForkStep | kernel/syscall/syscall_process.c:18-20 | fork returns the pid of the child to the parent; the child has the same registers with rax 0 and is last in the run queue. |
| ProcCalls.TickRotates | kernel/process_manager/scheduler.c:70-91 | A tick gives the processor to the head of the run queue and puts the running process at its end, with its registers saved; with nobody else it changes nothing. |
| ProcCalls.RoundRobin | kernel/process_manager/scheduler.c:70-91 | A runnable process with k ahead of it runs after exactly k + 1 ticks of user code, if nobody is condemned. |
| ProcCalls.WakeDispatches | kernel/process_manager/scheduler.c:55-68 | An idle processor takes the head of the run queue if there is one. |
| ProcCalls.StepUser | kernel/process_manager/scheduler.c:70-91 | The kernel returns to user code only: a step other than a key that leaves the processor running does so with a context that is not of ring 0. |
| ProcCalls.RunUser | kernel/process_manager/scheduler.c:70-91 | Over every run no process has a context of ring 0. |
| ProcStreams.RunReads | kernel/vfs/vfs.c:42-62 | Over any run that leaves a FAT12 file open and seeks nowhere in it, all that reads of it deliver, whoever reads through whichever descriptor, is its contents from the first position to the last, without gap or repetition. |
| ProcStreams.ReadEnds | kernel/vfs/vfs.c:47-49 | After such a run a read that asks for something reports 0 exactly when everything from the first position to the end has been delivered. |
| ProcStreams.ReadMeaning | kernel/vfs/vfs.c:42-62 | One read delivers the bytes from the position on, as many as asked for or as are left, reports how many, moves the position behind them, and changes nothing else. |
| ProcStreams.ReadFails | kernel/syscall/syscall_fileops.c:24-37 | -1 for a descriptor that names nothing or a device that can only be written, 0 at the end of a file; nothing changes. |
| ProcStreams.StepFiles | kernel/vfs/vfs.c:42-125 | No step but a read or a lseek of a FAT12 file changes its position, size or contents. |
| ProcStreams.GivenKeys | drivers/ps2_keyboard/ps2_keyboard.c:69-86 | What a read of the keyboard delivers are the keys it takes from the ring buffer. |
| ProcSpec.FirstNull | kernel/syscall/syscall_fileops.c:46-54 | The lowest free descriptor. |
| ProcSpec.FreePid | kernel/process_manager/process_manager.c:238-246 | The lowest free pid from 1 on. |
| ProcSpec.FirstZombie | kernel/process_manager/process_manager.c:183-198 | The lowest zombie child. |
| Processes.ProcessManager.Perform | kernel/syscall/syscall_entry.c:44-122 | Each kernel entry of the imperative process manager does exactly what its step says and keeps the invariant, so all statements about runs are statements about it; it hands on what read delivers. |
| Processes.ProcessManager.constructor | kernel/process_manager/process_manager.c:28-68 | The initial state. |
| Processes.ProcessManager.TaskEnqueue | kernel/process_manager/scheduler.c:96-106 | The linked queue gains one process at its rear; all other queues stay. |
| Processes.ProcessManager.TaskDequeue | kernel/process_manager/scheduler.c:108-117 | The linked queue loses its head. |
| TaskQueues.EnqueuedLinks | kernel/process_manager/scheduler.c:96-106 | Head, rear and next links spell the longer list, and every other list still. |
| TaskQueues.DequeuedLinks | kernel/process_manager/scheduler.c:108-117 | The same for the shorter list. |
| Processes.ProcessManager.WaitqueueEnqueue | kernel/process_manager/scheduler.c:44-47 | The current process waits in that queue. |
| Processes.ProcessManager.WaitqueueDequeueAll | kernel/process_manager/scheduler.c:48-54 | All waiters become runnable, in order. |
| Processes.ProcessManager.LoadNextReady | kernel/process_manager/scheduler.c:55-68 | One look at the run queue: idle, or dispatch its head. |
| Processes.ProcessManager.ContextSwitch | kernel/process_manager/scheduler.c:70-91 | The timer handler carries out the tick step. |
| Processes.ProcessManager.ExceptionHandler | kernel/process_manager/process_manager.c:248-269 | The fault step. |
| Processes.ProcessManager.SyscallHandler | kernel/syscall/syscall_entry.c:44-122 | The system call step, restart tail included. |
| Processes.ProcessManager.HandleSyscall | kernel/syscall/syscall_entry.c:56-112 | The switch over the call number. |
| Processes.ProcessManager.GeneratePid | kernel/process_manager/process_manager.c:238-246 | The loop finds the lowest free pid. |
| Processes.ProcessManager.PmFork | kernel/process_manager/process_manager.c:124-150 | The fork step on the process table; a full table panics. |
| Processes.ProcessManager.ShareAll | kernel/process_manager/process_manager.c:132-137 | One reference more for every descriptor copied. |
| Processes.ProcessManager.PmExit | kernel/process_manager/process_manager.c:152-178 | The exit step. |
| Processes.ProcessManager.CloseAll | kernel/process_manager/process_manager.c:156-163 | Every descriptor closed once and cleared. |
| Processes.ProcessManager.Reparent | kernel/process_manager/process_manager.c:165-174 | Exactly the children of the dying process become init's. |
| Processes.ProcessManager.PmWait | kernel/process_manager/process_manager.c:180-216 | The wait step on the process table. |
| Processes.ProcessManager.KillHandler | kernel/syscall/syscall_process.c:37-45 | The kill step, whose meaning is `ProcCalls.KillMeaning`. |
| Processes.ProcessManager.VfsClose | kernel/vfs/vfs.c:81-98 | One reference fewer; released at zero. |
| Processes.ProcessManager.ReadHandler | kernel/syscall/syscall_fileops.c:24-37 | The read step, whose meaning is `ProcStreams.ReadMeaning`, `ProcStreams.ReadFails` and `ProcKeys.ReadTakesFront`; what reaches the buffer is what the step delivers. |
| Processes.ProcessManager.WriteHandler | kernel/syscall/syscall_fileops.c:9-22 | The write step (`ProcCalls.WriteMeaning`): devices take everything, the framebuffer reporting 0; FAT12 files and the keyboard panic. |
| Processes.ProcessManager.Ps2Read | drivers/ps2_keyboard/ps2_keyboard.c:69-86 | The oldest keys, in order, at most as many as asked for; blocks exactly if some are asked for and there are none. |
| Processes.ProcessManager.OpenHandler | kernel/syscall/syscall_fileops.c:39-57 | The open step (`ProcCalls.OpenMeaning`). |
| Processes.ProcessManager.CloseHandler | kernel/syscall/syscall_fileops.c:59-69 | The close step (`ProcCalls.CloseMeaning`). |
| Processes.ProcessManager.DupHandler | kernel/syscall/syscall_fileops.c:71-91 | The dup step (`ProcCalls.DupMeaning`). |
| Processes.ProcessManager.Dup2Handler | kernel/syscall/syscall_fileops.c:93-114 | The dup2 step (`ProcCalls.Dup2Meaning`). |
| Processes.ProcessManager.SeekHandler | kernel/syscall/syscall_fileops.c:115-125 | The lseek step (`ProcCalls.SeekMeaning`). |
| Processes.ProcessManager.KeyboardInterrupt | drivers/ps2_keyboard/ps2_keyboard.c:96-109 | The key step. |
| RingBuffer.Ring.Push | utils/libc_tz/ring_buffer.c:16-24 | Appends, unless size - 1 bytes are stored. |
| RingBuffer.Ring.Pop | utils/libc_tz/ring_buffer.c:26-34 | Takes the oldest byte, unless there is none. |
| RingBuffer.InitRing | utils/libc_tz/ring_buffer.c:3-14 | An empty ring, or a refusal exactly for size 0. |
| Vfs.Seek | kernel/vfs/vfs.c:99-125 | Moves to the target exactly if it lies within the file, else fails and moves nothing; a device cannot be sought. |
| Vfs.ReadStaysInFile | kernel/vfs/vfs.c:47-54 | A read stays within the file exactly if position + size does not wrap. |
| Vfs.ReadPastEnd | kernel/vfs/vfs.c:52-54 | A concrete read that does not. |
| Vfs.Dropped | kernel/vfs/vfs.c:86-95 | One reference fewer, and released exactly when none is left. |
| Kernel.System.Enter | kernel/process_manager/process_manager.c:124-216 | Processes, memory and heap together, for every kernel entry but brk and an execve that finds its file, apart from the heap calls it makes: each process has a pagemap of its own, every pagemap belongs to a process, every used frame belongs to one pagemap, to the heap or to the rest, which stays the same, and cr3 holds the pagemap of the current process. read, wait and gettimeofday store into the pages of the caller's buffer and nowhere else; an access to a page that is not there panics, exactly then; fork gives the child a twin of the caller's address space as it then is, and its break; wait returns exactly the frames of the process it reaps; nothing else changes a frame or an address space. Says exactly on which entries the source goes astray. |
| Kernel.System.Finish | kernel/syscall/syscall_fileops.c:24-37 | The memory side of an entry: access to user memory, then fork or wait. |
| Kernel.System.Pending | kernel/process_manager/process_manager.c:196-198 | What is stored: the bytes read, the status of the zombie reaped, or the time. |
| Kernel.System.Deliver | kernel/syscall/syscall_fileops.c:31-36 | Succeeds exactly if all pages the entry needs are there. |
| Kernel.System.Settle | kernel/process_manager/process_manager.c:142-143 | fork, wait or dispatch, once the process table is up to date. |
| Kernel.System.HeapWork | kernel/mm/heap/heap.c:51-109 | Any kmalloc and kfree calls of the kernel, with addresses new each time, keep the whole invariant: pagemaps and processes are left alone and only frames of the heap come and go. |
| Kernel.System.OwnWrite | kernel/mm/heap/heap.c:51-58 | Writing into a block that is held changes no frame of any pagemap. |
| Kernel.System.Execve | kernel/process_manager/process_manager.c:89-122 | The same invariant; on success the caller has a new pagemap with the program's segments, an empty heap and a stack page, and its registers are as at entry but for rip and rcx at the entry point, r11 0x202, rax 0 and rsp, below which a page of the new address space can be written by user code; exactly the frames of the old one went back, no frame is lost, and no other frame was written. Without an entry point it returns -1 and every address space and every frame in use is as before. It crashes only for overlapping or missing segments, or want of frames. |
| Books.StackReady | kernel/process_manager/process_manager.c:98-99 | In the address space of a new program user code may read and write the page below the initial stack pointer. |
| Kernel.System.SwapImage | kernel/process_manager/process_manager.c:96-112 | The memory side of execve. |
| Kernel.System.Abandon | kernel/process_manager/process_manager.c:101-106 | The failure path gives back exactly what was taken. |
| Kernel.System.Commit | kernel/process_manager/process_manager.c:108-112 | The switch to the new address space, with ownership and accounts kept. |
| Kernel.System.Retire | kernel/process_manager/process_manager.c:108-109 | Deleting the old pagemap leaves the new program as it is, and the accounts balanced. |
| Kernel.System.EnterBrk | kernel/syscall/syscall_memops.c:9-46 | The same invariant; only the caller's heap grows, and the result is its break. Frames mapped above the break beforehand become nobody's, and exactly those; from a heap without such pages nothing is lost, and it stays such a heap exactly if the call does not stop part way. |
| Kernel.System.GrowHeap | kernel/syscall/syscall_memops.c:25-45 | The memory side of brk. |
| Kernel.StartInit | kernel/process_manager/process_manager.c:52-68 | init starts at its entry point with the process machine at boot, its program in the only pagemap, a page of stack that user code may write below its stack pointer, and the invariant. |
| Kernel.InitImage | kernel/process_manager/process_manager.c:52-60 | The memory side of it: the first pagemap, in cr3, holding the program and the stack. |
| Kernel.System.constructor | kernel/process_manager/process_manager.c:61-67 | One process with one pagemap meets the invariant. |
| Kernel.System.CloneFor | kernel/process_manager/process_manager.c:142-142 | The clone for the child, with ownership and accounts kept. |
| Kernel.System.DeleteOf | kernel/process_manager/process_manager.c:201-201 | The deletion for the reaped process, with ownership and accounts kept. |
| KernelRuns.BootAndRun | kernel/process_manager/process_manager.c:28-225 | From the start of init, any sequence of heap work, kernel entries, brk and execve: every state is sane and obeys the laws above, and if every brk call got what it asked for, no frame is lost. |
| KernelRuns.Run | kernel/process_manager/process_manager.c:89-225 | The same from any valid state, with the reason for which a run stops. |
| KernelRuns.NothingLeaks | kernel/syscall/syscall_memops.c:9-46 | Over any run whose brk calls all get what they ask for, the frames that belong to nobody stay the same. |
| KernelRuns.OnlyBrkLoses | kernel/syscall/syscall_memops.c:27-42 | Over any run a frame joins those that belong to nobody only when a brk call maps over it, above the break. |
| KernelRuns.CommandTidy | kernel/syscall/syscall_memops.c:25-45 | The same for one command: no process gets pages between its break and its stack. |
| KernelViews.StatusArrives | kernel/process_manager/process_manager.c:152-216 | An exit status comes back: whatever happens between the exit of a process and the wait that reaps it, that wait returns its pid and leaves the low half of what was passed to exit, as four bytes, in the memory of its caller. |
| KernelViews.WaitWrites | kernel/process_manager/process_manager.c:196-207 | What the caller of wait reads at its pointer afterwards is the status of the process reaped. |
| KernelViews.ReadArrives | kernel/syscall/syscall_fileops.c:24-37 | After a read of a FAT12 file its caller reads the bytes of the file in its buffer, and everything else as before. |
| KernelViews.BreakGives | kernel/syscall/syscall_memops.c:9-46 | After brk the break is the one asked for or the old one, and user code may read and write every byte from the start of its heap up to it, if it could before. |
| KernelViews.BreakUsable | kernel/syscall/syscall_memops.c:25-45 | The same of address spaces: growing by the pages of the call keeps every byte below the break on a user page. |
| UserMemory.StoreUser | kernel/syscall/syscall_fileops.c:31-36 | A store through a user pointer reads back through the address space as the bytes stored, changes no other byte of it, no table and no other pagemap; fails exactly if a page is not there or cannot be written. |
| UserMemory.FetchUser | kernel/syscall/syscall_fileops.c:16-20 | The buffer of write can be read exactly if all its pages are mapped. |
| UserMemory.FindPage | kernel/mm/vmm/vmm.c:110-127 | The walk over memory finds the leaf entry of the page, or that there is none. |
| UserMemory.UserSees | kernel/syscall/syscall_fileops.c:31-36 | What user code then reads, by the processor's own walk, are the bytes stored. |
| UserMemory.UserPages | kernel/mm/vmm/vmm.c:48-100 | Pages entered as user data are pages user code may read and write, by the processor's own walk. |
| Books.HeapWorked | kernel/mm/heap/heap.c:51-109 | Heap activity over the shared allocator leaves pagemaps, and the frames nobody has, alone. |
| Books.BuiltInVain | kernel/process_manager/process_manager.c:101-106 | Building a pagemap and deleting it restores allocator, address spaces and contents. |
| Books.WaitStore | kernel/process_manager/process_manager.c:196-207 | wait stores the status of the process whose pid it returns. |
| Books.IntBytes | kernel/process_manager/process_manager.c:196-198 | Four bytes that spell the low half of the int, the lowest first. |
| Books.StepTable | kernel/process_manager/process_manager.c:124-216 | fork adds the process whose pid it returns, wait with a zombie removes the one whose pid it returns, no other step changes who is in the table. |
| Books.FramesConserved | kernel/process_manager/process_manager.c:124-216 | Where the same frames are in no pagemap and the same address spaces exist, the same frames are in use. |
| Books.AccountedBrk | kernel/syscall/syscall_memops.c:27-42 | What mapping over pages does to the accounts: the frames they had are in use and belong to nobody. |
| Books.ChildTidy | kernel/process_manager/process_manager.c:142-143 | A child's heap has pages above the break exactly if its parent's had. |
| Brk.TidyCall | kernel/syscall/syscall_memops.c:25-45 | With nothing mapped above the break a call loses no frame; afterwards nothing is mapped there exactly if it did not stop part way. |
| Brk.NothingLost | kernel/syscall/syscall_memops.c:27-42 | A call loses no frame exactly if no page it grows over was mapped. |
| Brk.LeakAfterFailure | kernel/syscall/syscall_memops.c:29-42 | After a call that stopped part way, every later call that grows over its pages loses frames. |
| Programs.BuildImage | kernel/process_manager/process_manager.c:96-102 | The segments, an empty heap with nothing above it, and a stack page (which page, and that user code may use it, is in `Books.StackReady`), wholly in frames that were free; no other frame is written; fails only for the reasons given for execve. |
| Programs.LoadProgram | kernel/elf_loader/elf_loader.c:27-50 | The same without the stack. |
| Programs.AddStack | kernel/process_manager/process_manager.c:98-99 | The stack page joins without disturbing the segments; fails only with fewer than four frames free. |
| Programs.ImageAfterDelete | kernel/process_manager/process_manager.c:108-109 | Deleting another pagemap leaves a program readable. |
| WalkSpec.ConfinedTrans | kernel/mm/vmm/vmm.c:48-100 | Frame accounts of one pagemap add up over several changes: what it gained was free, what it lost is known, nothing outside it was written. |
| Fat12.GetFileContent | drivers/fat12/fat12.c:269-296 | On a chain that ends in 0xFFF it terminates and the buffer is the flat byte ranges of the clusters in chain order; the size is the directory's bytes or the file size; an empty chain is a request for 0 bytes, on which the heap panics. |
| Fat12.ContentByte | drivers/fat12/fat12.c:282-289 | Byte j of cluster k is at k times the cluster size plus j. |
| Fat12.ReadCluster | drivers/fat12/fat12.c:330-341 | The flat bytes of one cluster. |
| Fat12.ClusterPlace | drivers/fat12/fat12.c:330-336 | On a volume below 4 GiB the 32-bit arithmetic puts cluster id at data sector (id - 2) times the cluster size. |
| Fat12.ContentPlace | drivers/fat12/fat12.c:282-341 | On a volume below 4 GiB, byte j of cluster k of a file is byte j of the sectors the layout gives that cluster. |
| Fat12.GetFat | drivers/fat12/fat12.c:298-307 | The table as it lies on the device. |
| Fat12.TablePlace | drivers/fat12/fat12.c:298-301 | On a volume below 4 GiB the table is the sectors the layout gives it, all of them and no more. |
| Fat12.PackedLookup | drivers/fat12/fat12.c:309-317 | Looking an entry up in a table packed two to three bytes gives the entry back. |
| Fat12.CountFileClusters | drivers/fat12/fat12.c:319-328 | Terminates on a chain and gives its length. |
| Fat12.ChainExists | drivers/fat12/fat12.c:319-328 | A chain exists exactly if the walk repeats no cluster and meets 0xFFF without leaving the table, whatever the entries it does not visit hold; then the walk is the chain. |
| Fat12.ChainWalked | drivers/fat12/fat12.c:319-328 | Any chain is what walking finds. |
| Fat12.EndsAcyclic | drivers/fat12/fat12.c:319-328 | Conversely a chain that ends repeats no cluster. |
| Fat12.ChainUnique | drivers/fat12/fat12.c:319-328 | There is only one chain. |
| Fat12.FilterValidEntries | drivers/fat12/fat12.c:240-267 | Keeps exactly the entries before the end that are neither deleted nor labels, in order, never writing past the buffer counted for them; a directory without any is a request for 0 bytes, on which the heap panics. |
| Fat12.CountValidEntries | drivers/fat12/fat12.c:179-196 | The number of entries before the end, or of those that are kept. |
| BlockDevice.ReadBytes | drivers/block_device.c:21-63 | For any offset and size the buffer gets exactly the flat bytes and nothing behind it is written; 0 and an untouched buffer for blocks over 512 bytes. |
| BlockDevice.ReadHead | drivers/block_device.c:32-44 | The unaligned head, also when it is all there is. |
| BlockDevice.ReadPiece | drivers/block_device.c:46-61 | A whole block of the body, or the tail. |

## Left out

- Vmm.AddressSpaces.ClonePagemap: requires enough free frames, because the source does not check the allocator there; so do RecursiveClone, CloneEntry, EnterPage, AllocFrame and CloneAndDelete.
- Vmm.AddressSpaces.MapPage: lower-half pages only, and the frame must be in use and belong to no pagemap yet, as all callers in the kernel have it; sharing a frame between pages is not modelled.
- Vmm.AddressSpaces.UnmapPage: lower-half pages only.
- Vmm.AddressSpaces.RecursiveDelete: tables without huge pages, which the kernel never creates; so does DeleteEntry.
- Vmm.AddressSpaces.constructor: frame 0 is taken to be in use always, because address 0 doubles as failure.
- Pmm.InitPmm: usable entries are page aligned, as the boot protocol promises, and physical addresses have 52 bits.
- Loader.LoadBinarySegments: segments have p_filesz at most p_memsz, lie in the lower half and inside the file. It stops where the source would go on with the NULL or wild address of a failed `pmm_alloc_pages`, so nothing is said about that case.
- Loader.AllocRun: stops there too.
- Loader.FillSegment: the file is read from the buffer the FAT12 driver fills when it is opened.
- Brk.BrkHandler: break addresses up to the bottom of the stack page only.
- Heap.KernelHeap.Kfree: blocks that are handed out only; kfree of NULL or of anything else is not modelled.
- Heap.KernelHeap.Kmalloc: nothing is said about what follows once the physical allocator returned a wild address.
- Heap.KernelHeap.constructor: requires a free frame, because the source does not check for one.
- ProcStreams.RunReads: files whose contents were loaded up to their size, and reads whose count does not wrap with the position (`Vfs.ReadStaysInFile`); so for ReadMeaning, ReadEnds and `KernelViews.ReadArrives`.
- Kernel.System.Enter: nothing is said where it is `astray`: a buffer that leaves the lower half, a read beyond the loaded contents of a file, or a fork with fewer free frames than the caller's address space has, none of which the source checks. The heap calls of an entry are not tied to it: open's and fork's are any `HeapWork`. Paths are not fetched from user memory. Settle, Finish and CloneFor have the same condition on fork; `Starves` and the two counts it uses exist only to tell that case apart.
- Kernel.System.OwnWrite: headers of the heap are kept apart from physical memory; the kernel's other data is not modelled.
- Kernel.System.Execve: nothing is said about the state after a crash; the program headers are a parameter, with the conditions of LoadBinarySegments, and segments end below the stack page; a file that is no ELF file is not modelled. So for SwapImage.
- Kernel.System.EnterBrk: break addresses up to the bottom of the stack page only. So for GrowHeap.
- Kernel.StartInit: the program headers and the initial registers are parameters.
- KernelRuns.Run: that heap work stops is said only to be at a kmalloc; when that fails is in `Heap.KernelHeap.Kmalloc`.
- Loader.LoadSegment: the conditions of LoadBinarySegments, whose own outcome over several segments is bounded, not exact.
- Processes.ProcessManager.PmWait: the process table only; the exit status is stored and the pagemap deleted in `Kernel.System.Enter`.
- Processes.ProcessManager.PmFork: the process table only; the pagemap is cloned in `Kernel.System.Enter`.
- Processes.ProcessManager.OpenHandler: the new file's address is one no file in memory has, as the heap promises; path lookup is a parameter. So for Perform.
- Processes.ProcessManager.HandleSyscall: brk and gettimeofday only set the result here; their memory side is in `Kernel.System`. So for SyscallHandler.
- Fat12.GetFileContent: chains that end in 0xFFF, inside the device; blocks of at most 512 bytes, because the driver ignores a failed read; so for GetFat and ReadCluster.
- Fat12.CountFileClusters: chains that end in 0xFFF; on any other table the loop does not end or leaves the table.
- BlockDevice.ReadBytes: ranges inside the device; what a driver does beyond its last block is not modelled.
- A new wait queue is empty, although the source leaves it uninitialised.
- TLB instructions, accessed and dirty bits, the assembly entry and exit stubs, swapgs and sysret.
- Memory used by process control blocks themselves, ELF magic checking, path lookup and file names in FAT12, the FAT12 header.
- Drivers over ports (ATA, serial, VGA, PIT, CMOS, APIC), framebuffer, printk, GDT, IDT, ACPI: plumbing with little to prove.
