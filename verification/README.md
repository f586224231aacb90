# A verified model of the rCore kernel's memory system

The repository is a small RISC-V kernel in Rust: Sv39 page tables that are edited in place in
physical memory, user address spaces with demand paging, a page allocator with ownership,
copies between user and kernel memory that survive page faults, and a task list that is
permuted by the clock.  This project models that code in Dafny and proves what it keeps over
every run.

How the model is built:

* Physical memory (`Memory.dfy`) is raw bytes, page by page.  Page tables live in the same bytes
  as data; a ghost view shows every page as 512 entries.
* The specification of the page tables is the address-translation process of section 4.3.2 of
  The RISC-V Instruction Set Manual, Volume II: Privileged Architecture (version 20211203), with
  the parameters of section 4.4 (`Walk.Translate`).  The walk that the code makes is another
  function (`Walk.Lookup`), and the shape invariant `Walk.Tree` makes the two agree.
* The source's structs whose methods update them in place are classes (`PhysMem`,
  `PageAllocator`, `RootPgt`, `VMSpace`, `Kernel`, `TaskControlBlock`, `TaskList`,
  `TaskStatistics`, `Machine`).  Their methods are proved on snapshots (`World`, `Pgt`, `Space`):
  each loop round is one lemma about two snapshots.
* An area list means a function from page numbers to cells (`Areas.CellAt`); nothing that is said
  about a list depends on its order.
* `Kernel.Inv` is the invariant of all spaces together; `Machine.Inv` adds the task list and the
  tables of system calls, and holds whenever user code runs.
* `Steps.TrapStep` and `Steps.AccessStep` are the steps of the kernel as relations on values
  (`Config`).  The methods of `Machine` are proved to make these steps, and `Machine.Run` gives the
  trace of its run, so that what holds of whole runs is proved by induction over traces.
* `FlatMemory` is what user code sees of all this over a run: a flat memory of its own, a function of
  its program and of its own stores and system calls (`Machine.TasksAreFlat`).
* `InNumbers`, and lemmas beside the definitions that the contracts use, say the main results once
  more in addresses, bits and bytes, without the names that the code shares with its contracts.
* `Machine.Live` runs any sequence of user steps from the memory that the boot loader leaves, and
  `Machine.ReachableMemory` says what its states mean for the hardware.

Machine integers are natural numbers with their 64-bit bounds written out; shifts and masks by
constants are divisions and remainders.  The release build is modelled, in which `end - 1` wraps in
`check_u_va_range(0, 0)`, so that range is refused; a debug build would panic there.

Places where the code does less than its documentation says or than its callers may expect, and
which are modelled as they are in the code:

* the loader ignores the page offset of an unaligned segment (`LoadSpec.FaithfulIff`,
  `LoadSpec.ShiftIsVisible`);
* the user stack is added without a look at the program's segments, so its area can overlap one
  (`LoadSpec.StackFitsIff`, `LoadSpec.StackCanOverlap`);
* `mmap` accepts a mapping with write but without read permission, and a task that then touches it
  is killed (`UAccess.WriteOnlyUseless`, `Steps.WriteOnlyKills`);
* `write` takes the whole machine down if the bytes are not UTF-8 or if the heap has no buffer of
  their length (`Steps.NotTextDies`, `Steps.TooLongDies`), and so do `mmap` and `munmap` if the heap
  does not let the caller's list of areas grow (`Steps.FullListDies`); `Steps.PanicsIff` says when;
* `mmap` of no bytes at an address that is not page aligned maps a page (`Kernel.NoBytesTakeAPage`);
* a program segment without memory leaves an empty area, and `mmap` across it fails although none of
  its pages has an area (`LoadSpec.EmptySegment`, `Kernel.EmptyAreaRefuses`); `Kernel.MmapDecided`
  says exactly when `mmap` succeeds, and for programs without such a segment it depends on the pages
  alone (`InNumbers.MmapsAreFlat`);
* switching is not fair with three or more tasks (`Tasks.Starves`);
* the six-slot table takes a recorded id 0 for a free slot (`Statistics.PromisedIff`,
  `Statistics.ZeroIsTakenForFree`).  No run reaches this, because `syscall_handler` panics on the id
  0; in every reachable state the table of each task is complete (`Machine.TablesComplete`).

The files, in the order in which they build on each other: `Layout`, `Pte`, `Memory`, `Walk`,
`Mmu`, `Satp`, `PageAlloc`, `PgtSpec`, `Sweep`, `RootPgt`, `Areas`, `SpaceSpec`, `LoadSpec`,
`VMSpace`, `KernelMap`, `SystemSpec`, `Kernel`, `Utf8`, `UAccess`, `Statistics`, `Tasks`, `Steps`,
`FlatMemory`, `InNumbers`, `Machine`.

## Model

| member | source | states |
|---|---|---|
| Layout.VpnFromVa | os/src/mm.rs:133-136 | the page number of a valid address is the page that contains it, and lies in one of the two halves of the Sv39 space |
| Layout.AddressFields | os/src/mm/sv39.rs:14-21 | the bits of a virtual address: which addresses are valid, which lie in the upper half, and which bits are the three table indices |
| Layout.IndexInjective | os/src/mm/sv39.rs:14-21 | page numbers of valid addresses with the same three table indices are equal: sign extension loses nothing |
| Layout.RebuildIndex | os/src/mm/sv39.rs:238 | rebuilding a page number from its indices without sign extension is right for the lower half |
| Layout.AcceptedRanges | os/src/mm.rs:89-99 | in numbers: the range check accepts exactly the ranges that start below the end of user space and end at most there, except that of no bytes at 0 |
| Layout.AcceptedRangeRoundsInside | os/src/mm.rs:89-99 | a range that passes the check never trips the assertion of `VPN::from_va` after rounding up, stays below the last lower-half page, and is nonempty in pages unless it has no bytes and starts on a page boundary |
| Pte.NewWord | os/src/mm/sv39.rs:274-280 | an entry word built from a page number and valid flags has exactly those fields, and reading the page number back never trips the assertion of `PPN::from_pa` |
| Pte.WordRoundTrip | os/src/mm/sv39.rs:256-313 | decoding the word of an entry gives the entry back |
| Pte.WordOnto | os/src/mm/sv39.rs:256-313 | every 64-bit word is the word of the entry it decodes to |
| Pte.EntryRoundTrip | os/src/mm/sv39.rs:81-84 | an entry survives being stored as eight bytes of memory |
| Pte.FlagBits | os/src/mm/sv39.rs:259-312 | in bits: which entries the code takes for valid, for leaves and for pointers, and which flags it accepts |
| Pte.EntryLayout | os/src/mm/sv39.rs:256-313 | the eight bytes of an entry, least significant first, hold its flags, page number and reserved bits where the standard lays them out |
| Memory.PutEntryLocal | os/src/mm/sv39.rs:81-84 | storing one entry in a page changes that entry and no other |
| Memory.EntryBytes | os/src/mm/sv39.rs:81-84 | entry i of a table is in the eight bytes from byte 8 i of its page on |
| Memory.ZeroFrameIsEmptyTable | os/src/mm/page_alloc.rs:68-76 | a page of zero bytes is a table of invalid entries |
| Memory.PhysMem.WriteEntry | os/src/mm/sv39.rs:123-142 | a table write changes one entry of one page, in the bytes as well as in the view as tables |
| Memory.PhysMem.Zero | os/src/mm/page_alloc.rs:68-76 | the clearing loop zeroes the whole page and touches no other |
| Memory.PhysMem.CopyFrame | os/src/mm/sv39.rs:57-62 | copying a table copies all its entries and touches no other page |
| Walk.WalksAgree | os/src/mm/sv39.rs:120-136 | in every tree the code's walk, which tells leaves by X or W, and the standard's walk, which tells them by R or X, agree on every page; no misaligned superpage is met; valid entries without R and X do not translate |
| Walk.TranslateAtLength | os/src/mm/sv39.rs:14-21 | the translation process of the standard written out for a virtual address, in bits: three entries, leaves of 1 GiB, 2 MiB and 4 KiB, alignment, and every way to fault |
| Walk.LinkTable | os/src/mm/sv39.rs:121-125 | linking an empty table into an invalid slot keeps the tree's shape and every lookup |
| Walk.ReplaceLeafTable | os/src/mm/sv39.rs:236-244 | rewriting a leaf table changes exactly the lookups below it |
| Walk.WriteLargeLeaf | os/src/mm/sv39.rs:187-191 | a 2 MiB leaf in an invalid slot maps its 512 pages and nothing else |
| Satp.SatpFields | riscv/src/regs/satp.rs:6-10 | the register value has the mode, a zero address-space identifier and the page number in their fields, and the kernel reads the page number back |
| Satp.SatpInjective | riscv/src/regs/satp.rs:6-28 | different modes and pages have different register values |
| PageAlloc.FirstUnusedPpn | os/src/mm/page_alloc.rs:30-38 | the first free page is the first one that starts at or after the end of the kernel |
| PageAlloc.PageAllocator.constructor | os/src/mm/page_alloc.rs:24-28 | the allocator starts with no page in use, from the first free page to the end of memory |
| PageAlloc.PageAllocator.Alloc | os/src/mm/page_alloc.rs:94-108 | gives a page that nobody holds, the last recycled one first, and fails exactly if none is left |
| PageAlloc.PageAllocator.Dealloc | os/src/mm/page_alloc.rs:110-112 | takes one held page back |
| PageAlloc.PageAllocator.DeallocAll | os/src/mm/page_alloc.rs:131-135 | dropping a list of pages gives back exactly these |
| PageAlloc.PageAllocator.DeallocMap | os/src/mm/page_alloc.rs:131-135 | dropping a page map gives back exactly its pages, in whatever order |
| PageAlloc.Partition | os/src/mm/page_alloc.rs:86-113 | recycled, live and never-used pages add up to the managed range, none twice |
| PageAlloc.FreeAndLive | os/src/mm/page_alloc.rs:86-113 | free pages and pages in use add up to the number of managed pages |
| PageAlloc.AllocZeroedPage | os/src/mm/page_alloc.rs:68-76 | gives a page that nobody holds, all zeros, and changes nothing else |
| PgtSpec.Descend | os/src/mm/sv39.rs:127-135 | following a valid entry that is not a leaf reaches the table on the page's path at the next level |
| PgtSpec.LinkStep | os/src/mm/sv39.rs:121-125 | one round that creates a table keeps the tree's invariant, its lookups, and all pages that are not its own |
| PgtSpec.MapDone | os/src/mm/sv39.rs:138-142 | the final write adds exactly one mapping to what was there before the walk |
| PgtSpec.LargeDone | os/src/mm/sv39.rs:187-191 | the final write of a large mapping maps exactly the 2 MiB around the page number |
| PgtSpec.CopiedTree | os/src/mm/sv39.rs:52-65 | a copy of the kernel's root shares all tables below it and translates alike |
| Sweep.SkipGigabyte | os/src/mm/sv39.rs:213-217 | an absent level-1 table: its whole gigabyte counts as unmapped and both lower counters restart at 0 |
| Sweep.SkipTable | os/src/mm/sv39.rs:227-230 | an absent leaf table: its 2 MiB count as unmapped and the lowest counter restarts at 0 |
| Sweep.ClearTable | os/src/mm/sv39.rs:236-245 | the inner loop clears exactly the entries from the start to the range's end |
| Sweep.RangeOf | os/src/mm/sv39.rs:238 | cleared indices are exactly the page numbers of a lower-half range |
| Sweep.SweepingAt2 | os/src/mm/sv39.rs:210-221 | the scan never meets a huge page and never passes the leaf table that will stop it |
| Sweep.SweepingAt1 | os/src/mm/sv39.rs:223-234 | the scan never meets a large page and never skips the leaf table that will stop it |
| RootPgt.RootPgt.New | os/src/mm/sv39.rs:38-44 | an empty tree on a page that nobody held; fails exactly if no page is left |
| RootPgt.RootPgt.NewCopy | os/src/mm/sv39.rs:52-65 | a tree that owns only its root and translates as the kernel's table does |
| RootPgt.RootPgt.ForgetSelf | os/src/mm/sv39.rs:91-98 | returns the number of tables, which stay live for ever |
| RootPgt.RootPgt.Drop | os/src/mm/sv39.rs:26-33 | gives back the tree's own tables and none of the shared ones |
| RootPgt.RootPgt.MapCreate | os/src/mm/sv39.rs:106-145 | map insertion: on success the mappings gain exactly this one; on any error, also after a table was linked, none changes; `DoubleMapping` exactly if the page was mapped at some level; at most two tables are taken, none if the leaf table was there, and pages run out only if fewer than two are free |
| RootPgt.RootPgt.MapCreateLarge | os/src/mm/sv39.rs:157-194 | on success the 2 MiB around the page are mapped, aligned, and nothing else; on any error no mapping changes; `DoubleMapping` exactly if the slot was taken; no table comes to lie on the path of a small page; at most one table is taken and pages run out only if none is free |
| RootPgt.RootPgt.ClearLeaves | os/src/mm/sv39.rs:236-245 | the innermost loop clears entries up to the range's end and says whether it met it |
| RootPgt.RootPgt.Unmap | os/src/mm/sv39.rs:202-251 | range deletion: the three loops remove exactly the mappings in the range, keep all others and all tables, always return, and never reach an assertion or the final panic |
| Areas.FindArea | os/src/mm/vm.rs:454-459 | finds the first area that contains the page number, if any does |
| Areas.OrderUnobservable | os/src/mm/vm.rs:218-228 | lists with the same areas in any order say the same about every page number |
| Areas.InsertPage | os/src/mm/vm.rs:436 | a page that becomes resident changes that page number and no other |
| Areas.UndoInsert | os/src/mm/vm.rs:444-447 | removing it again restores the list |
| Areas.PushArea | os/src/mm/vm.rs:494-495 | a new area changes exactly its own page numbers |
| Areas.TrimCells | os/src/mm/vm.rs:513-564 | in each of the four cases a round removes exactly the overlap of one area with the range |
| Areas.TrimOk | os/src/mm/vm.rs:513-564 | trimming keeps areas disjoint and their pages inside their bounds |
| Areas.TrimProgress | os/src/mm/vm.rs:505-564 | with reverse indices, `swap_remove` and `push`, the areas still to be visited are untouched, and those behind the index stay apart from the range |
| Areas.TrimGrows | os/src/mm/vm.rs:537-563 | the list gets longer, by one, exactly if the range is a hole in the middle of an area |
| SpaceSpec.TranslationIsAreas | os/src/mm/vm.rs:214-228 | a lower-half page number is translated exactly if its area holds a page for it, to that page with that area's permissions |
| SpaceSpec.IncludedIsGranted | os/src/mm/vm.rs:424-427 | what the kernel checks in an area's permissions is what the hardware, whose check is defined apart from it in bits, then grants |
| SpaceSpec.GenuineFault | os/src/mm/vm.rs:421-449 | if an area includes what a refused access needs, the page is not resident, so mapping it cannot be a double mapping |
| SpaceSpec.FaultMapped | os/src/mm/vm.rs:434-449 | mapping a fresh page keeps areas, pages and table in agreement and touches nothing that belongs to others |
| SpaceSpec.FaultFailed | os/src/mm/vm.rs:444-449 | a failed mapping that linked tables and returned the page keeps the agreement too |
| SpaceSpec.UnmapRound | os/src/mm/vm.rs:513-564 | clearing the table range, trimming the area and dropping its pages keep the agreement |
| VMSpace.VMSpace.Enter | os/src/mm/vm.rs:434-449 | the page is entered, mapped and kept, or everything is undone; permissions with W and without R always fail |
| VMSpace.VMSpace.Map | os/src/mm/vm.rs:421-450 | a refused access ends in exactly one way for each state of the areas; on success at least what was asked for is granted through a page of zeros; on an error areas and pages are unchanged; pages run out only if fewer than three are free; the unexpected-map-type panic is not reached |
| VMSpace.VMSpace.MapFaultPage | os/src/mm/vm.rs:464-470 | the same for the faulting address |
| VMSpace.FaultErrors | os/src/mm/vm.rs:421-427 | in bits: a fault reports that there is no area exactly if none contains the page, and that permission is denied exactly if the area lacks a bit that is asked for |
| VMSpace.VMSpace.AddNewArea | os/src/mm/vm.rs:474-500 | for all arguments: succeeds exactly if the range is nonempty, the permissions are known and no area overlaps it, and says which of these fails first; on success exactly these page numbers get the new area, which is pushed at the end; areas stay disjoint |
| VMSpace.VMSpace.UnmapArea | os/src/mm/vm.rs:513-564 | one overlapping area loses its overlap with the range in areas, resident pages and table at once |
| VMSpace.VMSpace.Unmap | os/src/mm/vm.rs:504-568 | pointwise removal: the areas afterwards are the old ones without the range, whatever their order; resident pages outside keep their bytes; it never fails |
| VMSpace.VMSpace.Drop | os/src/mm/vm.rs:218-228 | gives back exactly the tables and data pages of the space |
| VMSpace.VMSpace.CopyData | os/src/mm/vm.rs:353-358 | copies the data, at most a page, and leaves the rest of the page and all other pages |
| VMSpace.VMSpace.MapUserElfSegment | os/src/mm/vm.rs:271-309 | with enough free pages, succeeds exactly for segments that are aligned as required, readable if writable, and clear of all areas; then every page is resident with the header's permissions and the file's bytes, then zeros; on an error nothing that belongs to others has changed |
| LoadSpec.Segment.Permissions | os/src/mm/vm.rs:327-341 | the permissions are U and the header's R, W and X |
| LoadSpec.LoadedBytes | os/src/mm/vm.rs:286-305 | through the page table, byte i from the segment's first page on reads as file byte i of the segment and as zero past the file size |
| LoadSpec.AlignedSegmentIsFaithful | os/src/mm/vm.rs:271-309 | for a page-aligned address and every byte of the segment in memory: byte i reads as `elf[offset + i]`, and as zero past the file size |
| LoadSpec.UnalignedSegmentIsShifted | os/src/mm/vm.rs:283-297 | for any address, byte i reads as `elf[offset + i + vaddr % 4096]`, and as zero from where that lies past the file size |
| LoadSpec.FaithfulIff | os/src/mm/vm.rs:271-309 | loading is faithful exactly if the address is page aligned or that shift cannot be seen in the file |
| LoadSpec.ShiftIsVisible | os/src/mm/vm.rs:283-297 | for every program and every readable or executable segment that starts at the second byte of a page and whose first two bytes differ, the user reads the second one where the first one should be |
| LoadSpec.StackFitsIff | os/src/mm/vm.rs:363-385 | the area of the user stack, which is pushed unchecked, stays disjoint from the others exactly if none of them reached into its range |
| LoadSpec.StackCanOverlap | os/src/mm/vm.rs:235-252 | a program with one segment at the start of the stack's range, which is not refused and for which the areas would overlap |
| LoadSpec.HeadersInNumbers | os/src/mm/vm.rs:271-309 | in numbers: what is asked of the headers of a program, which the loader does not check |
| LoadSpec.StackIsThere | os/src/mm/vm.rs:363-385 | the 8 MiB below the end of user space are an area with U, R and W and without X, with its uppermost page resident |
| LoadSpec.StackAdded | os/src/mm/vm.rs:363-385 | after the user stack was added its leaf table exists, which later stops every scan of `RootPgt::unmap`; its resident page holds zeros |
| LoadSpec.KernelStackAdded | os/src/mm/vm.rs:389-402 | the kernel stack page joins the space's pages without a mapping in the lower half |
| VMSpace.VMSpace.AddUserStackArea | os/src/mm/vm.rs:363-385 | the stack range becomes readable and writable for the user, with one page of zeros resident, or everything is given back |
| VMSpace.VMSpace.AddKernelStackArea | os/src/mm/vm.rs:389-402 | a fresh page is held at its linear address, and the stack end is the end of that page |
| VMSpace.VMSpace.NewUser | os/src/mm/vm.rs:235-252 | with enough free pages a space is made exactly for programs whose headers are acceptable; it takes no more pages than the headers say, sees the kernel's upper half, holds all loadable segments, a stack and nothing else in the lower half, and shares only the kernel's tables; on an error all pages are back and no page of others was written |
| LoadSpec.RefusedMeans | os/src/mm/vm.rs:271-309 | while a program is loaded, the areas so far refuse a segment exactly if its header conflicts with an earlier one or is unacceptable by itself |
| LoadSpec.RefusedPrograms | os/src/mm/vm.rs:271-309 | in numbers: a program is refused exactly if a segment has an alignment that does not divide 4096, or pages that can be written and not read, or a page in common with an earlier one |
| LoadSpec.EmptySegment | os/src/mm/vm.rs:271-325 | a segment without memory at a page boundary is accepted, and its area is empty |
| LoadSpec.PagesForPrograms | os/src/mm/vm.rs:235-252 | a program needs at most five pages and three for each page of each of its segments |
| KernelMap.RoundingsAgree | os/src/mm/vm.rs:158-164 | the allocator and the linear map round the end of the kernel to the same page |
| KernelMap.PhysRangesTile | os/src/mm/vm.rs:166-180 | the small, large and small ranges have aligned bounds next to each other |
| KernelMap.MapKernelRange | os/src/mm/vm.rs:70-86 | on success exactly the pages of the range are mapped linearly with the permissions, with at most two tables for each 2 MiB; on a failure it names the page that was mapped before, or the permissions are not valid, or the pages are gone and were fewer than that |
| KernelMap.MapKernelRangeLarge | os/src/mm/vm.rs:185-212 | the same with 2 MiB pages and at most one table for each; no existing table is overwritten |
| KernelMap.MapPhysMem | os/src/mm/vm.rs:142-156 | exactly the memory from the end of the kernel to the end of memory is mapped, for any page alignment of the kernel's end; on a failure some page was mapped before or the pages are gone |
| KernelMap.InitKernelSatp | os/src/mm/vm.rs:48-68 | with 160 free pages it always succeeds, never fails because two regions meet, and takes no more than these; on success the hardware translates exactly the sections, the MMIO ranges and the free memory, each with its permissions; the lower half is empty; on a failure all its pages are free again |
| KernelMap.BootNeed | os/src/mm/vm.rs:48-68 | whatever the bounds of the image's sections are, the tables of all twelve regions are at most 160 pages |
| KernelMap.ManagedMemory | os/src/mm/page_alloc.rs:24-38 | the managed pages are the whole pages between the end of the kernel and the end of its 128 MiB of memory |
| KernelMap.LinkerScript | os/src/linker.ld:10-51 | what is asked of the image holds for the layout of the linker script, whatever the sizes of the sections |
| KernelMap.BootingUnused | os/src/mm/vm.rs:48-68 | when a region's turn comes, nothing is mapped in it yet |
| KernelMap.AllocatableIsMapped | os/src/mm/vm.rs:142-156 | every page that the allocator can hand out lies in the linear map, readable and writable |
| KernelMap.KernelIsMapped | os/src/mm/vm.rs:48-156 | for every upper-half address, in addresses and bits: stack, data, bss, devices and free memory translate to their address minus the offset with R and W and without X and U, text with R and X and without W, constants with R alone; every other address faults |
| SystemSpec.SystemStep | os/src/mm/vm.rs:421-568 | isolation: an operation on one space leaves the kernel's table, every other space's translation and every other space's bytes as they were, although all roots share the kernel's tables |
| SystemSpec.SystemGrows | os/src/mm/vm.rs:235-252 | a new space keeps the invariant of all spaces |
| SystemSpec.SystemShrinks | os/src/mm/page_alloc.rs:131-135 | a dropped space gives back exactly its pages, and the others do not notice |
| SystemSpec.StaysUntouched | os/src/mm/vm.rs:214-228 | a program and its fresh stack stay as they are, byte for byte, while others run |
| SystemSpec.UserStore | os/src/mm/vm.rs:434-442 | a store of user code reaches one of its own data pages and can change no page table |
| SystemSpec.SpacesAreTheirAreas | os/src/mm/vm.rs:421-568 | a lower-half page is translated exactly if one area holds a page for it, and that area is the only one that contains it |
| SystemSpec.UpperIsKernels | os/src/mm/sv39.rs:52-65 | every space translates the upper half as the kernel's table does |
| SystemSpec.NothingFreeIsMapped | os/src/mm/page_alloc.rs:18-20 | no lower-half translation and no table pointer of a space leads to a free page, and no lower-half translation to a page of another space or of the kernel |
| SystemSpec.LinearEverywhere | os/src/mm/vm.rs:389-402 | every allocatable page, kernel stacks included, has its linear mapping in every space, with the bits R and W set and X and U clear |
| SystemSpec.OwnershipIsPartition | os/src/mm/page_alloc.rs:78-135 | every managed page is exactly one of never used, recycled, a kernel table, or owned by one space |
| Kernel.ToPermissions | os/src/syscall/mm.rs:40-52 | U, and R, W and X as the request's bits say |
| Kernel.PageMeetsBytes | os/src/syscall/mm.rs:54-55 | for a nonempty range, the pages that are unmapped are exactly those that hold a byte of it |
| Kernel.MmapDecided | os/src/syscall/mm.rs:14-38 | in numbers and bytes: a request for some bytes is accepted exactly if they lie below the end of user space, the protection is below 8, no page that holds one of them has an area, and no empty area starts at a page boundary between them |
| Kernel.EmptyAreaRefuses | os/src/mm/vm.rs:489-499 | the last condition is needed: an empty area makes a request across it fail although none of its pages has an area |
| Kernel.MmapGives | os/src/syscall/mm.rs:40-52 | in bits: exactly the pages that hold one of the bytes get an area for the user, with R, W and X as bits 1, 2 and 0 of the request say, and no page yet |
| Kernel.Kernel.Boot | os/src/mm.rs:57-62 | it succeeds for every image that leaves 160 pages, and then the invariant of all spaces holds, with none yet, and no more than these are in use; the register value has mode 8 (Sv39), no address-space identifier and the root's page number |
| Kernel.Kernel.Mmap | os/src/syscall/mm.rs:14-38 | returns 0 exactly if the range and the request are accepted and no area overlaps; then exactly the pages of the rounded range, which for a nonempty one are those that hold a byte of it, get a new area with these permissions; no other space changes; it panics exactly if it would return 0 and the list of areas, which then gets one longer, cannot grow |
| Kernel.NoBytesTakeAPage | os/src/syscall/mm.rs:23-34 | a request for no bytes at an address inside a page maps that page |
| Kernel.MunmapDecided | os/src/syscall/mm.rs:56-75 | in numbers and bytes: when `munmap` succeeds, and that then exactly the pages that hold one of the bytes have no area and no translation any more, while all else reads as before |
| Kernel.MunmapSplitsWhat | os/src/mm/vm.rs:546-563 | a hole is cut exactly if one area holds the page before the first byte's and the page after the last byte's |
| Kernel.Kernel.Munmap | os/src/syscall/mm.rs:56-76 | total on all 64-bit arguments: returns 0 exactly for accepted ranges, and then exactly the pages that hold a byte lose their area and their translation; other addresses read as before, and so do other spaces; it panics exactly if it cuts a hole into an area and the list of areas cannot grow |
| Kernel.Kernel.PageFault | os/src/trap.rs:58-70 | the fault handler seen from all spaces: what was readable still is and is unchanged, a page that comes in holds zeros, an error changes no translation, no other space changes |
| Kernel.Kernel.Spawn | os/src/task.rs:39-49 | with enough free pages, acceptable programs and only these get a new space beside the others, loaded and with nothing else in its lower half, for no more pages than the headers say; otherwise nothing changes |
| Kernel.Kernel.Exit | os/src/task.rs:69-79 | a terminated one leaves and gives back exactly its pages |
| Kernel.Kernel.TryAccess | os/src/mm/uaccess.S:9-12 | a load or store goes through exactly if the hardware grants it; it reads what is there or changes that one byte, and no other byte of any space |
| Kernel.StoreIsLocal | os/src/mm/vm.rs:434-442 | no page is mapped at two user addresses, so a store changes one byte only |
| Kernel.FaultReads | os/src/mm/vm.rs:421-450 | across a fault, reads are unchanged except that a page of zeros may have become readable |
| UAccess.SignedOrder | os/src/mm/uaccess.S:6-8 | the signed comparison of the copy loop orders addresses of one half correctly |
| UAccess.GrantedNotRefusable | os/src/trap/ktrap.rs:21-31 | what a supervisor access is granted, the handler would not have refused, since all of the lower half is user memory |
| UAccess.AccessInBits | os/src/trap/utrap.rs:42-60 | in bits: user code is granted a translation with U and R for a load, with U and W for a store; the kernel one with R or with W |
| UAccess.RefusedInBits | os/src/mm/vm.rs:421-449 | in bits: a fault is refused, however many pages are free, exactly if the page lies in no area with U and R, and for a store W too |
| UAccess.UserInstruction | os/src/trap/ktrap.rs:13-45 | a copy instruction that faults runs again and then succeeds, or the copy is broken off; never a second fault |
| UAccess.Uaccess | os/src/mm/uaccess.S:5-24 | the copy ends; exactly the first bytes up to the result are copied; it stops at the first byte whose fault is refused, or if fewer than three pages per page of the range were free; nothing else changes |
| UAccess.CopyFromUser | os/src/mm/uaccess.rs:28-33 | the copied bytes are what the user would have read before, zeros for pages not yet resident; the areas change only in pages that become resident, at most three pages being taken for each page of the range; with enough free pages all is copied exactly if no page of the range is refused |
| UAccess.CopyToUser | os/src/mm/uaccess.rs:49-54 | the user then reads the copied bytes, and no other byte has changed; the areas change only in pages that become resident; with enough free pages all is copied exactly if no page of the range is refused |
| UAccess.WriteOnlyUseless | os/src/syscall/mm.rs:40-52 | nothing in a mapping that was asked for with `PROT_WRITE` alone is translated, and every access to it is refused |
| Utf8.ValidIffEncoded | os/src/syscall/io.rs:36 | the bytes that pass as UTF-8, by the grammar of section 4 of RFC 3629, are exactly the encodings of sequences of code points |
| Utf8.Forms | os/src/syscall/io.rs:36 | the nine well-formed forms of a character, byte by byte |
| UAccess.WriteDecided | os/src/syscall/io.rs:13-40 | with enough free pages `write` panics, succeeds or is refused as a function of its arguments, of what the user can read, of the areas and of the heap |
| UAccess.SysWrite | os/src/syscall/io.rs:13-40 | prints exactly the user's bytes or nothing, and changes the caller's areas only in pages that become resident; it is refused for another file or a range that is not accepted, panics before it touches a page if there is no buffer, ends with -1 if a page is refused or pages run out, and otherwise panics exactly if the bytes are not UTF-8 |
| UAccess.SysTaskInfo | os/src/syscall/process.rs:36-61 | exactly the first bytes of the record reach the caller, all of them if and only if it succeeds, and its areas change only in pages that become resident; with enough free pages it succeeds exactly for a listed id, an accepted range and pages that may be written |
| Statistics.FindSlot | os/src/task/state.rs:204-206 | the first slot that has the id or is free |
| Statistics.PromiseKept | os/src/task/state.rs:203-213 | one more call keeps the table at the first six different ids with their exact counts, if no new id follows a recorded 0 |
| Statistics.PromisedIff | os/src/task/state.rs:198-213 | after any history the table holds the first six different ids with their exact counts if and only if no new id has appeared after a recorded id 0 |
| Statistics.ZeroIsTakenForFree | os/src/task/state.rs:203-213 | the history 0, 7 for which it does not, taken by itself; no run of the kernel has it |
| Statistics.NonzeroIsPromised | os/src/task/state.rs:198-213 | for histories of nonzero ids, which all system calls have, the table is as documented |
| Statistics.FirstAppearance | os/src/task/state.rs:198-213 | the different ids of a history are listed in the order in which they first appear |
| Statistics.FewIdsComplete | os/src/task/state.rs:198-213 | if no more than six nonzero ids are called, the table has every called id with its exact count and counts no other |
| Statistics.CallRecorded | os/src/task/state.rs:198-213 | recording fails exactly for ids outside the first six |
| Statistics.TaskStatistics.IncreaseSyscallCount | os/src/task/state.rs:203-213 | the in-place table follows the history, and the result says whether the id is one of the first six |
| Tasks.TakeAtMultiset | os/src/task.rs:145-150 | for every clock value, `swap` and `swap_remove` take out exactly the chosen task |
| Tasks.TakeAtEach | os/src/task.rs:145-150 | and where each of the others then is |
| Tasks.NextTask | os/src/task.rs:65-114 | for every list and all clock values, who runs next, in closed form: never the task that was current if another one is listed |
| Tasks.Starves | os/src/task.rs:65-150 | switching is not fair: from any list of three or more tasks, as a switch leaves it, the clock can have two tasks run in turn for ever |
| Tasks.ListedPermuted | os/src/task.rs:145-150 | unique ids do not depend on the order of the list |
| Tasks.TaskList.Add | os/src/task.rs:46-61 | a new task gets the next id, is Ready and comes last |
| Tasks.TaskList.TakeTaskTcb | os/src/task.rs:145-150 | takes out the task with the id, or nothing exactly if there is none; the order of the rest follows from the clock |
| Tasks.TaskList.GetNextTaskId | os/src/task.rs:109-114 | the first Ready task's id, or nothing exactly if none is Ready |
| Tasks.TaskList.ExchangeCurrentTaskState | os/src/task.rs:175-194 | the current task's state changes exactly if it is as expected, and no other task's does |
| Tasks.TaskList.RecordCurrentSyscall | os/src/task.rs:222-231 | the call is recorded for the current task and for no other |
| Tasks.TaskList.RunNextTask | os/src/task.rs:65-107 | for all clock values the list keeps its tasks, except a terminated current one; the order of the list and the task that runs are exactly those of the two halves of the switch, in which the current task goes to the end before the first Ready one is taken (`Tasks.NextTask` says who that is); then exactly that task is Running; it shuts down exactly if no task is left |
| Steps.SyscallDies | os/src/syscall.rs:22-32 | a known system call panics only in `write`, if there is no buffer or the bytes are not UTF-8, and in `mmap` and `munmap`, if the list of areas must grow and cannot; and then always, unless pages run out first |
| Steps.NotTextDies | os/src/syscall/io.rs:36 | in every space with a readable byte 0xFF, `write` of that byte panics |
| Steps.TooLongDies | os/src/syscall/io.rs:28 | an accepted `write` of more bytes than the heap has panics, however many pages are free |
| Steps.FullListDies | os/src/mm/vm.rs:489-500 | an accepted `mmap` panics once the heap has no room for one more area |
| Steps.WriteOnlyKills | os/src/syscall/mm.rs:40-52 | a task that touches its write-only mapping is gone |
| Steps.SwitchesTo | os/src/task.rs:65-114 | every step that switches, whatever its cause, goes to the task that the list and the clock determine, and to another one if there is one |
| Steps.TimerSwitches | os/src/trap/utrap.rs:25-29 | with two listed tasks or more the timer and `yield` leave the current task, and all tasks stay listed |
| Steps.IsolatedRun | os/src/trap/utrap.rs:18-73 | isolation over whole runs: while other tasks run, for however long, a task's space stays, with its areas, its translations and every byte of it |
| Steps.CallsAreRecorded | os/src/trap/utrap.rs:32-34 | after any run, what is recorded for a listed task is every environment call that it made, in order, and no other |
| Steps.FewerTasks | os/src/task.rs:65-107 | over a run tasks leave and none comes |
| Steps.LastPanic | os/src/trap/utrap.rs:18-73 | a run that ends in a panic ends at a trap that must panic for what memory was then |
| Machine.MatchedLess | os/src/task.rs:69-79 | a task and its space leave together |
| Machine.Machine.AddTask | os/src/task.rs:39-62 | one more Ready task with its own space, for acceptable programs and enough free pages, or nothing changes; its space holds the program, and those of the other tasks are untouched |
| Machine.Machine.StartTasks | os/src/task.rs:31-37 | a Ready task for every program, and the first program's task runs first; it fails only if a program is refused or pages run out |
| Machine.Machine.Switch | os/src/task.rs:65-107 | switching keeps the memory invariant and the one-to-one relation of tasks and spaces |
| Machine.Machine.Leave | os/src/trap/utrap.rs:75-85 | sleeping, yielding, exiting or being killed: the state exchange never fails, and exactly the terminated task leaves |
| Machine.Machine.Syscall | os/src/syscall.rs:22-32 | every known system call, with all 64-bit arguments, keeps all invariants and has exactly its effect on the caller's areas, translations, bytes, output and result, and a bounded one on the free pages; only `exit` ends the caller; no other space changes |
| Machine.Machine.HandleFault | os/src/trap/utrap.rs:45-63 | a user fault ends the task exactly if it is refused or pages run out; otherwise the access is then granted, the areas have changed only in pages that have become resident, and at most three pages have been taken |
| Machine.Machine.UTrap | os/src/trap/utrap.rs:18-73 | every trap is a step of `TrapStep`, and the invariants hold at the next return to user code: it panics if and only if the call is unknown, the fault lies outside user space, the cause is unexpected, a `write` has no buffer or bytes that are not UTF-8, or an `mmap` or `munmap` must add an area for which the heap has no room, except that `write` returns -1 if pages run out first; an environment call and nothing else is recorded, for the current task; the timer always switches and changes no memory; the list loses the current task exactly for the traps that end it |
| Machine.Machine.UserAccess | os/src/trap/utrap.rs:45-63 | a load of user code gets the byte that was there, or zero from a page that only now becomes resident; a store changes that byte and no other; areas keep their extent and permissions; or the fault was refused or pages ran out and the task is gone |
| Machine.Machine.Run | os/src/trap/utrap.rs:18-73 | over every interleaving of accesses and traps each step is one of the step relations and every moment of the run satisfies the memory invariant, and at each return to user code exactly one task is Running and it is the current one, all others are Ready, ids are unique, no terminated task is listed, and the tables of calls hold |
| Machine.Start | os/src/task.rs:31-37 | from the boot loader's memory to the first task: it starts only if all programs are acceptable, and if they are it does unless memory has fewer pages than 160 and what the headers say; every task's space then holds its program |
| Machine.Live | os/src/main.rs:23-35 | all of this for every run from boot on: the trace starts with all programs loaded, the first one current and no calls recorded, each moment satisfies the memory invariant, each step is one of the step relations, and the console is what the steps printed; when the last task is gone, all pages in use are the kernel's tables |
| Machine.UntilItsTurn | os/src/task.rs:31-62 | from boot to its first turn a task's memory is its program and an empty stack, whatever the other tasks do |
| Machine.TasksAreFlat | os/src/trap/utrap.rs:18-73 | from boot on, after any number of steps by whichever tasks, the byte that a task has at an address is the last one that it stored or had copied there, zero if it unmapped the page since, or else its program's; the permissions of a page are those of its last `mmap` or `munmap`, or else its program's or its stack's |
| FlatMemory.RunIsFlat | os/src/trap/utrap.rs:18-73 | the same over any run, from whatever the task's memory was at its start |
| FlatMemory.AccessesAreFlat | os/src/trap/utrap.rs:42-60 | every load gets the byte of the flat memory, and with three free pages an access succeeds exactly if the flat permissions have the bits U and R, and for a store W too |
| FlatMemory.PrintsAreFlat | os/src/syscall/io.rs:28-37 | everything that `write` prints is the flat memory of its caller |
| FlatMemory.ProgramBytesAre | os/src/mm/vm.rs:271-385 | at first a task's bytes are `elf[offset + k]` at distance k from a segment's first page, zeros past its file size, and zeros everywhere else |
| FlatMemory.ProgramPermissionsAre | os/src/mm/vm.rs:311-385 | and its permissions are, in bits, those of its segments and of the 8 MiB of stack, and none elsewhere |
| FlatMemory.NeverEmpty | os/src/mm/vm.rs:474-568 | over any run a task whose areas all had pages at first never gets an empty area |
| FlatMemory.ProgramNoneEmpty | os/src/mm/vm.rs:235-385 | at first all areas have pages if every segment has memory or starts inside a page |
| FlatMemory.GoneIsFree | os/src/task.rs:69-79 | when a task leaves, all pages of its space are free again, and no others |
| InNumbers.PossibleSteps | os/src/trap/utrap.rs:18-73 | which steps a run can take, in numbers: no access in user space and no trap is left out, except that registers have 64 bits and buffers fit their place |
| InNumbers.Traps | os/src/trap/utrap.rs:18-73 | what every trap does, by its cause and the number of the call: which ones end the task, which switch, which panic, which leave memory alone, and what is recorded |
| InNumbers.Accesses | os/src/trap/utrap.rs:42-60 | with three free pages a load or store goes through exactly if its page lies in an area with the bits U and R, and for a store W; what it reads and writes; nothing else changes |
| InNumbers.Writes | os/src/syscall/io.rs:13-40 | call 64 decided by its arguments, the readable pages, the bytes and the heap, and what it prints |
| InNumbers.Mmaps | os/src/syscall/mm.rs:14-38 | call 90 decided by its arguments and the areas, in bytes, and the area that each page has afterwards, in bits |
| InNumbers.MmapsAreFlat | os/src/syscall/mm.rs:14-38 | over any run of a program without empty segments, the outcome of every `mmap` of some bytes follows from its arguments and the flat permissions: it succeeds exactly if the bytes lie below the end of user space, the protection is below 8 and no page that holds one of them has permissions |
| InNumbers.Munmaps | os/src/syscall/mm.rs:56-75 | call 215 decided by its arguments and the areas, and the area, translation and byte at each address afterwards |
| InNumbers.Infos | os/src/syscall/process.rs:36-60 | call 2^63 + 1 decided by the listed tasks, its arguments and the writable pages, and the bytes that it writes |
| InNumbers.FlatSteps | os/src/trap/utrap.rs:18-73 | what each step of a task does to a byte of its flat memory and to the permissions of a page, in numbers |
| Machine.TablesComplete | os/src/task/state.rs:198-213 | in every reachable state the six slots of each listed task have every id that it has called with its exact count, and count no other |
| Machine.ReachableMemory | os/src/mm/vm.rs:214-568 | in every reachable state each task's lower half translates exactly as its areas say, areas are disjoint, its upper half is the kernel's, and every allocatable page has the bits R and W for the kernel |
| Machine.ReachableKernel | os/src/mm/vm.rs:48-156 | in every reachable state and whichever task runs, the kernel's sections, devices and free memory translate linearly with their permissions in bits, and nothing else in the upper half does |
| Machine.OneRuns | os/src/task.rs:65-107 | whenever user code runs exactly the current task is Running and all others are Ready; tasks and spaces correspond one to one |
| Machine.AllGivenBack | os/src/task.rs:103-106 | at shutdown no page belongs to a task |

## Left out

- VMSpace.VMSpace.Map: describes accesses that the current translation does not grant. Its handlers are reached by no other access, because translations are not cached in the model; a spurious fault on a resident page, which would enter a second page for it, is not described.
- VMSpace.VMSpace.MapFaultPage: the same.
- Kernel.Kernel.PageFault: the same.
- KernelMap.MapKernelRange: is stated for ranges below the first large page and, as for the large pages, for permissions with R, W or X at all; the linker script and the call sites give no others.
- KernelMap.MapKernelRangeLarge: is stated for 2 MiB slots without a leaf table, as is `RootPgt.MapCreateLarge`.
- RootPgt.RootPgt.MapCreateLarge: requires that no leaf table hangs in the slot, because the source would overwrite a pointer there, and that the flags have W or X, because the source's own walk would take a leaf with R alone for a pointer. The call sites are proved to meet both.
- RootPgt.RootPgt.Unmap: is stated for ranges of the lower half in trees with a leaf table at or beyond the range's end, because the source rebuilds page numbers without sign extension and panics if nothing stops the scan. `munmap`, the only caller, is proved to meet this for all arguments.
- VMSpace.VMSpace.NewUser: takes program headers as given records; those that are loaded have a positive alignment, contents inside the file and an end below the stack, because the loader divides by the alignment, slices the file and pushes the stack's area without a check (`LoadSpec.StackFitsIff`). Parsing of ELF files is not part of this model.
- VMSpace.VMSpace.MapUserElfSegment: is stated for a positive alignment, contents inside the file and an end in user space, where the loader has no check of its own and panics or maps outside.
- VMSpace.VMSpace.AddUserStackArea: is stated for spaces without an area in the range of the stack; with one the source's areas overlap, as `LoadSpec.StackFitsIff` says.
- PageAlloc.PageAllocator.DeallocMap: leaves open in which order the pages of a map are recycled, as the order in which the source drops them is not observable.
- Tasks.TaskList.RunNextTask: does not say where contexts are saved. Fairness is not claimed because it does not hold (`Tasks.Starves`).
- UAccess.SysWrite: whether the kernel heap gives a buffer, and where, is an input; the model knows only that none is larger than the heap.
- UAccess.SysTaskInfo: takes the bytes of the record as given, because their layout is the compiler's.
- UAccess.Uaccess: sees the kernel's side of a copy as an array apart from physical memory.
- Machine.Machine.UTrap: does not record run times. Whether the heap lets a list of areas grow is an input of `mmap` and `munmap`; the growth of the kernel's other vectors and maps, of resident pages, tables, recycled pages and tasks, is taken never to fail.
- Steps.PanicsIff: the same.
- Statistics.TaskStatistics.IncreaseSyscallCount: counts without the 64-bit bound of the source.
- Machine code and machine state: boot page table, trap entry and exit, trap frames and their registers, context switch, CSR access.
- Translation caches and their flushes, and the A and D bits; everything is stated over the tables in memory.
- The kernel's own accesses to physical memory are direct; that its linear map allows them is `SystemSpec.LinearEverywhere`.
- The kernel heap, ordered maps and lazy statics, for which Dafny's sequences and maps stand.
- Console, logging, SBI calls, timer reads and the panic handler; clock readings are parameters.
- The spin lock: locked sections are single steps on the one hart that the source assumes.
- Run and waiting times: the exit and yield paths do not record a run's end, so no clean sum holds.
- Some methods are parts of one function of the source and exist to keep proofs short: `RootPgt.Link`, `RootPgt.ClearLeaves`, `VMSpace.Enter`, `VMSpace.UnmapArea`, `VMSpace.LoadPage`, `VMSpace.MapStackPage`, `VMSpace.MapNext`, `VMSpace.Build`, `KernelMap.MapRegion`, `KernelMap.MapRegions`, `Kernel.StoreByte`, `TaskList.LeaveCurrent`, `TaskList.StartReady`, `Machine.AddAll`, `Machine.Enlist`, `Machine.DropSpace`, `Machine.MapCall`, `Machine.CopyCall`, `Machine.RecordCall`, `Machine.HandleCall`, `Machine.HandleFault`.
