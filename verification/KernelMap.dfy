/**
  The kernel's own page table (`init_kernel_satp` and what it calls, os/src/mm/vm.rs).
 */
module KernelMap {
  import opened Layout
  import opened Pte
  import opened Memory
  import opened Walk
  import opened PageAlloc
  import opened PgtSpec
  import opened Areas
  import opened RootPgt

  datatype MapResult = AllMapped | PageFailed(vpn: nat, error: PgtResult) | BadPermissions(permissions: nat) | NoRootPgt

  /** Virtual page numbers `[lo, hi)` of the linear map, with their permissions. */
  datatype Region = Region(lo: nat, hi: nat, permissions: nat)

  /** The addresses that the linker script gives (os/src/linker.ld). */
  datatype Image = Image(
    textStart: nat, textEnd: nat, stackStart: nat, stackEnd: nat, rodataStart: nat, rodataEnd: nat,
    dataStart: nat, dataEnd: nat, bssStart: nat, bssEnd: nat, kernelEnd: nat)

  const KERNEL_BASE_PA: nat := 0x8020_0000
  const RX: nat := PERMISSION_R + PERMISSION_X
  const RW: nat := PERMISSION_R + PERMISSION_W

  /** `QEMU_VIRT_MMIO`: base address and size. */
  const MMIO: seq<(nat, nat)> :=
    [(0x0010_0000, 0x1000), (0x0010_1000, 0x1000), (0x0200_0000, 0x1_0000),
     (0x0c00_0000, 0x60_0000), (0x1000_0000, 0x100), (0x1001_0000, 0x1000)]

  /** A section of the image: page-aligned bounds, from the kernel's base up to `end`. */
  predicate Section(start: nat, finish: nat, end: nat) {
    start % PAGE_SIZE == 0 && finish % PAGE_SIZE == 0 && KERNEL_VA_OFFSET + KERNEL_BASE_PA <= start <= finish <= end
  }

  /** What the linker script guarantees and the mapping code relies on; `kernelEnd` need not
      be page aligned. */
  predicate ImageOk(m: Image) {
    && m.kernelEnd <= KERNEL_VA_OFFSET + MEM_START_PA + MEM_SIZE
    && Section(m.textStart, m.textEnd, m.kernelEnd) && Section(m.stackStart, m.stackEnd, m.kernelEnd)
    && Section(m.rodataStart, m.rodataEnd, m.kernelEnd) && Section(m.dataStart, m.dataEnd, m.kernelEnd)
    && Section(m.bssStart, m.bssEnd, m.kernelEnd)
    && m.textEnd <= m.stackStart && m.stackEnd <= m.rodataStart && m.rodataEnd <= m.dataStart && m.dataEnd <= m.bssStart
  }

  /** The layout of the linker script, for sections of any size that end in memory: text from the
      kernel's base on, one page for the boot table, 16 KiB of stack, constants, data and bss, each
      rounded up to whole pages. */
  lemma LinkerScript(m: Image, text: nat, rodata: nat, data: nat, bss: nat)
    requires m.textStart == 0xffff_ffc0_0000_0000 + 0x8020_0000 && m.textEnd == m.textStart + text * 4096
    requires m.stackStart == m.textEnd + 4096 && m.stackEnd == m.stackStart + 0x4000
    requires m.rodataStart == m.stackEnd && m.rodataEnd == m.rodataStart + rodata * 4096
    requires m.dataStart == m.rodataEnd && m.dataEnd == m.dataStart + data * 4096
    requires m.bssStart == m.dataEnd && m.bssEnd == m.bssStart + bss * 4096
    requires m.kernelEnd == m.bssEnd && m.kernelEnd <= 0xffff_ffc0_0000_0000 + 0x8000_0000 + 0x800_0000
    ensures ImageOk(m)
  {
  }

  // Rounding.

  /** `compute_phy_mem_page_start`. */
  function PhysPageStart(kernelEnd: nat): nat {
    if kernelEnd % PAGE_SIZE == 0 then kernelEnd else kernelEnd - kernelEnd % PAGE_SIZE + PAGE_SIZE
  }

  /** `compute_phy_mem_large_page_start`. */
  function LargeStart(va: nat): nat {
    if va % LARGE_PAGE_SIZE == 0 then va else va - va % LARGE_PAGE_SIZE + LARGE_PAGE_SIZE
  }

  /** `compute_phy_mem_large_page_end`. */
  function LargeEnd(va: nat): nat {
    if va % LARGE_PAGE_SIZE == 0 then va else va - va % LARGE_PAGE_SIZE
  }

  /** The allocator and the linear map round the end of the kernel to the same page. */
  lemma RoundingsAgree(kernelEnd: nat)
    requires KERNEL_VA_OFFSET <= kernelEnd
    ensures PhysPageStart(kernelEnd) == FirstUnusedPpn(kernelEnd) * PAGE_SIZE + KERNEL_VA_OFFSET
    ensures PhysPageStart(kernelEnd) / PAGE_SIZE == LinearVpn(FirstUnusedPpn(kernelEnd))
  {
  }

  /** The three ranges of `map_phys_mem` tile `[start, end)`, with aligned large bounds. */
  lemma PhysRangesTile(start: nat, end: nat)
    requires start <= end
    ensures LargeStart(start) % LARGE_PAGE_SIZE == 0 && LargeEnd(end) % LARGE_PAGE_SIZE == 0
    ensures start <= LargeStart(start) < start + LARGE_PAGE_SIZE && end - LARGE_PAGE_SIZE < LargeEnd(end) <= end
    ensures LargeStart(start) % PAGE_SIZE == 0 && LargeEnd(end) % PAGE_SIZE == 0
  {
    LargeStartAligned(start);
    LargeEndAligned(end);
    LargeIsPage(LargeStart(start));
    LargeIsPage(LargeEnd(end));
  }

  lemma LargeStartAligned(x: nat)
    ensures LargeStart(x) % LARGE_PAGE_SIZE == 0
  {
  }

  lemma LargeEndAligned(x: nat)
    ensures LargeEnd(x) % LARGE_PAGE_SIZE == 0
  {
  }

  lemma LargeIsPage(x: nat)
    requires x % LARGE_PAGE_SIZE == 0
    ensures x % PAGE_SIZE == 0
  {
  }

  // What is mapped after some regions have been.

  /** The translation that the first `k` regions prescribe for page number `v`. */
  function Expected(regions: seq<Region>, k: nat, v: nat): Translation
    requires k <= |regions|
  {
    if k == 0 then Fault
    else if regions[k - 1].lo <= v < regions[k - 1].hi && UPPER_START <= v
    then Hit(v - UPPER_START, regions[k - 1].permissions + FLAG_V)
    else Expected(regions, k - 1, v)
  }

  /** The tree owns all its tables, and those below the root lie in the upper half. */
  ghost predicate KernelTree(g: Pgt) {
    && g.role.Keys == g.own
    && (forall p :: p in g.role && p != g.root ==> IsHigh(g.role[p]))
  }

  /** No leaf table serves page numbers from `limit` on. */
  ghost predicate NoTableFrom(t: Tables, root: nat, limit: nat) {
    forall v :: IsVpn(v) && v >= limit ==> !HasLeafTable(t, root, Index(v, 2), Index(v, 1))
  }

  /** `lo` up to `hi` has been mapped linearly on top of `t0`. */
  ghost predicate Filled(t0: Tables, t: Tables, root: nat, lo: nat, hi: nat, flags: nat) {
    forall v :: IsVpn(v) ==>
      Seen(Lookup(t, root, v), v) ==
        if lo <= v < hi && UPPER_START <= v then Hit(v - UPPER_START, flags) else Seen(Lookup(t0, root, v), v)
  }

  /** Nothing is mapped in `[lo, hi)`. */
  ghost predicate Unused(t: Tables, root: nat, lo: nat, hi: nat) {
    forall v :: IsVpn(v) && lo <= v < hi ==> Lookup(t, root, v) == Absent
  }

  /** Every mapping is one that the hardware sees. */
  ghost predicate AllSeen(t: Tables, root: nat) {
    forall v :: IsVpn(v) && Lookup(t, root, v).Mapped? ==> Seen(Lookup(t, root, v), v).Hit?
  }

  lemma UnusedAt(t: Tables, root: nat, lo: nat, hi: nat, v: nat)
    requires Unused(t, root, lo, hi) && IsVpn(v) && lo <= v < hi
    ensures Lookup(t, root, v) == Absent
  {
    hide Lookup;
  }

  /** Lookups from `v` on are as they were. */
  ghost predicate SameFrom(t0: Tables, t: Tables, root: nat, v: nat) {
    forall x :: IsVpn(x) && x >= v ==> Lookup(t, root, x) == Lookup(t0, root, x)
  }

  lemma SameFromAt(t0: Tables, t: Tables, root: nat, v: nat, x: nat)
    requires SameFrom(t0, t, root, v) && IsVpn(x) && v <= x
    ensures Lookup(t, root, x) == Lookup(t0, root, x)
  {
    hide Lookup;
  }

  lemma SameFromTrans(t0: Tables, t1: Tables, t2: Tables, root: nat, v: nat, v': nat)
    requires SameFrom(t0, t1, root, v) && SameFrom(t1, t2, root, v') && v <= v'
    ensures SameFrom(t0, t2, root, v')
  {
    hide Lookup, IsVpn;
  }

  lemma MappableFlags(permissions: nat)
    requires KnownPermissions(permissions)
    ensures IsValidFlags(permissions + FLAG_V) <==> !Unmappable(permissions)
  {
    PteFlagsBits(permissions);
  }

  lemma SmallSeen(t: Tables, t': Tables, root: nat, v: nat, flags: nat)
    requires IsUpper(v) && (HasR(flags) || HasX(flags))
    requires forall x :: IsVpn(x) ==>
              Lookup(t', root, x) == if x == v then Mapped(0, v - UPPER_START, flags) else Lookup(t, root, x)
    ensures AllSeen(t, root) ==> AllSeen(t', root)
    ensures SameFrom(t, t', root, v + 1) && HasLeafTable(t', root, Index(v, 2), Index(v, 1))
  {
    MappedHasTable(t', root, v);
    hide Lookup, IsVpn, HasLeafTable, Index;
  }

  lemma LargeSeen(t: Tables, t': Tables, root: nat, v: nat, flags: nat)
    requires v % 512 == 0 && (HasR(flags) || HasX(flags))
    requires IsUpper(v) && LargeMapped(t, t', root, v, Mapped(1, v - UPPER_START, flags))
    ensures AllSeen(t, root) ==> AllSeen(t', root)
    ensures SameFrom(t, t', root, v + 512)
  {
    hide Lookup, HasR, HasX;
    forall x | IsVpn(x) && v + 512 <= x ensures Lookup(t', root, x) == Lookup(t, root, x) {
      LargeOf(v, x);
    }
  }

  // How many tables mapping takes.

  /** The number of 2 MiB blocks of virtual memory that hold one of the pages `[lo, hi)`. */
  function Blocks(lo: nat, hi: nat): nat {
    if hi <= lo then 0 else (hi - 1) / 512 - lo / 512 + 1
  }

  /** One page more needs new tables only if it starts a new block. */
  lemma BlocksNext(lo: nat, v: nat, hi: nat)
    requires lo <= v < hi
    ensures Blocks(lo, v + 1) == Blocks(lo, v) + if v > lo && SameLarge(v - 1, v) then 0 else 1
    ensures Blocks(lo, v + 1) <= Blocks(lo, hi)
  {
  }

  lemma BlocksLarge(lo: nat, v: nat, hi: nat)
    requires lo <= v < hi && lo % 512 == 0 && v % 512 == 0 && hi % 512 == 0
    ensures Blocks(lo, v + 512) == Blocks(lo, v) + 1 && Blocks(lo, v + 512) <= Blocks(lo, hi)
  {
    BlocksAligned(lo, v);
    BlocksAligned(lo, v + 512);
    BlocksAligned(lo, hi);
    hide Blocks;
    assert v / 512 < hi / 512;
  }

  lemma BlocksAligned(lo: nat, hi: nat)
    requires lo <= hi && lo % 512 == 0 && hi % 512 == 0
    ensures Blocks(lo, hi) == hi / 512 - lo / 512
  {
  }

  lemma FilledNothing(t: Tables, root: nat, lo: nat, flags: nat)
    ensures Filled(t, t, root, lo, lo, flags)
  {
    hide Lookup, Seen;
  }

  /** One more 4 KiB page. */
  lemma FilledOne(t0: Tables, t1: Tables, t2: Tables, root: nat, lo: nat, v: nat, flags: nat)
    requires Filled(t0, t1, root, lo, v, flags) && IsUpper(v) && lo <= v && (HasR(flags) || HasX(flags))
    requires forall x :: IsVpn(x) ==>
               Lookup(t2, root, x) == if x == v then Mapped(0, v - UPPER_START, flags) else Lookup(t1, root, x)
    ensures Filled(t0, t2, root, lo, v + 1, flags)
  {
    hide Lookup, IsVpn;
  }

  /** One more 2 MiB page. */
  lemma FilledLarge(t0: Tables, t1: Tables, t2: Tables, root: nat, lo: nat, v: nat, flags: nat)
    requires Filled(t0, t1, root, lo, v, flags) && IsUpper(v) && lo <= v && v % 512 == 0 && (HasR(flags) || HasX(flags))
    requires forall x :: IsVpn(x) ==>
               Lookup(t2, root, x) == if SameLarge(v, x) then Mapped(1, v - UPPER_START, flags) else Lookup(t1, root, x)
    ensures Filled(t0, t2, root, lo, v + 512, flags)
  {
    hide Lookup, HasR, HasX;
  }

  lemma LargeOf(v: nat, x: nat)
    requires v % 512 == 0
    ensures SameLarge(v, x) <==> v <= x < v + 512
    ensures v <= x < v + 512 ==> x == v + x % 512
  {
  }

  lemma FilledMore(t0: Tables, t1: Tables, t2: Tables, root: nat, lo: nat, mid: nat, hi: nat, flags: nat)
    requires lo <= mid <= hi && Filled(t0, t1, root, lo, mid, flags) && Filled(t1, t2, root, mid, hi, flags)
    ensures Filled(t0, t2, root, lo, hi, flags)
  {
    hide Lookup, Seen, IsVpn;
  }

  lemma TablesBelow(t: Tables, t': Tables, root: nat, v: nat, limit: nat)
    requires NoTableFrom(t, root, limit) && LeafTablesGrow(t, t', root, v) && IsVpn(v) && v < limit && limit % 512 == 0
    ensures NoTableFrom(t', root, limit)
  {
    hide HasLeafTable, IsVpn, Index;
    forall x | IsVpn(x) && x >= limit ensures !HasLeafTable(t', root, Index(x, 2), Index(x, 1)) {
      assert Near(Index(x, 2), Index(x, 1), 0);
      SameLargeIndex(v, x);
    }
  }

  lemma TablesSame(t: Tables, t': Tables, root: nat, limit: nat)
    requires NoTableFrom(t, root, limit) && SameLeafTables(t, t', root)
    ensures NoTableFrom(t', root, limit)
  {
    hide HasLeafTable, IsVpn, Index;
  }

  lemma KernelTreeStep(w: World, g: Pgt, w': World, g': Pgt, v: nat)
    requires KernelTree(g) && Extends(w, g, w', g') && NewTablesOn(g, g', v) && IsUpper(v)
    ensures KernelTree(g')
  {
    TopIndex(v);
    hide SameOutside, Index, IsUpper;
  }

  function PageEnd(va: nat): nat {
    (va + PAGE_SIZE - 1) / PAGE_SIZE
  }

  /** The state of a kernel mapping loop that has come to page number `v`. */
  ghost predicate Mapping(w0: World, g0: Pgt, w: World, g: Pgt, lo: nat, v: nat, flags: nat, limit: nat) {
    && PgtOk(w, g) && KernelTree(g) && Extends(w0, g0, w, g)
    && Filled(w0.tables, w.tables, g.root, lo, v, flags) && NoTableFrom(w.tables, g.root, limit)
  }

  lemma MappingStart(w: World, g: Pgt, lo: nat, flags: nat, limit: nat)
    requires PgtOk(w, g) && KernelTree(g) && NoTableFrom(w.tables, g.root, limit)
    ensures Mapping(w, g, w, g, lo, lo, flags, limit)
  {
    hide PgtOk, Tree, HasLeafTable, Filled, NoTableFrom;
    WalkStart(w, g, 0);
    FilledNothing(w.tables, g.root, lo, flags);
  }

  lemma MappingOwns(w0: World, g0: Pgt, w: World, g: Pgt, lo: nat, v: nat, flags: nat, limit: nat, x: nat)
    requires Mapping(w0, g0, w, g, lo, v, flags, limit)
    ensures OwnsPath(g, x) && PgtOk(w, g)
    ensures IsVpn(x) && x >= limit ==> !HasLeafTable(w.tables, g.root, Index(x, 2), Index(x, 1))
  {
    hide PgtOk, Filled, Extends, HasLeafTable, Index;
  }

  /** One round of a kernel mapping loop keeps the shape of the tree, successful or not. */
  lemma MappingTree(w0: World, g0: Pgt, w: World, g: Pgt, lo: nat, v: nat, flags: nat, limit: nat, w': World, g': Pgt,
                    x: nat)
    requires Mapping(w0, g0, w, g, lo, v, flags, limit) && Extends(w, g, w', g') && NewTablesOn(g, g', x) && IsUpper(x)
    ensures KernelTree(g') && Extends(w0, g0, w', g')
  {
    hide PgtOk, SameOutside, Filled, NoTableFrom, NewTablesOn, KernelTree;
    ExtendsTrans(w0, g0, w, g, w', g');
    KernelTreeStep(w, g, w', g', x);
  }

  /** One successful round of `map_kernel_range`. */
  lemma MappingSmall(w0: World, g0: Pgt, w: World, g: Pgt, lo: nat, v: nat, flags: nat, limit: nat, w': World, g': Pgt)
    requires Mapping(w0, g0, w, g, lo, v, flags, limit) && PgtOk(w', g') && Extends(w, g, w', g')
             && NewTablesOn(g, g', v)
    requires LeafTablesGrow(w.tables, w'.tables, g.root, v)
    requires lo <= v < limit && limit % 512 == 0 && IsUpper(v) && (HasR(flags) || HasX(flags))
    requires forall x :: IsVpn(x) ==>
               Lookup(w'.tables, g.root, x) ==
                 if x == v then Mapped(0, v - UPPER_START, flags) else Lookup(w.tables, g.root, x)
    ensures Mapping(w0, g0, w', g', lo, v + 1, flags, limit)
  {
    hide PgtOk, SameOutside, Filled, NoTableFrom, Lookup, LeafTablesGrow, NewTablesOn;
    MappingTree(w0, g0, w, g, lo, v, flags, limit, w', g', v);
    UpperIsVpn(v);
    TablesBelow(w.tables, w'.tables, g.root, v, limit);
    FilledOne(w0.tables, w.tables, w'.tables, g.root, lo, v, flags);
  }

  /** One successful round of `map_kernel_range_large`. */
  lemma MappingLarge(w0: World, g0: Pgt, w: World, g: Pgt, lo: nat, v: nat, flags: nat, limit: nat, w': World, g': Pgt)
    requires Mapping(w0, g0, w, g, lo, v, flags, limit) && PgtOk(w', g') && Extends(w, g, w', g')
             && NewTablesOn(g, g', v)
    requires SameLeafTables(w.tables, w'.tables, g.root)
    requires lo <= v && v % 512 == 0 && IsUpper(v) && (HasR(flags) || HasX(flags))
    requires LargeMapped(w.tables, w'.tables, g.root, v, Mapped(1, v - UPPER_START, flags))
    ensures Mapping(w0, g0, w', g', lo, v + 512, flags, limit)
  {
    hide PgtOk, SameOutside, Filled, NoTableFrom, Lookup, SameLeafTables, NewTablesOn, SameLarge;
    MappingTree(w0, g0, w, g, lo, v, flags, limit, w', g', v);
    TablesSame(w.tables, w'.tables, g.root, limit);
    FilledLarge(w0.tables, w.tables, w'.tables, g.root, lo, v, flags);
  }

  // The mapping functions.

  /** What the mapping functions say when they fail: the page whose turn it was was mapped
      before, or there was no page left for a table, or the flags are not valid. */
  ghost predicate FailsAt(r: MapResult, t: Tables, root: nat, lo: nat, hi: nat, permissions: nat,
                          alloc: PageAllocator, free: int, need: nat)
    reads alloc
  {
    r.PageFailed? ==>
      && lo <= r.vpn < hi && IsUpper(r.vpn)
      && (r.error.DoubleMapping? ==> Lookup(t, root, r.vpn).Mapped?)
      && (r.error.InvalidPteFlags? ==> Unmappable(permissions))
      && (r.error.AcquirePageFailed? ==> alloc.Exhausted() && free < need)
      && !r.error.Ok?
  }

  /** Where nothing was mapped and the permissions are fine, only a lack of pages is left. */
  lemma OnlyPages(r: MapResult, t: Tables, root: nat, lo: nat, hi: nat, permissions: nat, alloc: PageAllocator,
                  free: int, need: nat)
    requires FailsAt(r, t, root, lo, hi, permissions, alloc, free, need) && r.PageFailed?
    requires Unused(t, root, lo, hi) && HasR(permissions)
    ensures r.error.AcquirePageFailed? && alloc.Exhausted() && free < need
  {
    UpperIsVpn(r.vpn);
    UnusedAt(t, root, lo, hi, r.vpn);
    hide Lookup, PageAllocator.Free, HasR;
    ReadableMaps(permissions);
  }

  /** `map_kernel_range`.  `limit` is where the large pages of `map_phys_mem` will start. */
  method MapKernelRange(root: RootPgt, mem: PhysMem, alloc: PageAllocator, startVa: nat, endVa: nat, permissions: nat,
                        ghost limit: nat)
    returns (r: MapResult)
    requires root.Valid(mem, alloc) && KernelTree(root.Snap())
    requires startVa % PAGE_SIZE == 0
             && KERNEL_VA_OFFSET <= startVa <= endVa <= KERNEL_VA_OFFSET + MEM_START_PA + MEM_SIZE
    requires KnownPermissions(permissions) ==> HasR(permissions) || HasW(permissions) || HasX(permissions)
    requires limit % 512 == 0 && PageEnd(endVa) <= limit && NoTableFrom(mem.tables, root.ppn, limit)
    modifies root, mem, alloc
    ensures root.Valid(mem, alloc) && KernelTree(root.Snap()) && root.ppn == old(root.ppn)
    ensures Extends(old(WorldOf(mem, alloc)), old(root.Snap()), WorldOf(mem, alloc), root.Snap())
    ensures !r.NoRootPgt? && (r.BadPermissions? <==> !KnownPermissions(permissions))
    ensures FailsAt(r, old(mem.tables), root.ppn, startVa / PAGE_SIZE, PageEnd(endVa), permissions, alloc,
                    old(alloc.Free()),
                    2 * Blocks(startVa / PAGE_SIZE, PageEnd(endVa)))
    ensures r.AllMapped? ==>
              && Mapping(old(WorldOf(mem, alloc)), old(root.Snap()), WorldOf(mem, alloc), root.Snap(),
                         startVa / PAGE_SIZE, PageEnd(endVa), permissions + FLAG_V, limit)
              && (AllSeen(old(mem.tables), root.ppn) ==> AllSeen(mem.tables, root.ppn))
              && SameFrom(old(mem.tables), mem.tables, root.ppn, PageEnd(endVa))
              && alloc.Free() >= old(alloc.Free()) - 2 * Blocks(startVa / PAGE_SIZE, PageEnd(endVa))
  {
    hide Views, PageAllocator.Valid, PageAllocator.Live, PageAllocator.Free, Lists, PgtOk, Extends, Filled,
      NoTableFrom, KernelTree, Mapping, Lookup, LeafTablesGrow, NewTablesOn, HasR, HasX, HasV, HasW, AllSeen,
      SameFrom, Unmappable, IsValidFlags, HasLeafTable, Blocks, SameLarge, Index;
    ghost var w0, g0 := WorldOf(mem, alloc), root.Snap();
    ghost var lo, hi := startVa / PAGE_SIZE, PageEnd(endVa);
    WalkStart(w0, g0, 0);
    if !KnownPermissions(permissions) {
      return BadPermissions(permissions);
    }
    var flags := PteFlags(permissions);
    PteFlagsBits(permissions);
    MappableFlags(permissions);
    ValidIsSeen(permissions);
    MappingStart(w0, g0, lo, flags, limit);
    NothingMappedYet(w0.tables, g0.root, lo);
    var va: nat := startVa;
    while va < endVa
      invariant startVa <= va && va % PAGE_SIZE == 0 && va / PAGE_SIZE <= hi
      invariant root.Valid(mem, alloc) && KernelTree(root.Snap()) && Extends(w0, g0, WorldOf(mem, alloc), root.Snap())
      invariant root.ppn == g0.root
      invariant Mapping(w0, g0, WorldOf(mem, alloc), root.Snap(), lo, va / PAGE_SIZE, flags, limit)
      invariant AllSeen(w0.tables, g0.root) ==> AllSeen(mem.tables, g0.root)
      invariant SameFrom(w0.tables, mem.tables, g0.root, va / PAGE_SIZE)
      invariant alloc.Free() >= old(alloc.Free()) - 2 * Blocks(lo, va / PAGE_SIZE)
      invariant va > startVa ==>
                HasLeafTable(mem.tables, g0.root, Index(va / PAGE_SIZE - 1, 2), Index(va / PAGE_SIZE - 1, 1))
    {
      ghost var w, g := WorldOf(mem, alloc), root.Snap();
      var vpn := VpnFromVa(va);
      var page := (va - KERNEL_VA_OFFSET) / PAGE_SIZE;
      SameFromAt(w0.tables, w.tables, g0.root, vpn, vpn);
      assert page == vpn - UPPER_START && IsUpper(vpn) && vpn < hi;
      BlocksNext(lo, vpn, hi);
      if va > startVa {
        SameLargeIndex(vpn - 1, vpn);
      }
      MappingOwns(w0, g0, w, g, lo, vpn, flags, limit, vpn);
      var mapped := root.MapCreate(mem, alloc, vpn, page, flags);
      MappingTree(w0, g0, w, g, lo, vpn, flags, limit, WorldOf(mem, alloc), root.Snap(), vpn);
      if !mapped.Ok? {
        return PageFailed(vpn, mapped);
      }
      MappingSmall(w0, g0, w, g, lo, vpn, flags, limit, WorldOf(mem, alloc), root.Snap());
      SmallSeen(w.tables, mem.tables, g0.root, vpn, flags);
      SameFromTrans(w0.tables, w.tables, mem.tables, g0.root, vpn, vpn + 1);
      va := va + PAGE_SIZE;
    }
    assert va / PAGE_SIZE == hi;
    return AllMapped;
  }

  lemma NothingMappedYet(t: Tables, root: nat, v: nat)
    ensures SameFrom(t, t, root, v) && Blocks(v, v) == 0
  {
    hide Lookup;
  }

  /** Valid flags with any permission at all are seen by the hardware. */
  lemma ValidIsSeen(permissions: nat)
    requires KnownPermissions(permissions) && (HasR(permissions) || HasW(permissions) || HasX(permissions))
    ensures !Unmappable(permissions) ==> HasR(permissions + FLAG_V) || HasX(permissions + FLAG_V)
  {
    PteFlagsBits(permissions);
  }

  lemma LargeStep(va: nat, vpn: nat, page: nat)
    requires va % LARGE_PAGE_SIZE == 0 && KERNEL_VA_OFFSET <= va < KERNEL_VA_OFFSET + MEM_START_PA + MEM_SIZE
    requires vpn == va / PAGE_SIZE && page == (va - KERNEL_VA_OFFSET) / PAGE_SIZE
    ensures page == vpn - UPPER_START && page - page % 512 == page && IsUpper(vpn) && vpn % 512 == 0 && page < PPN_LIMIT
    ensures (va + LARGE_PAGE_SIZE) % LARGE_PAGE_SIZE == 0 && (va + LARGE_PAGE_SIZE) / PAGE_SIZE == vpn + 512
  {
  }

  /** Aligned positions below an aligned end are a whole large page below it. */
  lemma LargeFits(start: nat, va: nat, end: nat)
    requires start % LARGE_PAGE_SIZE == 0 && va % LARGE_PAGE_SIZE == 0 && end % LARGE_PAGE_SIZE == 0
             && start <= va < end
    ensures va + LARGE_PAGE_SIZE <= end
    ensures start / PAGE_SIZE % 512 == 0 && end / PAGE_SIZE % 512 == 0
            && start / PAGE_SIZE <= va / PAGE_SIZE < end / PAGE_SIZE
  {
    LargePages(start);
    LargePages(va);
    LargePages(end);
  }

  lemma LargePages(x: nat)
    requires x % LARGE_PAGE_SIZE == 0
    ensures x == x / LARGE_PAGE_SIZE * LARGE_PAGE_SIZE && x / PAGE_SIZE == x / LARGE_PAGE_SIZE * 512
  {
  }

  /** `map_kernel_range_large`; its two alignment assertions are preconditions. */
  method MapKernelRangeLarge(root: RootPgt, mem: PhysMem, alloc: PageAllocator, startVa: nat, endVa: nat,
                             permissions: nat, ghost limit: nat)
    returns (r: MapResult)
    requires root.Valid(mem, alloc) && KernelTree(root.Snap())
    requires startVa % LARGE_PAGE_SIZE == 0 && endVa % LARGE_PAGE_SIZE == 0
    requires KERNEL_VA_OFFSET <= startVa <= endVa <= KERNEL_VA_OFFSET + MEM_START_PA + MEM_SIZE
    requires KnownPermissions(permissions) ==> HasW(permissions) || HasX(permissions)
    requires limit <= startVa / PAGE_SIZE && NoTableFrom(mem.tables, root.ppn, limit)
    modifies root, mem, alloc
    ensures root.Valid(mem, alloc) && KernelTree(root.Snap()) && root.ppn == old(root.ppn)
    ensures Extends(old(WorldOf(mem, alloc)), old(root.Snap()), WorldOf(mem, alloc), root.Snap())
    ensures !r.NoRootPgt? && (r.BadPermissions? <==> !KnownPermissions(permissions))
    ensures FailsAt(r, old(mem.tables), root.ppn, startVa / PAGE_SIZE, endVa / PAGE_SIZE, permissions, alloc,
                    old(alloc.Free()),
                    Blocks(startVa / PAGE_SIZE, endVa / PAGE_SIZE))
    ensures r.AllMapped? ==>
              && Mapping(old(WorldOf(mem, alloc)), old(root.Snap()), WorldOf(mem, alloc), root.Snap(),
                         startVa / PAGE_SIZE, endVa / PAGE_SIZE, permissions + FLAG_V, limit)
              && (AllSeen(old(mem.tables), root.ppn) ==> AllSeen(mem.tables, root.ppn))
              && SameFrom(old(mem.tables), mem.tables, root.ppn, endVa / PAGE_SIZE)
              && alloc.Free() >= old(alloc.Free()) - Blocks(startVa / PAGE_SIZE, endVa / PAGE_SIZE)
  {
    hide Views, PageAllocator.Valid, PageAllocator.Live, PageAllocator.Free, Lists, PgtOk, Extends, Filled,
      NoTableFrom, KernelTree, Mapping, Lookup, SameLeafTables, NewTablesOn, HasR, HasX, HasV, HasW, HasLeafTable,
      SameLarge, Index, OwnsPath, KnownPermissions, AllSeen, SameFrom, Unmappable, IsValidFlags, SameOnVpns,
      LargeMapped, Blocks;
    ghost var w0, g0 := WorldOf(mem, alloc), root.Snap();
    ghost var lo, hi := startVa / PAGE_SIZE, endVa / PAGE_SIZE;
    WalkStart(w0, g0, 0);
    if !KnownPermissions(permissions) {
      return BadPermissions(permissions);
    }
    var flags := PteFlags(permissions);
    PteFlagsBits(permissions);
    MappableFlags(permissions);
    ValidIsSeen(permissions);
    MappingStart(w0, g0, lo, flags, limit);
    NothingMappedYet(w0.tables, g0.root, lo);
    var va: nat := startVa;
    while va < endVa
      invariant startVa <= va <= endVa && va % LARGE_PAGE_SIZE == 0
      invariant root.Valid(mem, alloc) && KernelTree(root.Snap()) && Extends(w0, g0, WorldOf(mem, alloc), root.Snap())
      invariant root.ppn == g0.root
      invariant Mapping(w0, g0, WorldOf(mem, alloc), root.Snap(), lo, va / PAGE_SIZE, flags, limit)
      invariant AllSeen(w0.tables, g0.root) ==> AllSeen(mem.tables, g0.root)
      invariant SameFrom(w0.tables, mem.tables, g0.root, va / PAGE_SIZE)
      invariant alloc.Free() >= old(alloc.Free()) - Blocks(lo, va / PAGE_SIZE)
    {
      ghost var w, g := WorldOf(mem, alloc), root.Snap();
      var vpn := VpnFromVa(va);
      var page := (va - KERNEL_VA_OFFSET) / PAGE_SIZE;
      LargeStep(va, vpn, page);
      LargeFits(startVa, va, endVa);
      BlocksLarge(lo, vpn, hi);
      SameFromAt(w0.tables, w.tables, g0.root, vpn, vpn);
      MappingOwns(w0, g0, w, g, lo, vpn, flags, limit, vpn);
      var mapped := root.MapCreateLarge(mem, alloc, vpn, page, flags);
      MappingTree(w0, g0, w, g, lo, vpn, flags, limit, WorldOf(mem, alloc), root.Snap(), vpn);
      if !mapped.Ok? {
        return PageFailed(vpn, mapped);
      }
      MappingLarge(w0, g0, w, g, lo, vpn, flags, limit, WorldOf(mem, alloc), root.Snap());
      LargeSeen(w.tables, mem.tables, g0.root, vpn, flags);
      SameFromTrans(w0.tables, w.tables, mem.tables, g0.root, vpn, vpn + 512);
      va := va + LARGE_PAGE_SIZE;
    }
    return AllMapped;
  }

  lemma MappingMeans(w0: World, g0: Pgt, w: World, g: Pgt, lo: nat, v: nat, flags: nat, limit: nat)
    requires Mapping(w0, g0, w, g, lo, v, flags, limit)
    ensures g.root == g0.root && KernelTree(g) && Extends(w0, g0, w, g)
    ensures Filled(w0.tables, w.tables, g.root, lo, v, flags)
    ensures NoTableFrom(w.tables, g.root, limit)
  {
    hide PgtOk, Filled, NoTableFrom, SameOutside, KernelTree;
  }

  lemma HigherLimit(t: Tables, root: nat, limit: nat, higher: nat)
    requires NoTableFrom(t, root, limit) && limit <= higher
    ensures NoTableFrom(t, root, higher)
  {
    hide HasLeafTable, IsVpn, Index;
  }

  /** Where the large pages of `map_phys_mem` start, as a page number. */
  function LargeLimit(kernelEnd: nat): nat {
    LargeStart(PhysPageStart(kernelEnd)) / PAGE_SIZE
  }

  lemma PhysBounds(kernelEnd: nat, startVa: nat, largeStart: nat, largeEnd: nat)
    requires KERNEL_VA_OFFSET <= kernelEnd <= KERNEL_VA_OFFSET + MEM_START_PA + MEM_SIZE
    requires startVa == PhysPageStart(kernelEnd) && largeStart == LargeStart(startVa)
    requires largeEnd == LargeEnd(KERNEL_VA_OFFSET + MEM_START_PA + MEM_SIZE)
    ensures startVa % PAGE_SIZE == 0 && KERNEL_VA_OFFSET <= startVa <= KERNEL_VA_OFFSET + MEM_START_PA + MEM_SIZE
    ensures largeStart <= KERNEL_VA_OFFSET + MEM_START_PA + MEM_SIZE == largeEnd
    ensures startVa / PAGE_SIZE <= largeStart / PAGE_SIZE < startVa / PAGE_SIZE + 512
            && largeStart / PAGE_SIZE % 512 == 0
    ensures PageEnd(largeStart) == largeStart / PAGE_SIZE
  {
    PageStartBounds(kernelEnd);
    LargeStartBelow(startVa, KERNEL_VA_OFFSET + MEM_START_PA + MEM_SIZE);
    LargePages(largeStart);
    hide PhysPageStart, LargeStart;
  }

  lemma PageStartBounds(kernelEnd: nat)
    requires KERNEL_VA_OFFSET <= kernelEnd <= KERNEL_VA_OFFSET + MEM_START_PA + MEM_SIZE
    ensures PhysPageStart(kernelEnd) % PAGE_SIZE == 0
    ensures kernelEnd <= PhysPageStart(kernelEnd) <= KERNEL_VA_OFFSET + MEM_START_PA + MEM_SIZE
  {
  }

  lemma LargeStartBelow(x: nat, top: nat)
    requires x <= top && top % LARGE_PAGE_SIZE == 0
    ensures x <= LargeStart(x) <= top && LargeStart(x) < x + LARGE_PAGE_SIZE && LargeStart(x) % LARGE_PAGE_SIZE == 0
  {
  }

  /** The number of tables that `map_phys_mem` may take. */
  function PhysNeed(kernelEnd: nat): nat
    requires KERNEL_VA_OFFSET <= kernelEnd
  {
    2 + Blocks(LinearVpn(FirstUnusedPpn(kernelEnd)), LinearVpn(MEM_END_PPN))
  }

  lemma PhysBlocks(start: nat, large: nat, end: nat)
    requires start <= end && start <= large < start + 512 && large % 512 == 0 && end % 512 == 0
    ensures Blocks(start, large) <= 1 && (end <= large ==> 2 * Blocks(start, end) <= 2 + Blocks(start, end))
    ensures large < end ==> Blocks(large, end) <= Blocks(start, end)
    ensures Blocks(end, end) == 0
  {
  }

  /** `map_phys_mem`: small pages up to the first 2 MiB boundary, large pages, small pages. */
  method MapPhysMem(root: RootPgt, mem: PhysMem, alloc: PageAllocator, kernelEnd: nat) returns (r: MapResult)
    requires root.Valid(mem, alloc) && KernelTree(root.Snap())
    requires KERNEL_VA_OFFSET <= kernelEnd <= KERNEL_VA_OFFSET + MEM_START_PA + MEM_SIZE
    requires NoTableFrom(mem.tables, root.ppn, LargeLimit(kernelEnd))
    modifies root, mem, alloc
    ensures root.Valid(mem, alloc) && KernelTree(root.Snap()) && root.ppn == old(root.ppn)
    ensures Extends(old(WorldOf(mem, alloc)), old(root.Snap()), WorldOf(mem, alloc), root.Snap())
    ensures r.AllMapped? || r.PageFailed?
    ensures FailsAt(r, old(mem.tables), root.ppn, LinearVpn(FirstUnusedPpn(kernelEnd)), LinearVpn(MEM_END_PPN), RW,
                    alloc, old(alloc.Free()), PhysNeed(kernelEnd))
    ensures r.AllMapped? ==>
              && Filled(old(mem.tables), mem.tables, root.ppn, LinearVpn(FirstUnusedPpn(kernelEnd)),
                        LinearVpn(MEM_END_PPN), RW + FLAG_V)
              && alloc.Free() >= old(alloc.Free()) - PhysNeed(kernelEnd)
  {
    hide Views, PageAllocator.Valid, PageAllocator.Live, PageAllocator.Free, Lists, PgtOk, Extends, Filled,
      NoTableFrom, KernelTree, Mapping, LargeStart, LargeEnd, PhysPageStart, AllSeen, SameFrom, Blocks, Lookup,
      Unmappable;
    ghost var w0, g0 := WorldOf(mem, alloc), root.Snap();
    var startVa := PhysPageStart(kernelEnd);
    var endVa := VaFromPa(MEM_START_PA + MEM_SIZE);
    var largeStart := LargeStart(startVa);
    var largeEnd := LargeEnd(endVa);
    RoundingsAgree(kernelEnd);
    PhysRangesTile(startVa, endVa);
    ghost var limit := LargeLimit(kernelEnd);
    LimitAligned(kernelEnd);
    PhysBounds(kernelEnd, startVa, largeStart, largeEnd);
    ghost var startVpn, largeVpn, endVpn := startVa / PAGE_SIZE, largeStart / PAGE_SIZE, endVa / PAGE_SIZE;
    PhysBlocks(startVpn, largeVpn, endVpn);
    if largeEnd <= largeStart {
      r := MapKernelRange(root, mem, alloc, startVa, endVa, RW, limit);
      if r.AllMapped? {
        MappingMeans(w0, g0, WorldOf(mem, alloc), root.Snap(), startVpn, endVpn, RW + FLAG_V, limit);
      }
      ExtendsRoot(w0, g0, WorldOf(mem, alloc), root.Snap());
      return;
    }
    r := MapKernelRange(root, mem, alloc, startVa, largeStart, RW, limit);
    ExtendsRoot(w0, g0, WorldOf(mem, alloc), root.Snap());
    if !r.AllMapped? {
      return;
    }
    ghost var w1, g1 := WorldOf(mem, alloc), root.Snap();
    MappingMeans(w0, g0, w1, g1, startVpn, largeVpn, RW + FLAG_V, limit);
    r := MapKernelRangeLarge(root, mem, alloc, largeStart, largeEnd, RW, limit);
    ghost var w2, g2 := WorldOf(mem, alloc), root.Snap();
    ExtendsRoot(w1, g1, w2, g2);
    ExtendsTrans(w0, g0, w1, g1, w2, g2);
    if !r.AllMapped? {
      UpperIsVpn(r.vpn);
      SameFromAt(w0.tables, w1.tables, g0.root, largeVpn, r.vpn);
      return;
    }
    MappingMeans(w1, g1, w2, g2, largeVpn, endVpn, RW + FLAG_V, limit);
    FilledMore(w0.tables, w1.tables, w2.tables, root.ppn, startVpn, largeVpn, endVpn, RW + FLAG_V);
    HigherLimit(w2.tables, root.ppn, limit, endVpn);
    r := MapKernelRange(root, mem, alloc, largeEnd, endVa, RW, endVpn);
    ghost var w3, g3 := WorldOf(mem, alloc), root.Snap();
    ExtendsRoot(w2, g2, w3, g3);
    ExtendsTrans(w0, g0, w2, g2, w3, g3);
    if r.AllMapped? {
      MappingMeans(w2, g2, w3, g3, endVpn, endVpn, RW + FLAG_V, endVpn);
      FilledMore(w0.tables, w2.tables, w3.tables, root.ppn, startVpn, endVpn, endVpn, RW + FLAG_V);
    }
  }

  lemma ExtendsRoot(w: World, g: Pgt, w': World, g': Pgt)
    requires Extends(w, g, w', g')
    ensures g'.root == g.root
  {
  }

  // The whole initialisation.

  function MmioRegion(i: nat): Region
    requires i < |MMIO|
  {
    Region(VaFromPa(MMIO[i].0) / PAGE_SIZE, PageEnd(VaFromPa(MMIO[i].0 + MMIO[i].1)), RW)
  }

  function SectionRegion(start: nat, finish: nat, permissions: nat): Region {
    Region(start / PAGE_SIZE, PageEnd(finish), permissions)
  }

  /** The regions of the kernel's table, in the order in which they are mapped. */
  function Regions(m: Image): (rs: seq<Region>)
    requires KERNEL_VA_OFFSET <= m.kernelEnd
    ensures |rs| == 12
  {
    [MmioRegion(0), MmioRegion(1), MmioRegion(2), MmioRegion(3), MmioRegion(4), MmioRegion(5),
     SectionRegion(m.textStart, m.textEnd, RX), SectionRegion(m.stackStart, m.stackEnd, RW),
     SectionRegion(m.rodataStart, m.rodataEnd, PERMISSION_R), SectionRegion(m.dataStart, m.dataEnd, RW),
     SectionRegion(m.bssStart, m.bssEnd, RW),
     Region(LinearVpn(FirstUnusedPpn(m.kernelEnd)), LinearVpn(MEM_END_PPN), RW)]
  }

  /** The hardware's translations are those that the first `k` regions prescribe. */
  ghost predicate MapsUpTo(t: Tables, root: nat, regions: seq<Region>, k: nat)
    requires k <= |regions|
  {
    forall v :: IsVpn(v) ==> Seen(Lookup(t, root, v), v) == Expected(regions, k, v)
  }

  lemma MapsOneMore(t: Tables, t': Tables, root: nat, regions: seq<Region>, k: nat)
    requires k < |regions| && MapsUpTo(t, root, regions, k)
    requires Filled(t, t', root, regions[k].lo, regions[k].hi, regions[k].permissions + FLAG_V)
    ensures MapsUpTo(t', root, regions, k + 1)
  {
    hide Lookup, Seen, IsVpn;
  }

  /** Under a root whose other tables are high, the lower half is empty. */
  lemma LowerHalfEmpty(w: World, g: Pgt)
    requires PgtOk(w, g) && KernelTree(g)
    ensures KernelOnly(w.tables, g)
  {
    forall v: nat | v < LOWER_END ensures Lookup(w.tables, g.root, v) == Absent {
      TopIndex(v);
      assert SlotOk(w.tables[g.root][Index(v, 2)], Root, Index(v, 2), g.role);
    }
  }

  /** Every page that the allocator can ever hand out is mapped readable and writable at its
      linear address. */
  lemma AllocatableIsMapped(m: Image, p: nat)
    requires ImageOk(m) && FirstUnusedPpn(m.kernelEnd) <= p < MEM_END_PPN
    ensures Expected(Regions(m), 12, LinearVpn(p)) == Hit(p, RW + FLAG_V)
  {
  }

  // What is mapped in the end, in addresses and bits.

  /** The hardware takes the address `va` to `va` minus the offset of the kernel's addresses, with
      the permissions R, W and X as said and without U. */
  predicate Linear(t: Translation, va: nat, r: bool, w: bool, x: bool) {
    && t.Hit? && t.ppn == (va - 0xffff_ffc0_0000_0000) / 4096
    && t.flags % 2 == 1 && t.flags / 16 % 2 == 0
    && (t.flags / 2 % 2 == 1) == r && (t.flags / 4 % 2 == 1) == w && (t.flags / 8 % 2 == 1) == x
  }

  lemma {:induction false} InRegion(m: Image, k: nat, i: nat, v: nat)
    requires ImageOk(m) && i < k <= 12 && Regions(m)[i].lo <= v < Regions(m)[i].hi && UPPER_START <= v
    ensures Expected(Regions(m), k, v) == Hit(v - UPPER_START, Regions(m)[i].permissions + FLAG_V)
  {
    if i < k - 1 {
      RegionsOrdered(m, k - 1);
      hide Regions;
      InRegion(m, k - 1, i, v);
    }
  }

  lemma {:induction false} InNoRegion(regions: seq<Region>, k: nat, v: nat)
    requires k <= |regions| && forall i :: 0 <= i < k ==> !(regions[i].lo <= v < regions[i].hi)
    ensures Expected(regions, k, v) == Fault
  {
    if k > 0 {
      InNoRegion(regions, k - 1, v);
    }
  }

  /** A device of QEMU's virt machine has a register in the page of this physical address. */
  predicate IsDevice(pa: int) {
    || 0x0010_0000 <= pa < 0x0010_2000 || 0x0200_0000 <= pa < 0x0201_0000 || 0x0c00_0000 <= pa < 0x0c60_0000
    || 0x1000_0000 <= pa < 0x1000_1000 || 0x1001_0000 <= pa < 0x1001_1000
  }

  /** The page of address `va` lies in free memory, from the end of the kernel on. */
  predicate InFreeMemory(m: Image, va: nat) {
    m.kernelEnd <= va / 4096 * 4096 && va < 0xffff_ffc0_8800_0000
  }

  /** In addresses: where the regions are. */
  lemma RegionsInAddresses(m: Image, va: nat)
    requires ImageOk(m) && KERNEL_VA_OFFSET <= m.kernelEnd
    ensures var v := va / 4096;
            && ((exists i :: 0 <= i < 6 && Regions(m)[i].lo <= v < Regions(m)[i].hi)
                <==> IsDevice(va - 0xffff_ffc0_0000_0000))
            && (Regions(m)[6].lo <= v < Regions(m)[6].hi <==> m.textStart <= va < m.textEnd)
            && (Regions(m)[7].lo <= v < Regions(m)[7].hi <==> m.stackStart <= va < m.stackEnd)
            && (Regions(m)[8].lo <= v < Regions(m)[8].hi <==> m.rodataStart <= va < m.rodataEnd)
            && (Regions(m)[9].lo <= v < Regions(m)[9].hi <==> m.dataStart <= va < m.dataEnd)
            && (Regions(m)[10].lo <= v < Regions(m)[10].hi <==> m.bssStart <= va < m.bssEnd)
            && (Regions(m)[11].lo <= v < Regions(m)[11].hi <==> InFreeMemory(m, va))
  {
    RegionsAre(m);
    LastRegion(m);
    hide Regions, PageEnd, FirstUnusedPpn, IsDevice, InFreeMemory;
    DevicesInAddresses(m, va);
    FreeInAddresses(m, va);
    SectionInAddresses(m.textStart, m.textEnd, va);
    SectionInAddresses(m.stackStart, m.stackEnd, va);
    SectionInAddresses(m.rodataStart, m.rodataEnd, va);
    SectionInAddresses(m.dataStart, m.dataEnd, va);
    SectionInAddresses(m.bssStart, m.bssEnd, va);
  }

  lemma SectionInAddresses(start: nat, finish: nat, va: nat)
    requires start % 4096 == 0 && finish % 4096 == 0
    ensures start / PAGE_SIZE <= va / 4096 < PageEnd(finish) <==> start <= va < finish
  {
  }

  lemma DevicesInAddresses(m: Image, va: nat)
    requires KERNEL_VA_OFFSET <= m.kernelEnd
    ensures (exists i :: 0 <= i < 6 && Regions(m)[i].lo <= va / 4096 < Regions(m)[i].hi)
       <==> IsDevice(va - 0xffff_ffc0_0000_0000)
  {
    RegionsAre(m);
    hide Regions;
    var r := Regions(m);
    assert r[0].lo <= va / 4096 < r[0].hi <==> 0x0010_0000 <= va - 0xffff_ffc0_0000_0000 < 0x0010_1000;
    assert r[1].lo <= va / 4096 < r[1].hi <==> 0x0010_1000 <= va - 0xffff_ffc0_0000_0000 < 0x0010_2000;
    assert r[2].lo <= va / 4096 < r[2].hi <==> 0x0200_0000 <= va - 0xffff_ffc0_0000_0000 < 0x0201_0000;
    assert r[3].lo <= va / 4096 < r[3].hi <==> 0x0c00_0000 <= va - 0xffff_ffc0_0000_0000 < 0x0c60_0000;
    assert r[4].lo <= va / 4096 < r[4].hi <==> 0x1000_0000 <= va - 0xffff_ffc0_0000_0000 < 0x1000_1000;
    assert r[5].lo <= va / 4096 < r[5].hi <==> 0x1001_0000 <= va - 0xffff_ffc0_0000_0000 < 0x1001_1000;
  }

  lemma FreeInAddresses(m: Image, va: nat)
    requires KERNEL_VA_OFFSET <= m.kernelEnd
    ensures LinearVpn(FirstUnusedPpn(m.kernelEnd)) <= va / 4096 < LinearVpn(MEM_END_PPN) <==> InFreeMemory(m, va)
  {
    var p := FirstUnusedPpn(m.kernelEnd);
    hide FirstUnusedPpn;
    assert (p - 1) * PAGE_SIZE < m.kernelEnd - KERNEL_VA_OFFSET <= p * PAGE_SIZE;
  }

  /** After boot the kernel's stack, data, bss, devices and free memory are readable and writable and
      not executable, its text is readable and executable, its constants are readable only, each at
      its address minus the offset and for the kernel alone; and nothing else is translated. */
  lemma KernelIsMapped(m: Image, t: Tables, root: nat, va: nat)
    requires ImageOk(m) && KERNEL_VA_OFFSET <= m.kernelEnd && IsVpn(va / 4096)
    requires forall v :: IsVpn(v) ==> Translate(t, root, v) == Expected(Regions(m), 12, v)
    ensures var hit := Translate(t, root, va / 4096);
            if m.textStart <= va < m.textEnd then Linear(hit, va, true, false, true)
            else if m.rodataStart <= va < m.rodataEnd then Linear(hit, va, true, false, false)
            else if || m.stackStart <= va < m.stackEnd || m.dataStart <= va < m.dataEnd || m.bssStart <= va < m.bssEnd
                    || IsDevice(va - 0xffff_ffc0_0000_0000) || InFreeMemory(m, va)
                 then Linear(hit, va, true, true, false)
            else hit == Fault
  {
    hide Regions, InFreeMemory, Translate, ImageOk, Linear, IsDevice, Expected;
    var v, r := va / 4096, Regions(m);
    RegionsInAddresses(m, va);
    if i :| 0 <= i < 12 && r[i].lo <= v < r[i].hi {
      RegionIsLinear(m, i, va);
      OneRegion(m, i, v);
    } else {
      InNoRegion(r, 12, v);
    }
  }

  /** Text is region 6, and the constants are region 8. */
  lemma RegionIsLinear(m: Image, i: nat, va: nat)
    requires ImageOk(m) && KERNEL_VA_OFFSET <= m.kernelEnd && i < 12
             && Regions(m)[i].lo <= va / 4096 < Regions(m)[i].hi
    ensures Linear(Expected(Regions(m), 12, va / 4096), va, true, i != 6 && i != 8, i == 6)
  {
    hide Regions, ImageOk, Expected;
    RegionIsUpper(m, i, va / 4096);
    InRegion(m, 12, i, va / 4096);
    RegionPermissions(m, i);
  }

  lemma RegionPermissions(m: Image, i: nat)
    requires KERNEL_VA_OFFSET <= m.kernelEnd && i < 12
    ensures Regions(m)[i].permissions == if i == 6 then 2 + 8 else if i == 8 then 2 else 2 + 4
  {
    RegionsAre(m);
    LastRegion(m);
    hide Regions, FirstUnusedPpn, PageEnd;
  }

  /** No page lies in two regions, and all of them lie in the upper half. */
  lemma OneRegion(m: Image, i: nat, v: nat)
    requires ImageOk(m) && i < 12 && Regions(m)[i].lo <= v < Regions(m)[i].hi
    ensures forall j :: 0 <= j < 12 && Regions(m)[j].lo <= v < Regions(m)[j].hi ==> j == i
  {
    forall j | 0 <= j < 12 && Regions(m)[j].lo <= v < Regions(m)[j].hi ensures j == i {
      if j < i { RegionsOrdered(m, i); } else { RegionsOrdered(m, j); }
    }
  }

  lemma RegionIsUpper(m: Image, i: nat, v: nat)
    requires ImageOk(m) && i < 12 && Regions(m)[i].lo <= v
    ensures UPPER_START <= v
  {
    if i > 0 { RegionsOrdered(m, i); }
    assert Regions(m)[0].lo >= UPPER_START;
  }

  /** The state between two steps of `init_kernel_satp`. */
  ghost predicate Booting(w0: World, w: World, g: Pgt, m: Image, k: nat)
    requires KERNEL_VA_OFFSET <= m.kernelEnd && k <= 12
  {
    && PgtOk(w, g) && KernelTree(g) && Grew(w0, w, g) && AllSeen(w.tables, g.root)
    && MapsUpTo(w.tables, g.root, Regions(m), k) && (k < 12 ==> NoTableFrom(w.tables, g.root, LargeLimit(m.kernelEnd)))
  }

  /** The live pages are those of `w0` and the tables of `g`. */
  ghost predicate Grew(w0: World, w: World, g: Pgt) {
    g.own !! w0.live && w.live == w0.live + g.own && SameOutside(w0, w, g.own)
  }

  lemma GrewMore(w0: World, w: World, g: Pgt, w': World, g': Pgt)
    requires Grew(w0, w, g) && Extends(w, g, w', g')
    ensures Grew(w0, w', g') && g'.root == g.root
  {
  }

  lemma {:induction false} NotYetMapped(regions: seq<Region>, k: nat, v: nat)
    requires k <= |regions| && forall i :: 0 <= i < k ==> regions[i].hi <= v
    ensures Expected(regions, k, v) == Fault
  {
    if k > 0 {
      NotYetMapped(regions, k - 1, v);
    }
  }

  /** The regions lie one after the other. */
  lemma {:induction false} RegionsOrdered(m: Image, k: nat)
    requires ImageOk(m) && k < 12
    ensures forall i :: 0 <= i < k ==> Regions(m)[i].hi <= Regions(m)[k].lo
    ensures Regions(m)[k].lo <= Regions(m)[k].hi
  {
    if k > 0 {
      RegionsOrdered(m, k - 1);
    }
  }

  /** No region overlaps an earlier one, so it is unused when its turn comes. */
  lemma BootingUnused(w0: World, w: World, g: Pgt, m: Image, k: nat)
    requires ImageOk(m) && k < 12 && Booting(w0, w, g, m, k)
    ensures Unused(w.tables, g.root, Regions(m)[k].lo, Regions(m)[k].hi) && AllSeen(w.tables, g.root)
  {
    RegionsOrdered(m, k);
    hide PgtOk, Lookup, KernelTree, Grew, Regions, LargeLimit, NoTableFrom, Expected, ImageOk, Seen;
    forall v | IsVpn(v) && Regions(m)[k].lo <= v < Regions(m)[k].hi ensures Lookup(w.tables, g.root, v) == Absent {
      NotYetMapped(Regions(m), k, v);
      assert Seen(Lookup(w.tables, g.root, v), v) == Expected(Regions(m), k, v);
    }
  }

  lemma BootingNext(w0: World, w: World, g: Pgt, m: Image, k: nat, limit: nat, w': World, g': Pgt)
    requires KERNEL_VA_OFFSET <= m.kernelEnd && k < 11 && Booting(w0, w, g, m, k)
    requires PgtOk(w', g') && AllSeen(w'.tables, g'.root) && limit == LargeLimit(m.kernelEnd)
    requires Mapping(w, g, w', g', Regions(m)[k].lo, Regions(m)[k].hi, Regions(m)[k].permissions + FLAG_V, limit)
    ensures Booting(w0, w', g', m, k + 1)
  {
    hide PgtOk, Filled, NoTableFrom, MapsUpTo, KernelTree, Grew, Extends, Regions, LargeLimit, AllSeen;
    MappingMeans(w, g, w', g', Regions(m)[k].lo, Regions(m)[k].hi, Regions(m)[k].permissions + FLAG_V, limit);
    GrewMore(w0, w, g, w', g');
    MapsOneMore(w.tables, w'.tables, g.root, Regions(m), k);
  }

  lemma ReadableMaps(permissions: nat)
    requires HasR(permissions)
    ensures !Unmappable(permissions)
  {
  }

  // How many pages the whole initialisation takes.

  /** The pages between the end of the kernel and the end of memory. */
  function ManagedPages(m: Image): int
    requires KERNEL_VA_OFFSET <= m.kernelEnd
  {
    MEM_END_PPN - FirstUnusedPpn(m.kernelEnd)
  }

  /** In addresses: these are the whole pages between the end of the kernel and 128 MiB above the
      start of memory. */
  lemma ManagedMemory(m: Image)
    requires KERNEL_VA_OFFSET <= m.kernelEnd
    ensures ManagedPages(m) * 4096 <= 0xffff_ffc0_8800_0000 - m.kernelEnd < (ManagedPages(m) + 1) * 4096
  {
    hide FirstUnusedPpn;
  }

  /** Pages with which initialisation is sure to succeed. */
  const BOOT_PAGES: nat := 160

  /** The tables that the root and the first `k` regions may take. */
  function Spent(m: Image, k: nat): nat
    requires KERNEL_VA_OFFSET <= m.kernelEnd && k <= 11
  {
    if k == 0 then 1 else Spent(m, k - 1) + 2 * Blocks(Regions(m)[k - 1].lo, Regions(m)[k - 1].hi)
  }

  lemma {:induction false} SpentNext(m: Image, k: nat)
    requires KERNEL_VA_OFFSET <= m.kernelEnd && k < 11
    ensures Spent(m, k + 1) == Spent(m, k) + 2 * Blocks(Regions(m)[k].lo, Regions(m)[k].hi) <= Spent(m, 11)
    decreases 11 - k
  {
    hide Regions, Blocks;
    if k < 10 {
      SpentNext(m, k + 1);
    }
  }

  lemma SpentStarts(m: Image)
    requires ImageOk(m)
    ensures Spent(m, 0) == 1 <= Spent(m, 11)
  {
    hide Regions, Blocks;
    SpentNext(m, 0);
  }

  lemma BlocksBound(lo: nat, hi: nat)
    requires lo <= hi
    ensures Blocks(lo, hi) <= hi / 512 - lo / 512 + 1
  {
  }

  /** The device ranges lie in eight blocks. */
  lemma MmioBlocks(m: Image)
    requires KERNEL_VA_OFFSET <= m.kernelEnd
    ensures Spent(m, 6) == 17
  {
    RegionsAre(m);
    assert Blocks(Regions(m)[0].lo, Regions(m)[0].hi) == 1;
    assert Blocks(Regions(m)[1].lo, Regions(m)[1].hi) == 1;
    assert Blocks(Regions(m)[2].lo, Regions(m)[2].hi) == 1;
    assert Blocks(Regions(m)[3].lo, Regions(m)[3].hi) == 3;
    assert Blocks(Regions(m)[4].lo, Regions(m)[4].hi) == 1;
    assert Blocks(Regions(m)[5].lo, Regions(m)[5].hi) == 1;
    hide Blocks, Regions;
    assert Spent(m, 1) == 3;
    assert Spent(m, 2) == 5;
    assert Spent(m, 3) == 7;
    assert Spent(m, 4) == 13;
    assert Spent(m, 5) == 15;
  }

  /** The sections lie one after the other, so the blocks that they share are few. */
  lemma {:induction false} SectionBlocks(m: Image, k: nat)
    requires ImageOk(m) && 6 < k <= 11
    ensures Spent(m, k) <= Spent(m, 6) + 2 * (Regions(m)[k - 1].hi / 512 - Regions(m)[6].lo / 512 + (k - 6))
  {
    RegionsOrdered(m, k - 1);
    BlocksBound(Regions(m)[k - 1].lo, Regions(m)[k - 1].hi);
    hide Blocks, Regions;
    if k > 7 {
      SectionBlocks(m, k - 1);
      assert Regions(m)[k - 2].hi / 512 <= Regions(m)[k - 1].lo / 512;
    }
  }

  /** Whatever the image, initialisation takes at most `BOOT_PAGES` pages. */
  lemma BootNeed(m: Image)
    requires ImageOk(m)
    ensures Spent(m, 11) + PhysNeed(m.kernelEnd) <= BOOT_PAGES == 160
  {
    MmioBlocks(m);
    SectionBlocks(m, 11);
    RegionsOrdered(m, 11);
    LastRegion(m);
    RegionsAre(m);
    BlocksBound(LinearVpn(FirstUnusedPpn(m.kernelEnd)), LinearVpn(MEM_END_PPN));
    hide Blocks, Regions, Spent, FirstUnusedPpn;
    assert Regions(m)[10].hi / 512 <= Regions(m)[11].lo / 512;
  }

  /** One of the 4 KiB ranges of `init_kernel_satp`. */
  method MapRegion(root: RootPgt, mem: PhysMem, alloc: PageAllocator, startVa: nat, endVa: nat, permissions: nat,
                   ghost w0: World, ghost m: Image, ghost k: nat, ghost free: int)
    returns (r: MapResult)
    requires root.Valid(mem, alloc) && KERNEL_VA_OFFSET <= m.kernelEnd && k < 11 && ImageOk(m)
    requires alloc.Free() >= free - Spent(m, k)
    requires Booting(w0, WorldOf(mem, alloc), root.Snap(), m, k)
    requires RangeFits(m, startVa, endVa) && KnownPermissions(permissions) && HasR(permissions)
    requires Regions(m)[k] == Region(startVa / PAGE_SIZE, PageEnd(endVa), permissions)
    modifies root, mem, alloc
    ensures root.Valid(mem, alloc)
    ensures r.AllMapped? ==>
              Booting(w0, WorldOf(mem, alloc), root.Snap(), m, k + 1) && alloc.Free() >= free - Spent(m, k + 1)
    ensures Grew(w0, WorldOf(mem, alloc), root.Snap()) && root.ppn == old(root.ppn)
    ensures !r.AllMapped? ==> r.PageFailed? && r.error.AcquirePageFailed? && free < Spent(m, 11)
  {
    hide ImageOk, AllSeen, Unused, Booting, Spent, Blocks, Lookup, Unmappable, PageAllocator.Free, FailsAt, SameFrom,
      Filled, PageEnd, HasLeafTable, Views, PageAllocator.Valid, PageAllocator.Live, Lists, PgtOk, Extends,
      NoTableFrom, KernelTree, Mapping, Regions, LargeLimit, MapsUpTo, Grew, KnownPermissions, HasR, HasX, HasW;
    SpentNext(m, k);
    LimitAligned(m.kernelEnd);
    ghost var w, g, free0 := WorldOf(mem, alloc), root.Snap(), alloc.Free();
    BootingUnused(w0, w, g, m, k);
    BootingMeans(w0, w, g, m, k);
    r := MapKernelRange(root, mem, alloc, startVa, endVa, permissions, LargeLimit(m.kernelEnd));
    GrewMore(w0, w, g, WorldOf(mem, alloc), root.Snap());
    if r.PageFailed? {
      OnlyPages(r, w.tables, g.root, startVa / PAGE_SIZE, PageEnd(endVa), permissions, alloc, free0,
                2 * Blocks(startVa / PAGE_SIZE, PageEnd(endVa)));
    }
    if r.AllMapped? {
      BootingNext(w0, w, g, m, k, LargeLimit(m.kernelEnd), WorldOf(mem, alloc), root.Snap());
    }
  }

  lemma LimitAligned(kernelEnd: nat)
    ensures LargeLimit(kernelEnd) % 512 == 0
  {
  }

  /** All 4 KiB regions lie below the first large page. */
  lemma BelowLimit(m: Image)
    requires ImageOk(m) && m.kernelEnd >= KERNEL_VA_OFFSET + KERNEL_BASE_PA
    ensures LinearVpn(KERNEL_BASE_PA / PAGE_SIZE) <= LargeLimit(m.kernelEnd)
    ensures forall finish: nat :: finish <= m.kernelEnd ==> PageEnd(finish) <= LargeLimit(m.kernelEnd)
  {
    PhysRangesTile(PhysPageStart(m.kernelEnd), PhysPageStart(m.kernelEnd));
  }

  /** What `map_kernel_range` demands of a range. */
  predicate RangeFits(m: Image, startVa: nat, endVa: nat) {
    && startVa % PAGE_SIZE == 0 && KERNEL_VA_OFFSET <= startVa <= endVa <= KERNEL_VA_OFFSET + MEM_START_PA + MEM_SIZE
    && PageEnd(endVa) <= LargeLimit(m.kernelEnd)
  }

  lemma SectionsFit(m: Image)
    requires ImageOk(m)
    ensures RangeFits(m, m.textStart, m.textEnd) && RangeFits(m, m.stackStart, m.stackEnd)
            && RangeFits(m, m.rodataStart, m.rodataEnd)
    ensures RangeFits(m, m.dataStart, m.dataEnd) && RangeFits(m, m.bssStart, m.bssEnd)
    ensures forall i :: 0 <= i < |MMIO| ==> RangeFits(m, VaFromPa(MMIO[i].0), VaFromPa(MMIO[i].0 + MMIO[i].1))
  {
    BelowLimit(m);
    forall i | 0 <= i < |MMIO| ensures RangeFits(m, VaFromPa(MMIO[i].0), VaFromPa(MMIO[i].0 + MMIO[i].1)) {
      MmioBelow(i);
    }
    hide PageEnd, LargeLimit;
  }

  /** The MMIO ranges are valid kernel addresses far below the kernel image. */
  lemma MmioBelow(i: nat)
    requires i < |MMIO|
    ensures MMIO[i].0 % PAGE_SIZE == 0 && MMIO[i].0 + MMIO[i].1 + KERNEL_VA_OFFSET <= KERNEL_VA_OFFSET + KERNEL_BASE_PA
    ensures PageEnd(MMIO[i].0 + MMIO[i].1 + KERNEL_VA_OFFSET) <= LinearVpn(KERNEL_BASE_PA / PAGE_SIZE)
    ensures (MMIO[i].0 + KERNEL_VA_OFFSET) % PAGE_SIZE == 0
  {
  }

  lemma ImageEnd(m: Image)
    requires ImageOk(m)
    ensures KERNEL_VA_OFFSET <= m.kernelEnd <= KERNEL_VA_OFFSET + MEM_START_PA + MEM_SIZE
  {
  }

  lemma LastRegion(m: Image)
    requires KERNEL_VA_OFFSET <= m.kernelEnd
    ensures Regions(m)[11] == Region(LinearVpn(FirstUnusedPpn(m.kernelEnd)), LinearVpn(MEM_END_PPN), RW)
  {
    hide FirstUnusedPpn;
  }

  lemma BootingMeans(w0: World, w: World, g: Pgt, m: Image, k: nat)
    requires KERNEL_VA_OFFSET <= m.kernelEnd && k < 12 && Booting(w0, w, g, m, k)
    ensures KernelTree(g) && NoTableFrom(w.tables, g.root, LargeLimit(m.kernelEnd)) && Grew(w0, w, g)
  {
    hide PgtOk, KernelTree, NoTableFrom, MapsUpTo, Grew, AllSeen;
  }

  lemma RegionsAre(m: Image)
    requires KERNEL_VA_OFFSET <= m.kernelEnd
    ensures forall i :: 0 <= i < 6 ==>
              Regions(m)[i] == Region(VaFromPa(MMIO[i].0) / PAGE_SIZE, PageEnd(VaFromPa(MMIO[i].0 + MMIO[i].1)), RW)
    ensures Regions(m)[6] == Region(m.textStart / PAGE_SIZE, PageEnd(m.textEnd), RX)
    ensures Regions(m)[7] == Region(m.stackStart / PAGE_SIZE, PageEnd(m.stackEnd), RW)
    ensures Regions(m)[8] == Region(m.rodataStart / PAGE_SIZE, PageEnd(m.rodataEnd), PERMISSION_R)
    ensures Regions(m)[9] == Region(m.dataStart / PAGE_SIZE, PageEnd(m.dataEnd), RW)
    ensures Regions(m)[10] == Region(m.bssStart / PAGE_SIZE, PageEnd(m.bssEnd), RW)
  {
    hide PageEnd;
  }

  lemma BootingStart(w0: World, w: World, g: Pgt, m: Image)
    requires KERNEL_VA_OFFSET <= m.kernelEnd && PgtOk(w, g) && KernelTree(g)
    requires g.own !! w0.live && w.live == w0.live + g.own && SameOutside(w0, w, g.own)
    requires forall v: nat :: Lookup(w.tables, g.root, v) == Absent
    requires forall a, b :: Near(a, b, 0) ==> !HasLeafTable(w.tables, g.root, a, b)
    ensures Booting(w0, w, g, m, 0)
  {
    hide PgtOk, Lookup, HasLeafTable, LargeLimit, IsVpn, Index;
    VpnsAreNat();
    forall v | IsVpn(v) && v >= LargeLimit(m.kernelEnd)
      ensures !HasLeafTable(w.tables, g.root, Index(v, 2), Index(v, 1))
    {
      assert Near(Index(v, 2), Index(v, 1), 0);
    }
    assert MapsUpTo(w.tables, g.root, Regions(m), 0) by {
      VpnsAreNat();
    }
  }

  lemma VpnsAreNat()
    ensures forall v :: IsVpn(v) ==> v >= 0
  {
  }

  lemma BootingLast(w0: World, w: World, g: Pgt, m: Image, w': World, g': Pgt)
    requires KERNEL_VA_OFFSET <= m.kernelEnd && Booting(w0, w, g, m, 11)
    requires PgtOk(w', g') && KernelTree(g') && Extends(w, g, w', g')
    requires Filled(w.tables, w'.tables, g.root, LinearVpn(FirstUnusedPpn(m.kernelEnd)), LinearVpn(MEM_END_PPN),
                    RW + FLAG_V)
    ensures KernelOnly(w'.tables, g') && Grew(w0, w', g')
    ensures forall v :: IsVpn(v) ==> Translate(w'.tables, g'.root, v) == Expected(Regions(m), 12, v)
  {
    GrewMore(w0, w, g, w', g');
    hide PgtOk, Filled, Grew, Extends, NoTableFrom, Seen, Lookup, KernelTree, Expected, Translate;
    MapsOneMore(w.tables, w'.tables, g.root, Regions(m), 11);
    LowerHalfEmpty(w', g');
    forall v | IsVpn(v) ensures Translate(w'.tables, g'.root, v) == Expected(Regions(m), 12, v) {
      TreeOf(w', g');
      WalksAgree(w'.tables, g'.root, g'.role, v);
    }
  }

  lemma TreeOf(w: World, g: Pgt)
    requires PgtOk(w, g)
    ensures Tree(w.tables, g.root, g.role)
  {
    hide Tree;
  }

  /** The part of `init_kernel_satp` after the root table: the twelve regions in turn. */
  method MapRegions(root: RootPgt, mem: PhysMem, alloc: PageAllocator, m: Image, ghost w0: World, ghost free: int)
    returns (r: MapResult)
    requires root.Valid(mem, alloc) && ImageOk(m) && KERNEL_VA_OFFSET <= m.kernelEnd
    requires Booting(w0, WorldOf(mem, alloc), root.Snap(), m, 0) && alloc.Free() >= free - 1
    modifies root, mem, alloc
    ensures root.Valid(mem, alloc) && Grew(w0, WorldOf(mem, alloc), root.Snap()) && root.ppn == old(root.ppn)
    ensures r.AllMapped? ==> KernelOnly(mem.tables, root.Snap()) && alloc.Free() >= free - BOOT_PAGES
    ensures r.AllMapped? ==> forall v :: IsVpn(v) ==> Translate(mem.tables, root.ppn, v) == Expected(Regions(m), 12, v)
    ensures !r.AllMapped? ==> r.PageFailed? && r.error.AcquirePageFailed? && free < BOOT_PAGES
  {
    hide Views, PageAllocator.Valid, PageAllocator.Live, Lists, PgtOk, Booting, Grew, KernelOnly, Regions, LargeLimit,
      Translate, HasLeafTable, PageEnd, SectionRegion, MmioRegion, Expected, FirstUnusedPpn, AllSeen, Unused, Spent,
      PhysNeed, Lookup, Unmappable, FailsAt, Filled, NoTableFrom, Extends, PageAllocator.Free;
    BootNeed(m);
    SpentStarts(m);
    BootingMeans(w0, WorldOf(mem, alloc), root.Snap(), m, 0);
    RegionsAre(m);
    SectionsFit(m);
    ImageEnd(m);
    hide ImageOk, RangeFits;
    var i := 0;
    while i < |MMIO|
      invariant 0 <= i <= |MMIO| && root.Valid(mem, alloc) && Booting(w0, WorldOf(mem, alloc), root.Snap(), m, i)
      invariant alloc.Free() >= free - Spent(m, i) && root.ppn == old(root.ppn)
      invariant Grew(w0, WorldOf(mem, alloc), root.Snap())
    {
      var (startPa, size) := MMIO[i];
      r := MapRegion(root, mem, alloc, VaFromPa(startPa), VaFromPa(startPa + size), RW, w0, m, i, free);
      if !r.AllMapped? {
        return;
      }
      i := i + 1;
    }
    r := MapRegion(root, mem, alloc, m.textStart, m.textEnd, RX, w0, m, 6, free);
    if !r.AllMapped? {
      return;
    }
    r := MapRegion(root, mem, alloc, m.stackStart, m.stackEnd, RW, w0, m, 7, free);
    if !r.AllMapped? {
      return;
    }
    r := MapRegion(root, mem, alloc, m.rodataStart, m.rodataEnd, PERMISSION_R, w0, m, 8, free);
    if !r.AllMapped? {
      return;
    }
    r := MapRegion(root, mem, alloc, m.dataStart, m.dataEnd, RW, w0, m, 9, free);
    if !r.AllMapped? {
      return;
    }
    r := MapRegion(root, mem, alloc, m.bssStart, m.bssEnd, RW, w0, m, 10, free);
    if !r.AllMapped? {
      return;
    }
    ghost var w, s, free11 := WorldOf(mem, alloc), root.Snap(), alloc.Free();
    BootingMeans(w0, w, s, m, 11);
    BootingUnused(w0, w, s, m, 11);
    LastRegion(m);
    r := MapPhysMem(root, mem, alloc, m.kernelEnd);
    GrewMore(w0, w, s, WorldOf(mem, alloc), root.Snap());
    if !r.AllMapped? {
      OnlyPages(r, w.tables, s.root, LinearVpn(FirstUnusedPpn(m.kernelEnd)), LinearVpn(MEM_END_PPN), RW, alloc,
                free11, PhysNeed(m.kernelEnd));
      return;
    }
    BootingLast(w0, w, s, m, WorldOf(mem, alloc), root.Snap());
  }

  /** `init_kernel_satp`: builds the kernel's table; on success it maps exactly the regions,
      and its pages are live for ever; on a failure all its pages are free again. */
  method InitKernelSatp(mem: PhysMem, alloc: PageAllocator, m: Image) returns (r: MapResult, ppn: nat, ghost g: Pgt)
    requires mem.Valid() && alloc.Valid() && ImageOk(m)
    modifies mem, alloc
    ensures mem.Valid() && alloc.Valid()
    ensures r.AllMapped? ==> g.root == ppn && PgtOk(WorldOf(mem, alloc), g) && KernelOnly(mem.tables, g)
    ensures r.AllMapped? ==> Grew(old(WorldOf(mem, alloc)), WorldOf(mem, alloc), g)
    ensures r.AllMapped? ==> forall v :: IsVpn(v) ==> Translate(mem.tables, ppn, v) == Expected(Regions(m), 12, v)
    ensures !r.AllMapped? ==> r.NoRootPgt? || (r.PageFailed? && r.error.AcquirePageFailed?)
    ensures !r.AllMapped? ==> alloc.Live() == old(alloc.Live())
    ensures if r.AllMapped? then alloc.Free() >= old(alloc.Free()) - BOOT_PAGES else old(alloc.Free()) < BOOT_PAGES
  {
    hide Views, PageAllocator.Valid, PageAllocator.Live, Lists, PgtOk, Booting, KernelOnly, Regions, Translate,
      Expected, HasLeafTable, Lookup, PageAllocator.Free, ImageOk;
    g := Pgt(0, {}, map[]);
    ppn := 0;
    ghost var w0, free := WorldOf(mem, alloc), alloc.Free();
    ImageEnd(m);
    var made := RootPgt.New(mem, alloc);
    if made.None? {
      return NoRootPgt, ppn, g;
    }
    var root := made.value;
    BootingStart(w0, WorldOf(mem, alloc), root.Snap(), m);
    r := MapRegions(root, mem, alloc, m, w0, free);
    if !r.AllMapped? {
      root.Drop(mem, alloc);
      return;
    }
    g := root.Snap();
    ppn := root.ppn;
    var pages := root.ForgetSelf(mem, alloc);
  }
}
