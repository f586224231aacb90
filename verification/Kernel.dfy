/**
  The memory side of the running kernel: its own table, the spaces of the listed tasks, and the
  system calls and faults that act on them (os/src/syscall/mm.rs, os/src/trap/utrap.rs).
 */
module Kernel {
  import opened Layout
  import opened Pte
  import opened Memory
  import opened Walk
  import opened PageAlloc
  import opened PgtSpec
  import opened Areas
  import opened SpaceSpec
  import opened LoadSpec
  import opened VMSpace
  import opened KernelMap
  import opened SystemSpec
  import Mmu
  import Satp

  const PROT_EXEC: nat := 1
  const PROT_READ: nat := 2
  const PROT_WRITE: nat := 4

  /** `to_permissions`. */
  function ToPermissions(prot: nat): (p: nat)
    ensures KnownPermissions(p) && HasU(p)
    ensures HasR(p) == (prot / PROT_READ % 2 == 1) && HasW(p) == (prot / PROT_WRITE % 2 == 1)
            && HasX(p) == (prot % 2 == 1)
  {
    PERMISSION_U +
    (if prot / PROT_READ % 2 == 1 then PERMISSION_R else 0) +
    (if prot / PROT_WRITE % 2 == 1 then PERMISSION_W else 0) +
    (if prot / PROT_EXEC % 2 == 1 then PERMISSION_X else 0)
  }

  /** What `mmap` and `munmap` take the bytes `[addr, addr + len)` for, in pages. */
  predicate PageMeets(addr: nat, len: nat, v: nat) {
    addr / PAGE_SIZE <= v < PageEnd(addr + len)
  }

  lemma RoundedTo(addr: nat, len: nat)
    requires IsValidVa(addr) && IsValidVa(addr + len + PAGE_SIZE - 1)
    ensures VpnFromVa(addr) == addr / PAGE_SIZE && VpnFromVa(addr + len + PAGE_SIZE - 1) == PageEnd(addr + len)
  {
  }

  /** For a nonempty range these are exactly the pages that hold a byte of it. */
  lemma PageMeetsBytes(addr: nat, len: nat, v: nat)
    requires len > 0
    ensures PageMeets(addr, len, v) <==> addr < (v + 1) * PAGE_SIZE && v * PAGE_SIZE < addr + len
  {
  }

  /** `mmap` accepts the range and the request, and no area overlaps them. */
  predicate MmapAccepts(areas: seq<VMArea>, addr: nat, len: nat, prot: nat) {
    && CheckUVaRange(addr, len) && prot < 8 && addr / PAGE_SIZE < PageEnd(addr + len)
    && forall j :: 0 <= j < |areas| ==> areas[j].Apart(addr / PAGE_SIZE, PageEnd(addr + len))
  }

  /** `munmap` cuts a hole into an area, which makes two of it. */
  predicate MunmapSplits(areas: seq<VMArea>, addr: nat, len: nat) {
    CheckUVaRange(addr, len) && len > 0 && IsHole(areas, addr / PAGE_SIZE, PageEnd(addr + len))
  }

  /** What `mmap` does to an area list, and what it returns. */
  ghost predicate MmapEffect(areas: seq<VMArea>, areas': seq<VMArea>, addr: nat, len: nat, prot: nat, r: int) {
    && (r == 0 || r == -1)
    && (r == 0 <==> MmapAccepts(areas, addr, len, prot))
    && (forall v: nat ::
          CellAt(areas', v) ==
            if r == 0 && PageMeets(addr, len, v) then InArea(Anonymous, ToPermissions(prot), None)
                else CellAt(areas, v))
    && (NoneEmpty(areas) ==> NoneEmpty(areas'))
  }

  /** In numbers and bytes: the bytes lie below the end of user space, no protection bit but the
      lowest three is set, no page that holds one of the bytes has an area, and no area without pages
      starts at a page boundary between two of them. */
  ghost predicate MmapFits(areas: seq<VMArea>, addr: nat, len: nat, prot: nat) {
    && addr + len <= 0x40_0000_0000 - 4096 && prot < 8
    && (forall j :: 0 <= j < |areas| ==>
          forall x: nat :: addr <= x < addr + len ==> !(areas[j].start <= x / 4096 < areas[j].end))
    && (forall j :: 0 <= j < |areas| && addr < areas[j].start * 4096 < addr + len ==>
          areas[j].start < areas[j].end)
  }

  /** A request for some bytes is accepted exactly then. */
  lemma MmapDecided(areas: seq<VMArea>, addr: nat, len: nat, prot: nat)
    requires len > 0 && forall j :: 0 <= j < |areas| ==> areas[j].start <= areas[j].end
    ensures MmapAccepts(areas, addr, len, prot) <==> MmapFits(areas, addr, len, prot)
  {
    var s, e := addr / 4096, (addr + len + 4095) / 4096;
    forall j | 0 <= j < |areas|
      ensures areas[j].Apart(s, e) <==>
              && (forall x: nat :: addr <= x < addr + len ==> !(areas[j].start <= x / 4096 < areas[j].end))
              && (addr < areas[j].start * 4096 < addr + len ==> areas[j].start < areas[j].end)
    {
      ApartInBytes(areas[j], addr, len);
    }
  }

  lemma ApartInBytes(a: VMArea, addr: nat, len: nat)
    requires len > 0 && a.start <= a.end
    ensures a.Apart(addr / 4096, (addr + len + 4095) / 4096) <==>
            && (forall x: nat :: addr <= x < addr + len ==> !(a.start <= x / 4096 < a.end))
            && (addr < a.start * 4096 < addr + len ==> a.start < a.end)
  {
    var x := if addr < a.start * 4096 then a.start * 4096 else addr;
    assert x / 4096 == if addr < a.start * 4096 then a.start else addr / 4096;
  }

  /** That last condition is needed: a program segment without memory at a page boundary leaves such
      an area, and a request across it is refused although none of its pages has an area. */
  lemma EmptyAreaRefuses(a: VMArea, addr: nat, len: nat, prot: nat)
    requires a.start == a.end && addr < a.start * 4096 < addr + len
    ensures (forall x: nat :: !(a.start <= x / 4096 < a.end)) && !MmapAccepts([a], addr, len, prot)
  {
    assert !a.Apart(addr / 4096, PageEnd(addr + len));
    assert [a][0] == a;
  }

  /** In bits: each page that holds one of the bytes gets an area for the user, with R, W and X as
      bits 1, 2 and 0 of the request say and without a page yet; nothing else changes. */
  lemma MmapGives(areas: seq<VMArea>, areas': seq<VMArea>, addr: nat, len: nat, prot: nat, r: int, v: nat)
    requires MmapEffect(areas, areas', addr, len, prot, r) && len > 0
    ensures if r == 0 && addr / 4096 <= v <= (addr + len - 1) / 4096 then
              var c := CellAt(areas', v);
              && c.InArea? && c.mapType.Anonymous? && c.page.None?
              && c.permissions < 32 && c.permissions % 2 == 0 && c.permissions / 16 % 2 == 1
              && c.permissions / 2 % 2 == prot / 2 % 2 && c.permissions / 4 % 2 == prot / 4 % 2
              && c.permissions / 8 % 2 == prot % 2
            else CellAt(areas', v) == CellAt(areas, v)
  {
    hide CellAt, MmapAccepts, ToPermissions;
  }

  /** A request for no bytes at an address that is not page aligned is rounded up to a page. */
  lemma NoBytesTakeAPage(areas: seq<VMArea>, areas': seq<VMArea>, addr: nat, prot: nat, r: int)
    requires MmapEffect(areas, areas', addr, 0, prot, r) && prot < 8 && CheckUVaRange(addr, 0) && addr % PAGE_SIZE != 0
    ensures PageEnd(addr) == addr / PAGE_SIZE + 1
    ensures r == 0 <==> forall j :: 0 <= j < |areas| ==> areas[j].Apart(addr / PAGE_SIZE, addr / PAGE_SIZE + 1)
    ensures r == 0 ==> CellAt(areas', addr / PAGE_SIZE) == InArea(Anonymous, ToPermissions(prot), None)
  {
    hide CellAt;
    assert PageMeets(addr, 0, addr / PAGE_SIZE);
  }

  /** What `munmap` does to an area list, to the hardware's translations and to what the user
      can read, and what it returns. */
  ghost predicate MunmapEffect(w: World, w': World, root: nat, areas: seq<VMArea>, areas': seq<VMArea>, addr: nat,
                               len: nat, r: int) {
    && r == (if CheckUVaRange(addr, len) then 0 else -1)
    && (forall v: nat ::
          CellAt(areas', v) ==
            if r == 0 && len > 0 && PageMeets(addr, len, v) then Nowhere else CellAt(areas, v))
    && (NoneEmpty(areas) ==> NoneEmpty(areas'))
    && (forall v: nat :: v < LOWER_END ==>
          Translate(w'.tables, root, v) ==
            if r == 0 && len > 0 && PageMeets(addr, len, v) then Fault else Translate(w.tables, root, v))
    && (forall x: nat :: CheckUVa(x) && !(r == 0 && len > 0 && PageMeets(addr, len, VpnFromVa(x))) ==>
          UserByte(w', root, x) == UserByte(w, root, x))
  }

  /** In numbers and bytes: `munmap` of some bytes succeeds exactly if they lie below the end of user
      space; then the pages that hold one of them have no area and no translation any more, and all
      others are as they were. */
  lemma MunmapDecided(w: World, w': World, root: nat, areas: seq<VMArea>, areas': seq<VMArea>, addr: nat, len: nat,
                      r: int, x: nat)
    requires MunmapEffect(w, w', root, areas, areas', addr, len, r)
    ensures r == if addr < 0x40_0000_0000 - 4096 && 0 < addr + len <= 0x40_0000_0000 - 4096 then 0 else -1
    ensures var v := x / 4096;
            if r == 0 && len > 0 && addr / 4096 <= v <= (addr + len - 1) / 4096 then
              CellAt(areas', v) == Nowhere && Translate(w'.tables, root, v) == Fault
            else
              && CellAt(areas', v) == CellAt(areas, v)
              && (x < 0x40_0000_0000 - 4096 ==>
                    Translate(w'.tables, root, v) == Translate(w.tables, root, v)
                        && UserByte(w', root, x) == UserByte(w, root, x))
  {
    hide CellAt, Translate, UserByte;
  }

  /** The list of areas must grow exactly if one area holds the page before the first byte's and the
      page after the last byte's. */
  lemma MunmapSplitsWhat(areas: seq<VMArea>, addr: nat, len: nat)
    ensures MunmapSplits(areas, addr, len) <==>
            && len > 0 && addr + len <= 0x40_0000_0000 - 4096
            && exists j :: 0 <= j < |areas| && areas[j].start <= addr / 4096 - 1
                           && (addr + len - 1) / 4096 + 1 < areas[j].end
  {
  }

  class Kernel {
    const mem: PhysMem
    const alloc: PageAllocator
    const kernelRoot: nat
    ghost const k: Pgt
    ghost const image: Image
    var spaces: seq<VMSpace>

    ghost function Roots(): set<object>
      reads this, spaces
    {
      set s | s in spaces :: s.rootPgt
    }

    ghost function Spaces(): (ss: seq<Space>)
      reads this, spaces, Roots()
      ensures |ss| == |spaces| && forall i :: 0 <= i < |spaces| ==> ss[i] == spaces[i].Snap()
    {
      seq(|spaces|, i requires 0 <= i < |spaces| reads this, spaces, Roots() => spaces[i].Snap())
    }

    ghost function Now(): World
      reads mem, alloc
    {
      WorldOf(mem, alloc)
    }

    /** The invariant of every run. */
    ghost predicate Inv()
      reads this, mem, alloc, spaces, Roots()
    {
      && mem.Valid() && alloc.Valid() && ImageOk(image) && k.root == kernelRoot
      && (forall i, j :: 0 <= i < j < |spaces| ==> spaces[i] != spaces[j] && spaces[i].rootPgt != spaces[j].rootPgt)
      && (forall i :: 0 <= i < |spaces| ==>
          Lists(spaces[i].rootPgt.pages, spaces[i].rootPgt.own) && AllUser(spaces[i].areas))
      && SystemOk(Now(), k, Spaces())
      && LinearMap(mem.tables, kernelRoot, image)
    }

    constructor (mem: PhysMem, alloc: PageAllocator, kernelRoot: nat, ghost k: Pgt, ghost image: Image)
      ensures this.mem == mem && this.alloc == alloc && this.kernelRoot == kernelRoot
      ensures this.k == k && this.image == image && spaces == []
    {
      this.mem := mem;
      this.alloc := alloc;
      this.kernelRoot := kernelRoot;
      this.k := k;
      this.image := image;
      spaces := [];
    }

    /** `init`: the page allocator and the kernel's table, with its register value, from the memory
        that the boot loader leaves.  The source panics where this returns `None`; all pages are free again then. */
    static method Boot(mem: PhysMem, image: Image) returns (r: Option<Kernel>, alloc: PageAllocator, satp: nat)
      requires mem.Valid() && ImageOk(image)
      modifies mem
      ensures mem.Valid() && fresh(alloc)
      ensures r.None? ==> alloc.Valid() && alloc.Live() == {} && ManagedPages(image) < BOOT_PAGES
      ensures r.Some? ==> fresh(r.value) && r.value.alloc == alloc && r.value.mem == mem && r.value.image == image
      ensures r.Some? ==> r.value.Inv() && r.value.spaces == [] && alloc.Free() >= ManagedPages(image) - BOOT_PAGES
      ensures r.Some? ==>
                satp / 0x1000_0000_0000_0000 == 8 && satp / 0x1000_0000_0000 % 0x1_0000 == 0
                    && satp % 0x1000_0000_0000 == r.value.kernelRoot
    {
      hide Views, PageAllocator.Live, KernelOnly, Grew, Tree, Expected, Regions, Translate;
      alloc := new PageAllocator(image.kernelEnd);
      ghost var w0 := WorldOf(mem, alloc);
      var result, ppn, g := InitKernelSatp(mem, alloc, image);
      if !result.AllMapped? {
        return None, alloc, 0;
      }
      satp := Satp.ComputeValue(ppn, Satp.Sv39);
      RootIsRam(WorldOf(mem, alloc), g);
      Satp.SatpFields(ppn, Satp.Sv39);
      var kernel := new Kernel(mem, alloc, Satp.PpnOf(satp), g, image);
      FirstSystem(w0, WorldOf(mem, alloc), g);
      assert kernel.Spaces() == [];
      return Some(kernel), alloc, satp;
    }

    /** `mmap` for the task of space `i`.  If the heap does not let the area list grow when it
        must (`grows`), the source panics; then this returns `None`. */
    method Mmap(i: nat, addr: nat, len: nat, prot: nat, grows: bool) returns (r: Option<int>)
      requires Inv() && i < |spaces| && addr < USIZE && len < USIZE && prot < USIZE
      modifies spaces[i]
      ensures Inv() && spaces == old(spaces)
      ensures r.None? <==> !grows && MmapAccepts(old(spaces[i].areas), addr, len, prot)
      ensures r.None? ==> spaces[i].areas == old(spaces[i].areas) && spaces[i].data == old(spaces[i].data)
      ensures r.Some? ==> MmapEffect(old(spaces[i].areas), spaces[i].areas, addr, len, prot, r.value)
      ensures |spaces[i].areas| == |old(spaces[i].areas)| + if r == Some(0) then 1 else 0
      ensures OthersUntouched(old(Now()), old(Spaces()), Now(), Spaces(), i)
    {
      hide Views, PageAllocator.Valid, PageAllocator.Live, Lists, SystemOk, SpaceOk, Step, CellAt, LinearMap, ImageOk,
        HasStop, WorldOk, Others, SameUpper, AllUser, HasU, KnownPermissions, NoneEmpty, ToPermissions, Untouched,
        PgtOk;
      OthersUntouchedItself(Now(), Spaces(), i);
      if !CheckUVaRange(addr, len) {
        return Some(-1);
      }
      if prot >= 8 {
        return Some(-1);
      }
      if !grows && MmapAccepts(spaces[i].areas, addr, len, prot) {
        return None;  // at the push in `add_new_area`
      }
      AcceptedRangeRoundsInside(addr, len);
      RoundedTo(addr, len);
      hide VpnFromVa, IsValidVa, PageEnd;
      var startVpn := VpnFromVa(addr);
      var endVpn := VpnFromVa(addr + len + PAGE_SIZE - 1);
      var space := spaces[i];
      ghost var w, ss := Now(), Spaces();
      SystemMeans(w, k, ss, i);
      var result := space.AddNewArea(mem, alloc, startVpn, endVpn, Anonymous, ToPermissions(prot));
      WorldIsOk(mem, alloc);
      StepMeans(w, ss[i], Now(), space.Snap());
      assert Spaces() == ss[i := space.Snap()];
      SystemStep(w, k, ss, i, Now(), space.Snap());
      AllUserMore(ss[i].areas, space.areas, ToPermissions(prot));
      if NoneEmpty(ss[i].areas) && result.Done? {
        NoneEmptyMore(ss[i].areas, VMArea(startVpn, endVpn, Anonymous, ToPermissions(prot), map[]));
      }
      return Some(if result.Done? then 0 else -1);
    }

    /** `munmap` for the task of space `i`: total on every pair of 64-bit arguments, if the heap
        lets the area list grow when it must. */
    method Munmap(i: nat, addr: nat, len: nat, grows: bool) returns (r: Option<int>)
      requires Inv() && i < |spaces| && addr < USIZE && len < USIZE
      modifies spaces[i], mem, alloc
      ensures Inv() && spaces == old(spaces)
      ensures spaces[i].rootPgt.ppn == old(spaces[i].rootPgt.ppn)
      ensures r.None? <==> !grows && MunmapSplits(old(spaces[i].areas), addr, len)
      ensures r.None? ==> Spaces() == old(Spaces()) && Now() == old(Now()) && alloc.Free() == old(alloc.Free())
      ensures r.Some? ==>
                MunmapEffect(old(Now()), Now(), old(spaces[i].rootPgt.ppn), old(spaces[i].areas), spaces[i].areas,
                             addr, len, r.value)
      ensures |spaces[i].areas| > |old(spaces[i].areas)| ==> MunmapSplits(old(spaces[i].areas), addr, len)
      ensures OthersUntouched(old(Now()), old(Spaces()), Now(), Spaces(), i)
    {
      hide Views, PageAllocator.Valid, PageAllocator.Live, Lists, SystemOk, SpaceOk, Step, CellAt, LinearMap, ImageOk,
        HasStop, WorldOk, Others, SameUpper, Translate, Untouched, AllUser, KnownPermissions, HasU, UserByte,
        KeepsBytes, NoneEmpty;
      NothingTouched(Now());
      if !CheckUVaRange(addr, len) {
        return Some(-1);
      }
      if len == 0 {
        return Some(0);
      }
      if !grows && MunmapSplits(spaces[i].areas, addr, len) {
        return None;  // at the push in `unmap`
      }
      AcceptedRangeRoundsInside(addr, len);
      var startVpn := VpnFromVa(addr);
      var endVpn := VpnFromVa(addr + len + PAGE_SIZE - 1);
      var space := spaces[i];
      ghost var w, ss := Now(), Spaces();
      SystemMeans(w, k, ss, i);
      var result := space.Unmap(mem, alloc, startVpn, endVpn);
      WorldIsOk(mem, alloc);
      StepMeans(w, ss[i], Now(), space.Snap());
      assert Spaces() == ss[i := space.Snap()];
      SystemStep(w, k, ss, i, Now(), space.Snap());
      SameRoot(w, ss[i], Now(), space.Snap());
      RemovedTranslations(w, ss[i], Now(), space.Snap(), startVpn, endVpn);
      UnmapReads(w, ss[i], Now(), space.Snap(), startVpn, endVpn);
      AllUserLess(ss[i].areas, space.areas);
      LinearStays(w.tables, mem.tables, kernelRoot, image);
      return Some(if result.Done? then 0 else -1);
    }

    /** A load or store page fault of the task of space `i`, in user mode or during a copy. */
    method PageFault(i: nat, va: nat, min: nat) returns (r: VMResult)
      requires Inv() && i < |spaces| && CheckUVa(va) && (HasR(min) || HasW(min))
      requires !Grants(Translate(mem.tables, spaces[i].rootPgt.ppn, VpnFromVa(va)), min)
      modifies spaces[i], spaces[i].rootPgt, mem, alloc
      ensures Inv() && spaces == old(spaces) && spaces[i].rootPgt.ppn == old(spaces[i].rootPgt.ppn)
      ensures FaultOutcome(CellAt(old(spaces[i].areas), VpnFromVa(va)), VpnFromVa(va), min, r)
      ensures r.Failed? && OutOfPages(r.error) ==> old(alloc.Free()) < 3
      ensures old(alloc.Free()) - 3 <= alloc.Free() <= old(alloc.Free())
      ensures r.Done? ==> Grants(Translate(mem.tables, spaces[i].rootPgt.ppn, VpnFromVa(va)), min)
      ensures r.Done? ==>
                FilledWithZeros(CellAt(old(spaces[i].areas), VpnFromVa(va)), CellAt(spaces[i].areas, VpnFromVa(va)),
                                mem.frames)
      ensures r.Failed? ==> spaces[i].areas == old(spaces[i].areas) && spaces[i].data == old(spaces[i].data)
      ensures NoneEmpty(old(spaces[i].areas)) ==> NoneEmpty(spaces[i].areas)
      ensures forall u: nat :: u != VpnFromVa(va) ==> CellAt(spaces[i].areas, u) == CellAt(old(spaces[i].areas), u)
      ensures ReadsKept(old(Now()), Now(), spaces[i].rootPgt.ppn, 0, 0)
      ensures forall u: nat :: u < LOWER_END && (r.Failed? || u != VpnFromVa(va)) ==>
                Translate(mem.tables, spaces[i].rootPgt.ppn, u) == Translate(old(mem.tables), spaces[i].rootPgt.ppn, u)
      ensures OthersUntouched(old(Now()), old(Spaces()), Now(), Spaces(), i)
    {
      hide Views, PageAllocator.Valid, PageAllocator.Live, PageAllocator.Free, Lists, SystemOk, SpaceOk, Step, CellAt,
        LinearMap, ImageOk, HasStop, WorldOk, Others, SameUpper, Translate, Untouched, FaultOutcome, FilledWithZeros,
        Grants, HasR, HasW, KeepsBytes, AllUser, ReadsKept, NoneEmpty;
      var space := spaces[i];
      ghost var w, ss := Now(), Spaces();
      SystemMeans(w, k, ss, i);
      r := space.MapFaultPage(mem, alloc, va, min);
      WorldIsOk(mem, alloc);
      StepMeans(w, ss[i], Now(), space.Snap());
      assert Spaces() == ss[i := space.Snap()];
      SystemStep(w, k, ss, i, Now(), space.Snap());
      LinearStays(w.tables, mem.tables, kernelRoot, image);
      SameRoot(w, ss[i], Now(), space.Snap());
      FaultReads(w, ss[i], Now(), space.Snap(), VpnFromVa(va));
    }

    /** A task is added with a new space; `add_task` panics when this fails. */
    method Spawn(elf: seq<byte>, segments: seq<Segment>, entry: nat) returns (ok: bool)
      requires Inv()
               && forall i :: 0 <= i < |segments| && segments[i].load ==>
                   segments[i].Loadable(elf) && segments[i].BelowStack()
      modifies this, mem, alloc
      ensures Inv()
      ensures !ok ==> spaces == old(spaces) && alloc.Live() == old(alloc.Live())
      ensures ok ==>
                |spaces| == |old(spaces)| + 1 && spaces[..|old(spaces)|] == old(spaces) && fresh(spaces[|old(spaces)|])
                    && fresh(spaces[|old(spaces)|].rootPgt)
      ensures ok ==> OneMoreSpace(old(Now()), old(Spaces()), Now(), Spaces())
      ensures ok ==> ProgramIn(Now(), Spaces()[|old(spaces)|], elf, segments)
      ensures ok ==> spaces[|old(spaces)|].entryAddr == entry
      ensures if ok then !ProgramRefused(segments) && alloc.Free() >= old(alloc.Free()) - ProgramPages(segments)
              else ProgramRefused(segments) || old(alloc.Free()) < ProgramPages(segments)
      ensures !ok ==> OthersUntouched(old(Now()), old(Spaces()), Now(), Spaces(), |old(spaces)|)
    {
      hide Views, PageAllocator.Valid, PageAllocator.Live, Lists, SystemOk, SpaceOk, LinearMap, ImageOk, HasStop,
        WorldOk, SameOn, Translate, Lookup, Untouched, PgtOk, KernelOnly, AllLoaded, OnlyFrom, AllUser, Owned, Shared,
        ProgramRefused, PageAllocator.Free;
      ghost var w, ss := Now(), Spaces();
      KernelMeans(w, k, ss);
      var made := VMSpace.NewUser(mem, alloc, kernelRoot, k, elf, segments, entry);
      WorldIsOk(mem, alloc);
      if made.NotCreated? {
        SystemSame(w, k, ss, Now());
        LinearStays(w.tables, mem.tables, kernelRoot, image);
        assert Spaces() == ss;
        return false;
      }
      OnlyFromIsUser(made.space.Snap(), segments);
      spaces := spaces + [made.space];
      assert Spaces() == ss + [made.space.Snap()];
      SystemGrows(w, k, ss, Now(), made.space.Snap());
      LinearStays(w.tables, mem.tables, kernelRoot, image);
      return true;
    }

    /** The task of space `i` leaves the list; dropping its space gives back exactly its pages. */
    method Exit(i: nat)
      requires Inv() && i < |spaces|
      modifies this, alloc
      ensures Inv() && spaces == RemoveAt(old(spaces), i) && Spaces() == RemoveAt(old(Spaces()), i)
      ensures alloc.Live() == old(alloc.Live()) - Owned(old(Spaces())[i])
      ensures mem.frames == old(mem.frames)
    {
      hide Views, PageAllocator.Valid, PageAllocator.Live, Lists, SystemOk, SpaceOk, LinearMap, ImageOk, HasStop,
        WorldOk, Translate, Untouched, RemoveAt, Owned, AllUser;
      ghost var w, ss := Now(), Spaces();
      SystemMeans(w, k, ss, i);
      var space := spaces[i];
      SpaceHolds(w, ss[i]);
      space.Drop(mem, alloc);
      WorldIsOk(mem, alloc);
      spaces := RemoveAt(spaces, i);
      assert Spaces() == RemoveAt(ss, i);
      SystemShrinks(w, k, ss, i, Now());
      LinearStays(w.tables, mem.tables, kernelRoot, image);
    }

    /** A load or store of one byte of user memory that needs the permissions `min`: the
        hardware translates and does it, or traps (`None`) and does nothing. */
    method TryAccess(i: nat, va: nat, store: bool, value: byte, min: nat) returns (r: Option<byte>)
      requires Inv() && i < |spaces| && CheckUVa(va)
      modifies mem
      ensures Inv() && Spaces() == old(Spaces())
      ensures r.Some? <==> Grants(Translate(old(mem.tables), spaces[i].rootPgt.ppn, VpnFromVa(va)), min)
      ensures r.None? || !store ==> Now() == old(Now())
      ensures r.Some? ==> UserByte(Now(), spaces[i].rootPgt.ppn, va) == Some(if store then value else r.value)
      ensures forall v: nat ::
                Translate(mem.tables, spaces[i].rootPgt.ppn, v) == Translate(old(mem.tables), spaces[i].rootPgt.ppn, v)
      ensures forall x: nat :: CheckUVa(x) && x != va ==>
                UserByte(Now(), spaces[i].rootPgt.ppn, x) == UserByte(old(Now()), spaces[i].rootPgt.ppn, x)
      ensures OthersUntouched(old(Now()), old(Spaces()), Now(), Spaces(), i)
    {
      hide Views, PageAllocator.Valid, PageAllocator.Live, Lists, SystemOk, SpaceOk, CellAt, LinearMap, ImageOk,
        HasStop, Translate, Untouched, Includes, AllUser, UserByte;
      var v := VpnFromVa(va);
      ghost var w, ss := Now(), Spaces();
      NothingTouched(w);
      SystemMeans(w, k, ss, i);
      var t := Mmu.TranslateNow(mem, spaces[i].rootPgt.ppn, v);
      assert Now() == w && Spaces() == ss;
      if !Grants(t, min) {
        return None;
      }
      HitPage(w, ss[i], v);
      if store {
        StoreByte(i, va, t.ppn, value);
        return Some(value);
      }
      var b := mem.ReadByte(t.ppn, va % PAGE_SIZE);
      assert Now() == w && Spaces() == ss;
      ByteAt(w, ss[i].pgt.root, va);
      return Some(b);
    }

    /** The store of `TryAccess`, to the page `p` that backs the address. */
    method StoreByte(i: nat, va: nat, p: nat, value: byte)
      requires Inv() && i < |spaces| && CheckUVa(va)
      requires Translate(mem.tables, spaces[i].rootPgt.ppn, VpnFromVa(va)).Hit?
               && p == Translate(mem.tables, spaces[i].rootPgt.ppn, VpnFromVa(va)).ppn
      modifies mem
      ensures Inv() && Spaces() == old(Spaces())
      ensures UserByte(Now(), spaces[i].rootPgt.ppn, va) == Some(value)
      ensures forall v: nat ::
                Translate(mem.tables, spaces[i].rootPgt.ppn, v) == Translate(old(mem.tables), spaces[i].rootPgt.ppn, v)
      ensures forall x: nat :: CheckUVa(x) && x != va ==>
                UserByte(Now(), spaces[i].rootPgt.ppn, x) == UserByte(old(Now()), spaces[i].rootPgt.ppn, x)
      ensures OthersUntouched(old(Now()), old(Spaces()), Now(), Spaces(), i)
    {
      hide Views, PageAllocator.Valid, PageAllocator.Live, Lists, SystemOk, SpaceOk, CellAt, LinearMap, ImageOk,
        HasStop, WorldOk, Translate, Untouched, Others, SameUpper, AllUser, UserByte, SetByte;
      ghost var w, ss := Now(), Spaces();
      SystemMeans(w, k, ss, i);
      HitPage(w, ss[i], VpnFromVa(va));
      mem.WriteByte(p, va % PAGE_SIZE, value);
      WorldIsOk(mem, alloc);
      UserStore(w, ss[i], VpnFromVa(va), Now());
      StoreIsLocal(w, ss[i], va, value, Now());
      assert Spaces() == ss && ss == ss[i := ss[i]];
      SystemStep(w, k, ss, i, Now(), ss[i]);
      LinearStays(w.tables, mem.tables, kernelRoot, image);
    }
  }

  /** The permissions that `u_trap_handler` asks for: U and R for a load, U and W for a store. */
  function Needed(store: bool): nat {
    if store then PERMISSION_U + PERMISSION_W else PERMISSION_U + PERMISSION_R
  }

  lemma NeedsReadOrWrite(store: bool)
    ensures HasR(Needed(store)) || HasW(Needed(store))
  {
  }

  /** A fault for `min` in this cell is refused however many pages are free. */
  ghost predicate Refusable(c: Cell, min: nat) {
    c.Nowhere? || !Includes(c.permissions, min) || Unmappable(c.permissions)
  }

  lemma FaultNeedsArea(c: Cell, v: nat, min: nat, r: VMResult)
    requires FaultOutcome(c, v, min, r)
    ensures r.Done? ==> !Refusable(c, min)
    ensures r.Failed? ==> Refusable(c, min) || OutOfPages(r.error)
  {
    hide Includes;
  }

  function ByteOrZero(b: Option<byte>): byte {
    if b.Some? then b.value else 0
  }

  /** What a user reads outside `[lo, hi)` has not changed, except that pages of zeros may have
      become readable. */
  ghost predicate ReadsKept(w: World, w': World, root: nat, lo: nat, hi: nat) {
    forall x: nat :: CheckUVa(x) && !(lo <= x < hi) ==>
      || UserByte(w', root, x) == UserByte(w, root, x)
      || (UserByte(w, root, x).None? && UserByte(w', root, x) == Some(0))
  }

  lemma ReadsSame(w: World, root: nat)
    ensures ReadsKept(w, w, root, 0, 0)
  {
    hide UserByte, Translate;
  }

  /** A fault, then an access at `va`. */
  lemma ReadsKeptStore(w0: World, w1: World, w2: World, root: nat, va: nat)
    requires ReadsKept(w0, w1, root, 0, 0) && CheckUVa(va)
    requires forall x: nat :: CheckUVa(x) && x != va ==> UserByte(w2, root, x) == UserByte(w1, root, x)
    ensures ReadsKept(w0, w2, root, va, va + 1)
    ensures UserByte(w1, root, va).Some? ==> UserByte(w1, root, va).value == ByteOrZero(UserByte(w0, root, va))
  {
    hide UserByte;
  }

  /** Reads across a fault at `v`: the page that it may have brought in holds zeros. */
  lemma FaultReads(w: World, s: Space, w': World, s': Space, v: nat)
    requires SpaceOk(w, s) && SpaceOk(w', s') && KeepsBytes(w, s, w', s') && s'.pgt.root == s.pgt.root
    requires forall u: nat :: u != v ==> CellAt(s'.areas, u) == CellAt(s.areas, u)
    requires CellAt(s'.areas, v) == CellAt(s.areas, v)
             || FilledWithZeros(CellAt(s.areas, v), CellAt(s'.areas, v), w'.frames)
    ensures ReadsKept(w, w', s.pgt.root, 0, 0)
    ensures forall u: nat :: u < LOWER_END && (u != v || CellAt(s'.areas, v) == CellAt(s.areas, v)) ==>
              Translate(w'.tables, s.pgt.root, u) == Translate(w.tables, s.pgt.root, u)
    ensures AllUser(s.areas) ==> AllUser(s'.areas)
  {
    hide SpaceOk, Translate, CellAt, HasR, HasX, UserByte, KeepsBytes;
    forall u: nat | u < LOWER_END && (u != v || CellAt(s'.areas, v) == CellAt(s.areas, v))
      ensures Translate(w'.tables, s.pgt.root, u) == Translate(w.tables, s.pgt.root, u)
    {
      TranslationIsAreas(w, s, u);
      TranslationIsAreas(w', s', u);
    }
    forall x: nat | CheckUVa(x)
      ensures UserByte(w', s.pgt.root, x) == UserByte(w, s.pgt.root, x)
              || (UserByte(w, s.pgt.root, x).None? && UserByte(w', s.pgt.root, x) == Some(0))
    {
      FaultRead(w, s, w', s', v, x);
    }
  }

  lemma FaultRead(w: World, s: Space, w': World, s': Space, v: nat, x: nat)
    requires SpaceOk(w, s) && SpaceOk(w', s') && KeepsBytes(w, s, w', s') && s'.pgt.root == s.pgt.root && CheckUVa(x)
    requires forall u: nat :: u != v ==> CellAt(s'.areas, u) == CellAt(s.areas, u)
    requires CellAt(s'.areas, v) == CellAt(s.areas, v)
             || FilledWithZeros(CellAt(s.areas, v), CellAt(s'.areas, v), w'.frames)
    ensures UserByte(w', s.pgt.root, x) == UserByte(w, s.pgt.root, x)
            || (UserByte(w, s.pgt.root, x).None? && UserByte(w', s.pgt.root, x) == Some(0))
  {
    hide SpaceOk, Translate, CellAt, HasR, HasX;
    var u := x / PAGE_SIZE;
    TranslationIsAreas(w, s, u);
    TranslationIsAreas(w', s', u);
    if Translate(w.tables, s.pgt.root, u).Hit? {
      HitPage(w, s, u);
      HitPage(w', s', u);
    }
  }

  /** Removing a range changes no byte that a user reads outside it. */
  lemma UnmapReads(w: World, s: Space, w': World, s': Space, lo: nat, hi: nat)
    requires SpaceOk(w, s) && SpaceOk(w', s') && KeepsBytes(w, s, w', s') && s'.pgt.root == s.pgt.root
    requires forall v: nat :: CellAt(s'.areas, v) == if lo <= v < hi then Nowhere else CellAt(s.areas, v)
    ensures forall x: nat :: CheckUVa(x) && !(lo <= VpnFromVa(x) < hi) ==>
              UserByte(w', s.pgt.root, x) == UserByte(w, s.pgt.root, x)
  {
    hide SpaceOk, Translate, CellAt, HasR, HasX;
    forall x: nat | CheckUVa(x) && !(lo <= VpnFromVa(x) < hi)
      ensures UserByte(w', s.pgt.root, x) == UserByte(w, s.pgt.root, x)
    {
      var u := x / PAGE_SIZE;
      TranslationIsAreas(w, s, u);
      TranslationIsAreas(w', s', u);
      if Translate(w.tables, s.pgt.root, u).Hit? {
        HitPage(w, s, u);
        HitPage(w', s', u);
      }
    }
  }

  /** A kernel without tasks: all live pages are tables of the kernel. */
  lemma FirstSystem(w0: World, w: World, k: Pgt)
    requires PgtOk(w, k) && KernelOnly(w.tables, k) && w0.live == {} && Grew(w0, w, k)
    ensures SystemOk(w, k, [])
  {
    hide Tree;
  }

  /** A granted access reaches a data page of the space, the one that backs its page number. */
  lemma HitPage(w: World, s: Space, v: nat)
    requires SpaceOk(w, s) && v < LOWER_END && Translate(w.tables, s.pgt.root, v).Hit?
    ensures var p := Translate(w.tables, s.pgt.root, v).ppn;
            p in s.data && s.data[p] == v && IsRam(p) && p in w.frames && |w.frames[p]| == PAGE_SIZE
  {
    TranslationIsAreas(w, s, v);
    hide Translate, Tree, AreasOk, CellAt;
  }

  lemma ByteAt(w: World, root: nat, va: nat)
    requires Translate(w.tables, root, va / PAGE_SIZE).Hit?
    requires var p := Translate(w.tables, root, va / PAGE_SIZE).ppn; p in w.frames && |w.frames[p]| == PAGE_SIZE
    ensures UserByte(w, root, va) == Some(w.frames[Translate(w.tables, root, va / PAGE_SIZE).ppn][va % PAGE_SIZE])
  {
    hide Translate;
  }

  /** A store changes the byte at `va` and no other byte of user memory: no page is mapped twice. */
  lemma StoreIsLocal(w: World, s: Space, va: nat, b: byte, w': World)
    requires SpaceOk(w, s) && CheckUVa(va) && Translate(w.tables, s.pgt.root, va / PAGE_SIZE).Hit?
    requires var p := Translate(w.tables, s.pgt.root, va / PAGE_SIZE).ppn;
             p in w.frames && |w.frames[p]| == PAGE_SIZE
                 && w'.frames == w.frames[p := SetByte(w.frames[p], va % PAGE_SIZE, b)]
    requires forall v: nat :: Translate(w'.tables, s.pgt.root, v) == Translate(w.tables, s.pgt.root, v)
    ensures UserByte(w', s.pgt.root, va) == Some(b)
    ensures forall x: nat :: CheckUVa(x) && x != va ==> UserByte(w', s.pgt.root, x) == UserByte(w, s.pgt.root, x)
  {
    hide Translate, SpaceOk;
    HitPage(w, s, va / PAGE_SIZE);
    forall x: nat | CheckUVa(x) && x != va ensures UserByte(w', s.pgt.root, x) == UserByte(w, s.pgt.root, x) {
      if Translate(w.tables, s.pgt.root, x / PAGE_SIZE).Hit? {
        HitPage(w, s, x / PAGE_SIZE);
      }
    }
  }

  lemma AllUserMore(areas: seq<VMArea>, areas': seq<VMArea>, permissions: nat)
    requires AllUser(areas) && HasU(permissions)
    requires forall v: nat :: CellAt(areas', v).InArea? ==>
               CellAt(areas', v).permissions == permissions || CellAt(areas', v) == CellAt(areas, v)
    ensures AllUser(areas')
  {
    hide CellAt, HasU;
  }

  lemma AllUserLess(areas: seq<VMArea>, areas': seq<VMArea>)
    requires AllUser(areas) && forall v: nat :: CellAt(areas', v) == Nowhere || CellAt(areas', v) == CellAt(areas, v)
    ensures AllUser(areas')
  {
    hide CellAt, HasU;
  }

  lemma SameRoot(w: World, s: Space, w': World, s': Space)
    requires Others(w, s, w', s')
    ensures s'.pgt.root == s.pgt.root
  {
  }

  lemma NothingTouched(w: World)
    ensures forall s :: Untouched(w, w, s)
  {
    hide Lookup, Translate;
  }

  lemma LinearStays(t: Tables, t': Tables, root: nat, image: Image)
    requires ImageOk(image) && LinearMap(t, root, image)
    requires forall v: nat :: Translate(t', root, v) == Translate(t, root, v)
    ensures LinearMap(t', root, image)
  {
    hide Translate, Expected, Regions, ImageOk;
  }

  /** The kernel's table maps its regions, and every page that can be allocated, linearly. */
  ghost predicate LinearMap(t: Tables, root: nat, image: Image)
    requires ImageOk(image)
  {
    forall v :: IsVpn(v) ==> Translate(t, root, v) == Expected(Regions(image), 12, v)
  }
}
