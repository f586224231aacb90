/**
  `VMSpace` (os/src/mm/vm.rs): a user address space.
 */
module VMSpace {
  import opened Layout
  import opened Pte
  import opened Memory
  import opened Walk
  import opened PageAlloc
  import opened PgtSpec
  import opened Sweep
  import opened Areas
  import opened SpaceSpec
  import opened LoadSpec
  import opened RootPgt

  datatype VMError =
    | CreateRootPgtFailed
    | PgtError(vpn: nat, error: PgtResult)
    | NoAreaContainVpn(vpn: nat)
    | InvalidPermissions(permissions: nat)
    | PermissionDenied(vpn: nat, permissions: nat)
    | AlignDataFailed(align: nat)
    | AcquirePageFailed
    | AreaOverlapping(start: nat, end: nat)
    | EmptyArea(start: nat, end: nat)

  datatype VMResult = Done | Failed(error: VMError)

  datatype NewResult = Created(space: VMSpace) | NotCreated(error: VMError)

  /** The allocator could not give a page, for data or for a table. */
  predicate OutOfPages(e: VMError) {
    e == VMError.AcquirePageFailed || (e.PgtError? && e.error.AcquirePageFailed?)
  }

  /** How a fault at `v` that asks for `min` ends, by what the areas say about `v`. */
  ghost predicate FaultOutcome(c: Cell, v: nat, min: nat, r: VMResult) {
    match c
    case Nowhere => r == Failed(NoAreaContainVpn(v))
    case InArea(_, permissions, _) =>
      if !Includes(permissions, min) then r == Failed(PermissionDenied(v, min))
      else
        && (r.Done? ==> !Unmappable(permissions))
        && (r.Failed? && !OutOfPages(r.error) ==>
            Unmappable(permissions) && r.error == PgtError(v, InvalidPteFlags(permissions + FLAG_V)))
  }

  /** In bits: which error is reported if no area contains the page, and if its area lacks one of the
      permissions R, W, X and U that are asked for. */
  lemma FaultErrors(areas: seq<VMArea>, v: nat, min: nat, r: VMResult)
    requires AreasOk(areas) && FaultOutcome(CellAt(areas, v), v, min, r) && min < 32 && min % 2 == 0
    ensures r == Failed(NoAreaContainVpn(v)) <==>
            forall a :: 0 <= a < |areas| ==> !(areas[a].start <= v < areas[a].end)
    ensures r == Failed(PermissionDenied(v, min)) <==>
            exists a :: 0 <= a < |areas| && areas[a].start <= v < areas[a].end
                     && (|| (min / 2 % 2 == 1 && areas[a].permissions / 2 % 2 == 0)
                         || (min / 4 % 2 == 1 && areas[a].permissions / 4 % 2 == 0)
                         || (min / 8 % 2 == 1 && areas[a].permissions / 8 % 2 == 0)
                         || (min / 16 % 2 == 1 && areas[a].permissions / 16 % 2 == 0))
  {
    hide CellAt;
    if a :| 0 <= a < |areas| && areas[a].start <= v < areas[a].end {
      CellOf(areas, a, v);
      forall b | 0 <= b < |areas| && areas[b].start <= v < areas[b].end ensures b == a {
        assert areas[a].Contains(v) && areas[b].Contains(v);
      }
    } else {
      CellNowhere(areas, v);
    }
  }

  /** The cell has got a page of zeros and is otherwise as it was. */
  ghost predicate FilledWithZeros(c: Cell, c': Cell, frames: map<nat, Frame>) {
    && c.InArea? && c.page.None?
    && c'.InArea? && c'.mapType == c.mapType && c'.permissions == c.permissions
    && c'.page.Some? && c'.page.value in frames && frames[c'.page.value] == ZeroFrame()
  }

  /** `alloc_zeroed_page` seen from a space. */
  method TakeZeroedPage(alloc: PageAllocator, mem: PhysMem) returns (r: Option<nat>)
    requires alloc.Valid() && mem.Valid()
    modifies alloc, mem
    ensures alloc.Valid() && mem.Valid()
    ensures r.None? <==> old(alloc.Exhausted())
    ensures r.None? ==> WorldOf(mem, alloc) == old(WorldOf(mem, alloc))
    ensures r.Some? ==> Takes(old(WorldOf(mem, alloc)), r.value, WorldOf(mem, alloc))
    ensures r.Some? ==> r.value in mem.frames && mem.frames[r.value] == ZeroFrame()
    ensures alloc.Free() == old(alloc.Free()) - (if r.Some? then 1 else 0) && (r.None? ==> alloc.Free() == 0)
  {
    hide Views, PageAllocator.Valid, PageAllocator.Live, WorldOk;
    r := AllocZeroedPage(alloc, mem);
    WorldIsOk(mem, alloc);
  }

  class VMSpace {
    const rootPgt: RootPgt
    var areas: seq<VMArea>
    var entryAddr: nat
    var uStackEnd: nat
    var kStackEnd: nat
    /** For every data page the page number that it backs. */
    ghost var data: map<nat, nat>

    ghost function Snap(): Space
      reads this, rootPgt
    {
      Space(rootPgt.Snap(), areas, data)
    }

    ghost predicate Holds(mem: PhysMem, alloc: PageAllocator)
      reads this, rootPgt, mem, alloc
    {
      mem.Valid() && alloc.Valid() && Lists(rootPgt.pages, rootPgt.own) && OwnOk(WorldOf(mem, alloc), Snap())
    }

    ghost predicate Valid(mem: PhysMem, alloc: PageAllocator)
      reads this, rootPgt, mem, alloc
    {
      mem.Valid() && alloc.Valid() && Lists(rootPgt.pages, rootPgt.own) && SpaceOk(WorldOf(mem, alloc), Snap())
    }

    /** The kernel stack ends where one of the space's own pages ends in the linear map. */
    ghost predicate HasKernelStack()
      reads this
    {
      exists p :: p in data && data[p] == LinearVpn(p) && kStackEnd == (LinearVpn(p) + 1) * PAGE_SIZE
    }

    constructor Over(root: RootPgt)
      ensures rootPgt == root && areas == [] && data == map[]
    {
      rootPgt := root;
      areas := [];
      entryAddr, uStackEnd, kStackEnd := 0, 0, 0;
      data := map[];
    }

    /** The second half of `map`: enters the fresh page into the area, maps it, and takes it
        out again and gives it back if the mapping failed. */
    method Enter(mem: PhysMem, alloc: PageAllocator, i: nat, vpn: nat, page: nat, ghost w: World) returns (r: PgtResult)
      requires mem.Valid() && alloc.Valid() && Lists(rootPgt.pages, rootPgt.own)
      requires SpaceOk(w, Snap()) && Takes(w, page, WorldOf(mem, alloc))
      requires i < |areas| && areas[i].Contains(vpn) && vpn !in areas[i].pages && vpn < LOWER_END
      requires KnownPermissions(areas[i].permissions) && Lookup(w.tables, rootPgt.ppn, vpn) == Absent
      requires page in mem.frames
      modifies this, rootPgt, mem, alloc
      ensures Valid(mem, alloc) && Step(w, old(Snap()), WorldOf(mem, alloc), Snap())
      ensures r.Ok? || r.AcquirePageFailed? || r == InvalidPteFlags(old(areas)[i].permissions + FLAG_V)
      ensures r.InvalidPteFlags? <==> Unmappable(old(areas)[i].permissions)
      ensures r.AcquirePageFailed? ==> old(alloc.Free()) < 2
      ensures old(alloc.Free()) - 2 <= alloc.Free() <= old(alloc.Free()) + 1
      ensures !r.Ok? ==> areas == old(areas) && data == old(data)
      ensures NoneEmpty(old(areas)) ==> NoneEmpty(areas)
      ensures r.Ok? ==> page in mem.frames && mem.frames[page] == old(mem.frames)[page]
      ensures r.Ok? ==> CellAt(areas, vpn) == InArea(old(areas)[i].mapType, old(areas)[i].permissions, Some(page))
      ensures forall u: nat :: u != vpn ==> CellAt(areas, u) == CellAt(old(areas), u)
    {
      hide PageAllocator.Valid, PageAllocator.Live, Views, Lists, Lookup, OwnOk, Agrees, AreasOk, DataOk, CellAt,
        Step, LeafTablesGrow, PgtOk, WorldOk, Extends, PageAllocator.Free, Unmappable, IsValidFlags, KnownPermissions,
        NewTablesOn, Takes, HasLeafTable;
      ghost var s, w1 := Snap(), WorldOf(mem, alloc);
      TakePage(w, s, page, w1);
      OwnParts(w1, s);
      var area := areas[i];
      areas := areas[i := area.(pages := area.pages[vpn := page])];
      data := data[page := vpn];
      r := rootPgt.MapCreate(mem, alloc, vpn, page, PteFlags(area.permissions));
      WorldIsOk(mem, alloc);
      ghost var w2 := WorldOf(mem, alloc);
      UnmappableFlags(area.permissions);
      if r.Ok? {
        FaultMapped(w, s, i, vpn, page, w1, w2, rootPgt.Snap(), Snap());
        PageKept(w, s.pgt, s, page, w1, w2, rootPgt.Snap());
      } else {
        TakenStays(w, page, w1, s.pgt, w2, rootPgt.Snap());
        UndoInsert(s.areas, i, vpn, page, areas);
        areas := areas[i := areas[i].(pages := areas[i].pages - {vpn})];
        data := s.data;
        alloc.Dealloc(page);
        WorldIsOk(mem, alloc);
        FaultFailed(w, s, vpn, page, w1, w2, rootPgt.Snap(), WorldOf(mem, alloc));
      }
    }

    /** `map`, reached through `map_fault_page`: handles a fault at `vpn`, that is, an access
        that the current translation does not grant. */
    method Map(mem: PhysMem, alloc: PageAllocator, vpn: nat, min: nat) returns (r: VMResult)
      requires Valid(mem, alloc) && vpn < LOWER_END && (HasR(min) || HasW(min))
      requires !Grants(Translate(mem.tables, rootPgt.ppn, vpn), min)
      modifies this, rootPgt, mem, alloc
      ensures Valid(mem, alloc)
      ensures Step(old(WorldOf(mem, alloc)), old(Snap()), WorldOf(mem, alloc), Snap())
      ensures FaultOutcome(CellAt(old(areas), vpn), vpn, min, r)
      ensures r.Failed? ==> areas == old(areas) && data == old(data)
      ensures NoneEmpty(old(areas)) ==> NoneEmpty(areas)
      ensures r.Failed? && OutOfPages(r.error) ==> old(alloc.Free()) < 3
      ensures old(alloc.Free()) - 3 <= alloc.Free() <= old(alloc.Free())
      ensures r.Done? ==> Grants(Translate(mem.tables, rootPgt.ppn, vpn), min)
      ensures r.Done? ==> FilledWithZeros(CellAt(old(areas), vpn), CellAt(areas, vpn), mem.frames)
      ensures forall u: nat :: u != vpn ==> CellAt(areas, u) == CellAt(old(areas), u)
    {
      hide PageAllocator.Valid, PageAllocator.Live, Views, Lists, Lookup, Translate, OwnOk, Agrees, AreasOk, DataOk,
        CellAt, Step, LeafTablesGrow, PgtOk, WorldOk, Includes, Grants, HasR, HasW, NoneEmpty;
      ghost var w, s := WorldOf(mem, alloc), Snap();
      NoStep(w, s);
      OwnParts(w, s);
      var found := FindArea(areas, vpn, 0);
      if found.None? {
        CellNowhere(areas, vpn);
        return Failed(NoAreaContainVpn(vpn));
      }
      var i := found.value;
      CellOf(areas, i, vpn);
      var area := areas[i];
      if !Includes(area.permissions, min) {
        return Failed(PermissionDenied(vpn, min));
      }
      CellPermissions(areas, vpn);
      GenuineFault(w, s, vpn, min);
      assert area.mapType.Anonymous?;  // otherwise the source panics
      var page := TakeZeroedPage(alloc, mem);
      if page.None? {
        return Failed(VMError.AcquirePageFailed);
      }
      var result := Enter(mem, alloc, i, vpn, page.value, w);
      if !result.Ok? {
        return Failed(PgtError(vpn, result));
      }
      MappedIsGranted(WorldOf(mem, alloc), Snap(), vpn, min);
      return Done;
    }

    /** `map_fault_page`. */
    method MapFaultPage(mem: PhysMem, alloc: PageAllocator, va: nat, min: nat) returns (r: VMResult)
      requires Valid(mem, alloc) && CheckUVa(va) && (HasR(min) || HasW(min))
      requires !Grants(Translate(mem.tables, rootPgt.ppn, VpnFromVa(va)), min)
      modifies this, rootPgt, mem, alloc
      ensures Valid(mem, alloc)
      ensures Step(old(WorldOf(mem, alloc)), old(Snap()), WorldOf(mem, alloc), Snap())
      ensures FaultOutcome(CellAt(old(areas), VpnFromVa(va)), VpnFromVa(va), min, r)
      ensures r.Failed? ==> areas == old(areas) && data == old(data)
      ensures NoneEmpty(old(areas)) ==> NoneEmpty(areas)
      ensures r.Failed? && OutOfPages(r.error) ==> old(alloc.Free()) < 3
      ensures old(alloc.Free()) - 3 <= alloc.Free() <= old(alloc.Free())
      ensures r.Done? ==> Grants(Translate(mem.tables, rootPgt.ppn, VpnFromVa(va)), min)
      ensures r.Done? ==> FilledWithZeros(CellAt(old(areas), VpnFromVa(va)), CellAt(areas, VpnFromVa(va)), mem.frames)
      ensures forall u: nat :: u != VpnFromVa(va) ==> CellAt(areas, u) == CellAt(old(areas), u)
    {
      hide Lookup, Translate, SpaceOk, Lists, PageAllocator.Valid, Views, Step, CellAt, NoneEmpty;
      r := Map(mem, alloc, VpnFromVa(va), min);
    }

    /** `add_new_area`.  It checks neither the kind of the area nor where it lies; an area that
        is in order, as `mmap` asks for, keeps the space so. */
    method AddNewArea(mem: PhysMem, alloc: PageAllocator, start: nat, end: nat, mapType: MapType, permissions: nat)
      returns (r: VMResult)
      requires Valid(mem, alloc)
      modifies this
      ensures r.Failed? || VMArea(start, end, mapType, permissions, map[]).Ok() ==>
                Valid(mem, alloc) && Step(WorldOf(mem, alloc), old(Snap()), WorldOf(mem, alloc), Snap())
      ensures areas == if r.Done? then old(areas) + [VMArea(start, end, mapType, permissions, map[])] else old(areas)
      ensures Disjoint(areas)
      ensures r.Done? <==>
                start < end && KnownPermissions(permissions)
                    && forall j :: 0 <= j < |old(areas)| ==> old(areas)[j].Apart(start, end)
      ensures forall v: nat ::
                CellAt(areas, v) ==
                  if r.Done? && start <= v < end then InArea(mapType, permissions, None) else CellAt(old(areas), v)
      ensures r.Done? ==> forall v: nat :: start <= v < end ==> CellAt(old(areas), v) == Nowhere
      ensures end <= start ==> r == Failed(EmptyArea(start, end))
      ensures start < end && !KnownPermissions(permissions) ==> r == Failed(InvalidPermissions(permissions))
      ensures start < end && KnownPermissions(permissions) && r.Failed? ==> r == Failed(AreaOverlapping(start, end))
      ensures data == old(data)
    {
      hide CellAt, PageAllocator.Valid, PageAllocator.Live, Views, Lists, OwnOk, Agrees, Step, Disjoint;
      NoStep(WorldOf(mem, alloc), Snap());
      AreasApart(WorldOf(mem, alloc), Snap());
      if end <= start {
        return Failed(EmptyArea(start, end));
      }
      if !KnownPermissions(permissions) {
        return Failed(InvalidPermissions(permissions));
      }
      if forall j | 0 <= j < |areas| :: areas[j].Apart(start, end) {
        var area := VMArea(start, end, mapType, permissions, map[]);
        forall v: nat | area.Contains(v) ensures CellAt(areas, v) == Nowhere {
          CellNowhere(areas, v);
        }
        ghost var s := Snap();
        areas := areas + [area];
        PushDisjoint(s.areas, area);
        if area.Ok() {
          AreaAdded(WorldOf(mem, alloc), s, area, Snap());
        }
        return Done;
      }
      return Failed(AreaOverlapping(start, end));
    }

    /** The body of the loop of `unmap` for an area that overlaps the range: unmaps the
        overlap, trims the area and drops the pages, in the four cases of the source. */
    method UnmapArea(mem: PhysMem, alloc: PageAllocator, i: nat, start: nat, end: nat)
      requires Valid(mem, alloc) && HasStop(WorldOf(mem, alloc), Snap()) && start < end <= USER_END_VPN
      requires i < |areas| && !areas[i].Apart(start, end)
      modifies this, mem, alloc
      ensures Valid(mem, alloc) && HasStop(WorldOf(mem, alloc), Snap())
      ensures Step(old(WorldOf(mem, alloc)), old(Snap()), WorldOf(mem, alloc), Snap())
      ensures areas == Trim(old(areas), i, start, end) && data.Keys <= old(data).Keys
      ensures forall v: nat ::
                CellAt(areas, v) ==
                  if old(areas)[i].Contains(v) && start <= v < end then Nowhere else CellAt(old(areas), v)
    {
      hide CellAt, PageAllocator.Valid, PageAllocator.Live, Views, Lists, OwnOk, Agrees, Step, HasStop, HasLeafTable,
        PgtOk, AreasOk, RangeRemoved, SmallOnly, Extends, SameLeafTables, WorldOk, From, Below, Between, SwapRemove;
      ghost var w, s := WorldOf(mem, alloc), Snap();
      OwnParts(w, s);
      RoundReady(w, s, i, start, end);
      AreaIsOk(s, i);
      var area := areas[i];
      SplitPages(area, start, end);
      var gone := area.pages;
      if start <= area.start && area.end <= end {
        var pgt := rootPgt.Unmap(mem, alloc, area.start, area.end, 255, 511);
        areas := SwapRemove(areas, i);
      } else if start <= area.start {
        var pgt := rootPgt.Unmap(mem, alloc, area.start, end, 255, 511);
        gone := Below(area.pages, end);
        areas := areas[i := area.(start := end, pages := From(area.pages, end))];
      } else if area.end <= end {
        var pgt := rootPgt.Unmap(mem, alloc, start, area.end, 255, 511);
        gone := From(area.pages, start);
        areas := areas[i := area.(end := start, pages := Below(area.pages, start))];
      } else {
        var pgt := rootPgt.Unmap(mem, alloc, start, end, 255, 511);
        var tail := From(area.pages, start);
        gone := Below(tail, end);
        areas := areas[i := area.(end := start, pages := Below(area.pages, start))] +
                 [VMArea(end, area.end, area.mapType, area.permissions, From(tail, end))];
      }
      ghost var w1 := WorldOf(mem, alloc);
      assert gone == Between(area.pages, start, end) && areas == Trim(s.areas, i, start, end);
      alloc.DeallocMap(gone);
      data := data - gone.Values;
      WorldIsOk(mem, alloc);
      UnmapRound(w, s, i, start, end, w1, WorldOf(mem, alloc), Snap());
    }

    /** `unmap`: removes `[start, end)` from the areas, the resident pages and the table. */
    method Unmap(mem: PhysMem, alloc: PageAllocator, start: nat, end: nat) returns (r: VMResult)
      requires Valid(mem, alloc) && HasStop(WorldOf(mem, alloc), Snap()) && start < end <= USER_END_VPN
      modifies this, mem, alloc
      ensures Valid(mem, alloc) && r.Done?
      ensures Step(old(WorldOf(mem, alloc)), old(Snap()), WorldOf(mem, alloc), Snap())
      ensures forall v: nat :: CellAt(areas, v) == if start <= v < end then Nowhere else CellAt(old(areas), v)
      ensures |areas| > |old(areas)| ==> IsHole(old(areas), start, end)
      ensures NoneEmpty(old(areas)) ==> NoneEmpty(areas)
    {
      hide CellAt, PageAllocator.Valid, PageAllocator.Live, Views, Lists, OwnOk, Agrees, Step, HasStop, AreasOk, Trim,
        NoneEmpty, IsHole;
      ghost var w0, s0 := WorldOf(mem, alloc), Snap();
      NoStep(w0, s0);
      var i: nat := |areas|;
      while i > 0
        invariant i <= |areas| && Valid(mem, alloc) && HasStop(WorldOf(mem, alloc), Snap())
        invariant Step(w0, s0, WorldOf(mem, alloc), Snap()) && data.Keys <= s0.data.Keys
        invariant forall j :: i <= j < |areas| ==> areas[j].Apart(start, end)
        invariant i <= |s0.areas| && areas[..i] == s0.areas[..i]
        invariant |areas| > |s0.areas| ==> IsHole(s0.areas, start, end)
        invariant NoneEmpty(s0.areas) ==> NoneEmpty(areas)
        invariant forall v: nat :: !(start <= v < end) ==> CellAt(areas, v) == CellAt(s0.areas, v)
      {
        i := i - 1;
        if areas[i].Apart(start, end) {
          continue;
        }
        ghost var w, s := WorldOf(mem, alloc), Snap();
        OwnParts(w, s);
        UnmapArea(mem, alloc, i, start, end);
        StepTrans(w0, s0, w, s, WorldOf(mem, alloc), Snap());
        TrimProgress(s.areas, i, start, end);
        TrimGrows(s.areas, i, start, end);
        if NoneEmpty(s.areas) { TrimNoneEmpty(s.areas, i, start, end); }
        HoleFromStart(s.areas, s0.areas, i, start, end);
      }
      forall v: nat | start <= v < end ensures CellAt(areas, v) == Nowhere {
        CellNowhere(areas, v);
      }
      r := Done;
    }

    /** Dropping the space: its tables and data pages go back, and nothing else. */
    method Drop(mem: PhysMem, alloc: PageAllocator)
      requires Holds(mem, alloc)
      modifies alloc
      ensures alloc.Valid() && alloc.Live() == old(alloc.Live()) - Owned(Snap())
    {
      hide CellAt, PageAllocator.Live, Tree, AreasOk, DataOk;
      ghost var live := alloc.Live();
      OwnParts(WorldOf(mem, alloc), Snap());
      alloc.DeallocAll(rootPgt.pages);
      assert (set p | p in rootPgt.pages) == rootPgt.own;
      AllPages(Snap());
      var k := 0;
      while k < |areas|
        invariant k <= |areas| && alloc.Valid()
        invariant alloc.Live() == live - rootPgt.own - PagesOf(Snap(), k)
      {
        NextPages(Snap(), k);
        alloc.DeallocMap(areas[k].pages);
        k := k + 1;
      }
    }

    // Creating a space.

    /** `copy_data`: copies at most one page of `bytes` to the start of page `p`. */
    static method CopyData(mem: PhysMem, p: nat, bytes: seq<byte>)
      requires mem.Valid() && IsRam(p)
      modifies mem
      ensures mem.Valid() && p in old(mem.frames)
              && mem.frames == old(mem.frames)[p := Overlay(old(mem.frames)[p], bytes, PAGE_SIZE)]
      ensures p in mem.tables && mem.tables == old(mem.tables)[p := mem.tables[p]]
    {
      MemoryDomain(mem);
      hide Views, Overlay, SetByte;
      ghost var f := mem.frames[p];
      OverlayEnds(f, bytes);
      var offset := 0;
      while offset < |bytes| && offset < PAGE_SIZE
        invariant 0 <= offset <= |bytes| && offset <= PAGE_SIZE && mem.Valid()
        invariant mem.frames == old(mem.frames)[p := Overlay(f, bytes, offset)]
        invariant p in mem.tables && mem.tables == old(mem.tables)[p := mem.tables[p]]
      {
        OverlayNext(f, bytes, offset);
        mem.WriteByte(p, offset, bytes[offset]);
        offset := offset + 1;
      }
    }

    /** One page of a segment: a zeroed page with the file bytes from `dataStart` on. */
    static method LoadPage(mem: PhysMem, alloc: PageAllocator, elf: seq<byte>, offset: nat, fileSize: nat,
                           dataStart: nat, ghost k: nat)
      returns (r: Option<nat>)
      requires mem.Valid() && alloc.Valid() && offset + fileSize <= |elf|
      requires dataStart < offset + fileSize ==> dataStart == offset + k * PAGE_SIZE
      requires dataStart >= offset + fileSize ==> offset + k * PAGE_SIZE >= offset + fileSize
      modifies mem, alloc
      ensures mem.Valid() && alloc.Valid()
      ensures r.None? <==> old(alloc.Exhausted())
      ensures r.None? ==> WorldOf(mem, alloc) == old(WorldOf(mem, alloc))
      ensures r.Some? ==> Takes(old(WorldOf(mem, alloc)), r.value, WorldOf(mem, alloc))
      ensures r.Some? ==> r.value in mem.frames && mem.frames[r.value] == SegmentFrame(elf, offset, fileSize, k)
      ensures alloc.Free() == old(alloc.Free()) - (if r.Some? then 1 else 0) && (r.None? ==> alloc.Free() == 0)
    {
      hide Views, PageAllocator.Valid, PageAllocator.Live, WorldOk;
      r := AllocZeroedPage(alloc, mem);
      if r.None? {
        return;
      }
      var dataEnd := offset + fileSize;
      if dataStart < dataEnd {
        CopyData(mem, r.value,
                 elf[dataStart..if dataStart + PAGE_SIZE < dataEnd then dataStart + PAGE_SIZE else dataEnd]);
      }
      WorldIsOk(mem, alloc);
      assert mem.frames[r.value] == SegmentFrame(elf, offset, fileSize, k);
    }

    /** One round of the loop of `map_user_elf_segment`: takes, fills and maps the page at the
        part's end; if the mapping fails the page is dropped. */
    method MapNext(mem: PhysMem, alloc: PageAllocator, elf: seq<byte>, seg: Segment, part: VMArea, dataStart: nat)
      returns (r: VMResult, page: nat)
      requires Lists(rootPgt.pages, rootPgt.own) && mem.Valid() && alloc.Valid() && seg.Loadable(elf)
      requires Loading(WorldOf(mem, alloc), Snap(), part, elf, seg) && part.start <= part.end < seg.End()
      requires dataStart < seg.offset + seg.fileSize ==> dataStart == seg.offset + (part.end - part.start) * PAGE_SIZE
      requires dataStart >= seg.offset + seg.fileSize ==> (part.end - part.start) * PAGE_SIZE >= seg.fileSize
      modifies rootPgt, mem, alloc, this`data
      ensures mem.Valid() && alloc.Valid() && Lists(rootPgt.pages, rootPgt.own) && old(data).Keys <= data.Keys
      ensures r.Done? ==> !Unmappable(seg.Permissions()) && CellAt(With(old(Snap()), part).areas, part.end) == Nowhere
      ensures r.Done? ==> alloc.Free() >= old(alloc.Free()) - 3
      ensures r.Failed? ==>
                Unmappable(seg.Permissions()) || CellAt(With(old(Snap()), part).areas, part.end).InArea?
                    || old(alloc.Free()) < 3
      ensures r.Done? ==>
                var next := part.(end := part.end + 1, pages := part.pages[part.end := page]);
                && Loading(WorldOf(mem, alloc), Snap(), next, elf, seg)
                && Advanced(old(WorldOf(mem, alloc)), With(old(Snap()), part), WorldOf(mem, alloc),
                            With(Snap(), next), part.end, part.end + 1)
      ensures r.Failed? ==>
                && OwnOk(WorldOf(mem, alloc), With(Snap(), part))
                && Others(old(WorldOf(mem, alloc)), With(old(Snap()), part), WorldOf(mem, alloc), With(Snap(), part))
    {
      hide Views, PageAllocator.Valid, PageAllocator.Live, WorldOk, Lists, OwnOk, Agrees, AllResident, Filled, Step,
        Advanced, Lookup, LeafTablesGrow, PgtOk, CellAt, Others, SegmentFrame, Extends, NewTablesOn,
        PageAllocator.Free, KnownPermissions, Takes, Unmappable, IsValidFlags, NoneEmpty, HasLeafTable;
      ghost var w, s := WorldOf(mem, alloc), Snap();
      var v := part.end;
      page := 0;
      NoStep(w, With(s, part));
      var taken := LoadPage(mem, alloc, elf, seg.offset, seg.fileSize, dataStart, v - part.start);
      if taken.None? {
        OthersItself(w, With(s, part));
        return Failed(VMError.AcquirePageFailed), page;
      }
      page := taken.value;
      ghost var w1 := WorldOf(mem, alloc);
      TakePage(w, With(s, part), page, w1);
      OwnParts(w1, With(s, part));
      PartPermissions(s, part, seg);
      PartLookup(w, s, part, v);
      UnmappableFlags(part.permissions);
      var result := rootPgt.MapCreate(mem, alloc, v, page, PteFlags(part.permissions));
      WorldIsOk(mem, alloc);
      ghost var w2 := WorldOf(mem, alloc);
      if result.Ok? {
        data := data[page := v];
        LoadingNext(w, s, part, elf, seg, page, w1, w2, rootPgt.Snap());
        r := Done;
      } else {
        TakenStays(w, page, w1, s.pgt, w2, rootPgt.Snap());
        alloc.Dealloc(page);
        WorldIsOk(mem, alloc);
        FaultFailed(w, With(s, part), v, page, w1, w2, rootPgt.Snap(), WorldOf(mem, alloc));
        StepOthers(w, With(s, part), WorldOf(mem, alloc), With(Snap(), part));
        r := Failed(PgtError(v, result));
      }
    }

    /** `map_user_elf_segment`. */
    method MapUserElfSegment(mem: PhysMem, alloc: PageAllocator, elf: seq<byte>, seg: Segment) returns (r: VMResult)
      requires Valid(mem, alloc) && AllResident(areas) && seg.Loadable(elf)
      modifies this, rootPgt, mem, alloc
      ensures Holds(mem, alloc)
      ensures Others(old(WorldOf(mem, alloc)), old(Snap()), WorldOf(mem, alloc), Snap())
      ensures r.Done? ==>
                Valid(mem, alloc) && AllResident(areas)
                    && Step(old(WorldOf(mem, alloc)), old(Snap()), WorldOf(mem, alloc), Snap())
      ensures r.Done? ==> CellsKept(old(Snap()), Snap()) && CellsOutside(old(Snap()), Snap(), seg.Start(), seg.End())
      ensures r.Done? ==> Loaded(WorldOf(mem, alloc), Snap(), elf, seg)
      ensures r.Done? ==>
                |areas| == |old(areas)| + 1 && areas[..|old(areas)|] == old(areas)
                    && areas[|old(areas)|].start == seg.vaddr / 4096
                    && areas[|old(areas)|].end == (seg.vaddr + seg.memSize + 4095) / 4096
      ensures r.Done? ==> !SegmentRefused(old(areas), seg) && alloc.Free() >= old(alloc.Free()) - seg.PagesNeeded()
      ensures r.Failed? ==> SegmentRefused(old(areas), seg) || old(alloc.Free()) < seg.PagesNeeded()
      ensures PAGE_SIZE % seg.align != 0 ==> r == Failed(AlignDataFailed(seg.align))
    {
      hide Views, PageAllocator.Valid, PageAllocator.Live, WorldOk, Lists, OwnOk, Agrees, AllResident, Step,
        CellsKept, CellsOutside, Advanced, Others, SegmentFrame, Loading, Loaded, CellAt, PageAllocator.Free,
        Unmappable, DataOk, Segment.Permissions;
      ghost var w0, s0 := WorldOf(mem, alloc), Snap();
      OthersItself(w0, s0);
      if PAGE_SIZE % seg.align != 0 {
        return Failed(AlignDataFailed(seg.align));
      }
      var area := VMArea(seg.Start(), seg.End(), Anonymous, seg.Permissions(), map[]);
      var dataStart := seg.offset;
      var v: nat := area.start;
      LoadingStart(w0, s0, elf, seg);
      while v < area.end
        invariant seg.Start() <= v <= seg.End() && mem.Valid() && alloc.Valid() && Lists(rootPgt.pages, rootPgt.own)
        invariant area == VMArea(seg.Start(), seg.End(), Anonymous, seg.Permissions(), area.pages) && areas == s0.areas
        invariant dataStart < seg.offset + seg.fileSize ==> dataStart == seg.offset + (v - area.start) * PAGE_SIZE
        invariant dataStart >= seg.offset + seg.fileSize ==> (v - area.start) * PAGE_SIZE >= seg.fileSize
        invariant Loading(WorldOf(mem, alloc), Snap(), area.(end := v), elf, seg)
        invariant Advanced(w0, s0, WorldOf(mem, alloc), With(Snap(), area.(end := v)), seg.Start(), v)
        invariant alloc.Free() >= old(alloc.Free()) - 3 * (v - seg.Start())
        invariant (v > seg.Start() ==> !Unmappable(seg.Permissions()))
                  && forall u: nat :: seg.Start() <= u < v ==> CellAt(s0.areas, u) == Nowhere
      {
        ghost var w, s := WorldOf(mem, alloc), Snap();
        var part := area.(end := v);
        AdvancedAt(w0, s0, w, With(s, part), seg.Start(), v);
        var result, page := MapNext(mem, alloc, elf, seg, part, dataStart);
        if result.Failed? {
          ghost var w1, s1 := WorldOf(mem, alloc), Snap();
          PartPages(w1, s1, part);
          alloc.DeallocMap(area.pages);
          data := data - area.pages.Values;
          WorldIsOk(mem, alloc);
          PartDropped(w1, s1, part, WorldOf(mem, alloc), Snap());
          AdvancedMeans(w0, s0, w, With(s, part), seg.Start(), v);
          OthersTrans(w0, s0, w, With(s, part), w1, With(s1, part));
          OthersTrans(w0, s0, w1, With(s1, part), WorldOf(mem, alloc), Snap());
          return result;
        }
        if dataStart < seg.offset + seg.fileSize {
          dataStart := dataStart + PAGE_SIZE;
        }
        LoadingOwned(w, s, part, elf, seg);
        AdvancedMore(w0, s0, w, With(s, part), WorldOf(mem, alloc),
                     With(Snap(), area.(end := v + 1, pages := area.pages[v := page])), seg.Start(), v, v + 1);
        area := area.(pages := area.pages[v := page]);
        v := v + 1;
      }
      assert area.(end := v) == area;
      LoadingDone(WorldOf(mem, alloc), Snap(), area, elf, seg);
      AdvancedMeans(w0, s0, WorldOf(mem, alloc), With(Snap(), area), seg.Start(), seg.End());
      areas := areas + [area];
      return Done;
    }

    /** The first half of `add_user_stack_area`: takes a page for the top of the stack and maps it, or
        gives it back. */
    method MapStackPage(mem: PhysMem, alloc: PageAllocator) returns (r: VMResult, page: nat, ghost w1: World)
      requires Valid(mem, alloc) && FreeFrom(Snap(), STACK_START_VPN)
      modifies rootPgt, mem, alloc
      ensures r.Failed? ==>
                Holds(mem, alloc) && Others(old(WorldOf(mem, alloc)), old(Snap()), WorldOf(mem, alloc), Snap())
                    && old(alloc.Free()) < 3
      ensures r.Done? ==>
                && mem.Valid() && alloc.Valid() && Lists(rootPgt.pages, rootPgt.own)
                && Takes(old(WorldOf(mem, alloc)), page, w1) && page in w1.frames && w1.frames[page] == ZeroFrame()
                && Extends(w1, old(Snap()).pgt, WorldOf(mem, alloc), rootPgt.Snap())
                && PgtOk(WorldOf(mem, alloc), rootPgt.Snap()) && WorldOk(WorldOf(mem, alloc))
                && LeafTablesGrow(w1.tables, mem.tables, rootPgt.ppn, USER_END_VPN - 1)
                && (forall x :: IsVpn(x) ==>
                    Lookup(mem.tables, rootPgt.ppn, x) ==
                      if x == USER_END_VPN - 1 then Mapped(0, page, STACK_PERMISSIONS + FLAG_V)
                          else Lookup(w1.tables, rootPgt.ppn, x))
                && alloc.Free() >= old(alloc.Free()) - 3
    {
      hide Views, PageAllocator.Valid, PageAllocator.Live, Lists, OwnOk, Agrees, Step, Lookup, LeafTablesGrow, PgtOk,
        CellAt, Others, HasStop, Takes, Extends, FreeFrom, PageAllocator.Free, KnownPermissions, IsValidFlags,
        NewTablesOn, WorldOk, HasLeafTable;
      StackPages();
      hide VpnFromVa, IsValidVa;
      ghost var w, s := WorldOf(mem, alloc), Snap();
      OthersItself(w, s);
      w1 := w;
      page := 0;
      var taken := TakeZeroedPage(alloc, mem);
      if taken.None? {
        return Failed(VMError.AcquirePageFailed), page, w1;
      }
      page := taken.value;
      var vpn := VpnFromVa(USER_SPACE_END - PAGE_SIZE);
      w1 := WorldOf(mem, alloc);
      TakePage(w, s, page, w1);
      OwnParts(w1, s);
      FreeLookup(w, s, vpn);
      StackFlags();
      var result := rootPgt.MapCreate(mem, alloc, vpn, page, PteFlags(STACK_PERMISSIONS));
      WorldIsOk(mem, alloc);
      ghost var w2 := WorldOf(mem, alloc);
      if !result.Ok? {
        TakenStays(w, page, w1, s.pgt, w2, rootPgt.Snap());
        alloc.Dealloc(page);
        WorldIsOk(mem, alloc);
        FaultFailed(w, s, vpn, page, w1, w2, rootPgt.Snap(), WorldOf(mem, alloc));
        StepOthers(w, s, WorldOf(mem, alloc), Snap());
        return Failed(PgtError(vpn, result)), page, w1;
      }
      return Done, page, w1;
    }

    /** `add_user_stack_area`. */
    method AddUserStackArea(mem: PhysMem, alloc: PageAllocator) returns (r: VMResult)
      requires Valid(mem, alloc) && FreeFrom(Snap(), STACK_START_VPN)
      modifies this, rootPgt, mem, alloc
      ensures Holds(mem, alloc)
      ensures Others(old(WorldOf(mem, alloc)), old(Snap()), WorldOf(mem, alloc), Snap())
      ensures r.Done? ==> Valid(mem, alloc) && HasStop(WorldOf(mem, alloc), Snap())
      ensures r.Done? ==> Step(old(WorldOf(mem, alloc)), old(Snap()), WorldOf(mem, alloc), Snap())
      ensures r.Done? ==>
                CellsKept(old(Snap()), Snap()) && CellsOutside(old(Snap()), Snap(), STACK_START_VPN, USER_END_VPN)
      ensures r.Done? ==> StackReady(WorldOf(mem, alloc), Snap())
      ensures r.Done? && NoneEmpty(old(areas)) ==> NoneEmpty(areas)
      ensures entryAddr == old(entryAddr) && (r.Done? ==> uStackEnd == USER_SPACE_END)
      ensures if r.Done? then alloc.Free() >= old(alloc.Free()) - 3 else old(alloc.Free()) < 3
    {
      hide Views, PageAllocator.Valid, PageAllocator.Live, Lists, OwnOk, Agrees, Step, CellsKept, CellsOutside, Lookup,
        LeafTablesGrow, PgtOk, CellAt, Others, HasStop, Takes, Extends, FreeFrom, PageAllocator.Free, NoneEmpty,
        StackReady, WorldOk;
      FreeMeans(Snap());
      StackPages();
      hide VpnFromVa, IsValidVa;
      ghost var w, s := WorldOf(mem, alloc), Snap();
      ghost var w1;
      var page;
      r, page, w1 := MapStackPage(mem, alloc);
      if r.Failed? {
        return;
      }
      var vpn := VpnFromVa(USER_SPACE_END - PAGE_SIZE);
      var endVpn := VpnFromVa(USER_SPACE_END);
      var startVpn := VpnFromVa(USER_SPACE_END - USER_STACK_MAX_SIZE);
      var area := VMArea(startVpn, endVpn, Anonymous, STACK_PERMISSIONS, map[vpn := page]);
      if NoneEmpty(areas) { NoneEmptyMore(areas, area); }
      areas := areas + [area];
      data := data[page := vpn];
      uStackEnd := USER_SPACE_END;
      StackAdded(w, s, page, w1, WorldOf(mem, alloc), rootPgt.Snap(), area);
    }

    /** `add_kernel_stack_area`: the page is reached through the kernel's linear map. */
    method AddKernelStackArea(mem: PhysMem, alloc: PageAllocator) returns (r: VMResult)
      requires Valid(mem, alloc) && FreeFrom(Snap(), LOWER_END)
      modifies this, alloc
      ensures Holds(mem, alloc)
      ensures Others(old(WorldOf(mem, alloc)), old(Snap()), WorldOf(mem, alloc), Snap())
      ensures r.Done? ==> Valid(mem, alloc) && Step(old(WorldOf(mem, alloc)), old(Snap()), WorldOf(mem, alloc), Snap())
      ensures r.Done? ==> CellsKept(old(Snap()), Snap()) && CellsOutside(old(Snap()), Snap(), UPPER_START, UPPER_END)
      ensures r.Done? ==> HasKernelStack()
      ensures r.Done? && NoneEmpty(old(areas)) ==> NoneEmpty(areas)
      ensures entryAddr == old(entryAddr) && uStackEnd == old(uStackEnd)
      ensures if r.Done? then alloc.Free() >= old(alloc.Free()) - 1 else old(alloc.Free()) < 1
    {
      hide Views, PageAllocator.Valid, PageAllocator.Live, WorldOk, Lists, OwnOk, Agrees, Step, CellsKept,
        CellsOutside, CellAt, Others, HasStop, NoneEmpty;
      ghost var w, s := WorldOf(mem, alloc), Snap();
      OthersItself(w, s);
      var taken := alloc.Alloc();
      if taken.None? {
        return Failed(VMError.AcquirePageFailed);
      }
      WorldIsOk(mem, alloc);
      var page := taken.value;
      var startVpn := VpnFromVa(page * PAGE_SIZE + KERNEL_VA_OFFSET);
      var endVpn := VpnFromVa(page * PAGE_SIZE + KERNEL_VA_OFFSET + PAGE_SIZE);
      var area := VMArea(startVpn, endVpn, KernelVaOffset, PERMISSION_R + PERMISSION_W, map[startVpn := page]);
      if NoneEmpty(areas) { NoneEmptyMore(areas, area); }
      areas := areas + [area];
      data := data[page := startVpn];
      kStackEnd := endVpn * PAGE_SIZE;
      KernelStackAdded(w, s, page, WorldOf(mem, alloc), area);
      StepOthers(w, s, WorldOf(mem, alloc), Snap());
      OutsideUpper(s, Snap(), page);
      return Done;
    }

    /** `new_user`: a space that shares the kernel's tables and holds the program's segments,
        a user stack and a kernel stack; on an error everything is given back. */
    static method NewUser(mem: PhysMem, alloc: PageAllocator, kernelRoot: nat, ghost k: Pgt, elf: seq<byte>,
                          segments: seq<Segment>, entry: nat)
      returns (r: NewResult)
      requires mem.Valid() && alloc.Valid()
      requires PgtOk(WorldOf(mem, alloc), k) && KernelOnly(mem.tables, k) && k.root == kernelRoot
      requires forall i :: 0 <= i < |segments| && segments[i].load ==>
                segments[i].Loadable(elf) && segments[i].BelowStack()
      modifies mem, alloc
      ensures mem.Valid() && alloc.Valid()
      ensures SameOn(old(WorldOf(mem, alloc)), WorldOf(mem, alloc), old(alloc.Live()))
      ensures r.NotCreated? ==> alloc.Live() == old(alloc.Live())
      ensures r.NotCreated? ==> ProgramRefused(segments) || old(alloc.Free()) < ProgramPages(segments)
      ensures r.Created? ==> !ProgramRefused(segments) && alloc.Free() >= old(alloc.Free()) - ProgramPages(segments)
      ensures r.Created? ==> fresh(r.space) && fresh(r.space.rootPgt)
      ensures r.Created? ==> r.space.Valid(mem, alloc) && HasStop(WorldOf(mem, alloc), r.space.Snap())
      ensures r.Created? ==>
                Owned(r.space.Snap()) !! old(alloc.Live()) && alloc.Live() == old(alloc.Live()) + Owned(r.space.Snap())
      ensures r.Created? ==>
                forall v :: IsUpper(v) ==>
                    Lookup(mem.tables, r.space.rootPgt.ppn, v) == Lookup(old(mem.tables), kernelRoot, v)
      ensures r.Created? ==> Shared(r.space.Snap().pgt) <= k.own
      ensures r.Created? ==> ProgramIn(WorldOf(mem, alloc), r.space.Snap(), elf, segments)
      ensures r.Created? ==>
                r.space.entryAddr == entry && r.space.uStackEnd == 0x40_0000_0000 - 4096
                    && r.space.HasKernelStack()
      ensures r.Created? ==>
                exists p :: p in r.space.data && r.space.kStackEnd == (p + 1) * 4096 + 0xffff_ffc0_0000_0000
    {
      hide Views, PageAllocator.Valid, PageAllocator.Live, WorldOk, OwnOk, SpaceOk, HasStop, Lookup, PgtOk,
        KernelOnly, ProgramIn, Others, SameOutside, SameOn, SameUpper, Owned, Shared, ProgramRefused,
        PageAllocator.Free, PagesUpTo;
      ghost var w0 := WorldOf(mem, alloc);
      KernelLower(w0.tables, k);
      SameOnItself(w0, w0.live);
      var root := RootPgt.NewCopy(mem, alloc, kernelRoot, k);
      if root.None? {
        return NotCreated(CreateRootPgtFailed);
      }
      ghost var w1 := WorldOf(mem, alloc);
      var space := new VMSpace.Over(root.value);
      ghost var s1 := space.Snap();
      NewSpace(w1, s1.pgt);
      CopyShares(w0.tables, k, s1.pgt.root);
      var result := space.Build(mem, alloc, elf, segments, entry);
      BuiltFor(w0, s1.pgt.root, w1, s1, WorldOf(mem, alloc), space.Snap());
      if result.Failed? {
        ghost var w2 := WorldOf(mem, alloc);
        space.Drop(mem, alloc);
        SameOnLive(w0, w2, WorldOf(mem, alloc), w0.live);
        return NotCreated(result.error);
      }
      UpperMeans(w1.tables, mem.tables, s1.pgt.root);
      return Created(space);
    }

    /** The part of `new_user` after the root table: `map_user_elf` and the two stacks. */
    method Build(mem: PhysMem, alloc: PageAllocator, elf: seq<byte>, segments: seq<Segment>, entry: nat)
      returns (r: VMResult)
      requires Valid(mem, alloc) && areas == []
      requires forall i :: 0 <= i < |segments| && segments[i].load ==>
                segments[i].Loadable(elf) && segments[i].BelowStack()
      modifies this, rootPgt, mem, alloc
      ensures Holds(mem, alloc)
      ensures Others(old(WorldOf(mem, alloc)), old(Snap()), WorldOf(mem, alloc), Snap())
      ensures r.Done? ==> Valid(mem, alloc) && HasStop(WorldOf(mem, alloc), Snap())
      ensures r.Done? ==> SameUpper(old(mem.tables), mem.tables, rootPgt.ppn)
      ensures r.Done? ==> ProgramIn(WorldOf(mem, alloc), Snap(), elf, segments)
      ensures r.Done? ==>
                entryAddr == entry && uStackEnd == USER_SPACE_END && HasKernelStack() && !ProgramRefused(segments)
      ensures if r.Done? then alloc.Free() >= old(alloc.Free()) - PagesUpTo(segments, |segments|) - 4
              else ProgramRefused(segments) || old(alloc.Free()) < PagesUpTo(segments, |segments|) + 4
    {
      hide Views, PageAllocator.Valid, PageAllocator.Live, WorldOk, Lists, OwnOk, Agrees, Step, CellsKept,
        CellsOutside, CellAt, Others, HasStop, FreeFrom, AllLoaded, AllResident, Loaded, SameUpper, OnlyFrom,
        StackReady, SegmentRefused, RefusedAt, PageAllocator.Free, NoneEmpty, NoEmptySegment;
      ghost var w0, s0 := WorldOf(mem, alloc), Snap();
      NoneResident(w0, s0);
      BuildingStart(w0, s0);
      EmptyBuild(w0, s0, elf);
      assert segments[..0] == [];
      var i := 0;
      while i < |segments|
        invariant 0 <= i <= |segments| && Valid(mem, alloc)
        invariant Building(w0, WorldOf(mem, alloc), s0, Snap())
        invariant AllResident(areas) && FreeFrom(Snap(), STACK_START_VPN)
        invariant NoEmptySegment(segments) ==> NoneEmpty(areas)
        invariant AllLoaded(WorldOf(mem, alloc), Snap(), elf, segments[..i]) && OnlyFrom(Snap(), segments[..i])
        invariant alloc.Free() >= old(alloc.Free()) - PagesUpTo(segments, i)
                  && forall j :: 0 <= j < i ==> !RefusedAt(segments, j)
      {
        ghost var w, s := WorldOf(mem, alloc), Snap();
        if segments[i].load {
          RefusedMeans(w, s, elf, segments, i);
          PagesGrow(segments, i + 1);
          var loaded := MapUserElfSegment(mem, alloc, elf, segments[i]);
          if loaded.Failed? {
            OthersTrans(w0, s0, w, s, WorldOf(mem, alloc), Snap());
            return loaded;
          }
          BuildingNext(w0, w, s0, s, WorldOf(mem, alloc), Snap(), segments[i].Start(), segments[i].End(),
                       STACK_START_VPN);
          AllStayLoaded(w, s, WorldOf(mem, alloc), Snap(), elf, segments[..i]);
          if NoEmptySegment(segments) { SegmentAdded(s.areas, areas, segments, i); }
        } else {
          NotLoadedIsFine(segments, i);
        }
        OneMoreLoaded(WorldOf(mem, alloc), Snap(), elf, segments, i);
        OnlyFromNext(s, Snap(), segments, i, WorldOf(mem, alloc), elf);
        i := i + 1;
      }
      assert segments[..|segments|] == segments;
      entryAddr := entry;
      ghost var w, s := WorldOf(mem, alloc), Snap();
      r := AddUserStackArea(mem, alloc);
      if r.Failed? {
        OthersTrans(w0, s0, w, s, WorldOf(mem, alloc), Snap());
        return;
      }
      AllStayLoaded(w, s, WorldOf(mem, alloc), Snap(), elf, segments);
      ghost var w1, s1 := WorldOf(mem, alloc), Snap();
      OnlyFromStack(s, w1, s1, segments);
      FreeAbove(s, STACK_START_VPN, LOWER_END);
      BuildingNext(w0, w, s0, s, w1, s1, STACK_START_VPN, USER_END_VPN, LOWER_END);
      r := AddKernelStackArea(mem, alloc);
      if r.Failed? {
        OthersTrans(w0, s0, w1, s1, WorldOf(mem, alloc), Snap());
        return;
      }
      BuildingNext(w0, w1, s0, s1, WorldOf(mem, alloc), Snap(), UPPER_START, UPPER_END, UPPER_END);
      AllStayLoaded(w1, s1, WorldOf(mem, alloc), Snap(), elf, segments);
      StackStaysReady(w1, s1, WorldOf(mem, alloc), Snap());
      OnlyFromUpper(s1, Snap(), segments);
      BuildingMeans(w0, w1, s0, s1, WorldOf(mem, alloc), Snap());
    }
  }
}
