/**
  `RootPgt` (os/src/mm/sv39.rs): one page-table tree, edited in place in physical memory.
 */
module RootPgt {
  import opened Layout
  import opened Pte
  import opened Memory
  import opened Walk
  import opened PageAlloc
  import opened PgtSpec
  import opened Sweep

  datatype PgtResult = Ok | AcquirePageFailed | InvalidPteFlags(flags: nat) | DoubleMapping(vpn: nat, ppn: nat)

  /** Takes a zeroed page and makes slot `i` of page `p` point to it. */
  method FreshTable(mem: PhysMem, alloc: PageAllocator, p: nat, i: nat) returns (r: Option<nat>)
    requires mem.Valid() && alloc.Valid() && i < PTES_PER_TABLE && IsRam(p) && p in alloc.Live()
    modifies mem, alloc
    ensures mem.Valid() && alloc.Valid()
    ensures r.None? ==> alloc.Exhausted() && WorldOf(mem, alloc) == old(WorldOf(mem, alloc))
    ensures r.Some? ==> PointsTo(old(WorldOf(mem, alloc)), p, i, r.value, WorldOf(mem, alloc))
    ensures r.Some? ==> r.value !in old(alloc.Live()) && r.value in mem.tables
    ensures alloc.Free() == old(alloc.Free()) - if r.Some? then 1 else 0
  {
    MemoryDomain(mem);
    hide Views, PageAllocator.Valid, PageAllocator.Live, PageAllocator.Free, WorldOk;
    ghost var w := WorldOf(mem, alloc);
    WorldIsOk(mem, alloc);
    assert p in w.tables && |w.tables[p]| == PTES_PER_TABLE by { TableSize(w, p); }
    r := AllocZeroedPage(alloc, mem);
    if r.Some? {
      hide ZeroTable, ZeroFrame, PointsTo;
      mem.WriteEntry(p, i, PTE(0, r.value, FLAG_V));
      WorldIsOk(mem, alloc);
      Pointed(w, p, i, r.value, WorldOf(mem, alloc));
    }
  }

  lemma Pointed(w: World, p: nat, i: nat, child: nat, w': World)
    requires i < PTES_PER_TABLE && child !in w.live && p in w.live && IsRam(child) && p in w.tables
             && |w.tables[p]| == PTES_PER_TABLE
    requires w'.tables ==
               w.tables[child := ZeroTable()][p := w.tables[child := ZeroTable()][p][i := PTE(0, child, FLAG_V)]]
    requires p in w'.frames && w'.frames == w.frames[child := ZeroFrame()][p := w'.frames[p]]
    requires WorldOk(w') && w'.live == w.live + {child}
    ensures PointsTo(w, p, i, child, w')
  {
    hide ZeroTable, ZeroFrame, WorldOk;
  }

  lemma TableSize(w: World, p: nat)
    requires WorldOk(w) && IsRam(p)
    ensures p in w.tables && |w.tables[p]| == PTES_PER_TABLE
  {
  }

  class RootPgt {
    var ppn: nat
    var pages: seq<nat>
    ghost var own: set<nat>
    ghost var role: Roles

    ghost function Snap(): Pgt
      reads this
    {
      Pgt(ppn, own, role)
    }

    ghost predicate Valid(mem: PhysMem, alloc: PageAllocator)
      reads this, mem, alloc
    {
      mem.Valid() && alloc.Valid() && Lists(pages, own) && PgtOk(WorldOf(mem, alloc), Snap())
    }

    constructor Wrap(page: nat, ghost role: Roles)
      ensures ppn == page && pages == [page] && own == {page} && this.role == role
    {
      ppn := page;
      pages := [page];
      own := {page};
      this.role := role;
    }

    /** `new`: an empty tree. */
    static method New(mem: PhysMem, alloc: PageAllocator) returns (r: Option<RootPgt>)
      requires mem.Valid() && alloc.Valid()
      modifies mem, alloc
      ensures mem.Valid() && alloc.Valid()
      ensures r.None? <==> old(alloc.Exhausted())
      ensures r.None? ==> WorldOf(mem, alloc) == old(WorldOf(mem, alloc)) && alloc.Exhausted() && old(alloc.Free()) == 0
      ensures alloc.Free() == old(alloc.Free()) - if r.Some? then 1 else 0
      ensures r.Some? ==> fresh(r.value) && r.value.Valid(mem, alloc)
      ensures r.Some? ==> r.value.own !! old(alloc.Live()) && alloc.Live() == old(alloc.Live()) + r.value.own
      ensures r.Some? ==> SameOutside(old(WorldOf(mem, alloc)), WorldOf(mem, alloc), r.value.own)
      ensures r.Some? ==>
                r.value.role.Keys == r.value.own
                    && (forall p :: p in r.value.role && p != r.value.ppn ==> IsHigh(r.value.role[p]))
      ensures r.Some? ==> forall v: nat :: Lookup(mem.tables, r.value.ppn, v) == Absent
      ensures r.Some? ==> forall a, b :: Near(a, b, 0) ==> !HasLeafTable(mem.tables, r.value.ppn, a, b)
    {
      hide PgtOk, Lookup, HasLeafTable, Views, PageAllocator.Valid, WorldOk;
      var page := AllocZeroedPage(alloc, mem);
      if page.None? {
        return None;
      }
      var root := new RootPgt.Wrap(page.value, map[page.value := Root]);
      WorldIsOk(mem, alloc);
      EmptyTree(WorldOf(mem, alloc), page.value);
      return Some(root);
    }

    /** `new_copy` of the kernel's root table. */
    static method NewCopy(mem: PhysMem, alloc: PageAllocator, kernelRoot: nat, ghost k: Pgt)
      returns (r: Option<RootPgt>)
      requires mem.Valid() && alloc.Valid()
      requires PgtOk(WorldOf(mem, alloc), k) && KernelOnly(mem.tables, k) && k.root == kernelRoot
      modifies mem, alloc
      ensures mem.Valid() && alloc.Valid()
      ensures r.None? <==> old(alloc.Exhausted())
      ensures r.None? ==> WorldOf(mem, alloc) == old(WorldOf(mem, alloc)) && alloc.Free() == 0
      ensures alloc.Free() == old(alloc.Free()) - if r.Some? then 1 else 0
      ensures r.Some? ==> fresh(r.value) && r.value.Valid(mem, alloc)
      ensures r.Some? ==> r.value.own !! old(alloc.Live()) && alloc.Live() == old(alloc.Live()) + r.value.own
      ensures r.Some? ==> SameOutside(old(WorldOf(mem, alloc)), WorldOf(mem, alloc), r.value.own)
      ensures r.Some? ==> r.value.Snap() == CopyOf(k, r.value.ppn)
      ensures r.Some? ==> forall v: nat :: Lookup(mem.tables, r.value.ppn, v) == Lookup(old(mem.tables), kernelRoot, v)
    {
      hide PgtOk, Lookup, KernelOnly, Views, PageAllocator.Valid, WorldOk;
      ghost var w := WorldOf(mem, alloc);
      var page := alloc.Alloc();
      if page.None? {
        return None;
      }
      RootIsRam(w, k);
      mem.CopyFrame(page.value, kernelRoot);
      var root := new RootPgt.Wrap(page.value, CopyOf(k, page.value).role);
      WorldIsOk(mem, alloc);
      CopiedTree(w, k, page.value, WorldOf(mem, alloc));
      return Some(root);
    }

    /** `forget_self`: the pages stay live for ever; their number is returned. */
    method ForgetSelf(mem: PhysMem, alloc: PageAllocator) returns (n: nat)
      requires Valid(mem, alloc)
      ensures n == |own|
    {
      n := |pages|;
      ListsCount(pages, own);
    }

    /** Dropping the tree gives back its own pages and none of the shared ones. */
    method Drop(mem: PhysMem, alloc: PageAllocator)
      requires Valid(mem, alloc)
      modifies alloc
      ensures alloc.Valid() && alloc.Live() == old(alloc.Live()) - own
    {
      hide Tree, Views;
      alloc.DeallocAll(pages);
      assert (set p | p in pages) == own;
    }

    /** The creation of a missing table, as `map_create` and `map_create_large` do it: the
        fresh page is linked first and then pushed to `pages`. */
    method Link(mem: PhysMem, alloc: PageAllocator, vpn: nat, level: nat, table: nat) returns (ok: bool)
      requires Valid(mem, alloc) && OwnsPath(Snap(), vpn)
      requires 0 < level <= 2 && Reached(mem.tables, Snap(), vpn, level, table)
      requires !mem.tables[table][Index(vpn, level)].IsValid()
      modifies this, mem, alloc
      ensures Valid(mem, alloc) && OwnsPath(Snap(), vpn) && ppn == old(ppn)
      ensures Grown(old(WorldOf(mem, alloc)), old(Snap()), WorldOf(mem, alloc), Snap(), vpn)
      ensures Reached(mem.tables, Snap(), vpn, level, table)
      ensures level == 2 ==> SameLeafTables(old(mem.tables), mem.tables, ppn)
      ensures ok ==> mem.tables[table][Index(vpn, level)].IsPointer()
      ensures !ok ==> alloc.Exhausted()
      ensures alloc.Free() == old(alloc.Free()) - if ok then 1 else 0
    {
      hide PgtOk, Reached, Views, Lists, PageAllocator.Valid, PageAllocator.Live, PageAllocator.Free, WorldOk, Grown,
        SameLeafTables, Index;
      ghost var w, g := WorldOf(mem, alloc), Snap();
      ReachedOwned(w, g, vpn, level, table);
      OwnLive(w, g);
      var page := FreshTable(mem, alloc, table, Index(vpn, level));
      if page.None? {
        WalkStart(w, g, vpn);
        return false;
      }
      ListsPush(pages, own, page.value);
      pages := pages + [page.value];
      own := own + {page.value};
      role := role[page.value := ChildRole(role[table], Index(vpn, level))];
      LinkStep(w, g, vpn, level, table, page.value, WorldOf(mem, alloc), Snap());
      return true;
    }

    /** `map_create`. */
    method MapCreate(mem: PhysMem, alloc: PageAllocator, vpn: nat, page: nat, flags: nat) returns (r: PgtResult)
      requires Valid(mem, alloc) && IsVpn(vpn) && page < PPN_LIMIT && OwnsPath(Snap(), vpn)
      modifies this, mem, alloc
      ensures Valid(mem, alloc) && OwnsPath(Snap(), vpn) && ppn == old(ppn)
      ensures Extends(old(WorldOf(mem, alloc)), old(Snap()), WorldOf(mem, alloc), Snap())
      ensures forall w :: IsVpn(w) ==>
                Lookup(mem.tables, ppn, w) ==
                  if r.Ok? && w == vpn then Mapped(0, page, flags) else Lookup(old(mem.tables), ppn, w)
      ensures LeafTablesGrow(old(mem.tables), mem.tables, ppn, vpn) && NewTablesOn(old(Snap()), Snap(), vpn)
      ensures r.InvalidPteFlags? <==> !IsValidFlags(flags)
      ensures r.InvalidPteFlags? ==> r.flags == flags
      ensures r.DoubleMapping? ==> r == DoubleMapping(vpn, page)
      ensures r.DoubleMapping? <==> IsValidFlags(flags) && Lookup(old(mem.tables), ppn, vpn).Mapped?
      ensures r.AcquirePageFailed? ==> alloc.Exhausted() && old(alloc.Free()) < 2
      ensures old(alloc.Free()) - 2 <= alloc.Free() <= old(alloc.Free())
      ensures HasLeafTable(old(mem.tables), ppn, Index(vpn, 2), Index(vpn, 1)) ==>
                alloc.Free() == old(alloc.Free()) && !r.AcquirePageFailed?
    {
      hide PgtOk, Reached, Grown, Extends, LeafTablesGrow, Lookup, HasLeafTable, WorldOk, Views, Lists,
        PageAllocator.Valid, PageAllocator.Live;
      WalkStart(WorldOf(mem, alloc), Snap(), vpn);
      if !IsValidFlags(flags) {
        return InvalidPteFlags(flags);
      }
      ghost var w0, g0 := WorldOf(mem, alloc), Snap();
      ghost var served := HasLeafTable(w0.tables, ppn, Index(vpn, 2), Index(vpn, 1));
      var table := ppn;
      var level := 2;
      while level > 0
        invariant 0 <= level <= 2
        invariant Valid(mem, alloc) && OwnsPath(Snap(), vpn)
        invariant Grown(w0, g0, WorldOf(mem, alloc), Snap(), vpn)
        invariant Reached(mem.tables, Snap(), vpn, level, table)
        invariant old(alloc.Free()) - (2 - level) <= alloc.Free() <= old(alloc.Free())
                  && (served ==> alloc.Free() == old(alloc.Free()))
      {
        ghost var w, g := WorldOf(mem, alloc), Snap();
        ReachedOwned(w, g, vpn, level, table);
        ReachedLookup(w, g, vpn, level, table);
        GrownMeans(w0, g0, w, g, vpn);
        if served {
          StillLeafTable(w0.tables, w.tables, ppn, vpn);
          PathValid(w, g, vpn, level, table);
        }
        var e := mem.ReadEntry(table, Index(vpn, level));
        if !e.IsValid() {
          var linked := Link(mem, alloc, vpn, level, table);
          GrownTrans(w0, g0, w, g, WorldOf(mem, alloc), Snap(), vpn);
          if !linked {
            GrownMeans(w0, g0, WorldOf(mem, alloc), Snap(), vpn);
            return AcquirePageFailed;
          }
        }
        e := mem.ReadEntry(table, Index(vpn, level));
        if e.IsLeaf() {
          GrownMeans(w0, g0, WorldOf(mem, alloc), Snap(), vpn);
          return DoubleMapping(vpn, page);
        }
        Descend(WorldOf(mem, alloc), Snap(), vpn, level, table);
        table := e.ppn;
        level := level - 1;
      }
      ghost var w := WorldOf(mem, alloc);
      ReachedOwned(w, Snap(), vpn, 0, table);
      ReachedLookup(w, Snap(), vpn, 0, table);
      GrownMeans(w0, g0, w, Snap(), vpn);
      var e := mem.ReadEntry(table, Index(vpn, 0));
      if e.IsValid() {
        return DoubleMapping(vpn, page);
      }
      mem.WriteEntry(table, Index(vpn, 0), PTE(0, page, flags));
      WorldIsOk(mem, alloc);
      MapDone(w0, g0, w, Snap(), vpn, table, PTE(0, page, flags), WorldOf(mem, alloc));
      return Ok;
    }

    /** `map_create_large`.  The source rejects a leaf in the level-1 slot and would overwrite
        a pointer, so the absence of a leaf table there is a precondition.  Masking the page
        number to 2 MiB changes neither of the two indices that the walk uses. */
    method MapCreateLarge(mem: PhysMem, alloc: PageAllocator, vpn: nat, page: nat, flags: nat) returns (r: PgtResult)
      requires Valid(mem, alloc) && IsVpn(vpn) && page < PPN_LIMIT && OwnsPath(Snap(), vpn)
      requires HasW(flags) || HasX(flags)
      requires !HasLeafTable(mem.tables, ppn, Index(vpn, 2), Index(vpn, 1))
      modifies this, mem, alloc
      ensures Valid(mem, alloc) && OwnsPath(Snap(), vpn) && ppn == old(ppn)
      ensures Extends(old(WorldOf(mem, alloc)), old(Snap()), WorldOf(mem, alloc), Snap())
      ensures NewTablesOn(old(Snap()), Snap(), vpn)
      ensures r.Ok? ==> LargeMapped(old(mem.tables), mem.tables, ppn, vpn, Mapped(1, LargeBase(page), flags))
      ensures !r.Ok? ==> SameOnVpns(old(mem.tables), mem.tables, ppn)
      ensures SameLeafTables(old(mem.tables), mem.tables, ppn)
      ensures r.InvalidPteFlags? <==> !IsValidFlags(flags)
      ensures r.InvalidPteFlags? ==> r.flags == flags
      ensures r.DoubleMapping? <==> IsValidFlags(flags) && Lookup(old(mem.tables), ppn, vpn).Mapped?
      ensures r.DoubleMapping? ==> r == DoubleMapping(LargeBase(vpn), LargeBase(page))
      ensures r.AcquirePageFailed? ==> alloc.Exhausted() && old(alloc.Free()) < 1
      ensures old(alloc.Free()) - 1 <= alloc.Free() <= old(alloc.Free())
    {
      hide PgtOk, Reached, Grown, Extends, NewTablesOn, SameLeafTables, HasLeafTable, Lookup, WorldOk, Views, Lists,
        PageAllocator.Valid, PageAllocator.Live, Index, LargeMapped, SameOnVpns, LargeBase;
      var large := LargeBase(page);
      ghost var w0, g0 := WorldOf(mem, alloc), Snap();
      WalkStart(w0, g0, vpn);
      LargeUnchanged(w0, g0, w0, g0, vpn);
      if !IsValidFlags(flags) {
        return InvalidPteFlags(flags);
      }
      ReachedOwned(w0, g0, vpn, 2, ppn);
      ReachedLookup(w0, g0, vpn, 2, ppn);
      var e2 := mem.ReadEntry(ppn, Index(vpn, 2));
      if !e2.IsValid() {
        var linked := Link(mem, alloc, vpn, 2, ppn);
        LargeUnchanged(w0, g0, WorldOf(mem, alloc), Snap(), vpn);
        if !linked {
          return AcquirePageFailed;
        }
      }
      e2 := mem.ReadEntry(ppn, Index(vpn, 2));
      if e2.IsLeaf() {
        return DoubleMapping(LargeBase(vpn), large);
      }
      ghost var w, g := WorldOf(mem, alloc), Snap();
      Descend(w, g, vpn, 2, ppn);
      ReachedOwned(w, g, vpn, 1, e2.ppn);
      ReachedLookup(w, g, vpn, 1, e2.ppn);
      SameLeafTableAt(w0.tables, w.tables, ppn, vpn);
      EmptyLargeSlot(w, g, vpn, e2.ppn);
      var e1 := mem.ReadEntry(e2.ppn, Index(vpn, 1));
      if e1.IsLeaf() {
        return DoubleMapping(LargeBase(vpn), large);
      }
      mem.WriteEntry(e2.ppn, Index(vpn, 1), PTE(0, large, flags));
      WorldIsOk(mem, alloc);
      LargeDone(w0, g0, w, g, vpn, e2.ppn, PTE(0, large, flags), WorldOf(mem, alloc));
      return Ok;
    }

    /** The innermost loop of `unmap`: clears one leaf table from entry `from` on, and says
        whether it met a page number at or beyond `end`. */
    method ClearLeaves(mem: PhysMem, table: nat, vpn2: nat, vpn1: nat, from: nat, end: nat) returns (stopped: bool)
      requires mem.Valid() && IsRam(table) && from < PTES_PER_TABLE
      modifies mem
      ensures mem.Valid()
      ensures table in old(mem.tables) && |old(mem.tables)[table]| == PTES_PER_TABLE
      ensures mem.tables == old(mem.tables)[table := Cleared(old(mem.tables)[table], Rebuild(vpn2, vpn1, 0), from, end)]
      ensures table in mem.frames && mem.frames == old(mem.frames)[table := mem.frames[table]]
      ensures stopped <==> end <= Rebuild(vpn2, vpn1, 511)
    {
      ghost var leaves := mem.tables[table];
      var vpn0 := from;
      while vpn0 < PTES_PER_TABLE
        invariant from <= vpn0 <= PTES_PER_TABLE && mem.Valid()
        invariant vpn0 > from ==> Rebuild(vpn2, vpn1, vpn0 - 1) < end
        invariant table in mem.tables && mem.tables == old(mem.tables)[table := mem.tables[table]]
        invariant |mem.tables[table]| == PTES_PER_TABLE
        invariant forall j :: 0 <= j < PTES_PER_TABLE ==>
                  mem.tables[table][j] == if from <= j < vpn0 then ZERO else leaves[j]
        invariant table in mem.frames && mem.frames == old(mem.frames)[table := mem.frames[table]]
      {
        var vpn := Rebuild(vpn2, vpn1, vpn0);
        if end <= vpn {
          assert mem.tables[table] == Cleared(leaves, Rebuild(vpn2, vpn1, 0), from, end);
          return true;
        }
        mem.WriteEntry(table, vpn0, ZERO);
        vpn0 := vpn0 + 1;
      }
      assert mem.tables[table] == Cleared(leaves, Rebuild(vpn2, vpn1, 0), from, end);
      return false;
    }

    /** `unmap`.  The leaf table below slots `s2` and `s1`, at or beyond the last page of the
        range, is what stops the scan before the final panic of the source. */
    method Unmap(mem: PhysMem, ghost alloc: PageAllocator, start: nat, end: nat, ghost s2: nat, ghost s1: nat)
      returns (r: PgtResult)
      requires Valid(mem, alloc) && end <= LOWER_END
      requires Near(s2, s1, 0) && s2 < 256 && end <= Rebuild(s2, s1, 511)
      requires HasLeafTable(mem.tables, ppn, s2, s1) && SmallOnly(mem.tables, ppn, s2)
      modifies mem
      ensures Valid(mem, alloc) && r.Ok?
      ensures Extends(old(WorldOf(mem, alloc)), Snap(), WorldOf(mem, alloc), Snap())
      ensures RangeRemoved(old(mem.tables), mem.tables, ppn, start, end)
      ensures SameLeafTables(old(mem.tables), mem.tables, ppn)
    {
      hide Views, Lists, PageAllocator.Valid, PageAllocator.Live, PgtOk, Extends, RangeRemoved, SameLeafTables;
      hide HasLeafTable, SmallOnly, Sweeping, Rebuild, WorldOk, Cleared;
      ghost var w0, g := WorldOf(mem, alloc), Snap();
      if end <= start {
        NothingToSweep(w0, g, start, end);
        return Ok;
      }
      SweepingStart(w0, g, start, end, s2, s1);
      var i2: nat, i1: nat, i0: nat := Index(start, 2), Index(start, 1), Index(start, 0);
      var vpn2 := i2;
      while vpn2 < PTES_PER_TABLE
        invariant vpn2 <= PTES_PER_TABLE && i1 < PTES_PER_TABLE && i0 < PTES_PER_TABLE && Valid(mem, alloc)
        invariant Sweeping(w0, WorldOf(mem, alloc), g, start, end, vpn2, i1, i0, s2, s1)
      {
        SweepingAt2(w0, WorldOf(mem, alloc), g, start, end, vpn2, i1, i0, s2, s1);
        var e2 := mem.ReadEntry(ppn, vpn2);
        if !e2.IsValid() {
          SweepingSkip2(w0, WorldOf(mem, alloc), g, start, end, vpn2, i1, i0, s2, s1);
          i1 := 0;
          i0 := 0;
          vpn2 := vpn2 + 1;
          continue;
        }
        assert !e2.IsLeaf();
        var table1 := e2.ppn;
        var vpn1 := i1;
        while vpn1 < PTES_PER_TABLE
          invariant vpn1 <= PTES_PER_TABLE && i0 < PTES_PER_TABLE && Valid(mem, alloc)
          invariant vpn1 == PTES_PER_TABLE ==> i0 == 0
          invariant Sweeping(w0, WorldOf(mem, alloc), g, start, end, vpn2, vpn1, i0, s2, s1)
          invariant Slot(mem.tables, ppn, vpn2) == e2
        {
          SweepingAt2(w0, WorldOf(mem, alloc), g, start, end, vpn2, vpn1, i0, s2, s1);
          SweepingAt1(w0, WorldOf(mem, alloc), g, start, end, vpn2, vpn1, i0, s2, s1);
          var e1 := mem.ReadEntry(table1, vpn1);
          if !e1.IsValid() {
            SweepingSkip1(w0, WorldOf(mem, alloc), g, start, end, vpn2, vpn1, i0, s2, s1);
            i0 := 0;
            vpn1 := vpn1 + 1;
            continue;
          }
          assert !e1.IsLeaf();
          ghost var w := WorldOf(mem, alloc);
          var stopped := ClearLeaves(mem, e1.ppn, vpn2, vpn1, i0, end);
          WorldIsOk(mem, alloc);
          SweepingClear(w0, w, g, start, end, vpn2, vpn1, i0, s2, s1, e1.ppn, WorldOf(mem, alloc));
          if stopped {
            return Ok;
          }
          i0 := 0;
          vpn1 := vpn1 + 1;
        }
        SweepingNext2(w0, WorldOf(mem, alloc), g, start, end, vpn2, s2, s1);
        i1 := 0;
        vpn2 := vpn2 + 1;
      }
      SweepingBounds(w0, WorldOf(mem, alloc), g, start, end, vpn2, i1, i0, s2, s1);
      assert false;  // the source panics here
    }
  }
}
