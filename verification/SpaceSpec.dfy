/**
  What the methods of `VMSpace` (os/src/mm/vm.rs) are proved against.

  A space says the same thing three times: in its areas, in the pages that each area holds,
  and in its page table.  `SpaceOk` is their agreement together with the ownership of pages.
 */
module SpaceSpec {
  import opened Layout
  import opened Pte
  import opened Memory
  import opened Walk
  import opened PageAlloc
  import opened PgtSpec
  import opened Sweep
  import opened Areas

  /** A space: its tree, its areas, and for every data page the page number it backs. */
  datatype Space = Space(pgt: Pgt, areas: seq<VMArea>, data: map<nat, nat>)

  /** The pages that dropping the space gives back. */
  ghost function Owned(s: Space): set<nat> {
    s.pgt.own + s.data.Keys
  }

  /** The tables of a tree that it does not own: the kernel's. */
  ghost function Shared(g: Pgt): set<nat> {
    g.role.Keys - g.own
  }

  /** The entry that the page table must hold for a cell. */
  ghost function EntryFor(c: Cell): Entry {
    if c.InArea? && c.page.Some? then Mapped(0, c.page.value, c.permissions + FLAG_V) else Absent
  }

  /** In the lower half the page table holds exactly what the areas hold. */
  ghost predicate Agrees(t: Tables, root: nat, areas: seq<VMArea>) {
    forall v: nat :: v < LOWER_END ==> Lookup(t, root, v) == EntryFor(CellAt(areas, v))
  }

  /** `data` is the inverse of the areas' page maps, so no page backs two page numbers. */
  ghost predicate DataOk(areas: seq<VMArea>, data: map<nat, nat>) {
    && (forall p :: p in data ==> CellAt(areas, data[p]).InArea? && CellAt(areas, data[p]).page == Some(p))
    && (forall v: nat :: CellAt(areas, v).InArea? && CellAt(areas, v).page.Some? ==>
          CellAt(areas, v).page.value in data && data[CellAt(areas, v).page.value] == v)
  }

  ghost predicate OwnOk(w: World, s: Space) {
    && PgtOk(w, s.pgt) && AreasOk(s.areas) && DataOk(s.areas, s.data)
    && s.data.Keys <= w.live && s.data.Keys !! s.pgt.role.Keys
  }

  ghost predicate SpaceOk(w: World, s: Space) {
    OwnOk(w, s) && Agrees(w.tables, s.pgt.root, s.areas)
  }

  /** The leaf table of the first stack page exists: it is what stops `RootPgt::unmap`. */
  ghost predicate HasStop(w: World, s: Space) {
    HasLeafTable(w.tables, s.pgt.root, 255, 511)
  }

  /** The pages of `kept` hold what they held. */
  ghost predicate SameOn(w: World, w': World, kept: set<nat>) {
    && (forall q :: q in w.tables && q in kept ==> q in w'.tables && w'.tables[q] == w.tables[q])
    && (forall q :: q in w.frames && q in kept ==> q in w'.frames && w'.frames[q] == w.frames[q])
  }

  /** Nothing that belongs to somebody else was taken, given back or written. */
  ghost predicate Others(w: World, s: Space, w': World, s': Space) {
    && s'.pgt.root == s.pgt.root && Shared(s'.pgt) <= Shared(s.pgt)
    && w'.live - Owned(s') == w.live - Owned(s)
    && SameOn(w, w', w.live - Owned(s))
  }

  /** Translations of upper-half page numbers stay as they were. */
  ghost predicate SameUpper(t: Tables, t': Tables, root: nat) {
    forall v :: IsUpper(v) ==> Lookup(t', root, v) == Lookup(t, root, v)
  }

  /** Pages that stay resident keep their bytes. */
  ghost predicate KeepsBytes(w: World, s: Space, w': World, s': Space) {
    forall p :: p in s.data && p in s'.data && p in w.frames && p in w'.frames ==>
      w'.frames[p] == w.frames[p] && s'.data[p] == s.data[p]
  }

  /** What every operation on a space keeps. */
  ghost predicate Step(w: World, s: Space, w': World, s': Space) {
    && Others(w, s, w', s')
    && KeepsBytes(w, s, w', s')
    && SameUpper(w.tables, w'.tables, s.pgt.root)
    && (HasStop(w, s) ==> HasStop(w', s'))
  }

  lemma NoStep(w: World, s: Space)
    ensures Step(w, s, w, s)
  {
    hide Lookup, HasLeafTable;
  }

  lemma OwnParts(w: World, s: Space)
    requires OwnOk(w, s)
    ensures WorldOk(w) && PgtOk(w, s.pgt) && AreasOk(s.areas) && DataOk(s.areas, s.data)
  {
    hide Tree, AreasOk, DataOk;
  }

  /** A page number is translated exactly if an area holds a page for it, and then to that
      page with that area's permissions, provided these include reading or execution. */
  lemma TranslationIsAreas(w: World, s: Space, v: nat)
    requires SpaceOk(w, s) && v < LOWER_END
    ensures Translate(w.tables, s.pgt.root, v) ==
            var c := CellAt(s.areas, v);
            if c.InArea? && c.page.Some? && (HasR(c.permissions) || HasX(c.permissions))
            then Hit(c.page.value, c.permissions + FLAG_V) else Fault
  {
    WalksAgree(w.tables, s.pgt.root, s.pgt.role, v);
    CellPermissions(s.areas, v);
  }

  lemma CellPermissions(areas: seq<VMArea>, v: nat)
    requires AreasOk(areas)
    ensures CellAt(areas, v).InArea? ==> KnownPermissions(CellAt(areas, v).permissions)
    ensures CellAt(areas, v).InArea? ==>
              var f := CellAt(areas, v).permissions; HasR(f + FLAG_V) == HasR(f) && HasX(f + FLAG_V) == HasX(f)
    ensures CellAt(areas, v).InArea? && v < LOWER_END ==> CellAt(areas, v).mapType.Anonymous? && v < USER_END_VPN
    ensures CellAt(areas, v).InArea? && v >= LOWER_END ==> CellAt(areas, v).mapType.KernelVaOffset?
  {
    if k :| 0 <= k < |areas| && areas[k].Contains(v) {
      CellOf(areas, k, v);
      assert areas[k].Ok();
      PteFlagsBits(areas[k].permissions);
    } else {
      CellNowhere(areas, v);
    }
  }

  /** Step 5 of the translation process: the hardware lets an access go through if the entry has
      each of the bits R, W, X and U (bits 1 to 4) that the access needs (`min`).  The kernel's own
      check of an area's permissions is `Includes`. */
  predicate Grants(t: Translation, min: nat) {
    && t.Hit? && min < 32 && min % 2 == 0
    && (min / 2 % 2 == 1 ==> t.flags / 2 % 2 == 1) && (min / 4 % 2 == 1 ==> t.flags / 4 % 2 == 1)
    && (min / 8 % 2 == 1 ==> t.flags / 8 % 2 == 1) && (min / 16 % 2 == 1 ==> t.flags / 16 % 2 == 1)
  }

  /** What the kernel checks for is what the hardware grants. */
  lemma IncludedIsGranted(permissions: nat, p: nat, min: nat)
    requires KnownPermissions(permissions) && Includes(permissions, min)
    ensures Grants(Hit(p, permissions + FLAG_V), min)
  {
  }

  /** A mapped page of an area that includes `min` is granted to an access that needs `min`. */
  lemma MappedIsGranted(w: World, s: Space, v: nat, min: nat)
    requires SpaceOk(w, s) && v < LOWER_END && (HasR(min) || HasW(min))
    requires CellAt(s.areas, v).InArea? && CellAt(s.areas, v).page.Some?
             && Includes(CellAt(s.areas, v).permissions, min)
    ensures Grants(Translate(w.tables, s.pgt.root, v), min)
  {
    hide HasV, HasR, HasW, HasX, HasU, Lookup, Translate, CellAt, Tree, Grants;
    var c := CellAt(s.areas, v);
    TranslationIsAreas(w, s, v);
    WalksAgree(w.tables, s.pgt.root, s.pgt.role, v);
    CellPermissions(s.areas, v);
    PteFlagsBits(c.permissions);
    assert HasR(c.permissions);
    IncludedIsGranted(c.permissions, c.page.value, min);
  }

  /** If an area includes the permissions that a fault asks for and the hardware did not
      grant them, then the page is not resident. */
  lemma GenuineFault(w: World, s: Space, v: nat, min: nat)
    requires SpaceOk(w, s) && v < LOWER_END && (HasR(min) || HasW(min))
    requires !Grants(Translate(w.tables, s.pgt.root, v), min)
    requires CellAt(s.areas, v).InArea? && Includes(CellAt(s.areas, v).permissions, min)
    ensures CellAt(s.areas, v).page.None? && Lookup(w.tables, s.pgt.root, v) == Absent
  {
    if CellAt(s.areas, v).page.Some? {
      MappedIsGranted(w, s, v, min);
    }
  }

  // Taking a page from the allocator.

  /** The allocator has handed out page `p`, whose contents may have been overwritten. */
  ghost predicate Takes(w: World, p: nat, w': World) {
    && p !in w.live && IsRam(p) && WorldOk(w') && w'.live == w.live + {p} && SameOutside(w, w', {p})
  }

  lemma TakePage(w: World, s: Space, p: nat, w': World)
    requires OwnOk(w, s) && Takes(w, p, w')
    ensures OwnOk(w', s) && p !in s.pgt.role && p !in s.data && IsRam(p)
    ensures Agrees(w.tables, s.pgt.root, s.areas) ==> Agrees(w'.tables, s.pgt.root, s.areas)
    ensures HasStop(w, s) ==> HasStop(w', s)
    ensures forall v: nat :: Lookup(w'.tables, s.pgt.root, v) == Lookup(w.tables, s.pgt.root, v)
  {
    hide Lookup, HasLeafTable, AreasOk, DataOk, Tree;
    PgtFrame(w, s.pgt, w');
    assert Near(255, 511, 0);
  }

  // A page fault: take a page, map it, and give it back if the mapping failed.

  /** The page `p` was taken, mapped at `v`, and entered into area `i`. */
  lemma FaultMapped(w: World, s: Space, i: nat, v: nat, p: nat, w1: World, w2: World, g2: Pgt, s': Space)
    requires SpaceOk(w, s) && Takes(w, p, w1) && WorldOk(w2)
    requires i < |s.areas| && s.areas[i].Contains(v) && v !in s.areas[i].pages && v < LOWER_END
    requires Extends(w1, s.pgt, w2, g2) && PgtOk(w2, g2) && LeafTablesGrow(w1.tables, w2.tables, g2.root, v)
    requires forall x :: IsVpn(x) ==>
               Lookup(w2.tables, g2.root, x) ==
                 if x == v then Mapped(0, p, s.areas[i].permissions + FLAG_V) else Lookup(w1.tables, g2.root, x)
    requires s' == Space(g2, s.areas[i := s.areas[i].(pages := s.areas[i].pages[v := p])], s.data[p := v])
    ensures SpaceOk(w2, s') && Step(w, s, w2, s')
    ensures CellAt(s'.areas, v) == InArea(s.areas[i].mapType, s.areas[i].permissions, Some(p))
    ensures forall u: nat :: u != v ==> CellAt(s'.areas, u) == CellAt(s.areas, u)
  {
    hide Lookup, HasLeafTable, AreasOk, PgtOk, CellAt, IsVpn, IsUpper, Others, KeepsBytes;
    TakePage(w, s, p, w1);
    InsertPage(s.areas, i, v, p, s'.areas);
    CellOf(s.areas, i, v);
    MappedOwnership(w, s, v, p, w1, w2, g2, s');
    forall u: nat | u < LOWER_END ensures Lookup(w2.tables, g2.root, u) == EntryFor(CellAt(s'.areas, u)) {
      LowerIsVpn(u);
    }
    UpperAndStop(w, s, w1, w2, Space(g2, s'.areas, s'.data), v);
  }

  lemma UpperAndStop(w: World, s: Space, w1: World, w2: World, s': Space, v: nat)
    requires forall u: nat :: Lookup(w1.tables, s.pgt.root, u) == Lookup(w.tables, s.pgt.root, u)
    requires forall x :: IsVpn(x) && x != v ==> Lookup(w2.tables, s.pgt.root, x) == Lookup(w1.tables, s.pgt.root, x)
    requires v < LOWER_END && s'.pgt.root == s.pgt.root
    requires LeafTablesGrow(w1.tables, w2.tables, s.pgt.root, v) && (HasStop(w, s) ==> HasStop(w1, s))
    ensures SameUpper(w.tables, w2.tables, s.pgt.root) && (HasStop(w, s) ==> HasStop(w2, s'))
  {
    hide Lookup, HasLeafTable;
  }

  lemma LowerIsVpn(u: nat)
    requires u < LOWER_END
    ensures IsVpn(u)
  {
  }

  /** Pages change hands as they should when `p` goes to `v`. */
  lemma MappedOwnership(w: World, s: Space, v: nat, p: nat, w1: World, w2: World, g2: Pgt, s': Space)
    requires OwnOk(w, s) && Takes(w, p, w1) && CellAt(s.areas, v).InArea? && CellAt(s.areas, v).page.None?
    requires Extends(w1, s.pgt, w2, g2) && PgtOk(w2, g2) && WorldOk(w2) && g2.root == s.pgt.root
    requires s'.pgt == g2 && s'.data == s.data[p := v] && AreasOk(s'.areas)
    requires CellAt(s'.areas, v).InArea? && CellAt(s'.areas, v).page == Some(p)
    requires forall u: nat :: u != v ==> CellAt(s'.areas, u) == CellAt(s.areas, u)
    ensures OwnOk(w2, s') && Others(w, s, w2, s') && KeepsBytes(w, s, w2, s')
  {
    hide AreasOk, CellAt, Tree, WorldOk, Extends, SameOutside;
    OwnershipGrows(w, s, p, w1, w2, g2, s'.data);
    DataGrows(s, v, p, s');
    hide PgtOk, DataOk, Takes;
  }

  lemma DataGrows(s: Space, v: nat, p: nat, s': Space)
    requires DataOk(s.areas, s.data) && p !in s.data && s'.data == s.data[p := v]
    requires CellAt(s.areas, v).InArea? && CellAt(s.areas, v).page.None?
    requires CellAt(s'.areas, v).InArea? && CellAt(s'.areas, v).page == Some(p)
    requires forall u: nat :: u != v ==> CellAt(s'.areas, u) == CellAt(s.areas, u)
    ensures DataOk(s'.areas, s'.data)
  {
    hide CellAt;
  }

  lemma OwnershipGrows(w: World, s: Space, p: nat, w1: World, w2: World, g2: Pgt, data': map<nat, nat>)
    requires PgtOk(w, s.pgt) && s.data.Keys <= w.live && s.data.Keys !! s.pgt.role.Keys
    requires Takes(w, p, w1) && Extends(w1, s.pgt, w2, g2) && PgtOk(w2, g2) && data'.Keys == s.data.Keys + {p}
    ensures data'.Keys <= w2.live && data'.Keys !! g2.role.Keys
    ensures w2.live - (g2.own + data'.Keys) == w.live - (s.pgt.own + s.data.Keys)
    ensures SameOn(w, w2, w.live - s.pgt.own)
    ensures g2.role.Keys + data'.Keys <= w2.live && p !in g2.role && p !in s.data && g2.root == s.pgt.root
    ensures Shared(g2) <= Shared(s.pgt)
  {
    hide Tree, WorldOk;
  }

  /** The mapping failed: some tables may have been linked, the page goes back. */
  lemma FaultFailed(w: World, s: Space, v: nat, p: nat, w1: World, w2: World, g2: Pgt, w3: World)
    requires SpaceOk(w, s) && Takes(w, p, w1) && PgtOk(w2, g2) && v < LOWER_END
    requires Extends(w1, s.pgt, w2, g2) && LeafTablesGrow(w1.tables, w2.tables, g2.root, v)
    requires forall x :: IsVpn(x) ==> Lookup(w2.tables, g2.root, x) == Lookup(w1.tables, g2.root, x)
    requires WorldOk(w3) && w3.tables == w2.tables && w3.frames == w2.frames && w3.live == w2.live - {p}
    ensures var s' := Space(g2, s.areas, s.data);
            SpaceOk(w3, s') && Step(w, s, w3, s')
  {
    hide Lookup, HasLeafTable, OwnOk, PgtOk, CellAt, IsVpn, IsUpper, Others, KeepsBytes;
    MappingFailed(w, s, p, w1, w2, g2, w3);
    TakePage(w, s, p, w1);
    forall u: nat | u < LOWER_END ensures Lookup(w3.tables, g2.root, u) == EntryFor(CellAt(s.areas, u)) {
      LowerIsVpn(u);
    }
    UpperAndStop(w, s, w1, w3, Space(g2, s.areas, s.data), v);
  }

  /** Ownership after a failed mapping. */
  lemma MappingFailed(w: World, s: Space, p: nat, w1: World, w2: World, g2: Pgt, w3: World)
    requires OwnOk(w, s) && Takes(w, p, w1) && PgtOk(w2, g2) && Extends(w1, s.pgt, w2, g2)
    requires WorldOk(w3) && w3.tables == w2.tables && w3.frames == w2.frames && w3.live == w2.live - {p}
    ensures var s' := Space(g2, s.areas, s.data);
            && OwnOk(w3, s') && Others(w, s, w3, s') && KeepsBytes(w, s, w3, s')
  {
    hide AreasOk, DataOk, Tree, Extends, SameOutside, WorldOk;
    OwnershipGrows(w, s, p, w1, w2, g2, s.data[p := 0]);
    PgtStays(w2, g2, w3);
    hide PgtOk, WorldOk, Takes;
    OwnedWithout(w2.live, g2.own, s.data.Keys, p);
  }

  lemma OwnedWithout(live: set<nat>, own: set<nat>, data: set<nat>, p: nat)
    requires own + data + {p} <= live && p !in own && p !in data
    ensures live - {p} - (own + data) == live - (own + (data + {p}))
    ensures data <= live - {p}
  {
  }

  lemma PgtStays(w: World, g: Pgt, w': World)
    requires PgtOk(w, g) && WorldOk(w') && w'.tables == w.tables && g.role.Keys <= w'.live
    ensures PgtOk(w', g)
  {
  }

  // One round of the loop of `VMSpace::unmap`.

  lemma SmallBelowHalf(w: World, s: Space)
    requires SpaceOk(w, s)
    ensures SmallOnly(w.tables, s.pgt.root, 255)
  {
    hide LookupAt, CellAt, OwnOk;
    forall a, b, c | Near(a, b, c) && a <= 255 && LookupAt(w.tables, s.pgt.root, a, b, c).Mapped?
      ensures LookupAt(w.tables, s.pgt.root, a, b, c).level == 0
    {
      IndexRebuild(a, b, c);
      assert Lookup(w.tables, s.pgt.root, Rebuild(a, b, c)) == LookupAt(w.tables, s.pgt.root, a, b, c);
    }
  }

  /** The table range `[lo, hi)` was cleared, area `i` trimmed, and its pages given back. */
  lemma UnmapRound(w: World, s: Space, i: nat, start: nat, end: nat, w1: World, w2: World, s': Space)
    requires SpaceOk(w, s) && i < |s.areas| && !s.areas[i].Apart(start, end) && start < end <= LOWER_END
    requires Extends(w, s.pgt, w1, s.pgt) && PgtOk(w1, s.pgt)
    requires RangeRemoved(w.tables, w1.tables, s.pgt.root, Later(start, s.areas[i].start), Earlier(end, s.areas[i].end))
    requires WorldOk(w2) && w2.tables == w1.tables && w2.frames == w1.frames
             && w2.live == w1.live - Between(s.areas[i].pages, start, end).Values
    requires s' == Space(s.pgt, Trim(s.areas, i, start, end), s.data - Between(s.areas[i].pages, start, end).Values)
    requires SameLeafTables(w.tables, w1.tables, s.pgt.root)
    ensures SpaceOk(w2, s') && Step(w, s, w2, s') && (HasStop(w, s) ==> HasStop(w2, s'))
    ensures forall v: nat ::
              CellAt(s'.areas, v) == if s.areas[i].Contains(v) && start <= v < end then Nowhere else CellAt(s.areas, v)
  {
    hide AreasOk, PgtOk, Lookup, Trim, CellAt, IsVpn, HasLeafTable, Others, KeepsBytes;
    var gone := Between(s.areas[i].pages, start, end).Values;
    TrimOk(s.areas, i, start, end);
    GonePages(s, i, start, end);
    forall v: nat
      ensures CellAt(s'.areas, v) == if s.areas[i].Contains(v) && start <= v < end then Nowhere else CellAt(s.areas, v)
    {
      TrimCells(s.areas, i, start, end, v);
    }
    DataShrinks(s, i, start, end, s');
    UnmapOwnership(w, s, gone, w1, w2, s');
    forall v: nat | v < LOWER_END ensures Lookup(w2.tables, s.pgt.root, v) == EntryFor(CellAt(s'.areas, v)) {
      LowerIsVpn(v);
    }
    forall v | IsUpper(v) ensures Lookup(w2.tables, s.pgt.root, v) == Lookup(w.tables, s.pgt.root, v) {
      UpperIsVpn(v);
    }
    assert Near(255, 511, 0);
  }

  function Later(a: nat, b: nat): nat {
    if a <= b then b else a
  }

  function Earlier(a: nat, b: nat): nat {
    if a <= b then a else b
  }

  /** Before a round: the table's loop will find its stop, and the area is a lower-half one. */
  lemma RoundReady(w: World, s: Space, i: nat, start: nat, end: nat)
    requires SpaceOk(w, s) && HasStop(w, s) && i < |s.areas| && !s.areas[i].Apart(start, end)
             && start < end <= USER_END_VPN
    ensures PgtOk(w, s.pgt) && SmallOnly(w.tables, s.pgt.root, 255) && HasLeafTable(w.tables, s.pgt.root, 255, 511)
    ensures s.areas[i].end <= USER_END_VPN
    ensures var gone := Between(s.areas[i].pages, start, end);
            && (forall v, u :: v in gone && u in gone && gone[v] == gone[u] ==> v == u)
            && (forall v :: v in gone ==> gone[v] in w.live)
  {
    hide Lookup, HasLeafTable, CellAt, Tree;
    SmallBelowHalf(w, s);
    GonePages(s, i, start, end);
    assert s.areas[i].Ok();
  }

  /** The pages that each of the four cases drops are those inside the range. */
  lemma SplitPages(a: VMArea, start: nat, end: nat)
    requires a.Ok()
    ensures start <= a.start && a.end <= end ==> a.pages == Between(a.pages, start, end)
    ensures start <= a.start ==> Below(a.pages, end) == Between(a.pages, start, end)
    ensures a.end <= end ==> From(a.pages, start) == Between(a.pages, start, end)
    ensures Below(From(a.pages, start), end) == Between(a.pages, start, end)
  {
  }

  lemma AreaIsOk(s: Space, i: nat)
    requires AreasOk(s.areas) && i < |s.areas|
    ensures s.areas[i].Ok()
  {
  }

  /** The pages given back are those that back the trimmed page numbers. */
  lemma GonePages(s: Space, i: nat, start: nat, end: nat)
    requires AreasOk(s.areas) && DataOk(s.areas, s.data) && i < |s.areas|
    ensures var pages := s.areas[i].pages;
            && (forall p :: p in Between(pages, start, end).Values <==>
                p in s.data && s.areas[i].Contains(s.data[p]) && start <= s.data[p] < end)
            && (forall v, u :: v in pages && u in pages && pages[v] == pages[u] ==> v == u)
            && (forall v :: v in pages ==> pages[v] in s.data)
  {
    hide CellAt;
    var pages := s.areas[i].pages;
    assert s.areas[i].Ok();
    forall v | v in pages ensures pages[v] in s.data && s.data[pages[v]] == v {
      CellOf(s.areas, i, v);
    }
    forall p | p in s.data && s.areas[i].Contains(s.data[p]) && start <= s.data[p] < end
      ensures p in Between(pages, start, end).Values
    {
      CellOf(s.areas, i, s.data[p]);
      assert s.data[p] in Between(pages, start, end);
    }
  }

  lemma DataShrinks(s: Space, i: nat, start: nat, end: nat, s': Space)
    requires DataOk(s.areas, s.data) && i < |s.areas|
    requires var gone := Between(s.areas[i].pages, start, end).Values;
             && (forall p :: p in gone <==> p in s.data && s.areas[i].Contains(s.data[p]) && start <= s.data[p] < end)
             && s'.data == s.data - gone
    requires forall v: nat ::
               CellAt(s'.areas, v) == if s.areas[i].Contains(v) && start <= v < end then Nowhere else CellAt(s.areas, v)
    ensures DataOk(s'.areas, s'.data)
  {
    hide CellAt;
  }

  lemma UnmapOwnership(w: World, s: Space, gone: set<nat>, w1: World, w2: World, s': Space)
    requires OwnOk(w, s) && Extends(w, s.pgt, w1, s.pgt) && PgtOk(w1, s.pgt)
    requires gone <= s.data.Keys && s'.pgt == s.pgt && s'.data == s.data - gone && AreasOk(s'.areas)
             && DataOk(s'.areas, s'.data)
    requires WorldOk(w2) && w2.tables == w1.tables && w2.frames == w1.frames && w2.live == w1.live - gone
    ensures OwnOk(w2, s') && Others(w, s, w2, s') && KeepsBytes(w, s, w2, s')
  {
    hide AreasOk, DataOk, Tree, WorldOk;
  }

  lemma StepTrans(w0: World, s0: Space, w1: World, s1: Space, w2: World, s2: Space)
    requires OwnOk(w0, s0) && OwnOk(w1, s1) && (forall p :: p in s0.data && p in s2.data ==> p in s1.data)
    requires Step(w0, s0, w1, s1) && Step(w1, s1, w2, s2)
    ensures Step(w0, s0, w2, s2)
  {
    hide Lookup, HasLeafTable, AreasOk, DataOk, Tree;
  }

  /** A new, empty area changes no translation and no ownership. */
  lemma AreaAdded(w: World, s: Space, a: VMArea, s': Space)
    requires SpaceOk(w, s) && a.Ok() && a.pages == map[]
    requires forall v: nat :: a.Contains(v) ==> CellAt(s.areas, v) == Nowhere
    requires s' == Space(s.pgt, s.areas + [a], s.data)
    ensures SpaceOk(w, s') && Step(w, s, w, s')
    ensures forall v: nat :: CellAt(s'.areas, v) == if a.Contains(v) then CellIn(a, v) else CellAt(s.areas, v)
  {
    hide CellAt, Lookup, HasLeafTable, PgtOk, AreasOk;
    PushArea(s.areas, a);
  }

  lemma AreasApart(w: World, s: Space)
    requires SpaceOk(w, s)
    ensures Disjoint(s.areas)
  {
    hide Lookup, PgtOk, Disjoint;
  }

  // Dropping a space.

  /** The data pages that back page numbers of the first `k` areas. */
  ghost function PagesOf(s: Space, k: nat): set<nat>
    requires k <= |s.areas|
  {
    set p | p in s.data && exists j :: 0 <= j < k && s.areas[j].Contains(s.data[p])
  }

  lemma AllPages(s: Space)
    requires DataOk(s.areas, s.data)
    ensures PagesOf(s, |s.areas|) == s.data.Keys && PagesOf(s, 0) == {}
  {
  }

  lemma NextPages(s: Space, k: nat)
    requires AreasOk(s.areas) && DataOk(s.areas, s.data) && k < |s.areas|
    ensures var pages := s.areas[k].pages;
            && PagesOf(s, k + 1) == PagesOf(s, k) + (set v | v in pages :: pages[v])
            && (forall v :: v in pages ==> pages[v] in s.data && pages[v] !in PagesOf(s, k))
            && (forall v, u :: v in pages && u in pages && pages[v] == pages[u] ==> v == u)
  {
    hide CellAt;
    var pages := s.areas[k].pages;
    assert s.areas[k].Ok();
    GonePages(s, k, s.areas[k].start, s.areas[k].end);
    assert Between(pages, s.areas[k].start, s.areas[k].end) == pages;
    forall v | v in pages ensures pages[v] in s.data && s.data[pages[v]] == v {
      CellOf(s.areas, k, v);
    }
    forall p | p in PagesOf(s, k + 1) && p !in PagesOf(s, k) ensures p in pages.Values {
      var j :| 0 <= j < k + 1 && s.areas[j].Contains(s.data[p]);
      assert j == k;
    }
  }

  lemma OthersTrans(w0: World, s0: Space, w1: World, s1: Space, w2: World, s2: Space)
    requires Others(w0, s0, w1, s1) && Others(w1, s1, w2, s2)
    ensures Others(w0, s0, w2, s2)
  {
  }

  lemma TakenStays(w: World, p: nat, w1: World, g: Pgt, w2: World, g2: Pgt)
    requires Takes(w, p, w1) && Extends(w1, g, w2, g2)
    ensures p in w2.live
  {
  }
}
