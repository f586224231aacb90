/**
  What loading a program into a new space is proved against (os/src/mm/vm.rs): the contents of
  segment pages, and an area that is being filled page by page before it joins the list.
 */
module LoadSpec {
  import opened Layout
  import opened Pte
  import opened Memory
  import opened Walk
  import opened PageAlloc
  import opened PgtSpec
  import opened Areas
  import opened SpaceSpec

  const STACK_START_VPN: nat := USER_END_VPN - 2048
  const STACK_PERMISSIONS: nat := PERMISSION_R + PERMISSION_W + PERMISSION_U

  /** A program header: the fields that the loader reads. */
  datatype Segment = Segment(load: bool, vaddr: nat, memSize: nat, offset: nat, fileSize: nat, align: nat, r: bool,
                             w: bool, x: bool) {

    function Start(): nat {
      vaddr / PAGE_SIZE
    }

    function End(): nat {
      (vaddr + memSize + PAGE_SIZE - 1) / PAGE_SIZE
    }

    /** `get_permissions_from_ph_flags`. */
    function Permissions(): (p: nat)
      ensures KnownPermissions(p) && HasR(p) == r && HasW(p) == w && HasX(p) == x && HasU(p)
    {
      PERMISSION_U + (if r then PERMISSION_R else 0) + (if w then PERMISSION_W else 0) + (if x then PERMISSION_X else 0)
    }

    /** Pages that loading may take: each one and at most two tables. */
    function PagesNeeded(): nat {
      if Start() <= End() then 3 * (End() - Start()) else 0
    }

    /** What the loader needs of a header and does not check: it would divide by zero, index
        outside the file, or map outside user space. */
    predicate Loadable(elf: seq<byte>) {
      align > 0 && offset + fileSize <= |elf| && End() <= USER_END_VPN
    }

    /** The user stack, whose area is pushed unchecked, stays free. */
    predicate BelowStack() {
      End() <= STACK_START_VPN
    }
  }

  /** In numbers: contents inside the file, and an end at or below the 8 MiB of the stack. */
  lemma HeadersInNumbers(seg: Segment, elf: seq<byte>)
    ensures seg.Loadable(elf) && seg.BelowStack() <==>
            && seg.align > 0 && seg.offset + seg.fileSize <= |elf|
            && seg.vaddr + seg.memSize <= 0x40_0000_0000 - 4096 - 0x80_0000
  {
  }

  function FileByte(elf: seq<byte>, i: nat): byte {
    if i < |elf| then elf[i] else 0
  }

  /** Byte `i` of a segment, counted from its first page: file bytes, then zeros. */
  function PageByte(elf: seq<byte>, offset: nat, fileSize: nat, i: nat): byte {
    if i < fileSize then FileByte(elf, offset + i) else 0
  }

  /** The contents of page `k` of a segment. */
  function SegmentFrame(elf: seq<byte>, offset: nat, fileSize: nat, k: nat): (f: Frame)
    ensures |f| == PAGE_SIZE
    ensures forall j :: 0 <= j < PAGE_SIZE ==> f[j] == PageByte(elf, offset, fileSize, k * PAGE_SIZE + j)
  {
    seq<byte>(PAGE_SIZE, j requires 0 <= j < PAGE_SIZE => PageByte(elf, offset, fileSize, k * PAGE_SIZE + j))
  }

  /** The frame with its first `n` bytes taken from `bytes`, as far as these go. */
  function Overlay(f: Frame, bytes: seq<byte>, n: nat): (g: Frame)
    ensures |g| == |f|
    ensures forall j :: 0 <= j < |f| ==> g[j] == if j < n && j < |bytes| then bytes[j] else f[j]
  {
    seq<byte>(|f|, j requires 0 <= j < |f| => if j < n && j < |bytes| then bytes[j] else f[j])
  }

  lemma OverlayNext(f: Frame, bytes: seq<byte>, n: nat)
    requires n < |bytes| && n < |f|
    ensures |Overlay(f, bytes, n)| == |f| && SetByte(Overlay(f, bytes, n), n, bytes[n]) == Overlay(f, bytes, n + 1)
  {
  }

  lemma OverlayEnds(f: Frame, bytes: seq<byte>)
    ensures Overlay(f, bytes, 0) == f
    ensures |bytes| <= |f| ==> Overlay(f, bytes, |bytes|) == Overlay(f, bytes, |f|)
  {
  }

  /** Every page of the segment is resident with the segment's permissions and contents. */
  ghost predicate Loaded(w: World, s: Space, elf: seq<byte>, seg: Segment)
  {
    forall v: nat :: seg.Start() <= v < seg.End() ==>
      var c := CellAt(s.areas, v);
      && c.InArea? && c.mapType.Anonymous? && c.permissions == seg.Permissions() && c.page.Some?
      && c.page.value in w.frames
         && w.frames[c.page.value] == SegmentFrame(elf, seg.offset, seg.fileSize, v - seg.Start())
  }

  /** Page numbers that had an area have the same one, with the same page. */
  ghost predicate CellsKept(s: Space, s': Space) {
    forall v: nat :: CellAt(s.areas, v).InArea? ==> CellAt(s'.areas, v) == CellAt(s.areas, v)
  }

  /** Only page numbers in `[lo, hi)` may have got an area or a page. */
  ghost predicate CellsOutside(s: Space, s': Space, lo: nat, hi: nat) {
    forall v: nat :: !(lo <= v < hi) ==> CellAt(s'.areas, v) == CellAt(s.areas, v)
  }

  lemma StaysLoaded(w: World, s: Space, w': World, s': Space, elf: seq<byte>, seg: Segment)
    requires Loaded(w, s, elf, seg)
    requires OwnOk(w, s) && OwnOk(w', s') && Step(w, s, w', s') && CellsKept(s, s')
    ensures Loaded(w', s', elf, seg)
  {
    hide CellAt, PgtOk, AreasOk, Lookup, HasLeafTable, Others, SegmentFrame;
    OwnParts(w, s);
    OwnParts(w', s');
    forall v: nat | seg.Start() <= v < seg.End()
      ensures CellAt(s'.areas, v) == CellAt(s.areas, v)
      ensures var p := CellAt(s.areas, v).page.value; p in w'.frames && w'.frames[p] == w.frames[p]
    {
      var p := CellAt(s.areas, v).page.value;
      assert p in s.data && p in s'.data;
    }
  }

  // Reading through the page table.

  /** The byte behind `va` in the page table, if the address is translated.  A load also needs
      that the page may be read; an execute-only page has bytes that no load gets. */
  ghost function UserByte(w: World, root: nat, va: nat): Option<byte> {
    var t := Translate(w.tables, root, va / PAGE_SIZE);
    if t.Hit? && t.ppn in w.frames && |w.frames[t.ppn]| == PAGE_SIZE then Some(w.frames[t.ppn][va % PAGE_SIZE])
        else None
  }

  /** Loading is faithful from the start of the segment's first page on: there the translated
      byte at distance `i` is file byte `offset + i`, and zero past the file size. */
  lemma LoadedBytes(w: World, s: Space, elf: seq<byte>, seg: Segment, i: nat)
    requires SpaceOk(w, s) && Loaded(w, s, elf, seg)
    requires (seg.r || seg.x) && seg.End() <= USER_END_VPN && i < (seg.End() - seg.Start()) * PAGE_SIZE
    ensures UserByte(w, s.pgt.root, seg.Start() * PAGE_SIZE + i) == Some(PageByte(elf, seg.offset, seg.fileSize, i))
  {
    hide CellAt, Lookup, Translate, Tree, AreasOk, DataOk, HasR, HasX, HasW, HasU, HasV;
    var va := seg.Start() * PAGE_SIZE + i;
    var v := va / PAGE_SIZE;
    var k := i / PAGE_SIZE;
    assert v == seg.Start() + k && va % PAGE_SIZE == i % PAGE_SIZE;
    assert k < seg.End() - seg.Start();
    var p := CellAt(s.areas, v).page.value;
    TranslationIsAreas(w, s, v);
    assert Translate(w.tables, s.pgt.root, v) == Hit(p, seg.Permissions() + FLAG_V);
    assert k * PAGE_SIZE + i % PAGE_SIZE == i;
  }

  /** So byte `vaddr + i` is file byte `offset + i` whenever the header's address is page
      aligned, and zero past the file size. */
  lemma AlignedSegmentIsFaithful(w: World, s: Space, elf: seq<byte>, seg: Segment, i: nat)
    requires SpaceOk(w, s) && Loaded(w, s, elf, seg) && seg.Loadable(elf)
    requires (seg.r || seg.x) && i < seg.memSize && seg.vaddr % 4096 == 0
    ensures UserByte(w, s.pgt.root, seg.vaddr + i) == Some(if i < seg.fileSize then elf[seg.offset + i] else 0)
  {
    hide UserByte, Loaded, SpaceOk;
    UnalignedSegmentIsShifted(w, s, elf, seg, i);
  }

  /** With an unaligned address the loader puts the data where the page starts, so byte
      `vaddr + i` is read as file byte `offset + i + vaddr % 4096`. */
  lemma UnalignedSegmentIsShifted(w: World, s: Space, elf: seq<byte>, seg: Segment, i: nat)
    requires SpaceOk(w, s) && Loaded(w, s, elf, seg) && seg.Loadable(elf)
    requires (seg.r || seg.x) && i < seg.memSize
    ensures var k := i + seg.vaddr % 4096;
            UserByte(w, s.pgt.root, seg.vaddr + i) == Some(if k < seg.fileSize then elf[seg.offset + k] else 0)
  {
    ShiftedBytes(w, s, elf, seg, i);
  }

  /** The same for whatever the header says of the file. */
  lemma ShiftedBytes(w: World, s: Space, elf: seq<byte>, seg: Segment, i: nat)
    requires SpaceOk(w, s) && Loaded(w, s, elf, seg)
    requires (seg.r || seg.x) && seg.End() <= USER_END_VPN && i < seg.memSize
    ensures UserByte(w, s.pgt.root, seg.vaddr + i) ==
              Some(PageByte(elf, seg.offset, seg.fileSize, i + seg.vaddr % PAGE_SIZE))
  {
    hide UserByte, PageByte, Loaded, SpaceOk;
    assert seg.vaddr == seg.Start() * PAGE_SIZE + seg.vaddr % PAGE_SIZE;
    assert seg.vaddr + i < seg.End() * PAGE_SIZE;
    LoadedBytes(w, s, elf, seg, i + seg.vaddr % PAGE_SIZE);
  }

  /** The user reads at `vaddr + i` what the file says. */
  ghost predicate Faithful(w: World, root: nat, elf: seq<byte>, seg: Segment, i: nat) {
    UserByte(w, root, seg.vaddr + i) == Some(PageByte(elf, seg.offset, seg.fileSize, i))
  }

  /** Moving the segment's bytes by the page offset of its address does not change byte `i`. */
  predicate ShiftInvisible(elf: seq<byte>, seg: Segment, i: nat) {
    PageByte(elf, seg.offset, seg.fileSize, i + seg.vaddr % PAGE_SIZE) == PageByte(elf, seg.offset, seg.fileSize, i)
  }

  /** Loading is faithful exactly if the address is page aligned or the shift cannot be seen. */
  lemma FaithfulIff(w: World, s: Space, elf: seq<byte>, seg: Segment)
    requires SpaceOk(w, s) && Loaded(w, s, elf, seg)
    requires (seg.r || seg.x) && seg.End() <= USER_END_VPN
    ensures (forall i: nat :: i < seg.memSize ==> Faithful(w, s.pgt.root, elf, seg, i))
       <==> seg.vaddr % PAGE_SIZE == 0 || forall i: nat :: i < seg.memSize ==> ShiftInvisible(elf, seg, i)
  {
    hide UserByte, PageByte, Loaded, SpaceOk;
    forall i: nat | i < seg.memSize
      ensures Faithful(w, s.pgt.root, elf, seg, i) <==> ShiftInvisible(elf, seg, i)
      ensures seg.vaddr % PAGE_SIZE == 0 ==> ShiftInvisible(elf, seg, i)
    {
      ShiftedBytes(w, s, elf, seg, i);
    }
  }

  /** Whatever the program, a segment that starts at the second byte of a page and whose first two
      bytes differ is misplaced: the user reads the second byte where the first one should be. */
  lemma ShiftIsVisible(w: World, s: Space, elf: seq<byte>, seg: Segment)
    requires SpaceOk(w, s) && Loaded(w, s, elf, seg) && seg.Loadable(elf) && (seg.r || seg.x)
    requires seg.vaddr % PAGE_SIZE == 1 && seg.fileSize >= 2 && seg.memSize > 0
    requires elf[seg.offset] != elf[seg.offset + 1]
    ensures UserByte(w, s.pgt.root, seg.vaddr) == Some(elf[seg.offset + 1]) && !Faithful(w, s.pgt.root, elf, seg, 0)
  {
    hide UserByte, Loaded, SpaceOk;
    UnalignedSegmentIsShifted(w, s, elf, seg, 0);
  }

  // An area that is being filled.

  /** Every page number that has an area has a page. */
  ghost predicate AllResident(areas: seq<VMArea>) {
    forall v: nat :: v < LOWER_END && CellAt(areas, v).InArea? ==> CellAt(areas, v).page.Some?
  }

  /** The page numbers of `part` so far hold the first pages of the segment. */
  ghost predicate Filled(w: World, part: VMArea, elf: seq<byte>, offset: nat, fileSize: nat)
  {
    forall v: nat :: part.Contains(v) ==>
      v in part.pages && part.pages[v] in w.frames
          && w.frames[part.pages[v]] == SegmentFrame(elf, offset, fileSize, v - part.start)
  }

  /** The list with the part of a new area that has been filled. */
  ghost function With(s: Space, part: VMArea): Space {
    s.(areas := s.areas + [part])
  }

  /** The part grows by one page number that has no area yet. */
  lemma GrowPart(w: World, s: Space, part: VMArea)
    requires SpaceOk(w, With(s, part)) && AllResident(With(s, part).areas)
    requires part.mapType.Anonymous? && part.end < USER_END_VPN && Lookup(w.tables, s.pgt.root, part.end) == Absent
    ensures CellAt(With(s, part).areas, part.end) == Nowhere
    ensures SpaceOk(w, With(s, part.(end := part.end + 1)))
    ensures Step(w, With(s, part), w, With(s, part.(end := part.end + 1)))
    ensures forall v: nat ::
              CellAt(With(s, part.(end := part.end + 1)).areas, v) ==
              if v == part.end then InArea(part.mapType, part.permissions, None) else CellAt(With(s, part).areas, v)
  {
    hide PgtOk, Lookup, HasLeafTable, CellAt, AreasOk;
    GrowLast(s.areas, part);
  }

  /** Dropping a partly filled area: its pages leave, the tables stay. */
  lemma DropPart(w: World, s: Space, part: VMArea, data: map<nat, nat>)
    requires OwnOk(w, With(s, part))
    requires data == s.data - part.pages.Values
    ensures AreasOk(s.areas) && DataOk(s.areas, data)
    ensures (forall v :: v in part.pages ==> part.pages[v] in s.data)
    ensures (forall v, u :: v in part.pages && u in part.pages && part.pages[v] == part.pages[u] ==> v == u)
    ensures forall v: nat :: CellAt(s.areas, v) == if part.Contains(v) then Nowhere else CellAt(With(s, part).areas, v)
  {
    hide PgtOk, CellAt;
    DropLast(s.areas, part);
    GonePages(With(s, part), |s.areas|, part.start, part.end);
    assert Between(part.pages, part.start, part.end) == part.pages;
    hide AreasOk, With;
    assert forall p :: p in part.pages.Values <==> p in s.data && part.Contains(s.data[p]);
  }

  /** The part of a new area that the loop of `map_user_elf_segment` has done so far. */
  ghost predicate Loading(w: World, s: Space, part: VMArea, elf: seq<byte>, seg: Segment)
  {
    && SpaceOk(w, With(s, part)) && AllResident(With(s, part).areas)
    && part.mapType.Anonymous? && part.start == seg.Start() && part.permissions == seg.Permissions()
    && Filled(w, part, elf, seg.offset, seg.fileSize)
  }

  lemma LoadingStart(w: World, s: Space, elf: seq<byte>, seg: Segment)
    requires SpaceOk(w, s) && AllResident(s.areas) && seg.Loadable(elf) && seg.Start() <= seg.End()
    ensures var part := VMArea(seg.Start(), seg.Start(), Anonymous, seg.Permissions(), map[]);
            Loading(w, s, part, elf, seg) && Advanced(w, s, w, With(s, part), part.start, part.end)
  {
    hide CellAt, PgtOk, Lookup, AreasOk, DataOk, HasLeafTable;
    var part := VMArea(seg.Start(), seg.Start(), Anonymous, seg.Permissions(), map[]);
    AreaAdded(w, s, part, With(s, part));
  }

  /** A page with the next contents was taken and mapped at the part's end. */
  lemma LoadingNext(w: World, s: Space, part: VMArea, elf: seq<byte>, seg: Segment, p: nat, w1: World, w2: World,
                    g2: Pgt)
    requires seg.Loadable(elf) && Loading(w, s, part, elf, seg) && part.start <= part.end < seg.End()
    requires Takes(w, p, w1) && WorldOk(w2) && p in w1.frames
             && w1.frames[p] == SegmentFrame(elf, seg.offset, seg.fileSize, part.end - part.start)
    requires Extends(w1, s.pgt, w2, g2) && PgtOk(w2, g2) && LeafTablesGrow(w1.tables, w2.tables, g2.root, part.end)
    requires Lookup(w1.tables, s.pgt.root, part.end) == Absent
    requires forall x :: IsVpn(x) ==>
               Lookup(w2.tables, g2.root, x) ==
                 if x == part.end then Mapped(0, p, part.permissions + FLAG_V) else Lookup(w1.tables, g2.root, x)
    ensures var s' := Space(g2, s.areas, s.data[p := part.end]);
            var next := part.(end := part.end + 1, pages := part.pages[part.end := p]);
            && Loading(w2, s', next, elf, seg)
            && Advanced(w, With(s, part), w2, With(s', next), part.end, part.end + 1)
  {
    hide CellAt, PgtOk, Lookup, AreasOk, DataOk, HasLeafTable, LeafTablesGrow, WorldOk, Agrees, IsVpn, SegmentFrame,
      Extends, Filled;
    OwnParts(w, With(s, part));
    var v := part.end;
    var more := part.(end := v + 1);
    var s' := Space(g2, s.areas, s.data[p := v]);
    var next := more.(pages := part.pages[v := p]);
    TakePage(w, With(s, part), p, w1);
    GrowPart(w, s, part);
    PartOk(s, part);
    PartOk(s, more);
    assert With(s', next).areas == With(s, more).areas[|s.areas| := next];
    FaultMapped(w, With(s, more), |s.areas|, v, p, w1, w2, g2, With(s', next));
    StepTrans(w, With(s, part), w, With(s, more), w2, With(s', next));
    PageKept(w, s.pgt, With(s, part), p, w1, w2, g2);
    FilledNext(w, s, part, elf, seg, p, w2, s', next);
    forall u: nat | u < LOWER_END && CellAt(With(s', next).areas, u).InArea?
      ensures CellAt(With(s', next).areas, u).page.Some?
    {
      if u != v {
        assert CellAt(With(s', next).areas, u) == CellAt(With(s, part).areas, u);
      }
    }
  }

  /** Mapping a page does not write to it. */
  lemma PageKept(w: World, g: Pgt, s: Space, p: nat, w1: World, w2: World, g2: Pgt)
    requires OwnOk(w, s) && g == s.pgt && Takes(w, p, w1) && Extends(w1, g, w2, g2) && p in w1.frames
    ensures p in w2.frames && w2.frames[p] == w1.frames[p] && p !in s.data
  {
    hide Tree, AreasOk, DataOk, WorldOk;
  }

  lemma FilledNext(w: World, s: Space, part: VMArea, elf: seq<byte>, seg: Segment, p: nat, w2: World, s': Space,
                   next: VMArea)
    requires part.start == seg.Start() && part.start <= part.end
    requires AreasOk(With(s, part).areas) && DataOk(With(s, part).areas, s.data)
             && Filled(w, part, elf, seg.offset, seg.fileSize)
    requires next == part.(end := part.end + 1, pages := part.pages[part.end := p])
    requires WorldOk(w) && WorldOk(w2) && KeepsBytes(w, With(s, part), w2, With(s', next))
             && s'.data == s.data[p := part.end] && p !in s.data
    requires p in w2.frames && w2.frames[p] == SegmentFrame(elf, seg.offset, seg.fileSize, part.end - part.start)
    ensures Filled(w2, next, elf, seg.offset, seg.fileSize)
  {
    hide CellAt, SegmentFrame;
    forall v: nat | next.Contains(v)
      ensures v in next.pages && next.pages[v] in w2.frames
      ensures w2.frames[next.pages[v]] == SegmentFrame(elf, seg.offset, seg.fileSize, v - next.start)
    {
      if v < part.end {
        assert part.Contains(v) && With(s, part).areas[|s.areas|].Contains(v);
        CellOf(With(s, part).areas, |s.areas|, v);
        assert part.pages[v] in s.data;
      }
    }
  }

  lemma PartOk(s: Space, part: VMArea)
    requires AreasOk(With(s, part).areas)
    ensures part.Ok()
  {
    assert With(s, part).areas[|s.areas|] == part;
  }

  /** Loading was given up: the pages of the part go back; the tables still hold stale entries,
      so only ownership is claimed of what remains. */
  lemma PartDropped(w: World, s: Space, part: VMArea, w': World, s': Space)
    requires OwnOk(w, With(s, part))
    requires WorldOk(w') && w'.tables == w.tables && w'.frames == w.frames && w'.live == w.live - part.pages.Values
    requires s' == Space(s.pgt, s.areas, s.data - part.pages.Values)
    ensures OwnOk(w', s') && Others(w, With(s, part), w', s')
  {
    hide Tree, AreasOk, DataOk;
    DropPart(w, s, part, s'.data);
    WalkStart(w, s.pgt, 0);
    UnmapOwnership(w, With(s, part), part.pages.Values, w, w', s');
  }

  /** Loading is complete: the part is the segment's area. */
  lemma LoadingDone(w: World, s: Space, part: VMArea, elf: seq<byte>, seg: Segment)
    requires Loading(w, s, part, elf, seg) && part.end == seg.End()
    ensures Loaded(w, With(s, part), elf, seg)
    ensures SpaceOk(w, With(s, part)) && OwnOk(w, With(s, part)) && AllResident(With(s, part).areas)
  {
    hide SegmentFrame, CellAt, PgtOk, DataOk, Agrees;
    forall v: nat | seg.Start() <= v < seg.End() ensures CellAt(With(s, part).areas, v) == CellIn(part, v) {
      assert With(s, part).areas[|s.areas|].Contains(v);
      CellOf(With(s, part).areas, |s.areas|, v);
    }
  }

  lemma OthersItself(w: World, s: Space)
    ensures Others(w, s, w, s)
  {
  }

  lemma StepOthers(w: World, s: Space, w': World, s': Space)
    requires Step(w, s, w', s')
    ensures Others(w, s, w', s')
  {
  }

  lemma PartPermissions(s: Space, part: VMArea, seg: Segment)
    requires part.permissions == seg.Permissions()
    ensures KnownPermissions(part.permissions)
  {
  }

  /** The pages of the part may be given back. */
  lemma PartPages(w: World, s: Space, part: VMArea)
    requires OwnOk(w, With(s, part))
    ensures forall v :: v in part.pages ==> part.pages[v] in w.live
    ensures forall v, u :: v in part.pages && u in part.pages && part.pages[v] == part.pages[u] ==> v == u
  {
    hide PgtOk, AreasOk, DataOk;
    DropPart(w, s, part, s.data - part.pages.Values);
  }

  lemma LoadingOwned(w: World, s: Space, part: VMArea, elf: seq<byte>, seg: Segment)
    requires Loading(w, s, part, elf, seg)
    ensures OwnOk(w, With(s, part))
  {
  }

  /** Loading has gone on over the page numbers `[lo, hi)` and has kept everything else. */
  ghost predicate Advanced(w0: World, s0: Space, w: World, s: Space, lo: nat, hi: nat) {
    Step(w0, s0, w, s) && CellsKept(s0, s) && CellsOutside(s0, s, lo, hi) && s0.data.Keys <= s.data.Keys
  }

  lemma AdvancedMore(w0: World, s0: Space, w: World, s: Space, w': World, s': Space, lo: nat, mid: nat, hi: nat)
    requires OwnOk(w0, s0) && OwnOk(w, s) && lo <= mid <= hi
    requires Advanced(w0, s0, w, s, lo, mid) && Advanced(w, s, w', s', mid, hi)
    ensures Advanced(w0, s0, w', s', lo, hi)
  {
    hide CellAt, Step, OwnOk;
    StepTrans(w0, s0, w, s, w', s');
  }

  lemma AdvancedMeans(w0: World, s0: Space, w: World, s: Space, lo: nat, hi: nat)
    requires Advanced(w0, s0, w, s, lo, hi)
    ensures Step(w0, s0, w, s) && CellsKept(s0, s) && CellsOutside(s0, s, lo, hi) && Others(w0, s0, w, s)
  {
    hide CellsKept, CellsOutside, Others, KeepsBytes, SameUpper, HasStop;
  }

  lemma AdvancedAt(w0: World, s0: Space, w: World, s: Space, lo: nat, hi: nat)
    requires Advanced(w0, s0, w, s, lo, hi)
    ensures CellAt(s.areas, hi) == CellAt(s0.areas, hi)
  {
    hide CellAt, Step;
  }

  /** With every page resident, a page number is mapped exactly if it has an area. */
  lemma PartLookup(w: World, s: Space, part: VMArea, v: nat)
    requires SpaceOk(w, With(s, part)) && AllResident(With(s, part).areas) && v < LOWER_END
    ensures Lookup(w.tables, s.pgt.root, v).Mapped? <==> CellAt(With(s, part).areas, v).InArea?
    ensures Lookup(w.tables, s.pgt.root, v) == Absent <==> CellAt(With(s, part).areas, v) == Nowhere
  {
    hide CellAt, Lookup, OwnOk;
  }

  lemma FreeLookup(w: World, s: Space, v: nat)
    requires SpaceOk(w, s) && FreeFrom(s, STACK_START_VPN) && STACK_START_VPN <= v < LOWER_END
    ensures Lookup(w.tables, s.pgt.root, v) == Absent
  {
    hide CellAt, Lookup, OwnOk;
  }

  // Programs that are refused.

  /** `map_user_elf_segment` cannot load the segment beside these areas. */
  ghost predicate SegmentRefused(areas: seq<VMArea>, seg: Segment) {
    || (seg.align > 0 && PAGE_SIZE % seg.align != 0)
    || exists v: nat :: seg.Start() <= v < seg.End() && (Unmappable(seg.Permissions()) || CellAt(areas, v).InArea?)
  }

  predicate Covers(seg: Segment, v: nat) {
    seg.load && seg.Start() <= v < seg.End()
  }

  /** Segment `i` has an alignment that does not divide a page, or it has pages and can be
      written but not read, or it has a page in common with an earlier segment. */
  ghost predicate RefusedAt(segments: seq<Segment>, i: nat)
    requires i < |segments|
  {
    && segments[i].load
    && (|| (segments[i].align > 0 && PAGE_SIZE % segments[i].align != 0)
        || exists v: nat :: Covers(segments[i], v)
                         && (Unmappable(segments[i].Permissions()) || exists j :: 0 <= j < i && Covers(segments[j], v)))
  }

  ghost predicate ProgramRefused(segments: seq<Segment>) {
    exists i :: 0 <= i < |segments| && RefusedAt(segments, i)
  }

  /** Segments `a` and `b` have a page in common. */
  predicate SharePage(a: Segment, b: Segment) {
    var (a0, a1) := (a.vaddr / 4096, (a.vaddr + a.memSize + 4095) / 4096);
    var (b0, b1) := (b.vaddr / 4096, (b.vaddr + b.memSize + 4095) / 4096);
    a0 < a1 && b0 < b1 && a0 < b1 && b0 < a1
  }

  /** In numbers: a program is refused exactly if one of the segments that are to be loaded has an
      alignment that does not divide 4096, or has pages and can be written but not read, or has a
      page in common with an earlier one. */
  lemma RefusedPrograms(segments: seq<Segment>)
    ensures ProgramRefused(segments) <==>
            exists i ::
              && 0 <= i < |segments| && segments[i].load
              && (|| (segments[i].align > 0 && 4096 % segments[i].align != 0)
                  || (SharePage(segments[i], segments[i]) && segments[i].w && !segments[i].r)
                  || exists j :: 0 <= j < i && segments[j].load && SharePage(segments[i], segments[j]))
  {
    hide SharePage;
    forall i | 0 <= i < |segments| && segments[i].load
      ensures (exists v: nat :: Covers(segments[i], v)) <==> SharePage(segments[i], segments[i])
      ensures forall j :: 0 <= j < i && segments[j].load ==>
                ((exists v: nat :: Covers(segments[i], v) && Covers(segments[j], v))
                    <==> SharePage(segments[i], segments[j]))
    {
      SharedPages(segments[i], segments[i]);
      forall j | 0 <= j < i && segments[j].load
        ensures (exists v: nat :: Covers(segments[i], v) && Covers(segments[j], v))
           <==> SharePage(segments[i], segments[j])
      {
        SharedPages(segments[i], segments[j]);
      }
    }
    hide Covers;
    forall i | 0 <= i < |segments|
      ensures RefusedAt(segments, i) <==>
              && segments[i].load
              && (|| (segments[i].align > 0 && 4096 % segments[i].align != 0)
                  || (SharePage(segments[i], segments[i]) && segments[i].w && !segments[i].r)
                  || exists j :: 0 <= j < i && segments[j].load && SharePage(segments[i], segments[j]))
    {
    }
  }

  lemma SharedPages(a: Segment, b: Segment)
    requires a.load && b.load
    ensures (exists v: nat :: Covers(a, v) && Covers(b, v)) <==> SharePage(a, b)
  {
    if SharePage(a, b) {
      var v := if a.Start() < b.Start() then b.Start() else a.Start();
      assert Covers(a, v) && Covers(b, v);
    }
  }

  /** A segment without memory at a page boundary is not refused, and its area holds no page number. */
  lemma EmptySegment(seg: Segment, elf: seq<byte>)
    requires seg.memSize == 0 && seg.vaddr % 4096 == 0 && seg.align > 0 && 4096 % seg.align == 0
    ensures !ProgramRefused([seg]) && seg.Start() == seg.End()
  {
  }

  /** Pages that the first `n` segments may take. */
  function PagesUpTo(segments: seq<Segment>, n: nat): nat
    requires n <= |segments|
  {
    if n == 0 then 0
    else PagesUpTo(segments, n - 1) + if segments[n - 1].load then segments[n - 1].PagesNeeded() else 0
  }

  /** Pages with which a program is sure to be loaded: a root table, the segments, three for the
      user stack, and one kernel stack. */
  function ProgramPages(segments: seq<Segment>): nat {
    1 + PagesUpTo(segments, |segments|) + 4
  }

  lemma {:induction false} PagesGrow(segments: seq<Segment>, n: nat)
    requires n <= |segments|
    ensures PagesUpTo(segments, n) <= PagesUpTo(segments, |segments|)
    decreases |segments| - n
  {
    if n < |segments| {
      PagesGrow(segments, n + 1);
    }
  }

  lemma {:induction false} PagesOfMore(segments: seq<Segment>, seg: Segment, n: nat)
    requires n <= |segments|
    ensures PagesUpTo(segments + [seg], n) == PagesUpTo(segments, n)
  {
    if n > 0 {
      PagesOfMore(segments, seg, n - 1);
    }
  }

  /** In numbers: five pages, and three for each page of each segment that is loaded. */
  lemma PagesForPrograms(segments: seq<Segment>, seg: Segment)
    ensures ProgramPages([]) == 5
    ensures ProgramPages(segments + [seg]) == ProgramPages(segments) +
              if seg.load then 3 * ((seg.vaddr + seg.memSize + 4095) / 4096 - seg.vaddr / 4096) else 0
  {
    PagesOfMore(segments, seg, |segments|);
  }

  lemma NotLoadedIsFine(segments: seq<Segment>, i: nat)
    requires i < |segments| && !segments[i].load
    ensures !RefusedAt(segments, i)
  {
  }

  /** When the earlier segments have been loaded, the areas decide as the headers do. */
  lemma RefusedMeans(w: World, s: Space, elf: seq<byte>, segments: seq<Segment>, i: nat)
    requires i < |segments| && segments[i].load && segments[i].Loadable(elf) && segments[i].BelowStack()
    requires AllLoaded(w, s, elf, segments[..i]) && OnlyFrom(s, segments[..i])
    ensures SegmentRefused(s.areas, segments[i]) <==> RefusedAt(segments, i)
  {
    hide CellAt, SegmentFrame, Unmappable;
    forall v: nat | Covers(segments[i], v)
      ensures CellAt(s.areas, v).InArea? <==> exists j :: 0 <= j < i && Covers(segments[j], v)
    {
      if CellAt(s.areas, v).InArea? {
        assert InSegment(segments[..i], v, CellAt(s.areas, v).permissions);
        var j :| 0 <= j < |segments[..i]| && segments[..i][j].load
            && segments[..i][j].Start() <= v < segments[..i][j].End();
        assert Covers(segments[j], v);
      }
      if j :| 0 <= j < i && Covers(segments[j], v) {
        assert segments[..i][j] == segments[j];
        assert Loaded(w, s, elf, segments[..i][j]);
      }
    }
    if SegmentRefused(s.areas, segments[i]) && PAGE_SIZE % segments[i].align == 0 {
      var v: nat :| segments[i].Start() <= v < segments[i].End()
          && (Unmappable(segments[i].Permissions()) || CellAt(s.areas, v).InArea?);
      assert Covers(segments[i], v);
    }
  }

  // The two stacks.

  /** `add_user_stack_area` does not look at the other areas: they stay disjoint exactly if none
      of them reached into the range of the stack. */
  lemma StackFitsIff(areas: seq<VMArea>, pages: map<nat, nat>)
    requires Disjoint(areas)
    ensures Disjoint(areas + [VMArea(STACK_START_VPN, USER_END_VPN, Anonymous, STACK_PERMISSIONS, pages)])
       <==> forall v: nat :: STACK_START_VPN <= v < USER_END_VPN ==> CellAt(areas, v) == Nowhere
  {
    var stack := VMArea(STACK_START_VPN, USER_END_VPN, Anonymous, STACK_PERMISSIONS, pages);
    if forall v: nat :: STACK_START_VPN <= v < USER_END_VPN ==> CellAt(areas, v) == Nowhere {
      PushDisjoint(areas, stack);
    } else {
      var v: nat :| STACK_START_VPN <= v < USER_END_VPN && CellAt(areas, v) != Nowhere;
      var i :| 0 <= i < |areas| && areas[i].Contains(v);
      assert (areas + [stack])[i].Contains(v) && (areas + [stack])[|areas|].Contains(v);
    }
  }

  /** A program whose only segment is the first page of the stack's range is not refused, and its
      areas would overlap. */
  lemma StackCanOverlap(seg: Segment, area: VMArea, pages: map<nat, nat>)
    requires seg == Segment(true, STACK_START_VPN * PAGE_SIZE, PAGE_SIZE, 0, 0, 1, true, false, false)
    requires area.start == seg.Start() && area.end == seg.End()
    ensures seg.Loadable([]) && !ProgramRefused([seg])
    ensures !Disjoint([area] + [VMArea(STACK_START_VPN, USER_END_VPN, Anonymous, STACK_PERMISSIONS, pages)])
  {
    assert area.Contains(STACK_START_VPN);
    CellOfOnly([area], 0, STACK_START_VPN);
    StackFitsIff([area], pages);
  }

  /** The user's stack is there, and the pages of it that are resident hold zeros. */
  ghost predicate StackReady(w: World, s: Space) {
    forall v: nat :: STACK_START_VPN <= v < USER_END_VPN ==>
      var c := CellAt(s.areas, v);
      && c.InArea? && c.mapType.Anonymous? && c.permissions == STACK_PERMISSIONS
      && (c.page.Some? ==> c.page.value in w.frames && w.frames[c.page.value] == ZeroFrame())
      && (v == USER_END_VPN - 1 ==> c.page.Some?)
  }

  /** In numbers: the 8 MiB below the end of user space are an area with U, R and W and without X,
      and the first page that the stack grows into is resident. */
  lemma StackIsThere(w: World, s: Space, va: nat)
    requires StackReady(w, s) && 0x40_0000_0000 - 4096 - 0x80_0000 <= va < 0x40_0000_0000 - 4096
    ensures var c := CellAt(s.areas, va / 4096);
            c.InArea? && c.permissions == 2 + 4 + 16 && (va >= 0x40_0000_0000 - 8192 ==> c.page.Some?)
  {
    hide CellAt, ZeroFrame;
  }

  lemma StackStaysReady(w: World, s: Space, w': World, s': Space)
    requires StackReady(w, s) && OwnOk(w, s) && OwnOk(w', s') && Step(w, s, w', s') && CellsKept(s, s')
    ensures StackReady(w', s')
  {
    hide CellAt, PgtOk, AreasOk, Lookup, HasLeafTable, Others, ZeroFrame;
    OwnParts(w, s);
    OwnParts(w', s');
    forall v: nat | STACK_START_VPN <= v < USER_END_VPN && CellAt(s.areas, v).page.Some?
      ensures CellAt(s'.areas, v) == CellAt(s.areas, v)
      ensures var p := CellAt(s.areas, v).page.value; p in w'.frames && w'.frames[p] == w.frames[p]
    {
      var p := CellAt(s.areas, v).page.value;
      assert p in s.data && p in s'.data;
    }
  }

  lemma NewPageStays(w: World, s: Space, p: nat, w1: World, w2: World, g2: Pgt)
    requires SpaceOk(w, s) && Takes(w, p, w1) && Extends(w1, s.pgt, w2, g2)
    ensures p in w1.frames ==> p in w2.frames && w2.frames[p] == w1.frames[p]
  {
    TakePage(w, s, p, w1);
    hide PgtOk, AreasOk, DataOk, Agrees;
  }

  /** Every segment that is to be loaded has memory or starts inside a page. */
  predicate NoEmptySegment(segments: seq<Segment>) {
    forall i :: 0 <= i < |segments| && segments[i].load ==> segments[i].memSize > 0 || segments[i].vaddr % 4096 != 0
  }

  lemma SegmentAdded(areas: seq<VMArea>, areas': seq<VMArea>, segments: seq<Segment>, i: nat)
    requires NoEmptySegment(segments) && NoneEmpty(areas) && i < |segments| && segments[i].load
    requires |areas'| == |areas| + 1 && areas'[..|areas|] == areas && areas'[|areas|].start == segments[i].Start()
             && areas'[|areas|].end == segments[i].End()
    ensures NoneEmpty(areas')
  {
    NoneEmptyMore(areas, areas'[|areas|]);
    assert areas' == areas + [areas'[|areas|]];
  }

  /** The space holds the program and an empty stack, and the lower half nothing else. */
  ghost predicate ProgramIn(w: World, s: Space, elf: seq<byte>, segments: seq<Segment>) {
    && AllLoaded(w, s, elf, segments) && OnlyFrom(s, segments) && StackReady(w, s)
    && (NoEmptySegment(segments) ==> NoneEmpty(s.areas))
  }

  lemma StackPages()
    ensures IsValidVa(USER_SPACE_END) && IsValidVa(USER_SPACE_END - PAGE_SIZE)
            && IsValidVa(USER_SPACE_END - USER_STACK_MAX_SIZE)
    ensures VpnFromVa(USER_SPACE_END) == USER_END_VPN && VpnFromVa(USER_SPACE_END - PAGE_SIZE) == USER_END_VPN - 1
            && VpnFromVa(USER_SPACE_END - USER_STACK_MAX_SIZE) == STACK_START_VPN
  {
  }

  /** The first user stack page was mapped and its area pushed. */
  lemma StackAdded(w: World, s: Space, p: nat, w1: World, w2: World, g2: Pgt, a: VMArea)
    requires SpaceOk(w, s) && Takes(w, p, w1) && WorldOk(w2)
    requires forall v: nat :: STACK_START_VPN <= v < USER_END_VPN ==> CellAt(s.areas, v) == Nowhere
    requires a == VMArea(STACK_START_VPN, USER_END_VPN, Anonymous, STACK_PERMISSIONS, map[USER_END_VPN - 1 := p])
    requires Extends(w1, s.pgt, w2, g2) && PgtOk(w2, g2)
             && LeafTablesGrow(w1.tables, w2.tables, g2.root, USER_END_VPN - 1)
    requires forall x :: IsVpn(x) ==>
               Lookup(w2.tables, g2.root, x) ==
               if x == USER_END_VPN - 1 then Mapped(0, p, STACK_PERMISSIONS + FLAG_V) else Lookup(w1.tables, g2.root, x)
    ensures var s' := Space(g2, s.areas + [a], s.data[p := USER_END_VPN - 1]);
            && (p in w1.frames && w1.frames[p] == ZeroFrame() ==> StackReady(w2, s'))
            && SpaceOk(w2, s') && Step(w, s, w2, s') && HasStop(w2, s') && CellsKept(s, s')
            && CellsOutside(s, s', STACK_START_VPN, USER_END_VPN) && OwnOk(w2, s') && Others(w, s, w2, s')
            && forall v: nat :: STACK_START_VPN <= v < USER_END_VPN ==> CellAt(s'.areas, v) == CellIn(a, v)
  {
    hide CellAt, PgtOk, Lookup, AreasOk, DataOk, HasLeafTable, LeafTablesGrow, WorldOk, Agrees, Extends, Step,
      ZeroFrame;
    NewPageStays(w, s, p, w1, w2, g2);
    var a0 := a.(pages := map[]);
    var s1 := s.(areas := s.areas + [a0]);
    var s' := Space(g2, s.areas + [a], s.data[p := USER_END_VPN - 1]);
    AreaAdded(w, s, a0, s1);
    assert s'.areas == s1.areas[|s.areas| := s1.areas[|s.areas|].(pages := a0.pages[USER_END_VPN - 1 := p])];
    FaultMapped(w, s1, |s.areas|, USER_END_VPN - 1, p, w1, w2, g2, s');
    StepTrans(w, s, w, s1, w2, s');
    assert IsVpn(USER_END_VPN - 1);
    MappedHasTable(w2.tables, g2.root, USER_END_VPN - 1);
    StepOthers(w, s, w2, s');
  }

  /** The kernel stack page was taken and its upper-half area pushed; nothing is mapped. */
  lemma KernelStackAdded(w: World, s: Space, p: nat, w1: World, a: VMArea)
    requires SpaceOk(w, s) && Takes(w, p, w1)
    requires forall v: nat :: v >= LOWER_END ==> CellAt(s.areas, v) == Nowhere
    requires a == VMArea(LinearVpn(p), LinearVpn(p) + 1, KernelVaOffset, PERMISSION_R + PERMISSION_W,
                         map[LinearVpn(p) := p])
    ensures var s' := Space(s.pgt, s.areas + [a], s.data[p := LinearVpn(p)]);
            SpaceOk(w1, s') && Step(w, s, w1, s') && CellsKept(s, s')
                && CellsOutside(s, s', LinearVpn(p), LinearVpn(p) + 1)
  {
    hide PgtOk, Lookup, AreasOk, HasLeafTable, CellAt;
    var s' := Space(s.pgt, s.areas + [a], s.data[p := LinearVpn(p)]);
    TakePage(w, s, p, w1);
    OwnParts(w1, s);
    PushArea(s.areas, a);
    KernelStackOwned(w, s, p, w1, s');
    forall v: nat | v < LOWER_END ensures Lookup(w1.tables, s.pgt.root, v) == EntryFor(CellAt(s'.areas, v)) {
    }
  }

  lemma KernelStackOwned(w: World, s: Space, p: nat, w1: World, s': Space)
    requires OwnOk(w, s) && OwnOk(w1, s) && Takes(w, p, w1) && AreasOk(s'.areas)
    requires s'.pgt == s.pgt && s'.data == s.data[p := LinearVpn(p)]
    requires CellAt(s.areas, LinearVpn(p)) == Nowhere
    requires CellAt(s'.areas, LinearVpn(p)).InArea? && CellAt(s'.areas, LinearVpn(p)).page == Some(p)
    requires forall u: nat :: u != LinearVpn(p) ==> CellAt(s'.areas, u) == CellAt(s.areas, u)
    ensures OwnOk(w1, s') && Others(w, s, w1, s') && KeepsBytes(w, s, w1, s')
  {
    hide AreasOk, CellAt, Tree, WorldOk;
    WalkStart(w1, s.pgt, 0);
    OwnershipGrows(w, s, p, w1, w1, s.pgt, s'.data);
    hide PgtOk, Takes;
    assert DataOk(s'.areas, s'.data);
  }

  // A new space before anything is mapped in it.

  lemma NewSpace(w: World, g: Pgt)
    requires PgtOk(w, g) && forall v: nat :: v < LOWER_END ==> Lookup(w.tables, g.root, v) == Absent
    ensures SpaceOk(w, Space(g, [], map[])) && AllResident([]) && forall v: nat :: CellAt([], v) == Nowhere
  {
    hide PgtOk, Lookup;
  }

  ghost predicate AllLoaded(w: World, s: Space, elf: seq<byte>, segments: seq<Segment>)
  {
    forall i :: 0 <= i < |segments| && segments[i].load ==> Loaded(w, s, elf, segments[i])
  }

  lemma AllStayLoaded(w: World, s: Space, w': World, s': Space, elf: seq<byte>, segments: seq<Segment>)
    requires AllLoaded(w, s, elf, segments)
    requires OwnOk(w, s) && OwnOk(w', s') && Step(w, s, w', s') && CellsKept(s, s')
    ensures AllLoaded(w', s', elf, segments)
  {
    hide Loaded, OwnOk, Step, CellsKept;
    forall i | 0 <= i < |segments| && segments[i].load ensures Loaded(w', s', elf, segments[i]) {
      StaysLoaded(w, s, w', s', elf, segments[i]);
    }
  }

  /** The loadable segments and the stack have areas in the lower half, and nothing else has. */
  ghost predicate OnlyFrom(s: Space, segments: seq<Segment>) {
    forall v: nat :: v < LOWER_END && CellAt(s.areas, v).InArea? ==>
      || InSegment(segments, v, CellAt(s.areas, v).permissions)
      || (STACK_START_VPN <= v < USER_END_VPN && CellAt(s.areas, v).permissions == STACK_PERMISSIONS)
  }

  ghost predicate InSegment(segments: seq<Segment>, v: nat, permissions: nat) {
    exists i :: 0 <= i < |segments| && segments[i].load && segments[i].Start() <= v < segments[i].End()
        && permissions == segments[i].Permissions()
  }

  lemma OnlyFromNext(s: Space, s': Space, segments: seq<Segment>, i: nat, w': World, elf: seq<byte>)
    requires i < |segments| && OnlyFrom(s, segments[..i])
    requires if segments[i].load
             then CellsOutside(s, s', segments[i].Start(), segments[i].End()) && Loaded(w', s', elf, segments[i])
                 else s' == s
    ensures OnlyFrom(s', segments[..i + 1])
  {
    hide CellAt, SegmentFrame;
  }

  lemma OnlyFromStack(s: Space, w': World, s': Space, segments: seq<Segment>)
    requires OnlyFrom(s, segments) && CellsOutside(s, s', STACK_START_VPN, USER_END_VPN) && StackReady(w', s')
    ensures OnlyFrom(s', segments)
  {
    hide CellAt, InSegment;
  }

  lemma OnlyFromUpper(s: Space, s': Space, segments: seq<Segment>)
    requires OnlyFrom(s, segments) && CellsOutside(s, s', UPPER_START, UPPER_END)
    ensures OnlyFrom(s', segments)
  {
    hide CellAt, InSegment;
  }

  /** Everything in the lower half is accessible to the user. */
  ghost predicate AllUser(areas: seq<VMArea>) {
    forall v: nat :: v < LOWER_END && CellAt(areas, v).InArea? ==> HasU(CellAt(areas, v).permissions)
  }

  lemma OnlyFromIsUser(s: Space, segments: seq<Segment>)
    requires OnlyFrom(s, segments)
    ensures AllUser(s.areas)
  {
    hide CellAt, HasU;
    assert HasU(STACK_PERMISSIONS) by { StackIsUser(); }
  }

  lemma StackFlags()
    ensures KnownPermissions(STACK_PERMISSIONS) && IsValidFlags(STACK_PERMISSIONS + FLAG_V)
  {
  }

  lemma StackIsUser()
    ensures HasU(STACK_PERMISSIONS)
  {
  }

  /** Nothing has an area from page number `lo` on. */
  ghost predicate FreeFrom(s: Space, lo: nat) {
    forall v: nat :: v >= lo ==> CellAt(s.areas, v) == Nowhere
  }

  /** Loading a program goes on: what holds between two steps of `new_user`. */
  ghost predicate Building(w0: World, w: World, s0: Space, s: Space) {
    SpaceOk(w, s) && OwnOk(w, s) && Step(w0, s0, w, s) && Others(w0, s0, w, s)
  }

  lemma BuildingStart(w: World, s: Space)
    requires SpaceOk(w, s)
    ensures Building(w, w, s, s)
  {
    hide OwnOk, Agrees, Step, Others;
    NoStep(w, s);
    OthersItself(w, s);
  }

  /** A step of `new_user` that kept the cells there were. */
  lemma BuildingNext(w0: World, w: World, s0: Space, s: Space, w': World, s': Space, lo: nat, hi: nat, top: nat)
    requires Building(w0, w, s0, s) && OwnOk(w0, s0) && s0.data == map[]
    requires SpaceOk(w', s') && Step(w, s, w', s') && CellsOutside(s, s', lo, hi)
    ensures Building(w0, w', s0, s')
    ensures hi <= top && FreeFrom(s, top) ==> FreeFrom(s', top)
  {
    hide Agrees, CellAt, Others, KeepsBytes, SameUpper, HasStop, PgtOk, AreasOk, DataOk;
    StepTrans(w0, s0, w, s, w', s');
  }

  lemma NoneResident(w: World, s: Space)
    requires OwnOk(w, s) && s.areas == []
    ensures s.data == map[]
  {
    hide PgtOk;
  }

  lemma EmptyBuild(w: World, s: Space, elf: seq<byte>)
    requires s.areas == []
    ensures AllResident(s.areas) && FreeFrom(s, STACK_START_VPN) && AllLoaded(w, s, elf, []) && OnlyFrom(s, [])
    ensures NoneEmpty(s.areas)
  {
  }

  lemma FreeAbove(s: Space, lo: nat, hi: nat)
    requires lo <= hi && FreeFrom(s, lo)
    ensures FreeFrom(s, hi)
  {
    hide CellAt;
  }

  lemma OneMoreLoaded(w: World, s: Space, elf: seq<byte>, segments: seq<Segment>, i: nat)
    requires i < |segments| && AllLoaded(w, s, elf, segments[..i])
             && (segments[i].load ==> Loaded(w, s, elf, segments[i]))
    ensures AllLoaded(w, s, elf, segments[..i + 1])
  {
    hide Loaded;
  }

  lemma OutsideUpper(s: Space, s': Space, p: nat)
    requires IsRam(p) && CellsOutside(s, s', LinearVpn(p), LinearVpn(p) + 1)
    ensures CellsOutside(s, s', UPPER_START, UPPER_END)
  {
    hide CellAt;
  }

  lemma BuildingMeans(w0: World, w1: World, s0: Space, s1: Space, w: World, s: Space)
    requires Building(w0, w, s0, s) && Step(w1, s1, w, s) && HasStop(w1, s1)
    ensures Others(w0, s0, w, s) && SameUpper(w0.tables, w.tables, s0.pgt.root) && HasStop(w, s) && OwnOk(w, s)
    ensures s.pgt.root == s0.pgt.root
  {
    hide Lookup, HasLeafTable, OwnOk, Agrees, KeepsBytes, SameOn;
  }

  lemma FreeMeans(s: Space)
    requires FreeFrom(s, STACK_START_VPN)
    ensures forall v: nat :: STACK_START_VPN <= v < USER_END_VPN ==> CellAt(s.areas, v) == Nowhere
  {
    hide CellAt;
  }

  lemma KernelLower(t: Tables, k: Pgt)
    requires KernelOnly(t, k)
    ensures forall v: nat :: v < LOWER_END ==> Lookup(t, k.root, v) == Absent
  {
    hide Lookup;
  }

  lemma SameOnItself(w: World, kept: set<nat>)
    ensures SameOn(w, w, kept)
  {
  }

  lemma SameOnLive(w0: World, w1: World, w2: World, kept: set<nat>)
    requires SameOn(w0, w1, kept) && w2.tables == w1.tables && w2.frames == w1.frames
    ensures SameOn(w0, w2, kept)
  {
  }

  lemma UpperMeans(t: Tables, t': Tables, root: nat)
    ensures SameUpper(t, t', root) ==> forall v :: IsUpper(v) ==> Lookup(t', root, v) == Lookup(t, root, v)
  {
    hide Lookup;
  }

  /** The root page of a new space was taken, and the space was built on it. */
  lemma BuiltFor(w0: World, root: nat, w1: World, s1: Space, w: World, s: Space)
    requires s1.pgt.own == {root} && s1.data == map[] && {root} !! w0.live && w1.live == w0.live + {root}
    requires SameOutside(w0, w1, {root}) && Others(w1, s1, w, s) && OwnOk(w, s)
    ensures SameOn(w0, w, w0.live) && Owned(s) !! w0.live && w.live == w0.live + Owned(s)
    ensures s.pgt.root == s1.pgt.root && Shared(s.pgt) <= Shared(s1.pgt)
  {
    hide Tree, AreasOk, DataOk, WorldOk;
    assert w.live - Owned(s) == w0.live;
  }

  lemma CopyShares(t: Tables, k: Pgt, p: nat)
    requires KernelOnly(t, k)
    ensures Shared(CopyOf(k, p)) <= k.own
  {
  }
}
