/**
  What the methods of `RootPgt` are proved against: snapshots of memory and of one tree,
  their invariant, and the steps of the in-place walk as steps on snapshots.
 */
module PgtSpec {
  import opened Layout
  import opened Pte
  import opened Memory
  import opened Walk
  import opened PageAlloc

  /** Physical memory and the set of pages that some `Page` value stands for. */
  datatype World = World(frames: map<nat, Frame>, tables: Tables, live: set<nat>)

  /** One tree: its root, the pages it owns, and the role of every table it can reach. */
  datatype Pgt = Pgt(root: nat, own: set<nat>, role: Roles)

  ghost function WorldOf(mem: PhysMem, alloc: PageAllocator): World
    reads mem, alloc
  {
    World(mem.frames, mem.tables, alloc.Live())
  }

  ghost predicate WorldOk(w: World) {
    && (forall p :: p in w.tables <==> IsRam(p))
    && (forall p :: p in w.frames <==> IsRam(p))
    && (forall p :: p in w.tables ==> |w.tables[p]| == PTES_PER_TABLE)
    && (forall p :: p in w.frames ==> |w.frames[p]| == PAGE_SIZE)
    && (forall p :: p in w.live ==> IsRam(p))
  }

  /** Tables below the upper half of a root; those that a user tree shares are of this kind. */
  predicate IsHigh(r: Role) {
    !r.Root? && r.i2 >= 256
  }

  ghost predicate PgtOk(w: World, g: Pgt) {
    && WorldOk(w)
    && Tree(w.tables, g.root, g.role)
    && g.root in g.own && g.own <= g.role.Keys <= w.live
    && (forall p :: p in g.role && p !in g.own ==> IsHigh(g.role[p]))
  }

  /** Pages outside `own` keep their contents. */
  ghost predicate SameOutside(w: World, w': World, own: set<nat>) {
    && (forall q :: q in w.tables && q !in own ==> q in w'.tables && w'.tables[q] == w.tables[q])
    && (forall q :: q in w.frames && q !in own ==> q in w'.frames && w'.frames[q] == w.frames[q])
  }

  /** The tree may have gained tables, taken from pages that were not live; nothing outside
      its own pages was written, and no page was given back. */
  ghost predicate Extends(w: World, g: Pgt, w': World, g': Pgt) {
    && g'.root == g.root && g.own <= g'.own
    && (forall p :: p in g.role ==> p in g'.role && g'.role[p] == g.role[p])
    && (forall p :: p in g'.role <==> p in g.role || p in g'.own)
    && (g'.own - g.own) !! w.live
    && w'.live == w.live + g'.own
    && SameOutside(w, w', g'.own)
  }

  ghost predicate SameLookups(t: Tables, t': Tables, root: nat) {
    forall a, b, c :: Near(a, b, c) ==> LookupAt(t', root, a, b, c) == LookupAt(t, root, a, b, c)
  }

  /** Leaf tables stay, and only the one on the path of `v` may be new. */
  ghost predicate LeafTablesGrow(t: Tables, t': Tables, root: nat, v: nat) {
    && (forall a, b :: Near(a, b, 0) && HasLeafTable(t, root, a, b) ==> HasLeafTable(t', root, a, b))
    && (forall a, b :: Near(a, b, 0) && HasLeafTable(t', root, a, b) ==>
          HasLeafTable(t, root, a, b) || (a == Index(v, 2) && b == Index(v, 1)))
  }

  /** Tables were linked on the path of `v`, and nothing else happened. */
  ghost predicate Grown(w: World, g: Pgt, w': World, g': Pgt, v: nat) {
    && Extends(w, g, w', g')
    && SameLookups(w.tables, w'.tables, g.root)
    && LeafTablesGrow(w.tables, w'.tables, g.root, v)
    && NewTablesOn(g, g', v)
  }

  /** Tables that are new lie below the level-2 slot of `v`. */
  ghost predicate NewTablesOn(g: Pgt, g': Pgt, v: nat) {
    forall p :: p in g'.role && p !in g.role ==> !g'.role[p].Root? && g'.role[p].i2 == Index(v, 2)
  }

  ghost predicate SameLeafTables(t0: Tables, t: Tables, root: nat) {
    forall a, b :: Near(a, b, 0) ==> HasLeafTable(t, root, a, b) == HasLeafTable(t0, root, a, b)
  }

  /** The tree owns every table on the path of `v`. */
  ghost predicate OwnsPath(g: Pgt, v: nat) {
    Index(v, 2) < 256 || g.role.Keys == g.own
  }

  /** The walk for `v` has come down to table `p` at `level`. */
  ghost predicate Reached(t: Tables, g: Pgt, v: nat, level: nat, p: nat) {
    var i2, i1 := Index(v, 2), Index(v, 1);
    var e2 := Slot(t, g.root, i2);
    && level <= 2 && p in g.role
    && (level == 2 ==> p == g.root)
    && (level == 1 ==> e2.IsValid() && !e2.IsLeaf() && p == e2.ppn && g.role[p] == L1(i2))
    && (level == 0 ==> HasLeafTable(t, g.root, i2, i1) && p == Slot(t, e2.ppn, i1).ppn && g.role[p] == L0(i2, i1))
  }

  /** The walk starts at the root. */
  lemma WalkStart(w: World, g: Pgt, v: nat)
    requires PgtOk(w, g)
    ensures Reached(w.tables, g, v, 2, g.root) && Grown(w, g, w, g, v)
    ensures Extends(w, g, w, g) && LeafTablesGrow(w.tables, w.tables, g.root, v) && NewTablesOn(g, g, v)
    ensures SameLeafTables(w.tables, w.tables, g.root)
  {
  }

  lemma ReachedOwned(w: World, g: Pgt, v: nat, level: nat, p: nat)
    requires PgtOk(w, g) && OwnsPath(g, v) && Reached(w.tables, g, v, level, p)
    ensures p in g.own && IsRam(p)
    ensures p in g.role && p in w.tables && |w.tables[p]| == PTES_PER_TABLE
    ensures g.role[p].L0? <==> level == 0
  {
  }

  lemma OwnLive(w: World, g: Pgt)
    requires PgtOk(w, g)
    ensures g.own <= w.live && g.role.Keys <= w.live
  {
  }

  /** Following a valid entry that is not a leaf. */
  lemma Descend(w: World, g: Pgt, v: nat, level: nat, p: nat)
    requires PgtOk(w, g) && 0 < level <= 2 && Reached(w.tables, g, v, level, p)
    requires w.tables[p][Index(v, level)].IsValid() && !w.tables[p][Index(v, level)].IsLeaf()
    ensures Reached(w.tables, g, v, level - 1, w.tables[p][Index(v, level)].ppn)
  {
  }

  /** What the walk has met decides the lookup. */
  lemma ReachedLookup(w: World, g: Pgt, v: nat, level: nat, p: nat)
    requires PgtOk(w, g) && Reached(w.tables, g, v, level, p)
    ensures var e := w.tables[p][Index(v, level)];
            if !e.IsValid() then Lookup(w.tables, g.root, v) == Absent
            else level == 0 || e.IsLeaf() ==> Lookup(w.tables, g.root, v).Mapped?
  {
  }

  /** The fresh page `child` was zeroed and slot `i` of page `p` made to point to it. */
  ghost predicate PointsTo(w: World, p: nat, i: nat, child: nat, w': World) {
    && i < PTES_PER_TABLE && child !in w.live && IsRam(child) && p in w.tables && |w.tables[p]| == PTES_PER_TABLE
    && w'.tables == w.tables[child := ZeroTable()][p := w.tables[p][i := PTE(0, child, FLAG_V)]]
    && (forall q :: q in w.frames && q != p && q != child ==> q in w'.frames && w'.frames[q] == w.frames[q])
    && WorldOk(w') && w'.live == w.live + {child}
  }

  lemma MappedHasTable(t: Tables, root: nat, v: nat)
    requires Lookup(t, root, v).Mapped? && Lookup(t, root, v).level == 0
    ensures HasLeafTable(t, root, Index(v, 2), Index(v, 1))
  {
  }

  /** Where a leaf table hangs on the path of `v`, the walk finds no invalid entry on its way. */
  lemma PathValid(w: World, g: Pgt, v: nat, level: nat, p: nat)
    requires PgtOk(w, g) && 0 < level && Reached(w.tables, g, v, level, p)
    requires HasLeafTable(w.tables, g.root, Index(v, 2), Index(v, 1))
    ensures w.tables[p][Index(v, level)].IsValid()
  {
  }

  lemma StillLeafTable(t: Tables, t': Tables, root: nat, v: nat)
    requires LeafTablesGrow(t, t', root, v) && HasLeafTable(t, root, Index(v, 2), Index(v, 1))
    ensures HasLeafTable(t', root, Index(v, 2), Index(v, 1))
  {
    hide HasLeafTable;
    assert Near(Index(v, 2), Index(v, 1), 0);
  }

  /** `w'` and `g'` come from `w` and `g` by linking the empty table `child` into slot `i` of `p`. */
  ghost predicate Links(w: World, g: Pgt, p: nat, i: nat, child: nat, w': World, g': Pgt) {
    && PointsTo(w, p, i, child, w')
    && p in g.own && p in g.role && !g.role[p].L0? && !w.tables[p][i].IsValid()
    && g' == Pgt(g.root, g.own + {child}, g.role[child := ChildRole(g.role[p], i)])
  }

  lemma LinkOwnership(w: World, g: Pgt, p: nat, i: nat, child: nat, w': World, g': Pgt)
    requires PgtOk(w, g) && p in g.role && Links(w, g, p, i, child, w', g')
    requires !IsHigh(g'.role[child]) || g.role.Keys == g.own
    ensures g'.root in g'.own && g'.own <= g'.role.Keys <= w'.live
    ensures forall q :: q in g'.role && q !in g'.own ==> IsHigh(g'.role[q])
    ensures Extends(w, g, w', g')
  {
    hide Tree, IsHigh, ChildRole, WorldOk;
  }

  /** One round of the loop of `map_create` that has to create the next table. */
  lemma LinkStep(w: World, g: Pgt, v: nat, level: nat, p: nat, child: nat, w': World, g': Pgt)
    requires PgtOk(w, g) && OwnsPath(g, v)
    requires 0 < level && Reached(w.tables, g, v, level, p)
    requires p in g.role && Links(w, g, p, Index(v, level), child, w', g')
    ensures PgtOk(w', g') && OwnsPath(g', v) && Grown(w, g, w', g', v)
    ensures Reached(w'.tables, g', v, level, p)
    ensures w'.tables[p][Index(v, level)] == PTE(0, child, FLAG_V)
    ensures level == 2 ==> SameLeafTables(w.tables, w'.tables, g.root)
  {
    hide LookupAt, SlotOk, SameOutside, WorldOk, Index;
    LinkTable(w.tables, g.root, g.role, p, Index(v, level), child, w'.tables, g'.role);
    LinkOwnership(w, g, p, Index(v, level), child, w', g');
  }

  lemma ExtendsTrans(w0: World, g0: Pgt, w1: World, g1: Pgt, w2: World, g2: Pgt)
    requires Extends(w0, g0, w1, g1) && Extends(w1, g1, w2, g2)
    ensures Extends(w0, g0, w2, g2)
  {
  }

  /** Rounds of the loop add up. */
  lemma GrownTrans(w0: World, g0: Pgt, w1: World, g1: Pgt, w2: World, g2: Pgt, v: nat)
    requires Grown(w0, g0, w1, g1, v) && Grown(w1, g1, w2, g2, v)
    ensures Grown(w0, g0, w2, g2, v)
  {
    hide LookupAt, HasLeafTable, SameOutside;
    ExtendsTrans(w0, g0, w1, g1, w2, g2);
  }

  lemma WorldIsOk(mem: PhysMem, alloc: PageAllocator)
    requires mem.Valid() && alloc.Valid()
    ensures WorldOk(WorldOf(mem, alloc))
  {
  }

  lemma GrownMeans(w0: World, g0: Pgt, w: World, g: Pgt, v: nat)
    requires Grown(w0, g0, w, g, v)
    ensures g.root == g0.root && Extends(w0, g0, w, g) && LeafTablesGrow(w0.tables, w.tables, g0.root, v)
    ensures NewTablesOn(g0, g, v)
    ensures forall x: nat :: Lookup(w.tables, g0.root, x) == Lookup(w0.tables, g0.root, x)
  {
    hide Lookup;
    forall x: nat ensures Lookup(w.tables, g0.root, x) == Lookup(w0.tables, g0.root, x) {
      SameLookup(w0.tables, w.tables, g0.root, x);
    }
  }

  lemma SameLookup(t: Tables, t': Tables, root: nat, v: nat)
    requires SameLookups(t, t', root)
    ensures Lookup(t', root, v) == Lookup(t, root, v)
  {
    hide LookupAt;
  }

  /** The final write of `map_create`. */
  lemma LeafStep(w: World, g: Pgt, v: nat, p: nat, e: PTE, w': World)
    requires PgtOk(w, g) && OwnsPath(g, v) && IsVpn(v)
    requires Reached(w.tables, g, v, 0, p)
    requires e.reserved == 0 && IsValidFlags(e.flags)
    requires w'.tables == w.tables[p := w.tables[p][Index(v, 0) := e]]
    requires WorldOk(w') && w'.live == w.live
    requires forall q :: q in w.frames && q != p ==> w'.frames[q] == w.frames[q]
    ensures PgtOk(w', g) && Extends(w, g, w', g)
    ensures forall x :: IsVpn(x) ==>
              Lookup(w'.tables, g.root, x) == if x == v then Mapped(0, e.ppn, e.flags) else Lookup(w.tables, g.root, x)
    ensures LeafTablesGrow(w.tables, w'.tables, g.root, v)
  {
    ReachedOwned(w, g, v, 0, p);
    var leaves := w.tables[p][Index(v, 0) := e];
    forall i | 0 <= i < PTES_PER_TABLE ensures SlotOk(leaves[i], L0(Index(v, 2), Index(v, 1)), i, g.role) {
      assert SlotOk(w.tables[p][i], g.role[p], i, g.role);
    }
    ReplaceLeafTable(w.tables, g.root, g.role, Index(v, 2), Index(v, 1), p, leaves, w'.tables);
    forall x | IsVpn(x)
      ensures Lookup(w'.tables, g.root, x) == if x == v then Mapped(0, e.ppn, e.flags) else Lookup(w.tables, g.root, x)
    {
      assert Near(Index(x, 2), Index(x, 1), Index(x, 0));
      if x != v && Index(x, 2) == Index(v, 2) && Index(x, 1) == Index(v, 1) {
        assert Index(x, 0) != Index(v, 0) by {
          if Index(x, 0) == Index(v, 0) { IndexInjective(x, v); }
        }
      }
    }
  }

  /** The final write after the walk: the whole effect of a successful `map_create`. */
  lemma MapDone(w0: World, g0: Pgt, w: World, g: Pgt, v: nat, p: nat, e: PTE, w': World)
    requires PgtOk(w, g) && OwnsPath(g, v) && IsVpn(v)
    requires Grown(w0, g0, w, g, v)
    requires Reached(w.tables, g, v, 0, p)
    requires e.reserved == 0 && IsValidFlags(e.flags)
    requires w'.tables == w.tables[p := w.tables[p][Index(v, 0) := e]]
    requires WorldOk(w') && w'.live == w.live
    requires forall q :: q in w.frames && q != p ==> w'.frames[q] == w.frames[q]
    ensures PgtOk(w', g) && Extends(w0, g0, w', g) && g.root == g0.root
    ensures forall x :: IsVpn(x) ==>
              Lookup(w'.tables, g.root, x) == if x == v then Mapped(0, e.ppn, e.flags) else Lookup(w0.tables, g.root, x)
    ensures LeafTablesGrow(w0.tables, w'.tables, g.root, v) && NewTablesOn(g0, g, v)
  {
    hide Tree, Lookup, LookupAt, HasLeafTable, Reached, SameOutside, Index, PgtOk;
    LeafStep(w, g, v, p, e, w');
    ExtendsTrans(w0, g0, w, g, w', g);
    forall x | IsVpn(x)
      ensures Lookup(w'.tables, g.root, x) == if x == v then Mapped(0, e.ppn, e.flags) else Lookup(w0.tables, g.root, x)
    {
      SameLookup(w0.tables, w.tables, g.root, x);
    }
  }

  /** Rewriting one owned table keeps everything but the tree's own lookups. */
  lemma TableStep(w: World, g: Pgt, p: nat, leaves: seq<PTE>, w': World)
    requires PgtOk(w, g) && p in g.own && |leaves| == PTES_PER_TABLE
    requires w'.tables == w.tables[p := leaves] && WorldOk(w') && w'.live == w.live
    requires forall q :: q in w.frames && q != p ==> q in w'.frames && w'.frames[q] == w.frames[q]
    requires Tree(w'.tables, g.root, g.role)
    ensures PgtOk(w', g) && Extends(w, g, w', g)
  {
    hide Tree, IsHigh;
  }

  // Large pages.

  /** `v` and `x` lie in the same 2 MiB of virtual memory. */
  predicate SameLarge(v: nat, x: nat) {
    v / 512 == x / 512
  }

  lemma SameLargeIndex(v: nat, x: nat)
    requires IsVpn(v) && IsVpn(x)
    ensures SameLarge(v, x) <==> Index(v, 2) == Index(x, 2) && Index(v, 1) == Index(x, 1)
  {
    TopIndex(v);
    TopIndex(x);
    Digits(v);
    Digits(x);
    assert v / 512 == TopOf(v) * 512 + Index(v, 1);
    assert x / 512 == TopOf(x) * 512 + Index(x, 1);
  }

  /** The final write of `map_create_large`. */
  lemma LargeStep(w: World, g: Pgt, v: nat, p: nat, e: PTE, w': World)
    requires PgtOk(w, g) && OwnsPath(g, v) && IsVpn(v) && Reached(w.tables, g, v, 1, p)
    requires p in w.tables && |w.tables[p]| == PTES_PER_TABLE && !w.tables[p][Index(v, 1)].IsValid() && IsLargeLeaf(e)
    requires w'.tables == w.tables[p := w.tables[p][Index(v, 1) := e]]
    requires WorldOk(w') && w'.live == w.live
    requires forall q :: q in w.frames && q != p ==> q in w'.frames && w'.frames[q] == w.frames[q]
    ensures PgtOk(w', g) && Extends(w, g, w', g)
    ensures forall x :: IsVpn(x) ==>
              Lookup(w'.tables, g.root, x) ==
                if SameLarge(v, x) then Mapped(1, e.ppn, e.flags) else Lookup(w.tables, g.root, x)
    ensures SameLeafTables(w.tables, w'.tables, g.root)
  {
    ReachedOwned(w, g, v, 1, p);
    WriteLargeLeaf(w.tables, g.root, g.role, Index(v, 2), Index(v, 1), p, e, w'.tables);
    hide LookupAt, HasLeafTable, SlotOk, Index;
    TableStep(w, g, p, w'.tables[p], w');
    forall x | IsVpn(x)
      ensures Lookup(w'.tables, g.root, x) ==
                if SameLarge(v, x) then Mapped(1, e.ppn, e.flags) else Lookup(w.tables, g.root, x)
    {
      assert Near(Index(x, 2), Index(x, 1), Index(x, 0));
      SameLargeIndex(v, x);
    }
  }

  /** The final write after the walk: the whole effect of a successful `map_create_large`. */
  lemma LargeDone(w0: World, g0: Pgt, w: World, g: Pgt, v: nat, p: nat, e: PTE, w': World)
    requires PgtOk(w, g) && OwnsPath(g, v) && IsVpn(v) && Reached(w.tables, g, v, 1, p)
    requires Grown(w0, g0, w, g, v) && SameLeafTables(w0.tables, w.tables, g0.root)
    requires p in w.tables && |w.tables[p]| == PTES_PER_TABLE && !w.tables[p][Index(v, 1)].IsValid() && IsLargeLeaf(e)
    requires w'.tables == w.tables[p := w.tables[p][Index(v, 1) := e]]
    requires WorldOk(w') && w'.live == w.live
    requires forall q :: q in w.frames && q != p ==> q in w'.frames && w'.frames[q] == w.frames[q]
    ensures PgtOk(w', g) && Extends(w0, g0, w', g) && g.root == g0.root && NewTablesOn(g0, g, v)
    ensures LargeMapped(w0.tables, w'.tables, g.root, v, Mapped(1, e.ppn, e.flags))
    ensures SameLeafTables(w0.tables, w'.tables, g.root)
  {
    hide PgtOk, Reached, Lookup, SameLeafTables, Extends, IsLargeLeaf, SameLookups, WorldOk;
    GrownMeans(w0, g0, w, g, v);
    LargeStep(w, g, v, p, e, w');
    ExtendsTrans(w0, g0, w, g, w', g);
    SameLeafTablesTrans(w0.tables, w.tables, w'.tables, g.root);
  }

  /** The page numbers in the 2 MiB of `v` have the entry `e`, all others what they had. */
  ghost predicate LargeMapped(t: Tables, t': Tables, root: nat, v: nat, e: Entry) {
    forall x :: IsVpn(x) ==> Lookup(t', root, x) == if SameLarge(v, x) then e else Lookup(t, root, x)
  }

  ghost predicate SameOnVpns(t: Tables, t': Tables, root: nat) {
    forall x :: IsVpn(x) ==> Lookup(t', root, x) == Lookup(t, root, x)
  }

  /** The number with the low nine bits cleared. */
  function LargeBase(n: nat): (b: nat)
    ensures b <= n < b + 512 && b % 512 == 0
  {
    n / 512 * 512
  }

  /** Before the final write of `map_create_large` only tables have been linked. */
  lemma LargeUnchanged(w0: World, g0: Pgt, w: World, g: Pgt, v: nat)
    requires Grown(w0, g0, w, g, v)
    ensures Extends(w0, g0, w, g) && g.root == g0.root && NewTablesOn(g0, g, v)
            && SameOnVpns(w0.tables, w.tables, g.root)
    ensures Lookup(w.tables, g.root, v) == Lookup(w0.tables, g0.root, v)
  {
    hide Extends, NewTablesOn, Lookup, LeafTablesGrow;
    GrownMeans(w0, g0, w, g, v);
  }

  /** A level-1 slot that is neither a leaf nor a pointer is invalid. */
  lemma EmptyLargeSlot(w: World, g: Pgt, v: nat, p: nat)
    requires PgtOk(w, g) && Reached(w.tables, g, v, 1, p) && !HasLeafTable(w.tables, g.root, Index(v, 2), Index(v, 1))
    ensures p in w.tables && |w.tables[p]| == PTES_PER_TABLE
    ensures !w.tables[p][Index(v, 1)].IsLeaf() ==> !w.tables[p][Index(v, 1)].IsValid()
  {
  }

  // New trees.

  /** A zeroed page is an empty tree. */
  lemma EmptyTree(w: World, p: nat)
    requires WorldOk(w) && p in w.live && p in w.tables && w.tables[p] == ZeroTable()
    ensures PgtOk(w, Pgt(p, {p}, map[p := Root]))
    ensures forall v: nat :: Lookup(w.tables, p, v) == Absent
    ensures forall a, b :: Near(a, b, 0) ==> !HasLeafTable(w.tables, p, a, b)
  {
  }

  /** Every table but the root lies in the upper half, and nothing is mapped in the lower. */
  ghost predicate KernelOnly(t: Tables, g: Pgt) {
    && g.role.Keys == g.own
    && (forall p :: p in g.role && p != g.root ==> IsHigh(g.role[p]))
    && (forall v: nat :: v < LOWER_END ==> Lookup(t, g.root, v) == Absent)
  }

  /** The tree of a user root copied from the kernel's root `k`. */
  ghost function CopyOf(k: Pgt, p: nat): Pgt {
    Pgt(p, {p}, (k.role - {k.root})[p := Root])
  }

  /** A copy of the kernel's root shares all tables below it and translates alike. */
  lemma CopiedTree(w: World, k: Pgt, p: nat, w': World)
    requires PgtOk(w, k) && KernelOnly(w.tables, k) && WorldOk(w')
    requires p !in w.live && k.root in w.tables && w'.live == w.live + {p}
             && w'.tables == w.tables[p := w.tables[k.root]]
    ensures PgtOk(w', CopyOf(k, p))
    ensures forall v: nat :: Lookup(w'.tables, p, v) == Lookup(w.tables, k.root, v)
  {
    var g := CopyOf(k, p);
    forall q, i | q in g.role && 0 <= i < PTES_PER_TABLE
      ensures q in w'.tables && |w'.tables[q]| == PTES_PER_TABLE && SlotOk(w'.tables[q][i], g.role[q], i, g.role)
    {
      assert SlotOk(w.tables[if q == p then k.root else q][i], g.role[q], i, k.role);
    }
    forall v: nat ensures Lookup(w'.tables, p, v) == Lookup(w.tables, k.root, v) {
      var e2 := w.tables[k.root][Index(v, 2)];
      assert SlotOk(e2, Root, Index(v, 2), k.role);
      if e2.IsValid() {
        assert SlotOk(w.tables[e2.ppn][Index(v, 1)], k.role[e2.ppn], Index(v, 1), k.role);
      }
    }
  }

  /** A tree whose tables keep their contents and stay live is as before. */
  lemma PgtFrame(w: World, g: Pgt, w': World)
    requires PgtOk(w, g) && WorldOk(w') && g.role.Keys <= w'.live
    requires forall p :: p in g.role ==> p in w.tables && p in w'.tables && w'.tables[p] == w.tables[p]
    ensures PgtOk(w', g)
    ensures forall v: nat :: Lookup(w'.tables, g.root, v) == Lookup(w.tables, g.root, v)
    ensures SameLeafTables(w.tables, w'.tables, g.root)
  {
    hide LookupAt, Lookup, SlotOk;
    TreeFrame(w.tables, w'.tables, g.root, g.role);
  }

  lemma RootIsRam(w: World, g: Pgt)
    requires PgtOk(w, g)
    ensures IsRam(g.root) && g.root in w.tables
  {
  }

  lemma SameLeafTablesTrans(t0: Tables, t1: Tables, t2: Tables, root: nat)
    requires SameLeafTables(t0, t1, root) && SameLeafTables(t1, t2, root)
    ensures SameLeafTables(t0, t2, root)
  {
    hide HasLeafTable;
  }

  lemma SameLeafTableAt(t0: Tables, t: Tables, root: nat, v: nat)
    requires SameLeafTables(t0, t, root)
    ensures HasLeafTable(t, root, Index(v, 2), Index(v, 1)) == HasLeafTable(t0, root, Index(v, 2), Index(v, 1))
  {
    hide HasLeafTable;
  }
}
