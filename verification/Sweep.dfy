/**
  What the triple loop of `RootPgt::unmap` (os/src/mm/sv39.rs) has done when its counters
  stand at a given page number, and what one round of each loop adds to that.
 */
module Sweep {
  import opened Layout
  import opened Pte
  import opened Memory
  import opened Walk
  import opened PgtSpec

  /** Page numbers from `start` up to `cursor` are unmapped; apart from those below `end`
      nothing has changed, and no table has come or gone. */
  ghost predicate Swept(t0: Tables, t: Tables, root: nat, start: nat, end: nat, cursor: nat) {
    && (forall a, b, c :: Near(a, b, c) ==>
          LookupAt(t, root, a, b, c) ==
          if start <= Rebuild(a, b, c) < cursor && Rebuild(a, b, c) < end then Absent else LookupAt(t0, root, a, b, c))
    && (forall a, b, c :: Near(a, b, c) && start <= Rebuild(a, b, c) < cursor ==> LookupAt(t, root, a, b, c) == Absent)
    && SameLeafTables(t0, t, root)
  }

  /** Exactly the page numbers in `[start, end)` have been unmapped. */
  ghost predicate RangeRemoved(t0: Tables, t: Tables, root: nat, start: nat, end: nat) {
    forall v :: IsVpn(v) ==> Lookup(t, root, v) == if start <= v < end then Absent else Lookup(t0, root, v)
  }

  /** Below slot `last` of the root there are 4 KiB leaves only. */
  ghost predicate SmallOnly(t: Tables, root: nat, last: nat) {
    forall a, b, c :: Near(a, b, c) && a <= last && LookupAt(t, root, a, b, c).Mapped? ==>
        LookupAt(t, root, a, b, c).level == 0
  }

  /** A leaf table after the inner loop: entries from `from` on are cleared while their page
      number, counted from `base`, is below `end`. */
  function Cleared(leaves: seq<PTE>, base: nat, from: nat, end: nat): (r: seq<PTE>)
    requires |leaves| == PTES_PER_TABLE
    ensures |r| == PTES_PER_TABLE
    ensures forall j :: 0 <= j < PTES_PER_TABLE ==> r[j] == if from <= j && base + j < end then ZERO else leaves[j]
  {
    seq(PTES_PER_TABLE, j requires 0 <= j < PTES_PER_TABLE => if from <= j && base + j < end then ZERO else leaves[j])
  }

  lemma SweepStart(t: Tables, root: nat, start: nat, end: nat)
    ensures Swept(t, t, root, start, end, start)
  {
    hide LookupAt, HasLeafTable, Rebuild;
  }

  /** An invalid level-2 entry: its whole gigabyte is skipped, and the lower counters reset. */
  lemma SkipGigabyte(t0: Tables, t: Tables, root: nat, start: nat, end: nat, i2: nat, i1: nat, i0: nat)
    requires Near(i2, i1, i0) && Swept(t0, t, root, start, end, Rebuild(i2, i1, i0))
    requires !Slot(t, root, i2).IsValid()
    ensures Swept(t0, t, root, start, end, Rebuild(i2 + 1, 0, 0))
  {
    hide HasLeafTable;
    forall a, b, c | Near(a, b, c) && Rebuild(i2, i1, i0) <= Rebuild(a, b, c) < Rebuild(i2 + 1, 0, 0)
      ensures LookupAt(t, root, a, b, c) == Absent
    {
      assert a == i2;
    }
  }

  /** An invalid level-1 entry: its 2 MiB are skipped. */
  lemma SkipTable(t0: Tables, t: Tables, root: nat, start: nat, end: nat, i2: nat, i1: nat, i0: nat)
    requires Near(i2, i1, i0) && Swept(t0, t, root, start, end, Rebuild(i2, i1, i0))
    requires Slot(t, root, i2).IsValid() && !Slot(t, root, i2).IsLeaf()
    requires !Slot(t, Slot(t, root, i2).ppn, i1).IsValid()
    ensures Swept(t0, t, root, start, end, Rebuild(i2, i1 + 1, 0))
  {
    hide HasLeafTable;
    forall a, b, c | Near(a, b, c) && Rebuild(i2, i1, i0) <= Rebuild(a, b, c) < Rebuild(i2, i1 + 1, 0)
      ensures LookupAt(t, root, a, b, c) == Absent
    {
      assert a == i2 && b == i1;
    }
  }

  /** The inner loop over one leaf table. */
  lemma ClearTable(t0: Tables, t: Tables, root: nat, role: Roles, start: nat, end: nat, i2: nat, i1: nat, i0: nat,
                   p: nat, t': Tables)
    requires Tree(t, root, role) && Near(i2, i1, i0) && start <= Rebuild(i2, i1, i0)
    requires Swept(t0, t, root, start, end, Rebuild(i2, i1, i0))
    requires HasLeafTable(t, root, i2, i1) && p == Slot(t, Slot(t, root, i2).ppn, i1).ppn
    requires p in t && |t[p]| == PTES_PER_TABLE
    requires t' == t[p := Cleared(t[p], Rebuild(i2, i1, 0), i0, end)]
    ensures Tree(t', root, role)
    ensures Rebuild(i2, i1, 511) < end ==> Swept(t0, t', root, start, end, Rebuild(i2, i1 + 1, 0))
    ensures SameLeafTables(t0, t', root)
    ensures end <= Rebuild(i2, i1, 511) ==>
              forall a, b, c :: Near(a, b, c) ==>
                LookupAt(t', root, a, b, c) ==
                  if start <= Rebuild(a, b, c) < end then Absent else LookupAt(t0, root, a, b, c)
  {
    var leaves := Cleared(t[p], Rebuild(i2, i1, 0), i0, end);
    LeavesStayOk(t, root, role, i2, i1, p, leaves);
    ReplaceLeafTable(t, root, role, i2, i1, p, leaves, t');
    hide LookupAt, HasLeafTable, Tree;
    forall a, b, c | Near(a, b, c)
      ensures LookupAt(t', root, a, b, c) ==
              if start <= Rebuild(a, b, c) < Rebuild(i2, i1 + 1, 0) && Rebuild(a, b, c) < end then Absent
                  else LookupAt(t0, root, a, b, c)
      ensures Rebuild(i2, i1, 511) < end && start <= Rebuild(a, b, c) < Rebuild(i2, i1 + 1, 0) ==>
                LookupAt(t', root, a, b, c) == Absent
    {
      LookupBelow(t, root, i2, i1, a, b, c);
    }
  }

  lemma LookupBelow(t: Tables, root: nat, i2: nat, i1: nat, a: nat, b: nat, c: nat)
    requires Near(a, b, c)
    ensures HasLeafTable(t, root, i2, i1) && a == i2 && b == i1 ==>
              LookupAt(t, root, a, b, c) == EntryOf(Slot(t, Slot(t, Slot(t, root, i2).ppn, i1).ppn, c), 0)
  {
  }

  lemma LeavesStayOk(t: Tables, root: nat, role: Roles, i2: nat, i1: nat, p: nat, leaves: seq<PTE>)
    requires Tree(t, root, role) && Near(i2, i1, 0)
    requires HasLeafTable(t, root, i2, i1) && p == Slot(t, Slot(t, root, i2).ppn, i1).ppn
    requires p in t && |t[p]| == |leaves| == PTES_PER_TABLE
    requires forall j :: 0 <= j < PTES_PER_TABLE ==> leaves[j] == ZERO || leaves[j] == t[p][j]
    ensures forall i :: 0 <= i < PTES_PER_TABLE ==> SlotOk(leaves[i], L0(i2, i1), i, role)
  {
  }

  /** From table indices back to page numbers: rebuilding without sign extension is right for
      the lower half, and the upper half lies beyond any lower-half range. */
  lemma RangeOf(t0: Tables, t: Tables, root: nat, start: nat, end: nat)
    requires end <= LOWER_END
    requires forall a, b, c :: Near(a, b, c) ==>
               LookupAt(t, root, a, b, c) ==
                 if start <= Rebuild(a, b, c) < end then Absent else LookupAt(t0, root, a, b, c)
    ensures RangeRemoved(t0, t, root, start, end)
  {
    hide LookupAt;
    forall v | IsVpn(v) ensures Lookup(t, root, v) == if start <= v < end then Absent else Lookup(t0, root, v) {
      assert Near(Index(v, 2), Index(v, 1), Index(v, 0));
      if v < LOWER_END {
        RebuildIndex(v);
      } else {
        TopIndex(v);
        assert Rebuild(Index(v, 2), Index(v, 1), Index(v, 0)) >= LOWER_END;
      }
    }
  }

  predicate AtOrBefore(i2: nat, i1: nat, s2: nat, s1: nat) {
    i2 < s2 || (i2 == s2 && i1 <= s1)
  }

  /** The state of `unmap` before it looks at page number `Rebuild(i2, i1, i0)`. */
  ghost predicate Sweeping(w0: World, w: World, g: Pgt, start: nat, end: nat, i2: nat, i1: nat, i0: nat, s2: nat,
                           s1: nat) {
    && PgtOk(w, g) && Extends(w0, g, w, g)
    && start <= Rebuild(i2, i1, i0) && Swept(w0.tables, w.tables, g.root, start, end, Rebuild(i2, i1, i0))
    && AtOrBefore(i2, i1, s2, s1) && Near(s2, s1, 0) && s2 < 256 && end <= Rebuild(s2, s1, 511)
    && HasLeafTable(w.tables, g.root, s2, s1) && SmallOnly(w.tables, g.root, s2)
  }

  lemma SweepingStart(w: World, g: Pgt, start: nat, end: nat, s2: nat, s1: nat)
    requires PgtOk(w, g) && start < end <= LOWER_END
    requires Near(s2, s1, 0) && s2 < 256 && end <= Rebuild(s2, s1, 511)
    requires HasLeafTable(w.tables, g.root, s2, s1) && SmallOnly(w.tables, g.root, s2)
    ensures Sweeping(w, w, g, start, end, Index(start, 2), Index(start, 1), Index(start, 0), s2, s1)
  {
    hide Swept, HasLeafTable, SmallOnly, PgtOk;
    RebuildIndex(start);
    SweepStart(w.tables, g.root, start, end);
    WalkStart(w, g, start);
  }

  /** At a valid level-2 entry the walk goes on in a table of the tree; no huge page is met. */
  lemma SweepingAt2(w0: World, w: World, g: Pgt, start: nat, end: nat, i2: nat, i1: nat, i0: nat, s2: nat, s1: nat)
    requires Sweeping(w0, w, g, start, end, i2, i1, i0, s2, s1) && i2 < PTES_PER_TABLE
    ensures IsRam(g.root) && g.root in w.tables && |w.tables[g.root]| == PTES_PER_TABLE
    ensures var e2 := w.tables[g.root][i2];
            if e2.IsValid() then !e2.IsLeaf() && e2.ppn in g.own && IsRam(e2.ppn)
            else i2 < s2
  {
    hide Swept, SmallOnly, Extends;
  }

  /** At a valid level-1 entry the walk goes on in a leaf table; no large page is met. */
  lemma SweepingAt1(w0: World, w: World, g: Pgt, start: nat, end: nat, i2: nat, i1: nat, i0: nat, s2: nat, s1: nat)
    requires Sweeping(w0, w, g, start, end, i2, i1, i0, s2, s1) && Near(i2, i1, i0)
    requires g.root in w.tables && i2 < |w.tables[g.root]| && w.tables[g.root][i2].IsValid()
    ensures var e2 := w.tables[g.root][i2];
            && e2.ppn in w.tables && |w.tables[e2.ppn]| == PTES_PER_TABLE
            && (w.tables[e2.ppn][i1].IsValid() ==>
                  && !w.tables[e2.ppn][i1].IsLeaf() && w.tables[e2.ppn][i1].ppn in g.own
                     && IsRam(w.tables[e2.ppn][i1].ppn)
                  && HasLeafTable(w.tables, g.root, i2, i1) && w.tables[e2.ppn][i1].ppn != g.root)
            && (!w.tables[e2.ppn][i1].IsValid() ==> !(i2 == s2 && i1 == s1))
  {
    hide Swept, Extends;
  }

  lemma SweepingBounds(w0: World, w: World, g: Pgt, start: nat, end: nat, i2: nat, i1: nat, i0: nat, s2: nat, s1: nat)
    requires Sweeping(w0, w, g, start, end, i2, i1, i0, s2, s1)
    ensures i2 <= s2 < 256
  {
    hide Swept, HasLeafTable, SmallOnly, PgtOk, Extends;
  }

  lemma NothingToSweep(w: World, g: Pgt, start: nat, end: nat)
    requires PgtOk(w, g) && end <= start
    ensures Extends(w, g, w, g) && RangeRemoved(w.tables, w.tables, g.root, start, end)
    ensures SameLeafTables(w.tables, w.tables, g.root)
  {
  }

  lemma SweepingSkip2(w0: World, w: World, g: Pgt, start: nat, end: nat, i2: nat, i1: nat, i0: nat, s2: nat, s1: nat)
    requires Sweeping(w0, w, g, start, end, i2, i1, i0, s2, s1) && Near(i2, i1, i0)
    requires !Slot(w.tables, g.root, i2).IsValid()
    ensures Sweeping(w0, w, g, start, end, i2 + 1, 0, 0, s2, s1)
  {
    hide Swept, HasLeafTable, SmallOnly, PgtOk, Extends;
    SweepingAt2(w0, w, g, start, end, i2, i1, i0, s2, s1);
    SkipGigabyte(w0.tables, w.tables, g.root, start, end, i2, i1, i0);
  }

  lemma SweepingSkip1(w0: World, w: World, g: Pgt, start: nat, end: nat, i2: nat, i1: nat, i0: nat, s2: nat, s1: nat)
    requires Sweeping(w0, w, g, start, end, i2, i1, i0, s2, s1) && Near(i2, i1, i0)
    requires Slot(w.tables, g.root, i2).IsValid() && !Slot(w.tables, Slot(w.tables, g.root, i2).ppn, i1).IsValid()
    ensures Sweeping(w0, w, g, start, end, i2, i1 + 1, 0, s2, s1)
  {
    hide Swept, HasLeafTable, SmallOnly, PgtOk, Extends;
    SweepingAt2(w0, w, g, start, end, i2, i1, i0, s2, s1);
    SweepingAt1(w0, w, g, start, end, i2, i1, i0, s2, s1);
    SkipTable(w0.tables, w.tables, g.root, start, end, i2, i1, i0);
  }

  /** The middle loop has run through its table. */
  lemma SweepingNext2(w0: World, w: World, g: Pgt, start: nat, end: nat, i2: nat, s2: nat, s1: nat)
    requires Sweeping(w0, w, g, start, end, i2, PTES_PER_TABLE, 0, s2, s1)
    ensures Sweeping(w0, w, g, start, end, i2 + 1, 0, 0, s2, s1)
  {
    hide Swept, HasLeafTable, SmallOnly, PgtOk, Extends;
  }

  lemma SmallOnlyKept(t0: Tables, t: Tables, root: nat, start: nat, end: nat, cursor: nat, t': Tables, cursor': nat,
                      last: nat)
    requires Swept(t0, t, root, start, end, cursor) && SmallOnly(t, root, last)
    requires Swept(t0, t', root, start, end, cursor') && cursor <= cursor'
    ensures SmallOnly(t', root, last)
  {
    hide LookupAt, HasLeafTable, Rebuild;
  }

  /** The inner loop has run over one leaf table, to its end or up to the range's end. */
  lemma SweepingClear(w0: World, w: World, g: Pgt, start: nat, end: nat, i2: nat, i1: nat, i0: nat, s2: nat, s1: nat,
                      p: nat, w': World)
    requires Sweeping(w0, w, g, start, end, i2, i1, i0, s2, s1) && Near(i2, i1, i0)
    requires end <= LOWER_END
    requires HasLeafTable(w.tables, g.root, i2, i1) && p == Slot(w.tables, Slot(w.tables, g.root, i2).ppn, i1).ppn
    requires p in g.own && p in w.tables && |w.tables[p]| == PTES_PER_TABLE
    requires w'.tables == w.tables[p := Cleared(w.tables[p], Rebuild(i2, i1, 0), i0, end)]
    requires WorldOk(w') && w'.live == w.live
    requires forall q :: q in w.frames && q != p ==> q in w'.frames && w'.frames[q] == w.frames[q]
    ensures PgtOk(w', g) && Extends(w0, g, w', g)
    ensures Rebuild(i2, i1, 511) < end ==> Sweeping(w0, w', g, start, end, i2, i1 + 1, 0, s2, s1)
    ensures end <= Rebuild(i2, i1, 511) ==> RangeRemoved(w0.tables, w'.tables, g.root, start, end)
    ensures SameLeafTables(w0.tables, w'.tables, g.root)
  {
    hide LookupAt, HasLeafTable, SmallOnly, Tree, SlotOk;
    ClearTable(w0.tables, w.tables, g.root, g.role, start, end, i2, i1, i0, p, w'.tables);
    TableStep(w, g, p, w'.tables[p], w');
    hide Extends, PgtOk, WorldOk;
    ExtendsTrans(w0, g, w, g, w', g);
    if end <= Rebuild(i2, i1, 511) {
      RangeOf(w0.tables, w'.tables, g.root, start, end);
    } else {
      SmallOnlyKept(w0.tables, w.tables, g.root, start, end, Rebuild(i2, i1, i0), w'.tables, Rebuild(i2, i1 + 1, 0),
                    s2);
    }
  }
}
