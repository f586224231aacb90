/**
  Sv39 translation and the shape of a page-table tree.

  `Translate` is the address-translation process of section 4.3.2 of The RISC-V Instruction
  Set Manual, Volume II: Privileged Architecture (version 20211203), with the parameters of
  section 4.4.  `Lookup` is what the kernel's own walk in os/src/mm/sv39.rs finds.  Under the
  shape invariant `Tree` the two agree (`WalksAgree`).
 */
module Walk {
  import opened Layout
  import opened Pte
  import opened Memory

  function Slot(t: Tables, p: nat, i: nat): PTE {
    if p in t && i < |t[p]| then t[p][i] else ZERO
  }

  // The hardware's walk.

  datatype Translation = Fault | Hit(ppn: nat, flags: nat)

  function Span(level: nat): (n: nat)
    requires level <= 2
    ensures n > 0
  {
    if level == 0 then 1 else if level == 1 then 512 else 0x4_0000
  }

  /** Steps 2 to 8 of the translation process for the table at page `a`, down to a leaf.
      Step 5, the permission check, is `Grants`; the A and D bits are not modelled. */
  function TranslateFrom(t: Tables, a: nat, v: nat, level: nat): Translation
    requires level <= 2
    decreases level
  {
    var pte := Slot(t, a, Index(v, level));
    if !HasV(pte.flags) || (!HasR(pte.flags) && HasW(pte.flags)) || pte.reserved != 0 then
      Fault
    else if HasR(pte.flags) || HasX(pte.flags) then
      if pte.ppn % Span(level) != 0 then Fault  // misaligned superpage
      else Hit(pte.ppn + v % Span(level), pte.flags)
    else if level == 0 || HasU(pte.flags) || HasA(pte.flags) || HasD(pte.flags) then
      Fault
    else
      TranslateFrom(t, pte.ppn, v, level - 1)
  }

  function Translate(t: Tables, root: nat, v: nat): Translation {
    TranslateFrom(t, root, v, 2)
  }

  /** What the standard takes for no entry at all: V clear, W without R, or a reserved bit set. */
  predicate NoEntry(e: PTE) {
    e.flags % 2 == 0 || (e.flags / 4 % 2 == 1 && e.flags / 2 % 2 == 0) || e.reserved != 0
  }

  /** An entry that ends the walk: R or X set. */
  predicate EndsWalk(e: PTE) {
    e.flags / 2 % 2 == 1 || e.flags / 8 % 2 == 1
  }

  /** The bits U, A and D, which must be clear in an entry that points to the next table. */
  predicate HasUAD(e: PTE) {
    e.flags / 16 % 2 == 1 || e.flags / 64 % 2 == 1 || e.flags / 128 % 2 == 1
  }

  /** The translation process at length, for a virtual address: its bits 38 to 30, 29 to 21 and 20 to
      12 select three entries; one with R or X ends the walk and maps 1 GiB, 2 MiB or 4 KiB, aligned;
      one without both points to the next table. */
  lemma TranslateAtLength(t: Tables, root: nat, va: nat)
    requires va < 0x1_0000_0000_0000_0000
    ensures Translate(t, root, va / 4096) ==
            var e2 := Slot(t, root, va / 0x4000_0000 % 512);
            var e1 := Slot(t, e2.ppn, va / 0x20_0000 % 512);
            var e0 := Slot(t, e1.ppn, va / 0x1000 % 512);
            if NoEntry(e2) then Fault
            else if EndsWalk(e2) then
              if e2.ppn % 0x4_0000 == 0 then Hit(e2.ppn + va / 0x1000 % 0x4_0000, e2.flags) else Fault
            else if HasUAD(e2) || NoEntry(e1) then Fault
            else if EndsWalk(e1) then
              if e1.ppn % 512 == 0 then Hit(e1.ppn + va / 0x1000 % 512, e1.flags) else Fault
            else if HasUAD(e1) || NoEntry(e0) then Fault
            else if EndsWalk(e0) then Hit(e0.ppn, e0.flags)
            else Fault
  {
    AddressFields(va);
    hide Slot, Index, TranslateFrom, NoEntry, EndsWalk, HasUAD;
    var v := va / 4096;
    var e2 := Slot(t, root, Index(v, 2));
    FromLevel(t, root, v, 2);
    FromLevel(t, e2.ppn, v, 1);
    FromLevel(t, Slot(t, e2.ppn, Index(v, 1)).ppn, v, 0);
  }

  lemma FromLevel(t: Tables, a: nat, v: nat, level: nat)
    requires level <= 2
    ensures var (e, span) := (Slot(t, a, Index(v, level)),
                              if level == 2 then 0x4_0000 else if level == 1 then 512 else 1);
            TranslateFrom(t, a, v, level) ==
              if NoEntry(e) then Fault
              else if EndsWalk(e) then if e.ppn % span == 0 then Hit(e.ppn + v % span, e.flags) else Fault
              else if level == 0 || HasUAD(e) then Fault
              else TranslateFrom(t, e.ppn, v, level - 1)
  {
    hide Slot, Index;
  }

  // The kernel's walk.

  datatype Entry = Absent | Mapped(level: nat, ppn: nat, flags: nat)

  function EntryOf(e: PTE, level: nat): Entry {
    if e.IsValid() then Mapped(level, e.ppn, e.flags) else Absent
  }

  function LookupAt(t: Tables, root: nat, i2: nat, i1: nat, i0: nat): Entry {
    var e2 := Slot(t, root, i2);
    if !e2.IsValid() || e2.IsLeaf() then EntryOf(e2, 2) else
    var e1 := Slot(t, e2.ppn, i1);
    if !e1.IsValid() || e1.IsLeaf() then EntryOf(e1, 1) else
    EntryOf(Slot(t, e1.ppn, i0), 0)
  }

  /** The entry that the walk of `map_create` meets for page number `v`, if any. */
  function Lookup(t: Tables, root: nat, v: nat): Entry {
    LookupAt(t, root, Index(v, 2), Index(v, 1), Index(v, 0))
  }

  /** The walk reaches a leaf table below slots `i2` and `i1`. */
  predicate HasLeafTable(t: Tables, root: nat, i2: nat, i1: nat) {
    var e2 := Slot(t, root, i2);
    var e1 := Slot(t, e2.ppn, i1);
    e2.IsValid() && !e2.IsLeaf() && e1.IsValid() && !e1.IsLeaf()
  }

  // The shape of the tree.

  /** What a page is used for in one tree.  Being a function of the page, a role rules out
      that two slots point to the same table. */
  datatype Role = Root | L1(i2: nat) | L0(i2: nat, i1: nat)

  type Roles = map<nat, Role>

  function ChildRole(r: Role, i: nat): Role
    requires !r.L0?
  {
    if r.Root? then L1(i) else L0(r.i2, i)
  }

  predicate IsLargeLeaf(e: PTE) {
    e.reserved == 0 && IsValidFlags(e.flags) && (HasW(e.flags) || HasX(e.flags)) && e.ppn % 512 == 0
  }

  predicate SlotOk(e: PTE, r: Role, i: nat, role: Roles) {
    e.IsValid() ==>
      if r.L0? then
        e.reserved == 0 && IsValidFlags(e.flags)
      else
        || (r.L1? && IsLargeLeaf(e))
        || (e.IsPointer() && e.ppn in role && role[e.ppn] == ChildRole(r, i))
  }

  ghost predicate Tree(t: Tables, root: nat, role: Roles) {
    && root in role && role[root] == Root
    && (forall p :: p in role ==> p in t && |t[p]| == PTES_PER_TABLE)
    && (forall p, i :: p in role && 0 <= i < PTES_PER_TABLE ==> SlotOk(t[p][i], role[p], i, role))
  }

  /** The hardware's view of an entry that the kernel's walk found. */
  function Seen(e: Entry, v: nat): Translation {
    if e.Mapped? && e.level <= 2 && (HasR(e.flags) || HasX(e.flags))
    then Hit(e.ppn + v % Span(e.level), e.flags)
    else Fault
  }

  /** In a tree, the code's walk, which tells a leaf by X or W, and the standard's walk,
      which tells it by R or X, agree on every page; no misaligned superpage is met, and the
      only entries that do not translate are level-0 entries with neither R nor X. */
  lemma WalksAgree(t: Tables, root: nat, role: Roles, v: nat)
    requires Tree(t, root, role)
    ensures Translate(t, root, v) == Seen(Lookup(t, root, v), v)
    ensures Lookup(t, root, v).Mapped? ==>
              Lookup(t, root, v).level < 2 && IsValidFlags(Lookup(t, root, v).flags)
  {
    var i2, i1, i0 := Index(v, 2), Index(v, 1), Index(v, 0);
    var e2 := t[root][i2];
    assert SlotOk(e2, Root, i2, role);
    if e2.IsValid() {
      var e1 := t[e2.ppn][i1];
      assert SlotOk(e1, L1(i2), i1, role);
      assert Translate(t, root, v) == TranslateFrom(t, e2.ppn, v, 1);
      if e1.IsValid() && !e1.IsLeaf() {
        var e0 := t[e1.ppn][i0];
        assert SlotOk(e0, L0(i2, i1), i0, role);
        assert Translate(t, root, v) == TranslateFrom(t, e1.ppn, v, 0);
      }
    }
  }

  // How edits of one page change what the walk finds.

  predicate Near(a: int, b: int, c: int) {
    0 <= a < PTES_PER_TABLE && 0 <= b < PTES_PER_TABLE && 0 <= c < PTES_PER_TABLE
  }

  /** The tree depends only on the pages that have a role in it. */
  lemma TreeFrame(t: Tables, t': Tables, root: nat, role: Roles)
    requires Tree(t, root, role)
    requires forall p :: p in role ==> p in t' && t'[p] == t[p]
    ensures Tree(t', root, role)
    ensures forall v :: 0 <= v ==> Lookup(t', root, v) == Lookup(t, root, v)
    ensures forall a, b :: 0 <= a < 512 && 0 <= b < 512 ==> HasLeafTable(t', root, a, b) == HasLeafTable(t, root, a, b)
  {
  }

  /** Linking an empty table into an invalid slot changes no lookup. */
  lemma LinkTable(t: Tables, root: nat, role: Roles, p: nat, i: nat, n: nat, t': Tables, role': Roles)
    requires Tree(t, root, role) && p in role && !role[p].L0? && i < PTES_PER_TABLE
    requires !t[p][i].IsValid() && n !in role
    requires t' == t[n := ZeroTable()][p := t[p][i := PTE(0, n, FLAG_V)]]
    requires role' == role[n := ChildRole(role[p], i)]
    ensures Tree(t', root, role')
    ensures forall a, b, c :: Near(a, b, c) ==> LookupAt(t', root, a, b, c) == LookupAt(t, root, a, b, c)
    ensures forall a, b :: 0 <= a < 512 && 0 <= b < 512 ==>
              (HasLeafTable(t', root, a, b) <==>
                  HasLeafTable(t, root, a, b)
                      || (role[p] == L1(a) && b == i && p == Slot(t, root, a).ppn && Slot(t, root, a).IsValid()))
  {
    forall q, j | q in role' && 0 <= j < PTES_PER_TABLE ensures SlotOk(t'[q][j], role'[q], j, role') {
      if q != n {
        assert SlotOk(t[q][j], role[q], j, role);
      }
    }
    forall a, b, c | Near(a, b, c)
      ensures LookupAt(t', root, a, b, c) == LookupAt(t, root, a, b, c)
      ensures HasLeafTable(t', root, a, b) <==>
                HasLeafTable(t, root, a, b)
                    || (role[p] == L1(a) && b == i && p == Slot(t, root, a).ppn && Slot(t, root, a).IsValid())
    {
      LinkTableAt(t, root, role, p, i, n, t', a, b, c);
    }
    forall a, b | 0 <= a < 512 && 0 <= b < 512
      ensures HasLeafTable(t', root, a, b) <==>
                HasLeafTable(t, root, a, b)
                    || (role[p] == L1(a) && b == i && p == Slot(t, root, a).ppn && Slot(t, root, a).IsValid())
    {
      assert Near(a, b, 0);
    }
  }

  lemma LinkTableAt(t: Tables, root: nat, role: Roles, p: nat, i: nat, n: nat, t': Tables, a: nat, b: nat, c: nat)
    requires Tree(t, root, role) && p in role && !role[p].L0? && i < PTES_PER_TABLE
    requires !t[p][i].IsValid() && n !in role && Near(a, b, c)
    requires t' == t[n := ZeroTable()][p := t[p][i := PTE(0, n, FLAG_V)]]
    ensures LookupAt(t', root, a, b, c) == LookupAt(t, root, a, b, c)
    ensures HasLeafTable(t', root, a, b) <==>
              HasLeafTable(t, root, a, b)
                  || (role[p] == L1(a) && b == i && p == Slot(t, root, a).ppn && Slot(t, root, a).IsValid())
  {
    var e2 := t[root][a];
    assert SlotOk(e2, Root, a, role) && root in t';
    if e2.IsValid() {
      var e1 := t[e2.ppn][b];
      assert SlotOk(e1, L1(a), b, role);
      assert e2.ppn != n && e2.ppn != root;
      if e1.IsValid() && !e1.IsLeaf() {
        assert e1.ppn != n && role[e1.ppn] == L0(a, b);
      }
    }
  }

  /** Replacing a whole leaf table changes the lookups below it and no other. */
  lemma ReplaceLeafTable(t: Tables, root: nat, role: Roles, i2: nat, i1: nat, p: nat, leaves: seq<PTE>, t': Tables)
    requires Tree(t, root, role) && i2 < PTES_PER_TABLE && i1 < PTES_PER_TABLE
    requires HasLeafTable(t, root, i2, i1) && p == Slot(t, Slot(t, root, i2).ppn, i1).ppn
    requires |leaves| == PTES_PER_TABLE
    requires forall i :: 0 <= i < PTES_PER_TABLE ==> SlotOk(leaves[i], L0(i2, i1), i, role)
    requires t' == t[p := leaves]
    ensures p in role && role[p] == L0(i2, i1)
    ensures Tree(t', root, role)
    ensures forall a, b, c :: Near(a, b, c) ==>
              LookupAt(t', root, a, b, c) ==
                if a == i2 && b == i1 then EntryOf(leaves[c], 0) else LookupAt(t, root, a, b, c)
    ensures forall a, b :: 0 <= a < 512 && 0 <= b < 512 ==> HasLeafTable(t', root, a, b) == HasLeafTable(t, root, a, b)
  {
  }

  /** Writing a 2 MiB leaf into an invalid level-1 slot maps its 512 pages and no other. */
  lemma WriteLargeLeaf(t: Tables, root: nat, role: Roles, i2: nat, i1: nat, p: nat, e: PTE, t': Tables)
    requires Tree(t, root, role) && i2 < PTES_PER_TABLE && i1 < PTES_PER_TABLE
    requires Slot(t, root, i2).IsValid() && p == Slot(t, root, i2).ppn
    requires p in t && |t[p]| == PTES_PER_TABLE && !t[p][i1].IsValid() && IsLargeLeaf(e)
    requires t' == t[p := t[p][i1 := e]]
    ensures p in role && role[p] == L1(i2)
    ensures Tree(t', root, role)
    ensures forall a, b, c :: Near(a, b, c) ==>
              LookupAt(t', root, a, b, c) ==
                if a == i2 && b == i1 then Mapped(1, e.ppn, e.flags) else LookupAt(t, root, a, b, c)
    ensures forall a, b :: 0 <= a < 512 && 0 <= b < 512 ==> HasLeafTable(t', root, a, b) == HasLeafTable(t, root, a, b)
  {
  }
}
