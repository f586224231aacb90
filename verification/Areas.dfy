/**
  The area list of a `VMSpace` (os/src/mm/vm.rs) and the function from page numbers that it
  stands for.

  `CellAt` is the meaning of an unordered list of areas; nothing that the rest of the project
  says about a list depends on its order.
 */
module Areas {
  import opened Layout
  import opened Pte
  import opened PageAlloc

  const PERMISSION_R: nat := FLAG_R
  const PERMISSION_W: nat := FLAG_W
  const PERMISSION_X: nat := FLAG_X
  const PERMISSION_U: nat := FLAG_U

  /** `permissions & !ALL_PERMISSION_FLAGS == 0`. */
  predicate KnownPermissions(permissions: nat) {
    permissions < 32 && !HasV(permissions)
  }

  /** `to_pte_flags` on permissions that pass its check. */
  function PteFlags(permissions: nat): nat
    requires KnownPermissions(permissions)
  {
    permissions + FLAG_V
  }

  lemma PteFlagsBits(permissions: nat)
    requires KnownPermissions(permissions)
    ensures var flags := permissions + FLAG_V;
            && flags <= ALL_FLAGS && HasV(flags)
            && HasR(flags) == HasR(permissions) && HasW(flags) == HasW(permissions)
            && HasX(flags) == HasX(permissions) && HasU(flags) == HasU(permissions)
  {
  }

  /** Permissions that `to_pte_flags` lets through and `PTE::new` refuses. */
  predicate Unmappable(permissions: nat) {
    HasW(permissions) && !HasR(permissions)
  }

  lemma UnmappableFlags(permissions: nat)
    requires KnownPermissions(permissions)
    ensures IsValidFlags(permissions + FLAG_V) <==> !Unmappable(permissions)
  {
  }

  /** `min & permissions == min`, for known permissions. */
  predicate Includes(permissions: nat, min: nat) {
    && min < 32 && !HasV(min)
    && (HasR(min) ==> HasR(permissions))
    && (HasW(min) ==> HasW(permissions))
    && (HasX(min) ==> HasX(permissions))
    && (HasU(min) ==> HasU(permissions))
  }

  datatype MapType = Anonymous | KernelVaOffset

  datatype VMArea = VMArea(start: nat, end: nat, mapType: MapType, permissions: nat, pages: map<nat, nat>) {

    /** `contain_vpn`. */
    predicate Contains(v: nat) {
      start <= v < end
    }

    ghost predicate Ok() {
      && start <= end && KnownPermissions(permissions)
      && (forall v :: v in pages ==> start <= v < end)
      && (mapType.Anonymous? ==> end <= USER_END_VPN)
      && (mapType.KernelVaOffset? ==> UPPER_START <= start && end <= UPPER_END)
    }

    predicate Apart(s: nat, e: nat) {
      end <= s || e <= start
    }
  }

  /** `BTreeMap::split_off(&k)`: what is returned, and what stays. */
  function From(m: map<nat, nat>, k: nat): map<nat, nat> {
    map v | v in m && k <= v :: m[v]
  }

  function Below(m: map<nat, nat>, k: nat): map<nat, nat> {
    map v | v in m && v < k :: m[v]
  }

  function Between(m: map<nat, nat>, s: nat, e: nat): map<nat, nat> {
    map v | v in m && s <= v < e :: m[v]
  }

  /** `Vec::swap_remove`. */
  function SwapRemove<T>(s: seq<T>, i: nat): (r: seq<T>)
    requires i < |s|
    ensures |r| == |s| - 1
    ensures forall j :: 0 <= j < |r| ==> r[j] == if j == i then s[|s| - 1] else s[j]
  {
    s[i := s[|s| - 1]][..|s| - 1]
  }

  // The meaning of an area list.

  /** What a list of areas says about one page number. */
  datatype Cell = Nowhere | InArea(mapType: MapType, permissions: nat, page: Option<nat>)

  function CellIn(a: VMArea, v: nat): Cell {
    InArea(a.mapType, a.permissions, if v in a.pages then Some(a.pages[v]) else None)
  }

  ghost function CellAt(areas: seq<VMArea>, v: nat): Cell {
    if i :| 0 <= i < |areas| && areas[i].Contains(v) then CellIn(areas[i], v) else Nowhere
  }

  ghost predicate AreasOk(areas: seq<VMArea>) {
    (forall i :: 0 <= i < |areas| ==> areas[i].Ok()) && Disjoint(areas)
  }

  /** No page number has two areas. */
  ghost predicate Disjoint(areas: seq<VMArea>) {
    forall i, j, v: nat {:trigger areas[i].Contains(v), areas[j].Contains(v)} ::
      0 <= i < |areas| && 0 <= j < |areas| && areas[i].Contains(v) && areas[j].Contains(v) ==> i == j
  }

  /** Every area has a page number. */
  ghost predicate NoneEmpty(areas: seq<VMArea>) {
    forall j :: 0 <= j < |areas| ==> areas[j].start < areas[j].end
  }

  lemma NoneEmptyMore(areas: seq<VMArea>, a: VMArea)
    requires NoneEmpty(areas) && a.start < a.end
    ensures NoneEmpty(areas + [a])
  {
  }

  lemma CellOf(areas: seq<VMArea>, i: nat, v: nat)
    requires AreasOk(areas) && i < |areas| && areas[i].Contains(v)
    ensures CellAt(areas, v) == CellIn(areas[i], v)
  {
  }

  lemma CellOfOnly(areas: seq<VMArea>, i: nat, v: nat)
    requires Disjoint(areas) && i < |areas| && areas[i].Contains(v)
    ensures CellAt(areas, v) == CellIn(areas[i], v)
  {
  }

  lemma CellNowhere(areas: seq<VMArea>, v: nat)
    requires forall i :: 0 <= i < |areas| ==> !areas[i].Contains(v)
    ensures CellAt(areas, v) == Nowhere
  {
  }

  /** `find(|area| area.contain_vpn(vpn))` from index `i` on. */
  function FindArea(areas: seq<VMArea>, v: nat, i: nat): (r: Option<nat>)
    requires i <= |areas|
    ensures r.Some? ==> i <= r.value < |areas| && areas[r.value].Contains(v)
    ensures forall j :: i <= j < (if r.Some? then r.value else |areas|) ==> !areas[j].Contains(v)
    decreases |areas| - i
  {
    if i == |areas| then None
    else if areas[i].Contains(v) then Some(i)
    else FindArea(areas, v, i + 1)
  }

  /** The order of the list cannot be observed: lists with the same areas have the same cells. */
  lemma OrderUnobservable(areas: seq<VMArea>, areas': seq<VMArea>, v: nat)
    requires AreasOk(areas) && AreasOk(areas') && multiset(areas) == multiset(areas')
    ensures CellAt(areas', v) == CellAt(areas, v)
  {
    assert forall a :: a in areas <==> a in multiset(areas);
    assert forall a :: a in areas' <==> a in multiset(areas');
    if k :| 0 <= k < |areas| && areas[k].Contains(v) {
      CellOf(areas, k, v);
      assert areas[k] in areas';
      var j :| 0 <= j < |areas'| && areas'[j] == areas[k];
      CellOf(areas', j, v);
    } else {
      forall j | 0 <= j < |areas'| ensures !areas'[j].Contains(v) {
        assert areas'[j] in areas;
        var k :| 0 <= k < |areas| && areas[k] == areas'[j];
      }
    }
  }

  /** A page becomes resident, in the area that contains it. */
  lemma InsertPage(areas: seq<VMArea>, i: nat, v: nat, p: nat, areas': seq<VMArea>)
    requires AreasOk(areas) && i < |areas| && areas[i].Contains(v)
    requires areas' == areas[i := areas[i].(pages := areas[i].pages[v := p])]
    ensures AreasOk(areas')
    ensures CellAt(areas', v) == InArea(areas[i].mapType, areas[i].permissions, Some(p))
    ensures forall u: nat :: u != v ==> CellAt(areas', u) == CellAt(areas, u)
  {
    assert forall j :: 0 <= j < |areas| ==> areas'[j].start == areas[j].start && areas'[j].end == areas[j].end;
    assert forall j, u: nat :: 0 <= j < |areas| ==> areas'[j].Contains(u) == areas[j].Contains(u);
    CellOf(areas', i, v);
    forall u: nat | u != v ensures CellAt(areas', u) == CellAt(areas, u) {
      if j :| 0 <= j < |areas| && areas[j].Contains(u) {
        CellOf(areas, j, u);
        CellOf(areas', j, u);
      } else {
        CellNowhere(areas, u);
        CellNowhere(areas', u);
      }
    }
  }

  /** Taking the page out again restores the list. */
  lemma UndoInsert(areas: seq<VMArea>, i: nat, v: nat, p: nat, areas': seq<VMArea>)
    requires i < |areas| && v !in areas[i].pages
    requires areas' == areas[i := areas[i].(pages := areas[i].pages[v := p])]
    ensures areas'[i := areas'[i].(pages := areas'[i].pages - {v})] == areas
  {
    assert areas[i].pages[v := p] - {v} == areas[i].pages;
  }

  /** A new area takes page numbers that had none. */
  lemma PushArea(areas: seq<VMArea>, a: VMArea)
    requires AreasOk(areas) && a.Ok() && forall v: nat :: a.Contains(v) ==> CellAt(areas, v) == Nowhere
    ensures AreasOk(areas + [a])
    ensures forall v: nat :: CellAt(areas + [a], v) == if a.Contains(v) then CellIn(a, v) else CellAt(areas, v)
  {
    PushDisjoint(areas, a);
    hide CellAt, Disjoint;
  }

  /** The same whether or not the area lies where its kind should. */
  lemma PushDisjoint(areas: seq<VMArea>, a: VMArea)
    requires Disjoint(areas) && forall v: nat :: a.Contains(v) ==> CellAt(areas, v) == Nowhere
    ensures Disjoint(areas + [a])
    ensures forall v: nat :: CellAt(areas + [a], v) == if a.Contains(v) then CellIn(a, v) else CellAt(areas, v)
  {
    var r := areas + [a];
    forall i, j, v: nat | 0 <= i < |r| && 0 <= j < |r| && r[i].Contains(v) && r[j].Contains(v) ensures i == j {
      if i < |areas| { CellOfOnly(areas, i, v); }
      if j < |areas| { CellOfOnly(areas, j, v); }
    }
    forall v: nat ensures CellAt(r, v) == if a.Contains(v) then CellIn(a, v) else CellAt(areas, v) {
      if a.Contains(v) {
        CellOfOnly(r, |areas|, v);
      } else if j :| 0 <= j < |areas| && areas[j].Contains(v) {
        CellOfOnly(areas, j, v);
        CellOfOnly(r, j, v);
      } else {
        CellNowhere(areas, v);
        CellNowhere(r, v);
      }
    }
  }

  /** Taking the last area away again. */
  lemma DropLast(areas: seq<VMArea>, a: VMArea)
    requires AreasOk(areas + [a])
    ensures AreasOk(areas) && a.Ok()
    ensures forall v: nat :: CellAt(areas, v) == if a.Contains(v) then Nowhere else CellAt(areas + [a], v)
  {
    var r := areas + [a];
    assert r[|areas|] == a;
    forall i | 0 <= i < |areas| ensures areas[i].Ok() { assert r[i].Ok(); }
    forall i, j, v: nat | 0 <= i < |areas| && 0 <= j < |areas| && areas[i].Contains(v) && areas[j].Contains(v)
      ensures i == j
    {
      assert r[i].Contains(v) && r[j].Contains(v);
    }
    forall v: nat ensures CellAt(areas, v) == if a.Contains(v) then Nowhere else CellAt(r, v) {
      if i :| 0 <= i < |areas| && areas[i].Contains(v) {
        CellOf(areas, i, v);
        assert r[i].Contains(v);
        CellOf(r, i, v);
      } else {
        CellNowhere(areas, v);
        if !a.Contains(v) { CellNowhere(r, v); }
      }
    }
  }

  /** The last area grows by one page number that had no area. */
  lemma GrowLast(areas: seq<VMArea>, a: VMArea)
    requires AreasOk(areas + [a]) && a.mapType.Anonymous? && a.end < USER_END_VPN
             && CellAt(areas + [a], a.end) == Nowhere
    ensures var b := a.(end := a.end + 1);
            && AreasOk(areas + [b])
            && forall v: nat ::
                 CellAt(areas + [b], v) ==
                   if v == a.end then InArea(a.mapType, a.permissions, None) else CellAt(areas + [a], v)
  {
    hide CellAt;
    var b := a.(end := a.end + 1);
    DropLast(areas, a);
    assert a.end !in a.pages;
    PushArea(areas, b);
    forall v: nat ensures a.Contains(v) ==> CellAt(areas + [a], v) == CellIn(a, v) {
      if a.Contains(v) { CellOf(areas + [a], |areas|, v); }
    }
  }

  // One round of the loop of `VMSpace::unmap`.

  /** The list after the round for area `i`, which is not apart from `[s, e)`. */
  function Trim(areas: seq<VMArea>, i: nat, s: nat, e: nat): seq<VMArea>
    requires i < |areas|
  {
    var a := areas[i];
    if s <= a.start && a.end <= e then
      SwapRemove(areas, i)
    else if s <= a.start then
      areas[i := a.(start := e, pages := From(a.pages, e))]
    else if a.end <= e then
      areas[i := a.(end := s, pages := Below(a.pages, s))]
    else
      areas[i := a.(end := s, pages := Below(a.pages, s))] +
      [VMArea(e, a.end, a.mapType, a.permissions, From(From(a.pages, s), e))]
  }

  /** Where the areas of a trimmed list come from. */
  lemma TrimPieces(areas: seq<VMArea>, i: nat, s: nat, e: nat, j: nat)
    requires AreasOk(areas) && i < |areas| && !areas[i].Apart(s, e) && s < e && j < |Trim(areas, i, s, e)|
    ensures var b := Trim(areas, i, s, e)[j];
            var a := areas[i];
            if j != i && j < |areas| then
              b == areas[j]
            else if s <= a.start && a.end <= e then
              j == i && b == areas[|areas| - 1] && |areas| - 1 != i
            else
              && b.Ok() && b.mapType == a.mapType && b.permissions == a.permissions && b.Apart(s, e)
              && (j == i || (j == |areas| && s > a.start && a.end > e && b.start == e && b.end == a.end))
              && (forall v: nat :: b.Contains(v) ==> a.Contains(v) && CellIn(b, v) == CellIn(a, v))
  {
  }

  lemma TrimOk(areas: seq<VMArea>, i: nat, s: nat, e: nat)
    requires AreasOk(areas) && i < |areas| && !areas[i].Apart(s, e) && s < e
    ensures AreasOk(Trim(areas, i, s, e))
  {
    var r := Trim(areas, i, s, e);
    forall j | 0 <= j < |r| ensures r[j].Ok() {
      TrimPieces(areas, i, s, e, j);
    }
    forall j, k, v: nat | 0 <= j < |r| && 0 <= k < |r| && r[j].Contains(v) && r[k].Contains(v) ensures j == k {
      var j0 := TrimSource(areas, i, s, e, j, v);
      var k0 := TrimSource(areas, i, s, e, k, v);
    }
  }

  /** The area that a page number had before the round. */
  lemma TrimSource(areas: seq<VMArea>, i: nat, s: nat, e: nat, j: nat, v: nat) returns (k: nat)
    requires AreasOk(areas) && i < |areas| && !areas[i].Apart(s, e) && s < e
    requires j < |Trim(areas, i, s, e)| && Trim(areas, i, s, e)[j].Contains(v)
    ensures k < |areas| && areas[k].Contains(v) && CellIn(Trim(areas, i, s, e)[j], v) == CellIn(areas[k], v)
    ensures k == i ==> !(s <= v < e)
    ensures j < |areas| && j != i ==> k == j
    ensures j == |areas| ==> k == i && v >= e
    ensures j == i && k == i && |Trim(areas, i, s, e)| > |areas| ==> v < s
    ensures j == i && k != i ==> k == |areas| - 1 == |Trim(areas, i, s, e)|
  {
    TrimPieces(areas, i, s, e, j);
    var a := areas[i];
    if j != i && j < |areas| {
      k := j;
    } else if s <= a.start && a.end <= e {
      k := |areas| - 1;
    } else {
      k := i;
    }
  }

  /** The round removes the overlap of area `i` with the range and changes no other cell. */
  lemma TrimCells(areas: seq<VMArea>, i: nat, s: nat, e: nat, v: nat)
    requires AreasOk(areas) && i < |areas| && !areas[i].Apart(s, e) && s < e
    ensures CellAt(Trim(areas, i, s, e), v) == if areas[i].Contains(v) && s <= v < e then Nowhere else CellAt(areas, v)
  {
    var r := Trim(areas, i, s, e);
    TrimOk(areas, i, s, e);
    if j :| 0 <= j < |r| && r[j].Contains(v) {
      CellOf(r, j, v);
      var k := TrimSource(areas, i, s, e, j, v);
      CellOf(areas, k, v);
    } else {
      CellNowhere(r, v);
      if k :| 0 <= k < |areas| && areas[k].Contains(v) {
        TrimKeeps(areas, i, s, e, k, v);
      } else {
        CellNowhere(areas, v);
      }
    }
  }

  /** A page number outside the trimmed overlap still has an area. */
  lemma TrimKeeps(areas: seq<VMArea>, i: nat, s: nat, e: nat, k: nat, v: nat)
    requires AreasOk(areas) && i < |areas| && !areas[i].Apart(s, e) && s < e
    requires k < |areas| && areas[k].Contains(v)
    ensures (k == i && s <= v < e) || exists j :: 0 <= j < |Trim(areas, i, s, e)| && Trim(areas, i, s, e)[j].Contains(v)
  {
    var r := Trim(areas, i, s, e);
    var a := areas[i];
    if !(k == i && s <= v < e) {
      if k != i {
        assert r[if s <= a.start && a.end <= e && k == |areas| - 1 then i else k] == areas[k];
      } else if v < s {
        assert r[i].Contains(v);
      } else if s <= a.start {
        assert r[i].Contains(v);
      } else {
        assert r[|areas|].Contains(v);
      }
    }
  }

  /** The range is a hole in the middle of an area. */
  predicate IsHole(areas: seq<VMArea>, s: nat, e: nat) {
    exists j :: 0 <= j < |areas| && areas[j].start < s && e < areas[j].end
  }

  /** Only a hole in the middle of an area makes the list longer, by one. */
  lemma TrimGrows(areas: seq<VMArea>, i: nat, s: nat, e: nat)
    requires i < |areas|
    ensures |Trim(areas, i, s, e)| > |areas| <==> areas[i].start < s && e < areas[i].end
    ensures |Trim(areas, i, s, e)| > |areas| ==> IsHole(areas, s, e)
    ensures |Trim(areas, i, s, e)| <= |areas| + 1
  {
  }

  lemma HoleFromStart(areas: seq<VMArea>, areas': seq<VMArea>, i: nat, s: nat, e: nat)
    requires i < |areas| && i < |areas'| && areas[..i + 1] == areas'[..i + 1]
    ensures areas[i] == areas'[i]
    ensures areas[i].start < s && e < areas[i].end ==> IsHole(areas', s, e)
  {
    assert areas[..i + 1][i] == areas'[..i + 1][i];
  }

  /** A round leaves no empty area behind. */
  lemma TrimNoneEmpty(areas: seq<VMArea>, i: nat, s: nat, e: nat)
    requires i < |areas| && !areas[i].Apart(s, e) && s < e && NoneEmpty(areas)
    ensures NoneEmpty(Trim(areas, i, s, e))
  {
  }

  /** The areas that the loop has still to visit are untouched, and those that it has
      visited, and the split-off tail, stay apart from the range. */
  lemma TrimProgress(areas: seq<VMArea>, i: nat, s: nat, e: nat)
    requires AreasOk(areas) && i < |areas| && !areas[i].Apart(s, e) && s < e
    requires forall j :: i < j < |areas| ==> areas[j].Apart(s, e)
    ensures var r := Trim(areas, i, s, e);
            && i <= |r| && (forall j :: 0 <= j < i ==> r[j] == areas[j])
            && (forall j :: i <= j < |r| ==> r[j].Apart(s, e))
  {
  }
}
