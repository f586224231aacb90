/**
  Copies between user and kernel memory (os/src/mm/uaccess.S, os/src/mm/uaccess.rs), with the
  faults that they take (os/src/trap/ktrap.rs).

  The kernel's side of a copy is the array `buf`, seen at address `base`.
 */
module UAccess {
  import opened Layout
  import opened Pte
  import opened Memory
  import opened Walk
  import opened PageAlloc
  import opened PgtSpec
  import opened Areas
  import opened SpaceSpec
  import opened LoadSpec
  import opened VMSpace
  import opened KernelMap
  import opened SystemSpec
  import opened Kernel
  import opened Utf8

  /** What the hardware asks of a supervisor access with SUM set: the U bit does not matter. */
  function Direct(store: bool): nat {
    if store then PERMISSION_W else PERMISSION_R
  }

  /** A register read as a signed number, as `bge` does. */
  function Signed(x: nat): int {
    if x < USIZE / 2 then x else x - USIZE
  }

  /** The addresses `[start, start + len)` do not cross from one half of the space to the other. */
  predicate OneHalf(start: nat, len: nat) {
    start + len < USIZE / 2 || (USIZE / 2 <= start && start + len < USIZE)
  }

  /** In such a range the signed comparison of the loop orders addresses as they are. */
  lemma SignedOrder(start: nat, len: nat, c: nat)
    requires OneHalf(start, len) && c <= len
    ensures Signed(start + c) < Signed(start + len) <==> c < len
  {
  }

  /** Every page number has the same kind of area with the same permissions, and the same page if
      it had one: at most, pages have become resident. */
  ghost predicate OnlyFilled(areas: seq<VMArea>, areas': seq<VMArea>) {
    && (forall v: nat :: FilledAt(CellAt(areas, v), CellAt(areas', v)))
    && (NoneEmpty(areas) ==> NoneEmpty(areas'))
  }

  predicate FilledAt(c: Cell, c': Cell) {
    c' == c || (c.InArea? && c'.InArea? && c'.mapType == c.mapType && c'.permissions == c.permissions && c.page.None?)
  }

  /** In bits: user code needs U, and R for a load or W for a store; the kernel does not need U. */
  lemma AccessInBits(t: Translation, store: bool)
    ensures Grants(t, Direct(store)) <==> t.Hit? && t.flags / (if store then 4 else 2) % 2 == 1
    ensures Grants(t, Needed(store)) <==>
            t.Hit? && t.flags / 16 % 2 == 1 && t.flags / (if store then 4 else 2) % 2 == 1
  {
  }

  /** What a supervisor access is granted, a fault would not have been refused. */
  lemma GrantedNotRefusable(w: World, s: Space, v: nat, store: bool)
    requires SpaceOk(w, s) && AllUser(s.areas) && v < LOWER_END
    requires Grants(Translate(w.tables, s.pgt.root, v), Direct(store))
    ensures !Refusable(CellAt(s.areas, v), Needed(store))
  {
    hide CellAt, Translate, Lookup, OwnOk, HasV, HasX, HasU, Grants, Direct, Needed;
    OwnParts(w, s);
    TranslationIsAreas(w, s, v);
    AccessInBits(Translate(w.tables, s.pgt.root, v), store);
    FlagsOfHit(w, s, v);
    CellPermissions(s.areas, v);
    PteFlagsBits(CellAt(s.areas, v).permissions);
    DirectBits(store);
  }

  lemma DirectBits(store: bool)
    ensures var d, n := Direct(store), Needed(store);
            && HasR(d) == HasR(n) == !store && HasW(d) == HasW(n) == store && !HasX(d) && !HasX(n) && !HasU(d)
               && HasU(n)
            && !HasV(d) && !HasV(n) && d < 32 && n < 32
  {
  }

  lemma FlagsOfHit(w: World, s: Space, v: nat)
    requires SpaceOk(w, s) && v < LOWER_END && Translate(w.tables, s.pgt.root, v).Hit?
    ensures IsValidFlags(Translate(w.tables, s.pgt.root, v).flags)
  {
    hide Lookup, Translate, CellAt, Agrees, IsValidFlags;
    OwnParts(w, s);
    WalksAgree(w.tables, s.pgt.root, s.pgt.role, v);
  }

  /** If the user permissions are granted, so is the supervisor access. */
  lemma NeededIsDirect(t: Translation, store: bool)
    ensures Grants(t, Needed(store)) ==> Grants(t, Direct(store))
  {
    hide HasV, HasR, HasW, HasX, HasU;
    DirectBits(store);
  }

  lemma ReadsTrans(w0: World, w1: World, w2: World, root: nat, lo: nat, mid: nat, hi: nat)
    requires lo <= mid <= hi && ReadsKept(w0, w1, root, lo, mid) && ReadsKept(w1, w2, root, mid, hi)
    ensures ReadsKept(w0, w2, root, lo, hi)
  {
    hide UserByte;
  }

  /** `lb` or `sb` at a user address: when it traps, the handler maps the page and the same
      instruction runs again, or execution goes on at `__uaccess_fix` (`None`). */
  method UserInstruction(kernel: Kernel, i: nat, va: nat, store: bool, value: byte) returns (r: Option<byte>)
    requires kernel.Inv() && i < |kernel.spaces| && CheckUVa(va)
    modifies kernel.spaces[i], kernel.spaces[i].rootPgt, kernel.mem, kernel.alloc
    ensures kernel.Inv() && kernel.spaces == old(kernel.spaces)
            && kernel.spaces[i].rootPgt.ppn == old(kernel.spaces[i].rootPgt.ppn)
    ensures OnlyFilled(old(kernel.spaces[i].areas), kernel.spaces[i].areas)
    ensures var c := CellAt(old(kernel.spaces[i].areas), VpnFromVa(va));
            && (r.Some? ==> !Refusable(c, Needed(store)))
            && (r.None? ==> Refusable(c, Needed(store)) || old(kernel.alloc.Free()) < 3)
    ensures r.Some? ==>
              UserByte(kernel.Now(), kernel.spaces[i].rootPgt.ppn, va) == Some(if store then value else r.value)
    ensures r.Some? ==> Grants(Translate(kernel.mem.tables, kernel.spaces[i].rootPgt.ppn, VpnFromVa(va)), Direct(store))
    ensures Grants(Translate(old(kernel.mem.tables), old(kernel.spaces[i].rootPgt.ppn), VpnFromVa(va)),
                   Direct(store)) ==>
              r.Some? && kernel.alloc.Free() == old(kernel.alloc.Free())
    ensures old(kernel.alloc.Free()) - 3 <= kernel.alloc.Free() <= old(kernel.alloc.Free())
    ensures ReadsKept(old(kernel.Now()), kernel.Now(), kernel.spaces[i].rootPgt.ppn, va,
                      if r.Some? && store then va + 1 else va)
    ensures OthersUntouched(old(kernel.Now()), old(kernel.Spaces()), kernel.Now(), kernel.Spaces(), i)
  {
    hide Views, PageAllocator.Valid, PageAllocator.Live, PageAllocator.Free, Lists, SystemOk, SpaceOk, CellAt,
      LinearMap, ImageOk, Translate, Untouched, FaultOutcome, FilledWithZeros, Refusable, Grants, Includes, UserByte,
      Needed, Direct, VpnFromVa, AllUser, ReadsKept, OnlyFilled;
    ghost var w0, ss0, root := kernel.Now(), kernel.Spaces(), kernel.spaces[i].rootPgt.ppn;
    ghost var v := VpnFromVa(va);
    KernelState(kernel, i);
    OnlyFilledItself(ss0[i].areas);
    r := kernel.TryAccess(i, va, store, value, Direct(store));
    if r.Some? {
      GrantedNotRefusable(w0, ss0[i], v, store);
      ReadsOne(w0, kernel.Now(), root, va, store);
      return;
    }
    NeededIsDirect(Translate(w0.tables, root, v), store);
    NeedsReadOrWrite(store);
    var handled := kernel.PageFault(i, va, Needed(store));
    ghost var w1, ss1 := kernel.Now(), kernel.Spaces();
    FaultNeedsArea(CellAt(ss0[i].areas, v), v, Needed(store), handled);
    ReadsNone(w0, w1, root, va);
    if handled.Failed? {
      return None;
    }
    FilledPermissions(ss0[i].areas, kernel.spaces[i].areas, v, w1.frames);
    NeededIsDirect(Translate(w1.tables, root, v), store);
    r := kernel.TryAccess(i, va, store, value, Direct(store));
    ReadsOne(w1, kernel.Now(), root, va, store);
    ReadsTrans(w0, w1, kernel.Now(), root, va, va, if store then va + 1 else va);
    OthersOn(w0, ss0, w1, ss1, kernel.Now(), kernel.Spaces(), i);
  }

  lemma KernelState(kernel: Kernel, i: nat)
    requires kernel.Inv() && i < |kernel.spaces|
    ensures SpaceOk(kernel.Now(), kernel.Spaces()[i]) && AllUser(kernel.spaces[i].areas)
  {
    hide SpaceOk, HasStop, PgtOk, KernelOnly, Partitioned, SeesKernel, LinearMap, ImageOk, AllUser, Views,
      PageAllocator.Valid;
  }

  lemma OnlyFilledItself(areas: seq<VMArea>)
    ensures OnlyFilled(areas, areas)
  {
  }

  lemma OnlyFilledTrans(a: seq<VMArea>, b: seq<VMArea>, c: seq<VMArea>)
    requires OnlyFilled(a, b) && OnlyFilled(b, c)
    ensures OnlyFilled(a, c)
  {
    hide CellAt;
  }

  lemma FilledPermissions(areas: seq<VMArea>, areas': seq<VMArea>, v: nat, frames: map<nat, Frame>)
    requires forall u: nat :: u != v ==> CellAt(areas', u) == CellAt(areas, u)
    requires FilledWithZeros(CellAt(areas, v), CellAt(areas', v), frames) && (NoneEmpty(areas) ==> NoneEmpty(areas'))
    ensures OnlyFilled(areas, areas')
  {
    hide CellAt;
  }

  lemma ReadsOne(w: World, w': World, root: nat, va: nat, store: bool)
    requires store || w' == w
    requires forall x: nat :: CheckUVa(x) && x != va ==> UserByte(w', root, x) == UserByte(w, root, x)
    ensures ReadsKept(w, w', root, va, if store then va + 1 else va)
  {
    hide UserByte;
  }

  lemma ReadsNone(w: World, w': World, root: nat, va: nat)
    requires ReadsKept(w, w', root, 0, 0)
    ensures ReadsKept(w, w', root, va, va)
  {
    hide UserByte;
  }

  /** A mapping that was asked for with `PROT_WRITE` alone is accepted and of no use: nothing in
      it is translated, and every access to it is refused. */
  lemma WriteOnlyUseless(areas: seq<VMArea>, w: World, s: Space, addr: nat, len: nat, va: nat)
    requires MmapEffect(areas, s.areas, addr, len, PROT_WRITE, 0) && SpaceOk(w, s)
    requires CheckUVa(va) && PageMeets(addr, len, va / PAGE_SIZE)
    ensures Translate(w.tables, s.pgt.root, va / PAGE_SIZE) == Fault
    ensures Refused(s.areas, va, false) && Refused(s.areas, va, true)
  {
    hide CellAt, Translate, SpaceOk, HasV, HasU;
    TranslationIsAreas(w, s, va / PAGE_SIZE);
    assert Unmappable(ToPermissions(PROT_WRITE));
  }

  /** The number of pages that hold one of the bytes `[start, start + len)`. */
  function Pages(start: nat, len: nat): nat {
    if len == 0 then 0 else (start + len - 1) / PAGE_SIZE - start / PAGE_SIZE + 1
  }

  lemma PagesNext(start: nat, c: nat, len: nat)
    requires c < len
    ensures Pages(start, c + 1) == Pages(start, c) +
              if c > 0 && (start + c) / PAGE_SIZE == (start + c - 1) / PAGE_SIZE then 0 else 1
    ensures Pages(start, c + 1) <= Pages(start, len)
  {
  }

  /** The first `c` bytes of the buffer are what the user has at `user`. */
  ghost predicate Same(w: World, root: nat, user: nat, bytes: seq<byte>, c: nat)
    requires c <= |bytes|
  {
    forall j :: 0 <= j < c ==> UserByte(w, root, user + j) == Some(bytes[j])
  }

  lemma SameNext(w: World, w': World, root: nat, user: nat, bytes: seq<byte>, bytes': seq<byte>, c: nat, hi: nat)
    requires c < |bytes| == |bytes'| && Same(w, root, user, bytes, c) && bytes'[..c] == bytes[..c]
    requires ReadsKept(w, w', root, user + c, hi) && (c > 0 ==> CheckUVa(user + c - 1))
    ensures Same(w', root, user, bytes', c)
    ensures UserByte(w', root, user + c) == Some(bytes'[c]) ==> Same(w', root, user, bytes', c + 1)
  {
    hide UserByte;
  }

  /** A fault at `va` would be refused. */
  ghost predicate Refused(areas: seq<VMArea>, va: nat, store: bool) {
    Refusable(CellAt(areas, va / PAGE_SIZE), Needed(store))
  }

  /** Page `v` lies in an area whose permissions have U and R, and W too if it is to be written. */
  ghost predicate Opens(areas: seq<VMArea>, v: nat, store: bool) {
    exists a :: 0 <= a < |areas| && areas[a].start <= v < areas[a].end
             && areas[a].permissions / 16 % 2 == 1 && areas[a].permissions / 2 % 2 == 1
             && (store ==> areas[a].permissions / 4 % 2 == 1)
  }

  /** In bits: a fault is refused exactly if the page does not lie in such an area. */
  lemma RefusedInBits(areas: seq<VMArea>, va: nat, store: bool)
    requires AreasOk(areas)
    ensures Refused(areas, va, store) <==> !Opens(areas, va / 4096, store)
  {
    hide CellAt, Includes, Unmappable, Needed;
    var v := va / 4096;
    if a :| 0 <= a < |areas| && areas[a].start <= v < areas[a].end {
      CellOf(areas, a, v);
      forall b | 0 <= b < |areas| && areas[b].start <= v < areas[b].end ensures b == a {
        assert areas[a].Contains(v) && areas[b].Contains(v);
      }
      AllowedInBits(areas[a].permissions, store);
    } else {
      CellNowhere(areas, v);
    }
  }

  /** The kernel's check of an area's permissions, and that of the page table that follows it. */
  lemma AllowedInBits(permissions: nat, store: bool)
    ensures Includes(permissions, Needed(store)) && !Unmappable(permissions) <==>
            permissions / 16 % 2 == 1 && permissions / 2 % 2 == 1 && (store ==> permissions / 4 % 2 == 1)
  {
  }

  /** No byte of `[user, user + c)` lies in a page whose fault would be refused. */
  ghost predicate NoneRefused(areas: seq<VMArea>, user: nat, c: nat, store: bool) {
    forall x: nat :: user <= x < user + c ==> !Refused(areas, x, store)
  }

  /** Where a copy that started in `w0` stands after `c` bytes. */
  ghost predicate Copying(w0: World, areas0: seq<VMArea>, free0: int, w: World, areas: seq<VMArea>, free: int,
                          root: nat, user: nat, bytes: seq<byte>, c: nat, store: bool)
  {
    && c <= |bytes| && Same(w, root, user, bytes, c)
    && ReadsKept(w0, w, root, user, if store then user + c else user)
    && NoneRefused(areas0, user, c, store) && OnlyFilled(areas0, areas)
    && free0 - 3 * Pages(user, c) <= free <= free0
    && (c > 0 ==>
        CheckUVa(user + c - 1) && Grants(Translate(w.tables, root, (user + c - 1) / PAGE_SIZE), Direct(store)))
  }

  lemma CopyingStart(w: World, areas: seq<VMArea>, free: int, root: nat, user: nat, bytes: seq<byte>, store: bool)
    ensures Copying(w, areas, free, w, areas, free, root, user, bytes, 0, store)
  {
    hide UserByte, CellAt, Refusable;
  }

  /** One byte more, or a fault that was refused. */
  lemma CopyingNext(w0: World, areas0: seq<VMArea>, free0: int, w: World, areas: seq<VMArea>, free: int, root: nat,
                    user: nat, bytes: seq<byte>, c: nat, store: bool, w': World, areas': seq<VMArea>, free': int,
                        bytes': seq<byte>, done: bool)
    requires Copying(w0, areas0, free0, w, areas, free, root, user, bytes, c, store) && c < |bytes| == |bytes'|
    requires CheckUVa(user + c) && bytes'[..c] == bytes[..c]
    requires OnlyFilled(areas, areas')
             && ReadsKept(w, w', root, user + c, if done && store then user + c + 1 else user + c)
    requires if done then !Refused(areas, user + c, store) else Refused(areas, user + c, store) || free < 3
    requires done ==> UserByte(w', root, user + c) == Some(bytes'[c])
    requires done ==> Grants(Translate(w'.tables, root, (user + c) / PAGE_SIZE), Direct(store))
    requires Grants(Translate(w.tables, root, (user + c) / PAGE_SIZE), Direct(store)) ==> done && free' == free
    requires free - 3 <= free' <= free
    ensures done ==> Copying(w0, areas0, free0, w', areas', free', root, user, bytes', c + 1, store)
    ensures !done ==> Same(w', root, user, bytes', c) && ReadsKept(w0, w', root, user, if store then user + c else user)
    ensures !done ==> NoneRefused(areas0, user, c, store) && OnlyFilled(areas0, areas')
    ensures !done ==> Refused(areas0, user + c, store) || free0 < 3 * Pages(user, |bytes|)
    ensures !done ==> free0 - 3 * Pages(user, |bytes|) <= free' <= free0
  {
    hide UserByte, CellAt, Grants, Translate, Same, Refusable, Pages, ReadsKept, OnlyFilled;
    PagesNext(user, c, |bytes|);
    SameNext(w, w', root, user, bytes, bytes', c, if done && store then user + c + 1 else user + c);
    OnlyFilledTrans(areas0, areas, areas');
    ReadsOn(w0, w, w', root, user, user + c, store, done);
    RefusalKept(areas0, areas, user + c, store);
  }

  lemma RefusalKept(areas: seq<VMArea>, areas': seq<VMArea>, va: nat, store: bool)
    requires OnlyFilled(areas, areas')
    ensures Refused(areas', va, store) == Refused(areas, va, store)
  {
    hide CellAt, Includes, Unmappable;
  }

  /** `__uaccess`, with the user's memory as source (`store` false) or as destination. */
  method Uaccess(kernel: Kernel, i: nat, user: nat, base: nat, len: nat, buf: array<byte>, store: bool)
    returns (failed: nat)
    requires kernel.Inv() && i < |kernel.spaces| && buf.Length == len && OneHalf(base, len)
             && (len > 0 ==> CheckUVa(user + len - 1)) && CheckUVa(user)
    modifies kernel.spaces[i], kernel.spaces[i].rootPgt, kernel.mem, kernel.alloc, buf
    ensures kernel.Inv() && kernel.spaces == old(kernel.spaces)
            && kernel.spaces[i].rootPgt.ppn == old(kernel.spaces[i].rootPgt.ppn)
    ensures failed <= len
    ensures Same(kernel.Now(), kernel.spaces[i].rootPgt.ppn, user, buf[..], len - failed)
    ensures forall j :: 0 <= j < len && (store || len - failed <= j) ==> buf[j] == old(buf[j])
    ensures ReadsKept(old(kernel.Now()), kernel.Now(), kernel.spaces[i].rootPgt.ppn, user,
                      if store then user + len - failed else user)
    ensures NoneRefused(old(kernel.spaces[i].areas), user, len - failed, store)
    ensures failed > 0 ==>
              Refused(old(kernel.spaces[i].areas), user + len - failed, store)
                  || old(kernel.alloc.Free()) < 3 * Pages(user, len)
    ensures OnlyFilled(old(kernel.spaces[i].areas), kernel.spaces[i].areas)
    ensures old(kernel.alloc.Free()) - 3 * Pages(user, len) <= kernel.alloc.Free() <= old(kernel.alloc.Free())
    ensures OthersUntouched(old(kernel.Now()), old(kernel.Spaces()), kernel.Now(), kernel.Spaces(), i)
  {
    hide Kernel.Inv, PageAllocator.Free, CellAt, Translate, Untouched, Refusable, Grants, UserByte, ReadsKept,
      OnlyFilled, Signed, Pages, Same, Copying, NoneRefused, OthersUntouched, Kernel.Spaces, Kernel.Roots;
    ghost var w0, ss0, root := kernel.Now(), kernel.Spaces(), kernel.spaces[i].rootPgt.ppn;
    OthersUntouchedItself(w0, ss0, i);
    var a0 := if store then base else user;
    var a1 := if store then user else base;
    var t5 := a0 + len;
    ghost var c := 0;
    CopyingStart(w0, ss0[i].areas, kernel.alloc.Free(), root, user, buf[..], store);
    while Signed(a0) < Signed(t5)
      invariant 0 <= c <= len && a0 == (if store then base else user) + c && a1 == (if store then user else base) + c
      invariant kernel.Inv() && kernel.spaces == old(kernel.spaces) && kernel.spaces[i].rootPgt.ppn == root
      invariant Copying(w0, ss0[i].areas, old(kernel.alloc.Free()), kernel.Now(), kernel.spaces[i].areas,
                        kernel.alloc.Free(), root, user, buf[..], c, store)
      invariant forall j :: 0 <= j < len && (store || c <= j) ==> buf[j] == old(buf[j])
      invariant OthersUntouched(w0, ss0, kernel.Now(), kernel.Spaces(), i)
      decreases len - c
    {
      SignedOrder(a0 - c, len, c);
      ghost var w, ss, areas, free, bytes := kernel.Now(), kernel.Spaces(), kernel.spaces[i].areas,
        kernel.alloc.Free(), buf[..];
      var t6: byte := if store then buf[a0 - base] else 0;
      var done := UserInstruction(kernel, i, if store then a1 else a0, store, t6);
      if done.Some? && !store {
        NotBuffer(kernel, buf);
        buf[a1 - base] := done.value;
      }
      OthersOn(w0, ss0, w, ss, kernel.Now(), kernel.Spaces(), i);
      CopyingNext(w0, ss0[i].areas, old(kernel.alloc.Free()), w, areas, free, root, user, bytes, c, store,
                  kernel.Now(), kernel.spaces[i].areas, kernel.alloc.Free(), buf[..], done.Some?);
      if done.None? {
        return t5 - a0;  // the handler has set the program counter to `__uaccess_fix`
      }
      a0 := a0 + 1;
      a1 := a1 + 1;
      c := c + 1;
    }
    SignedOrder(a0 - c, len, c);
    CopyingMeans(w0, ss0[i].areas, old(kernel.alloc.Free()), kernel.Now(), kernel.spaces[i].areas,
                 kernel.alloc.Free(), root, user, buf[..], c, store);
    failed := t5 - a0;
  }

  /** The buffer is none of the objects that the memory invariant reads. */
  lemma NotBuffer(kernel: Kernel, buf: array<byte>)
    ensures (buf as object) !in kernel.Roots() && (buf as object) !in kernel.spaces
  {
  }

  lemma CopyingMeans(w0: World, areas0: seq<VMArea>, free0: int, w: World, areas: seq<VMArea>, free: int, root: nat,
                     user: nat, bytes: seq<byte>, c: nat, store: bool)
    requires Copying(w0, areas0, free0, w, areas, free, root, user, bytes, c, store)
    ensures c <= |bytes| && Same(w, root, user, bytes, c)
            && ReadsKept(w0, w, root, user, if store then user + c else user)
    ensures NoneRefused(areas0, user, c, store) && OnlyFilled(areas0, areas)
    ensures c == |bytes| ==> free0 - 3 * Pages(user, |bytes|) <= free <= free0
  {
    hide Pages, Same, ReadsKept, NoneRefused, OnlyFilled;
  }

  lemma ReadsOn(w0: World, w1: World, w2: World, root: nat, user: nat, va: nat, store: bool, done: bool)
    requires user <= va && ReadsKept(w0, w1, root, user, if store then va else user)
    requires ReadsKept(w1, w2, root, va, if done && store then va + 1 else va)
    ensures ReadsKept(w0, w2, root, user, if !store then user else if done then va + 1 else va)
  {
    hide UserByte;
  }

  /** Bytes copied in from the user are what the user would have read before the copy, where a
      page that only the copy made resident reads as zeros. */
  lemma CopiedIn(w0: World, w: World, root: nat, user: nat, bytes: seq<byte>, c: nat)
    requires c <= |bytes| && Same(w, root, user, bytes, c) && ReadsKept(w0, w, root, user, user)
             && (c > 0 ==> CheckUVa(user + c - 1))
    ensures forall j :: 0 <= j < c ==> bytes[j] == ByteOrZero(UserByte(w0, root, user + j))
    ensures ReadsKept(w0, w, root, 0, 0)
  {
    hide UserByte;
  }

  lemma RefusedInside(areas: seq<VMArea>, user: nat, len: nat, failed: nat, store: bool)
    requires failed <= len && NoneRefused(areas, user, len - failed, store)
    ensures failed > 0 && Refused(areas, user + len - failed, store) ==> !NoneRefused(areas, user, len, store)
    ensures failed == 0 ==> NoneRefused(areas, user, len, store)
  {
    hide Refused;
  }

  /** `copy_from_user`; the callers have checked the range. */
  method CopyFromUser(kernel: Kernel, i: nat, src: nat, dst: array<byte>, base: nat, len: nat) returns (failed: nat)
    requires kernel.Inv() && i < |kernel.spaces| && dst.Length == len && OneHalf(base, len) && CheckUVaRange(src, len)
    modifies kernel.spaces[i], kernel.spaces[i].rootPgt, kernel.mem, kernel.alloc, dst
    ensures kernel.Inv() && kernel.spaces == old(kernel.spaces) && failed <= len
    ensures kernel.spaces[i].rootPgt.ppn == old(kernel.spaces[i].rootPgt.ppn)
    ensures OnlyFilled(old(kernel.spaces[i].areas), kernel.spaces[i].areas)
    ensures forall j :: 0 <= j < len - failed ==>
              dst[j] == ByteOrZero(UserByte(old(kernel.Now()), old(kernel.spaces[i].rootPgt.ppn), src + j))
    ensures forall j :: len - failed <= j < len ==> dst[j] == old(dst[j])
    ensures ReadsKept(old(kernel.Now()), kernel.Now(), old(kernel.spaces[i].rootPgt.ppn), 0, 0)
    ensures failed > 0 ==>
              Refused(old(kernel.spaces[i].areas), src + len - failed, false)
                  || old(kernel.alloc.Free()) < 3 * Pages(src, len)
    ensures NoneRefused(old(kernel.spaces[i].areas), src, len - failed, false)
    ensures old(kernel.alloc.Free()) - 3 * Pages(src, len) <= kernel.alloc.Free() <= old(kernel.alloc.Free())
    ensures old(kernel.alloc.Free()) >= 3 * Pages(src, len) ==>
              (failed == 0 <==> NoneRefused(old(kernel.spaces[i].areas), src, len, false))
    ensures OthersUntouched(old(kernel.Now()), old(kernel.Spaces()), kernel.Now(), kernel.Spaces(), i)
  {
    hide Kernel.Inv, PageAllocator.Free, CellAt, Untouched, UserByte, ReadsKept, Pages, Same, NoneRefused, Refused,
      OnlyFilled;
    ghost var w0, root, areas := kernel.Now(), kernel.spaces[i].rootPgt.ppn, kernel.spaces[i].areas;
    failed := Uaccess(kernel, i, src, base, len, dst, false);
    CopiedIn(w0, kernel.Now(), root, src, dst[..], len - failed);
    RefusedInside(areas, src, len, failed, false);
  }

  /** `copy_to_user`; the callers have checked the range. */
  method CopyToUser(kernel: Kernel, i: nat, src: array<byte>, base: nat, dst: nat, len: nat) returns (failed: nat)
    requires kernel.Inv() && i < |kernel.spaces| && src.Length == len && OneHalf(base, len) && CheckUVaRange(dst, len)
    modifies kernel.spaces[i], kernel.spaces[i].rootPgt, kernel.mem, kernel.alloc, src
    ensures kernel.Inv() && kernel.spaces == old(kernel.spaces) && failed <= len
    ensures kernel.spaces[i].rootPgt.ppn == old(kernel.spaces[i].rootPgt.ppn)
    ensures OnlyFilled(old(kernel.spaces[i].areas), kernel.spaces[i].areas)
    ensures forall j :: 0 <= j < len - failed ==>
              UserByte(kernel.Now(), old(kernel.spaces[i].rootPgt.ppn), dst + j) == Some(old(src[j]))
    ensures src[..] == old(src[..])
    ensures ReadsKept(old(kernel.Now()), kernel.Now(), old(kernel.spaces[i].rootPgt.ppn), dst, dst + len - failed)
    ensures failed > 0 ==>
              Refused(old(kernel.spaces[i].areas), dst + len - failed, true)
                  || old(kernel.alloc.Free()) < 3 * Pages(dst, len)
    ensures NoneRefused(old(kernel.spaces[i].areas), dst, len - failed, true)
    ensures old(kernel.alloc.Free()) - 3 * Pages(dst, len) <= kernel.alloc.Free() <= old(kernel.alloc.Free())
    ensures old(kernel.alloc.Free()) >= 3 * Pages(dst, len) ==>
              (failed == 0 <==> NoneRefused(old(kernel.spaces[i].areas), dst, len, true))
    ensures OthersUntouched(old(kernel.Now()), old(kernel.Spaces()), kernel.Now(), kernel.Spaces(), i)
  {
    hide Kernel.Inv, PageAllocator.Free, CellAt, Untouched, UserByte, ReadsKept, Pages, NoneRefused, Refused,
      OnlyFilled;
    ghost var areas := kernel.spaces[i].areas;
    failed := Uaccess(kernel, i, dst, base, len, src, true);
    RefusedInside(areas, dst, len, failed, true);
  }

  const FD_STDOUT: nat := 1

  /** Where an empty vector of bytes says that its buffer is. */
  const DANGLING: nat := 1

  /** `sys_write` goes on to allocate a buffer and to copy. */
  predicate WriteAccepted(fd: nat, addr: nat, count: nat) {
    fd == FD_STDOUT && CheckUVaRange(addr, count)
  }

  /** The heap is asked for a buffer and has none. */
  predicate NoBuffer(count: nat, heap: Option<nat>) {
    count > 0 && heap.None?
  }

  /** What the user would read, with zeros for pages that are not resident yet. */
  ghost function UserBytes(w: World, root: nat, addr: nat, count: nat): (s: seq<byte>)
    ensures |s| == count && forall j :: 0 <= j < count ==> s[j] == ByteOrZero(UserByte(w, root, addr + j))
  {
    seq<byte>(count, j requires 0 <= j => ByteOrZero(UserByte(w, root, addr + j)))
  }

  /** An accepted write panics even if pages never run out: there is no buffer, or what the user
      can read there is not UTF-8. */
  ghost predicate WriteDies(w: World, root: nat, areas: seq<VMArea>, fd: nat, addr: nat, count: nat,
                            heap: Option<nat>) {
    && WriteAccepted(fd, addr, count)
    && (NoBuffer(count, heap)
       || (NoneRefused(areas, addr, count, false) && !ValidUtf8(UserBytes(w, root, addr, count))))
  }

  /** What `sys_write` prints and returns, or that it panics (`r` is `None`). */
  ghost predicate WriteEffect(w: World, w': World, root: nat, areas: seq<VMArea>, free: int, fd: nat, addr: nat,
                              count: nat, heap: Option<nat>, r: Option<int>, out: seq<byte>)
  {
    && (!WriteAccepted(fd, addr, count) ==> r == Some(-1))
    && (WriteAccepted(fd, addr, count) && NoBuffer(count, heap) ==> r == None && w' == w)
    && (WriteAccepted(fd, addr, count) && !NoBuffer(count, heap) ==>
          if r == Some(-1) then !NoneRefused(areas, addr, count, false) || free < 3 * Pages(addr, count)
          else
            && NoneRefused(areas, addr, count, false)
            && r == (if ValidUtf8(UserBytes(w, root, addr, count)) then Some(count) else None))
    && out == (if r == Some(count) then UserBytes(w, root, addr, count) else [])
    && ReadsKept(w, w', root, 0, 0)
  }

  /** With enough free pages, the outcome of `sys_write` is a function of its caller's memory. */
  lemma WriteDecided(w: World, w': World, root: nat, areas: seq<VMArea>, free: int, fd: nat, addr: nat, count: nat,
                     heap: Option<nat>, r: Option<int>, out: seq<byte>)
    requires WriteEffect(w, w', root, areas, free, fd, addr, count, heap, r, out)
    ensures r.None? ==> WriteDies(w, root, areas, fd, addr, count, heap)
    ensures WriteDies(w, root, areas, fd, addr, count, heap) ==> r == None || r == Some(-1)
    ensures free >= WritePages(fd, addr, count, heap) ==>
              && (r.None? <==> WriteDies(w, root, areas, fd, addr, count, heap))
              && (r == Some(count) <==>
                  WriteAccepted(fd, addr, count) && !WriteDies(w, root, areas, fd, addr, count, heap)
                                        && NoneRefused(areas, addr, count, false))
  {
    hide UserBytes, NoneRefused, ReadsKept, Pages, CheckUVaRange, ValidUtf8;
  }

  /** The free pages with which a write does not break off for lack of them. */
  function WritePages(fd: nat, addr: nat, count: nat, heap: Option<nat>): nat {
    if WriteAccepted(fd, addr, count) && !NoBuffer(count, heap) then 3 * Pages(addr, count) else 0
  }

  /** What `sys_task_info` writes and returns: `copied` bytes of the record, and it succeeds
      exactly if these are all. */
  ghost predicate InfoEffect(w: World, w': World, root: nat, areas: seq<VMArea>, free: int, found: bool,
                             info: seq<byte>, addr: nat, r: int, copied: nat)
  {
    && r == (if found && CheckUVaRange(addr, |info|) && copied == |info| then 0 else -1)
    && copied <= |info| && (copied > 0 ==> found && CheckUVaRange(addr, |info|))
    && (forall j :: 0 <= j < copied ==> UserByte(w', root, addr + j) == Some(info[j]))
    && (free >= 3 * Pages(addr, |info|) ==>
        (r == 0 <==> found && CheckUVaRange(addr, |info|) && NoneRefused(areas, addr, |info|, true)))
    && ReadsKept(w, w', root, addr, addr + copied)
  }

  /** `sys_write` (os/src/syscall/io.rs): `out` is what is printed.  Where this returns `None`
      the source panics: the heap gives no buffer, or what was copied is not UTF-8. */
  method SysWrite(kernel: Kernel, i: nat, fd: nat, addr: nat, count: nat, heap: Option<nat>)
    returns (r: Option<int>, out: seq<byte>)
    requires kernel.Inv() && i < |kernel.spaces|
    requires WriteAccepted(fd, addr, count) && heap.Some? ==> OneHalf(heap.value, count)
    modifies kernel.spaces[i], kernel.spaces[i].rootPgt, kernel.mem, kernel.alloc
    ensures kernel.Inv() && kernel.spaces == old(kernel.spaces)
    ensures kernel.spaces[i].rootPgt.ppn == old(kernel.spaces[i].rootPgt.ppn)
    ensures OnlyFilled(old(kernel.spaces[i].areas), kernel.spaces[i].areas)
    ensures old(kernel.alloc.Free()) - WritePages(fd, addr, count, heap) <=
              kernel.alloc.Free() <= old(kernel.alloc.Free())
    ensures WriteEffect(old(kernel.Now()), kernel.Now(), old(kernel.spaces[i].rootPgt.ppn),
                        old(kernel.spaces[i].areas), old(kernel.alloc.Free()),
                        fd, addr, count, heap, r, out)
    ensures OthersUntouched(old(kernel.Now()), old(kernel.Spaces()), kernel.Now(), kernel.Spaces(), i)
  {
    hide Kernel.Inv, PageAllocator.Free, UserByte, ReadsKept, Pages, NoneRefused, Refused, CheckUVaRange, CellAt,
      Untouched, ValidUtf8, UserBytes, OnlyFilled;
    ghost var w, root := kernel.Now(), kernel.spaces[i].rootPgt.ppn;
    OthersUntouchedItself(w, kernel.Spaces(), i);
    ReadsSame(w, root);
    OnlyFilledItself(kernel.spaces[i].areas);
    if fd != FD_STDOUT {
      return Some(-1), [];
    }
    if !CheckUVaRange(addr, count) {
      return Some(-1), [];
    }
    if count > 0 && heap.None? {
      return None, [];
    }
    var base := if count > 0 then heap.value else DANGLING;
    ghost var roots, spaces := kernel.Roots(), kernel.spaces;
    var dst := new byte[count](_ => 0);
    ghost var side: object := dst;
    assert kernel.Roots() == roots && kernel.spaces == spaces && side !in roots
           && forall s :: s in spaces ==> s != side;
    var failed := CopyFromUser(kernel, i, addr, dst, base, count);
    if failed != 0 {
      return Some(-1), [];
    }
    assert dst[..] == UserBytes(w, root, addr, count);
    if !ValidUtf8(dst[..]) {
      return None, [];
    }
    return Some(count), dst[..];
  }

  /** `sys_task_info` (os/src/syscall/process.rs): `info` is the bytes of the record, unless no
      task has the id that was asked for. */
  method SysTaskInfo(kernel: Kernel, i: nat, found: bool, info: seq<byte>, base: nat, addr: nat)
    returns (r: int, ghost copied: nat)
    requires kernel.Inv() && i < |kernel.spaces| && OneHalf(base, |info|)
    modifies kernel.spaces[i], kernel.spaces[i].rootPgt, kernel.mem, kernel.alloc
    ensures kernel.Inv() && kernel.spaces == old(kernel.spaces)
    ensures kernel.spaces[i].rootPgt.ppn == old(kernel.spaces[i].rootPgt.ppn)
    ensures OnlyFilled(old(kernel.spaces[i].areas), kernel.spaces[i].areas)
    ensures old(kernel.alloc.Free()) - 3 * Pages(addr, |info|) <= kernel.alloc.Free() <= old(kernel.alloc.Free())
    ensures InfoEffect(old(kernel.Now()), kernel.Now(), old(kernel.spaces[i].rootPgt.ppn),
                       old(kernel.spaces[i].areas), old(kernel.alloc.Free()),
                       found, info, addr, r, copied)
    ensures OthersUntouched(old(kernel.Now()), old(kernel.Spaces()), kernel.Now(), kernel.Spaces(), i)
  {
    hide Kernel.Inv, PageAllocator.Free, UserByte, ReadsKept, Pages, NoneRefused, Refused, CheckUVaRange, CellAt,
      Untouched;
    ghost var w0, root := kernel.Now(), kernel.spaces[i].rootPgt.ppn;
    OthersUntouchedItself(w0, kernel.Spaces(), i);
    ReadsSame(w0, root);
    ReadsWider(w0, w0, root, 0, 0, addr, addr);
    OnlyFilledItself(kernel.spaces[i].areas);
    if !CheckUVaRange(addr, |info|) {
      return -1, 0;
    }
    if !found {
      return -1, 0;
    }
    ghost var roots, spaces := kernel.Roots(), kernel.spaces;
    var src := new byte[|info|](j requires 0 <= j < |info| => info[j]);
    ghost var side: object := src;
    assert kernel.Roots() == roots && kernel.spaces == spaces && side !in roots
           && forall s :: s in spaces ==> s != side;
    assert src[..] == info;
    var failed := CopyToUser(kernel, i, src, base, addr, |info|);
    assert forall j :: 0 <= j < |info| ==> src[j] == src[..][j] == info[j];
    return if failed == 0 then 0 else -1, |info| - failed;
  }

  lemma ReadsWider(w: World, w': World, root: nat, lo: nat, hi: nat, lo': nat, hi': nat)
    requires ReadsKept(w, w', root, lo, hi) && (lo >= hi || lo' <= lo <= hi <= hi')
    ensures ReadsKept(w, w', root, lo', hi')
  {
    hide UserByte;
  }
}
