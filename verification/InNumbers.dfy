/**
  The steps of the running kernel once more, in numbers, bits and bytes: what a trap, an access and
  each system call do, without the names that the steps are defined by (os/src/trap/utrap.rs,
  os/src/syscall.rs, os/src/syscall).

  `E` stands for the end of user space, `Opens(areas, v, store)` says in bits that page `v` lies in
  an area that a load or a store of user code may use, and `ByteOr0` is a byte that reads as zero if
  its page is not resident.
 */
module InNumbers {
  import opened Pte
  import opened Walk
  import opened PageAlloc
  import opened PgtSpec
  import opened Areas
  import opened SpaceSpec
  import opened LoadSpec
  import opened VMSpace
  import opened SystemSpec
  import opened Tasks
  import opened Kernel
  import opened Utf8
  import opened UAccess
  import opened Steps
  import FlatMemory

  const E: nat := 0x40_0000_0000 - 4096

  ghost function ByteOr0(w: World, root: nat, va: nat): int {
    match UserByte(w, root, va)
    case None => 0
    case Some(b) => b
  }

  /** What user code can do next: an access in user space, or a trap.  The registers of a system call
      have 64 bits, a buffer for `write` is not larger than the heap of 4 MiB, and the kernel's side of
      a copy lies in one half of the address space. */
  lemma PossibleSteps(step: Steps.Step, inputs: Inputs)
    ensures Possible(step, inputs) <==>
            match step
            case Access(va, _, _) => va < E
            case Trapped(PageFault(_, stval)) => stval >= E
            case Trapped(EnvironmentCall(id, a0, a1, a2)) =>
              && a0 < 0x1_0000_0000_0000_0000 && a1 < 0x1_0000_0000_0000_0000 && a2 < 0x1_0000_0000_0000_0000
              && (id == 64 && a0 == 1 && a1 < E && 0 < a1 + a2 <= E && inputs.heap.Some? ==>
                    a2 <= 0x40_0000 && InOneHalf(inputs.heap.value, a2))
              && (id == 0x8000_0000_0000_0001 ==> InOneHalf(inputs.stack, |inputs.info|))
            case _ => true
  {
  }

  predicate InOneHalf(start: nat, len: nat) {
    start + len < 0x8000_0000_0000_0000
      || (0x8000_0000_0000_0000 <= start && start + len < 0x1_0000_0000_0000_0000)
  }

  /** Traps: the timer and call 124 switch; calls 93, illegal instructions and instruction faults end
      the task, and nothing else does; a fault outside user space, an unknown cause and a call that is
      none of the six panic and leave memory as it was.  A call is recorded for its caller alone. */
  lemma Traps(c: Config, c': Config, trap: Trap, inputs: Inputs, i: nat, o: Outcome, out: seq<byte>, terminated: bool,
              copied: nat)
    requires TrapStep(c, c', trap, inputs, i, o, out, terminated, copied) && (trap.PageFault? ==> trap.stval >= E)
    ensures var id := if trap.EnvironmentCall? then trap.id else 0;
            var known := id == 64 || id == 90 || id == 93 || id == 124 || id == 215 || id == 0x8000_0000_0000_0001;
            && (terminated <==> trap.IllegalInstruction? || trap.InstructionPageFault? || id == 93)
            && (trap.TimerInterrupt? || id == 124 ==> o.Switched?)
            && (trap.Unexpected? || trap.PageFault? || (trap.EnvironmentCall? && !known) ==> o.Panicked?)
            && (terminated ==> o.Switched? || o.ShutDown?)
            && (trap.TimerInterrupt? || id == 124 || (!known && !terminated) ==>
                  c'.spaces == c.spaces && c'.ss == c.ss && c'.w == c.w && c'.free == c.free && out == [])
            && (forall t :: t in c'.tasks ==>
                  t in c.calls && t in c'.calls
                      && c'.calls[t] == c.calls[t] + if trap.EnvironmentCall? && c.current == Some(t.taskId) then [id]
                                                     else [])
  {
    hide OthersKept, Rotates, WriteDies, MemoryEffect, ListFull, PagesToWrite;
  }

  /** What the user reads outside `[lo, hi)` is as before, except that pages of zeros may have come. */
  ghost predicate SameReads(w: World, w': World, root: nat, lo: nat, hi: nat) {
    forall x: nat :: x < E && !(lo <= x < hi) ==>
      UserByte(w', root, x) == UserByte(w, root, x)
        || (UserByte(w, root, x).None? && UserByte(w', root, x).Some? && UserByte(w', root, x).value == 0)
  }

  lemma ReadsInNumbers(w: World, w': World, root: nat, lo: nat, hi: nat)
    requires ReadsKept(w, w', root, lo, hi)
    ensures SameReads(w, w', root, lo, hi)
  {
    hide UserByte;
  }

  /** The pages that hold the bytes `[addr, addr + len)`. */
  function PagesHolding(addr: nat, len: nat): nat {
    if len == 0 then 0 else (addr + len - 1) / 4096 - addr / 4096 + 1
  }

  ghost predicate AllOpen(areas: seq<VMArea>, addr: nat, len: nat, store: bool) {
    forall x: nat :: addr <= x < addr + len ==> Opens(areas, x / 4096, store)
  }

  lemma NoneRefusedInNumbers(areas: seq<VMArea>, addr: nat, len: nat, store: bool)
    requires AreasOk(areas)
    ensures NoneRefused(areas, addr, len, store) <==> AllOpen(areas, addr, len, store)
  {
    hide Refused, Opens, AreasOk;
    forall x: nat ensures Refused(areas, x, store) <==> !Opens(areas, x / 4096, store) {
      RefusedInBits(areas, x, store);
    }
  }

  lemma AreasAreOk(k: Pgt, managed: int, c: Config, i: nat)
    requires Sound(k, managed, c) && i < |c.ss|
    ensures SpaceOk(c.w, c.ss[i]) && AreasOk(c.ss[i].areas) && AllUser(c.ss[i].areas)
  {
    hide SystemOk, SpaceOk, AreasOk, AllUser, Apart, UniqueIds;
    SystemMeans(c.w, k, c.ss, i);
    SpaceHolds(c.w, c.ss[i]);
    OwnParts(c.w, c.ss[i]);
  }

  /** Accesses: with three free pages one goes through exactly if its page lies in an area with U and
      R, and for a store W too; and none goes through otherwise.  A load gets the byte that was there,
      a store changes its byte, and no other byte changes. */
  lemma Accesses(k: Pgt, managed: int, c: Config, c': Config, va: nat, store: bool, value: byte, i: nat, o: Outcome,
                 r: Option<byte>, inputs: Inputs)
    requires AccessStep(c, c', va, store, value, i, o, r, inputs) && Sound(k, managed, c) && va < E
    ensures i < |c.ss|
    ensures r.Some? ==> Opens(c.ss[i].areas, va / 4096, store)
    ensures c.free >= 3 ==> (r.Some? <==> Opens(c.ss[i].areas, va / 4096, store))
    ensures r.None? ==> o.Switched? || o.ShutDown?
    ensures var root := c.ss[i].pgt.root;
            r.Some? ==>
              && o == Resumed(None) && (!store ==> r.value as int == ByteOr0(c.w, root, va))
              && UserByte(c'.w, root, va) == Some(if store then value else r.value)
              && SameReads(c.w, c'.w, root, va, va + 1)
  {
    hide OthersKept, CallsGrow, Rotates, Refused, Granted, UserByte, OnlyFilled, ReadsKept, SystemOk, AllUser, Sound,
      SpaceOk, AreasOk, Opens;
    var x, root := c.ss[i], c.ss[i].pgt.root;
    AreasAreOk(k, managed, c, i);
    RefusedInBits(x.areas, va, store);
    if Granted(ViewAt(c, i), va, store) {
      FlatMemory.GrantedIsAllowed(c.w, x, va, store, c.free);
    }
    if r.Some? {
      ReadsInNumbers(c.w, c'.w, root, va, va + 1);
    }
  }

  /** `write` (call 64). */
  lemma Writes(k: Pgt, managed: int, c: Config, c': Config, fd: nat, addr: nat, count: nat, inputs: Inputs, i: nat,
               o: Outcome, out: seq<byte>, terminated: bool, copied: nat, bytes: seq<byte>)
    requires TrapStep(c, c', EnvironmentCall(64, fd, addr, count), inputs, i, o, out, terminated, copied)
    requires Sound(k, managed, c)
    requires |bytes| == count
             && forall j :: 0 <= j < count ==> bytes[j] as int == ByteOr0(c.w, c.ss[i].pgt.root, addr + j)
    ensures var accepted := fd == 1 && addr < E && 0 < addr + count <= E;
            var buffer := count == 0 || inputs.heap.Some?;
            var readable := AllOpen(c.ss[i].areas, addr, count, false);
            && (!accepted ==> o == Resumed(Some(-1)))
            && (accepted && !buffer ==> o == Panicked)
            && (accepted && buffer && c.free >= 3 * PagesHolding(addr, count) ==>
                  o == if !readable then Resumed(Some(-1))
                       else if ValidUtf8(bytes) then Resumed(Some(count)) else Panicked)
            && out == (if o == Resumed(Some(count)) then bytes else [])
            && SameReads(c.w, c'.w, c.ss[i].pgt.root, 0, 0)
  {
    hide OthersKept, CallsGrow, Rotates, Shrinks, PanicsIff, UserByte, OnlyFilled, ReadsKept, SystemOk, AllUser, Sound,
      SpaceOk, AreasOk, NoneRefused, AllOpen, ValidUtf8, MmapEffect, MunmapEffect, InfoEffect;
    var x, root := c.ss[i], c.ss[i].pgt.root;
    AreasAreOk(k, managed, c, i);
    NoneRefusedInNumbers(x.areas, addr, count, false);
    ReadsInNumbers(c.w, c'.w, root, 0, 0);
    assert UserBytes(c.w, root, addr, count) == bytes;
  }

  /** `mmap` (call 90) of some bytes; `v` is any page. */
  lemma Mmaps(k: Pgt, managed: int, c: Config, c': Config, addr: nat, len: nat, prot: nat, inputs: Inputs, i: nat,
              o: Outcome, out: seq<byte>, terminated: bool, copied: nat, v: nat)
    requires TrapStep(c, c', EnvironmentCall(90, addr, len, prot), inputs, i, o, out, terminated, copied)
    requires Sound(k, managed, c) && len > 0
    ensures i < |c.ss|
    ensures var areas := c.ss[i].areas;
            && o == (if !MmapFits(areas, addr, len, prot) then Resumed(Some(-1))
                     else if inputs.grows then Resumed(Some(0)) else Panicked)
            && c'.w == c.w && c'.free == c.free && out == []
            && |c'.ss| == |c.ss| && c'.ss[i].pgt.root == c.ss[i].pgt.root
            && if o == Resumed(Some(0)) && addr / 4096 <= v <= (addr + len - 1) / 4096 then
                 var cell := CellAt(c'.ss[i].areas, v);
                 && cell.InArea? && cell.page.None? && cell.permissions < 32 && cell.permissions % 2 == 0
                 && cell.permissions / 16 % 2 == 1 && cell.permissions / 2 % 2 == prot / 2 % 2
                 && cell.permissions / 4 % 2 == prot / 4 % 2 && cell.permissions / 8 % 2 == prot % 2
               else CellAt(c'.ss[i].areas, v) == CellAt(areas, v)
  {
    hide OthersKept, CallsGrow, Rotates, Shrinks, PanicsIff, SystemOk, AllUser, Sound, SpaceOk, AreasOk, CellAt,
      MmapEffect, MunmapEffect, InfoEffect, WriteEffect, MmapAccepts, MunmapSplits, ToPermissions, MmapFits;
    var areas := c.ss[i].areas;
    AreasAreOk(k, managed, c, i);
    AreasInOrder(areas);
    MmapDecided(areas, addr, len, prot);
    if o.Resumed? {
      MmapResult(areas, c'.ss[i].areas, addr, len, prot, o.result.value);
      MmapGives(areas, c'.ss[i].areas, addr, len, prot, o.result.value, v);
    }
  }

  /** A page that holds one of the bytes has permissions. */
  ghost predicate SomeMapped(x: Space, addr: nat, len: nat) {
    exists va: nat :: addr <= va < addr + len && FlatMemory.PermissionsAt(x, va / 4096).Some?
  }

  /** If no area is empty, `mmap` depends on the permissions of the pages alone. */
  lemma MmapsByPermissions(k: Pgt, managed: int, c: Config, c': Config, addr: nat, len: nat, prot: nat, inputs: Inputs,
                           i: nat, o: Outcome, out: seq<byte>, terminated: bool, copied: nat)
    requires TrapStep(c, c', EnvironmentCall(90, addr, len, prot), inputs, i, o, out, terminated, copied)
    requires Sound(k, managed, c) && len > 0 && i < |c.ss| && NoneEmpty(c.ss[i].areas)
    ensures o == if addr + len > E || prot >= 8 || SomeMapped(c.ss[i], addr, len) then Resumed(Some(-1))
                 else if inputs.grows then Resumed(Some(0)) else Panicked
  {
    hide TrapStep, Sound, SomeMapped, NoneEmpty, MmapFits;
    Mmaps(k, managed, c, c', addr, len, prot, inputs, i, o, out, terminated, copied, 0);
    FitsByPermissions(c.ss[i], addr, len, prot);
  }

  /** Over a run, the outcome of `mmap` follows from the flat permissions of its caller, if its program
      has no empty segment: of a request for some bytes below the end of user space, with a protection
      below 8, it depends only on whether a page that holds one of the bytes has permissions. */
  lemma {:induction false} MmapsAreFlat(trace: seq<Config>, events: seq<Event>, steps: seq<(Steps.Step, Inputs)>,
                                        k: Pgt, managed: int, s: VMSpace, x0: Space, n: nat, addr: nat, len: nat,
                                        prot: nat)
    requires IsRun(trace, events, steps) && n < |events| && forall m :: 0 <= m <= n ==> Sound(k, managed, trace[m])
    requires HasSpace(trace[0], s, x0) && NoneEmpty(x0.areas) && FlatMemory.OfOwn(trace[n], events[n], s)
    requires steps[n].0 == Trapped(EnvironmentCall(90, addr, len, prot)) && len > 0
    ensures var mapped := exists x: nat :: addr <= x < addr + len &&
                            FlatMemory.FlatPermissions(trace, events, steps, s, x / 4096, n,
                                                       FlatMemory.PermissionsAt(x0, x / 4096)).Some?;
            events[n].o == if addr + len > E || prot >= 8 || mapped then Resumed(Some(-1))
                           else if steps[n].1.grows then Resumed(Some(0)) else Panicked
  {
    hide StepOf, FlatMemory.FlatPermissions, FlatMemory.PermissionsAt, Sound, HasSpace, NoneEmpty, FlatMemory.OfOwn,
      TrapStep;
    var c, e := trace[n], events[n];
    assert StepOf(c, trace[n + 1], steps[n].0, steps[n].1, e);
    TrapOf(c, trace[n + 1], steps[n].0, steps[n].1, e, s);
    FlatMemory.NeverEmpty(trace, events, steps, k, managed, s, x0, c.ss[e.i], n);
    MmapsByPermissions(k, managed, c, trace[n + 1], addr, len, prot, steps[n].1, e.i, e.o, e.out, e.terminated,
                       e.copied);
    forall x: nat
      ensures FlatMemory.PermissionsAt(c.ss[e.i], x / 4096) ==
                FlatMemory.FlatPermissions(trace, events, steps, s, x / 4096, n, FlatMemory.PermissionsAt(x0, x / 4096))
    {
      FlatMemory.RunIsFlat(trace, events, steps, k, managed, s, x0, c.ss[e.i], 0, x / 4096, n);
    }
  }

  lemma TrapOf(c: Config, c': Config, step: Steps.Step, inputs: Inputs, e: Event, s: VMSpace)
    requires StepOf(c, c', step, inputs, e) && step.Trapped? && FlatMemory.OfOwn(c, e, s)
    ensures e.Stepped? && TrapStep(c, c', step.trap, inputs, e.i, e.o, e.out, e.terminated, e.copied)
    ensures e.i < |c.ss| == |c.spaces| && HasSpace(c, s, c.ss[e.i])
  {
    hide Around, PanicsIff, SyscallEffect, MustTerminate, FaultServed, OwnFilled;
  }

  lemma FitsByPermissions(s: Space, addr: nat, len: nat, prot: nat)
    requires NoneEmpty(s.areas)
    ensures MmapFits(s.areas, addr, len, prot) <==> addr + len <= E && prot < 8 && !SomeMapped(s, addr, len)
  {
    hide FlatMemory.PermissionsAt;
    var areas := s.areas;
    if va: nat :| addr <= va < addr + len && FlatMemory.PermissionsAt(s, va / 4096).Some? {
      HasPermissions(s, va / 4096);
      var j :| 0 <= j < |areas| && areas[j].start <= va / 4096 < areas[j].end;
    } else {
      forall j | 0 <= j < |areas|
        ensures forall x: nat :: addr <= x < addr + len ==> !(areas[j].start <= x / 4096 < areas[j].end)
      {
        forall x: nat | addr <= x < addr + len ensures !(areas[j].start <= x / 4096 < areas[j].end) {
          HasPermissions(s, x / 4096);
        }
      }
    }
  }

  lemma HasPermissions(s: Space, v: nat)
    ensures FlatMemory.PermissionsAt(s, v).Some? <==>
            exists j :: 0 <= j < |s.areas| && s.areas[j].start <= v < s.areas[j].end
  {
    if j :| 0 <= j < |s.areas| && s.areas[j].start <= v < s.areas[j].end {
      assert s.areas[j].Contains(v);
    } else {
      CellNowhere(s.areas, v);
    }
  }

  lemma AreasInOrder(areas: seq<VMArea>)
    requires AreasOk(areas)
    ensures forall j :: 0 <= j < |areas| ==> areas[j].start <= areas[j].end
  {
    forall j | 0 <= j < |areas| ensures areas[j].start <= areas[j].end {
      assert areas[j].Ok();
    }
  }

  lemma MmapResult(areas: seq<VMArea>, areas': seq<VMArea>, addr: nat, len: nat, prot: nat, r: int)
    requires MmapEffect(areas, areas', addr, len, prot, r)
    ensures r == if MmapAccepts(areas, addr, len, prot) then 0 else -1
  {
    hide CellAt, MmapAccepts;
  }

  /** `munmap` (call 215) of some bytes; `x` is any address. */
  lemma Munmaps(c: Config, c': Config, addr: nat, len: nat, a2: nat, inputs: Inputs, i: nat, o: Outcome, out: seq<byte>,
                terminated: bool, copied: nat, x: nat)
    requires TrapStep(c, c', EnvironmentCall(215, addr, len, a2), inputs, i, o, out, terminated, copied) && len > 0
    ensures i < |c.ss|
    ensures var (areas, root) := (c.ss[i].areas, c.ss[i].pgt.root);
            var accepted := addr + len <= E;
            var splits := exists j :: 0 <= j < |areas| && areas[j].start <= addr / 4096 - 1
                                      && (addr + len - 1) / 4096 + 1 < areas[j].end;
            && o == (if !accepted then Resumed(Some(-1)) else if splits && !inputs.grows then Panicked
                     else Resumed(Some(0)))
            && out == [] && |c'.ss| == |c.ss| && c'.ss[i].pgt.root == root
            && if o == Resumed(Some(0)) && addr / 4096 <= x / 4096 <= (addr + len - 1) / 4096 then
                 CellAt(c'.ss[i].areas, x / 4096) == Nowhere && Translate(c'.w.tables, root, x / 4096) == Fault
               else
                 && CellAt(c'.ss[i].areas, x / 4096) == CellAt(areas, x / 4096)
                 && (x < E ==>
                       Translate(c'.w.tables, root, x / 4096) == Translate(c.w.tables, root, x / 4096)
                           && UserByte(c'.w, root, x) == UserByte(c.w, root, x))
  {
    hide OthersKept, CallsGrow, Rotates, Shrinks, PanicsIff, CellAt, MmapEffect, MunmapEffect, InfoEffect, WriteEffect,
      MmapAccepts, MunmapSplits, UserByte, Translate;
    MunmapSplitsWhat(c.ss[i].areas, addr, len);
    if o.Resumed? {
      MunmapDecided(c.w, c'.w, c.ss[i].pgt.root, c.ss[i].areas, c'.ss[i].areas, addr, len, o.result.value, x);
    }
    var splits := exists j :: 0 <= j < |c.ss[i].areas| && c.ss[i].areas[j].start <= addr / 4096 - 1
                              && (addr + len - 1) / 4096 + 1 < c.ss[i].areas[j].end;
    assert o == if addr + len > E then Resumed(Some(-1)) else if splits && !inputs.grows then Panicked
                else Resumed(Some(0));
  }

  /** Information about a task (call 2^63 + 1): the first `copied` bytes of the record reach the
      caller, and no other byte changes. */
  lemma Infos(k: Pgt, managed: int, c: Config, c': Config, id: nat, addr: nat, a2: nat, inputs: Inputs, i: nat,
              o: Outcome, out: seq<byte>, terminated: bool, copied: nat)
    requires TrapStep(c, c', EnvironmentCall(0x8000_0000_0000_0001, id, addr, a2), inputs, i, o, out, terminated,
                      copied)
    requires Sound(k, managed, c)
    ensures i < |c.ss|
    ensures var (len, root) := (|inputs.info|, c.ss[i].pgt.root);
            var found := exists t :: t in c.tasks && t.taskId == id;
            var accepted := addr < E && 0 < addr + len <= E;
            && copied <= len && (copied > 0 ==> found && accepted)
            && o == Resumed(Some(if found && accepted && copied == len then 0 else -1)) && out == []
            && (c.free >= 3 * PagesHolding(addr, len) ==>
                  (o == Resumed(Some(0)) <==> found && accepted && AllOpen(c.ss[i].areas, addr, len, true)))
            && (forall j :: 0 <= j < copied ==> UserByte(c'.w, root, addr + j) == Some(inputs.info[j]))
            && SameReads(c.w, c'.w, root, addr, addr + copied)
  {
    hide OthersKept, CallsGrow, Rotates, Shrinks, PanicsIff, UserByte, OnlyFilled, ReadsKept, SystemOk, AllUser, Sound,
      SpaceOk, AreasOk, NoneRefused, AllOpen, MmapEffect, MunmapEffect, WriteEffect;
    AreasAreOk(k, managed, c, i);
    NoneRefusedInNumbers(c.ss[i].areas, addr, |inputs.info|, true);
    ReadsInNumbers(c.w, c'.w, c.ss[i].pgt.root, addr, addr + copied);
  }

  /** The flat memory of a task: what a step of its own does to the byte at `va` and to the
      permissions of its page. */
  lemma FlatSteps(step: Steps.Step, inputs: Inputs, e: Event, va: nat, b: byte, permissions: Option<nat>)
    requires e.Stepped?
    ensures FlatMemory.ByteAfter(step, inputs, e, va, b) ==
            match step
            case Access(x, store, value) => if store && x == va && e.loaded.Some? then value else b
            case Trapped(EnvironmentCall(215, addr, len, _)) =>
              if e.o == Resumed(Some(0)) && len > 0 && addr / 4096 <= va / 4096 <= (addr + len - 1) / 4096 then 0 else b
            case Trapped(EnvironmentCall(0x8000_0000_0000_0001, _, addr, _)) =>
              if addr <= va < addr + e.copied && e.copied <= |inputs.info| then inputs.info[va - addr] else b
            case _ => b
    ensures var after := FlatMemory.PermissionsAfter(step, e, va / 4096, permissions);
            match step
            case Trapped(EnvironmentCall(90, addr, len, prot)) =>
              if e.o == Resumed(Some(0)) && addr / 4096 <= va / 4096 < (addr + len + 4095) / 4096 then
                after == Some(16 + prot / 2 % 2 * 2 + prot / 4 % 2 * 4 + prot % 2 * 8)
              else after == permissions
            case Trapped(EnvironmentCall(215, addr, len, _)) =>
              if e.o == Resumed(Some(0)) && len > 0 && addr / 4096 <= va / 4096 <= (addr + len - 1) / 4096 then
                after == None
              else after == permissions
            case _ => after == permissions
  {
  }
}
