/**
  What user code may take for granted over a whole run: each task has a flat memory of its own.

  A byte of it is what the task, or a system call of the task, put there last, or zero if the page
  has been unmapped since, or else what the program says.  Its pages have the permissions of the
  program, of the stack, or of the last `mmap`.  Page tables, faults and the other tasks cannot be
  told from outside.
 */
module FlatMemory {
  import opened Layout
  import opened Pte
  import opened Memory
  import opened Walk
  import opened PageAlloc
  import opened PgtSpec
  import opened Areas
  import opened SpaceSpec
  import opened LoadSpec
  import opened VMSpace
  import opened SystemSpec
  import opened Kernel
  import opened UAccess
  import opened Steps

  /** The byte at `va`, zero where no page is resident. */
  ghost function ByteAtVa(w: World, x: Space, va: nat): byte {
    ByteOrZero(UserByte(w, x.pgt.root, va))
  }

  /** The permissions of page `v`, if it has an area. */
  ghost function PermissionsAt(x: Space, v: nat): Option<nat> {
    if CellAt(x.areas, v).InArea? then Some(CellAt(x.areas, v).permissions) else None
  }

  // What a step of the task itself does to its flat memory.

  predicate Maps(step: Steps.Step, e: Event, v: nat) {
    && step.Trapped? && step.trap.EnvironmentCall? && step.trap.id == SYSCALL_MMAP
    && e.Stepped? && e.o == Resumed(Some(0)) && PageMeets(step.trap.a0, step.trap.a1, v)
  }

  predicate Unmaps(step: Steps.Step, e: Event, v: nat) {
    && step.Trapped? && step.trap.EnvironmentCall? && step.trap.id == SYSCALL_MUNMAP
    && e.Stepped? && e.o == Resumed(Some(0)) && step.trap.a1 > 0 && PageMeets(step.trap.a0, step.trap.a1, v)
  }

  predicate Stores(step: Steps.Step, e: Event, va: nat) {
    step.Access? && step.store && step.va == va && e.Stepped? && e.loaded.Some?
  }

  predicate Copies(step: Steps.Step, inputs: Inputs, e: Event, va: nat) {
    && step.Trapped? && step.trap.EnvironmentCall? && step.trap.id == SYSCALL_TASK_INFO
    && e.Stepped? && e.copied <= |inputs.info| && step.trap.a1 <= va < step.trap.a1 + e.copied
  }

  /** What the byte at `va` is after the step, if it was `before`. */
  function ByteAfter(step: Steps.Step, inputs: Inputs, e: Event, va: nat, before: byte): byte {
    if Stores(step, e, va) then step.value
    else if Copies(step, inputs, e, va) then inputs.info[va - step.trap.a1]
    else if Unmaps(step, e, va / PAGE_SIZE) then 0
    else before
  }

  function PermissionsAfter(step: Steps.Step, e: Event, v: nat, before: Option<nat>): Option<nat> {
    if Maps(step, e, v) then Some(ToPermissions(step.trap.a2))
    else if Unmaps(step, e, v) then None
    else before
  }

  lemma KeptByte(w: World, w': World, x: Space, x': Space, lo: nat, hi: nat, va: nat)
    requires ReadsKept(w, w', x.pgt.root, lo, hi) && x'.pgt.root == x.pgt.root && CheckUVa(va) && !(lo <= va < hi)
    ensures ByteAtVa(w', x', va) == ByteAtVa(w, x, va)
  {
    hide UserByte;
  }

  lemma FilledKeeps(x: Space, x': Space, v: nat)
    requires OnlyFilled(x.areas, x'.areas)
    ensures PermissionsAt(x', v) == PermissionsAt(x, v)
  {
    hide CellAt;
    assert FilledAt(CellAt(x.areas, v), CellAt(x'.areas, v));
  }

  /** An access of the task, seen on its flat memory. */
  lemma AccessIsFlat(c: Config, c': Config, step: Steps.Step, inputs: Inputs, e: Event, va: nat, v: nat)
    requires StepOf(c, c', step, inputs, e) && step.Access? && e.Stepped? && !e.terminated && CheckUVa(va)
    ensures e.i < |c.ss| == |c'.ss|
    ensures ByteAtVa(c'.w, c'.ss[e.i], va) == ByteAfter(step, inputs, e, va, ByteAtVa(c.w, c.ss[e.i], va))
    ensures PermissionsAt(c'.ss[e.i], v) == PermissionsAfter(step, e, v, PermissionsAt(c.ss[e.i], v))
  {
    hide UserByte, Granted, Refused, Around, IsCurrent, OnlyFilled, ReadsKept, PermissionsAt;
    FilledKeeps(c.ss[e.i], c'.ss[e.i], v);
    if va != step.va {
      KeptByte(c.w, c'.w, c.ss[e.i], c'.ss[e.i], step.va, step.va + 1, va);
    }
  }

  /** A trap that leaves the task listed, seen on its flat memory. */
  lemma TrapIsFlat(c: Config, c': Config, step: Steps.Step, inputs: Inputs, e: Event, va: nat, v: nat)
    requires StepOf(c, c', step, inputs, e) && step.Trapped? && e.Stepped? && !e.terminated && CheckUVa(va)
    ensures e.i < |c.ss| == |c'.ss|
    ensures ByteAtVa(c'.w, c'.ss[e.i], va) == ByteAfter(step, inputs, e, va, ByteAtVa(c.w, c.ss[e.i], va))
    ensures PermissionsAt(c'.ss[e.i], v) == PermissionsAfter(step, e, v, PermissionsAt(c.ss[e.i], v))
  {
    hide UserByte, CellAt, Translate, Granted, Refused, Shrinks, CallsGrow, PanicsIff, FaultServed, OnlyFilled,
      ReadsKept, PermissionsAt, ByteAtVa, Untouched, NoneRefused, UserBytes, Pages, WritePages, CheckUVaRange,
      RemoveAt;
    var trap := step.trap;
    if trap.EnvironmentCall? && KnownSyscall(trap.id) && !ListFull(trap, inputs, c.ss[e.i].areas) {
      CallIsFlat(c, c', step, inputs, e, va, v);
    }
  }

  lemma CallIsFlat(c: Config, c': Config, step: Steps.Step, inputs: Inputs, e: Event, va: nat, v: nat)
    requires e.Stepped? && e.i < |c.ss| == |c'.ss| && step.Trapped? && step.trap.EnvironmentCall? && CheckUVa(va)
    requires SyscallEffect(c, c', step.trap, inputs, e.i, e.o, e.out, e.copied)
    requires KnownSyscall(step.trap.id) && step.trap.id != SYSCALL_EXIT && !ListFull(step.trap, inputs, c.ss[e.i].areas)
    ensures ByteAtVa(c'.w, c'.ss[e.i], va) == ByteAfter(step, inputs, e, va, ByteAtVa(c.w, c.ss[e.i], va))
    ensures PermissionsAt(c'.ss[e.i], v) == PermissionsAfter(step, e, v, PermissionsAt(c.ss[e.i], v))
  {
    hide UserByte, CellAt, Translate, OnlyFilled, NoneRefused, UserBytes, Pages, WritePages, CheckUVaRange, ListFull,
      MmapAccepts, ReadsKept, ByteAtVa, PermissionsAt, ToPermissions, PageMeets, MmapEffect, MunmapEffect, InfoEffect;
    var x, x', trap := c.ss[e.i], c'.ss[e.i], step.trap;
    if trap.id == SYSCALL_MMAP {
      MmapIsFlat(x, x', trap.a0, trap.a1, trap.a2, e.o.result.value, v);
      SameByte(c.w, x, x', va);
    } else if trap.id == SYSCALL_MUNMAP {
      MunmapIsFlat(c.w, c'.w, x, x', trap.a0, trap.a1, e.o.result.value, va, v);
    } else if trap.id == SYSCALL_WRITE {
      KeptByte(c.w, c'.w, x, x', 0, 0, va);
      FilledKeeps(x, x', v);
    } else if trap.id == SYSCALL_TASK_INFO {
      InfoIsFlat(c, c', e.i, HasId(c.tasks, trap.a0), inputs.info, trap.a1, e.o.result.value, e.copied, va);
      FilledKeeps(x, x', v);
    }
  }

  lemma SameByte(w: World, x: Space, x': Space, va: nat)
    requires x'.pgt.root == x.pgt.root
    ensures ByteAtVa(w, x', va) == ByteAtVa(w, x, va)
  {
    hide UserByte;
  }

  lemma MmapIsFlat(x: Space, x': Space, addr: nat, len: nat, prot: nat, r: int, v: nat)
    requires MmapEffect(x.areas, x'.areas, addr, len, prot, r)
    ensures PermissionsAt(x', v) ==
              if r == 0 && PageMeets(addr, len, v) then Some(ToPermissions(prot)) else PermissionsAt(x, v)
  {
    hide CellAt, MmapAccepts;
  }

  lemma MunmapIsFlat(w: World, w': World, x: Space, x': Space, addr: nat, len: nat, r: int, va: nat, v: nat)
    requires MunmapEffect(w, w', x.pgt.root, x.areas, x'.areas, addr, len, r) && x'.pgt.root == x.pgt.root
             && CheckUVa(va)
    ensures ByteAtVa(w', x', va) ==
              if r == 0 && len > 0 && PageMeets(addr, len, va / PAGE_SIZE) then 0 else ByteAtVa(w, x, va)
    ensures PermissionsAt(x', v) == if r == 0 && len > 0 && PageMeets(addr, len, v) then None else PermissionsAt(x, v)
  {
    hide CellAt, Translate, PageMeets, CheckUVaRange;
  }

  lemma InfoIsFlat(c: Config, c': Config, i: nat, found: bool, info: seq<byte>, addr: nat, r: int, copied: nat, va: nat)
    requires i < |c.ss| == |c'.ss| && c'.ss[i].pgt.root == c.ss[i].pgt.root && CheckUVa(va)
    requires InfoEffect(c.w, c'.w, c.ss[i].pgt.root, c.ss[i].areas, c.free, found, info, addr, r, copied)
    ensures copied <= |info|
    ensures ByteAtVa(c'.w, c'.ss[i], va) ==
              if addr <= va < addr + copied then info[va - addr] else ByteAtVa(c.w, c.ss[i], va)
  {
    hide UserByte, CheckUVaRange, NoneRefused, Pages, ReadsKept;
    if addr <= va < addr + copied {
      assert UserByte(c'.w, c.ss[i].pgt.root, addr + (va - addr)) == Some(info[va - addr]);
    } else {
      KeptByte(c.w, c'.w, c.ss[i], c'.ss[i], addr, addr + copied, va);
    }
  }

  // Over a run.

  /** The event is a step of the task with this space. */
  predicate OfOwn(c: Config, e: Event, s: VMSpace) {
    e.Stepped? && e.i < |c.spaces| && c.spaces[e.i] == s
  }

  /** The byte at `va` of the task with space `s` after `m` steps, if it was `initial` at first. */
  function FlatByte(trace: seq<Config>, events: seq<Event>, steps: seq<(Steps.Step, Inputs)>, s: VMSpace, va: nat,
                    m: nat, initial: byte): byte
    requires m <= |trace| && m <= |events| && m <= |steps|
  {
    if m == 0 then initial
    else
      var before := FlatByte(trace, events, steps, s, va, m - 1, initial);
      if OfOwn(trace[m - 1], events[m - 1], s) then ByteAfter(steps[m - 1].0, steps[m - 1].1, events[m - 1], va, before)
      else before
  }

  /** The permissions of page `v` of that task. */
  function FlatPermissions(trace: seq<Config>, events: seq<Event>, steps: seq<(Steps.Step, Inputs)>, s: VMSpace,
                           v: nat, m: nat, initial: Option<nat>): Option<nat>
    requires m <= |trace| && m <= |events| && m <= |steps|
  {
    if m == 0 then initial
    else
      var before := FlatPermissions(trace, events, steps, s, v, m - 1, initial);
      if OfOwn(trace[m - 1], events[m - 1], s) then PermissionsAfter(steps[m - 1].0, events[m - 1], v, before)
          else before
  }

  /** A space that is untouched reads the same. */
  lemma UntouchedByte(w: World, w': World, x: Space, va: nat)
    requires SpaceOk(w, x) && Untouched(w, w', x) && CheckUVa(va)
    ensures ByteAtVa(w', x, va) == ByteAtVa(w, x, va)
  {
    hide SpaceOk, Translate, Lookup;
    if Translate(w.tables, x.pgt.root, va / PAGE_SIZE).Hit? {
      HitPage(w, x, va / PAGE_SIZE);
    }
  }

  /** Where the space at position `j` was before the step. */
  lemma FoundBefore(c: Config, c': Config, i: nat, gone: bool, j: nat) returns (k: nat)
    requires OthersKept(c, c', i, gone) && j < |c'.spaces|
    ensures k < |c.spaces| && c.spaces[k] == c'.spaces[j] && (if gone then k != i else k == j)
    ensures j < |c'.ss| && (k != i ==> c.ss[k] == c'.ss[j])
  {
    hide Untouched;
    if gone {
      k := if j < i then j else j + 1;
      RemovedFrom(c.spaces, i, j);
      RemovedFrom(c.ss, i, j);
    } else {
      k := j;
    }
  }

  /** Where a space is found after a step it was before; only a step of its own task can take it
      away. */
  lemma SpaceBefore(c: Config, c': Config, step: Steps.Step, inputs: Inputs, e: Event, s: VMSpace, x': Space)
    returns (x: Space)
    requires StepOf(c, c', step, inputs, e) && |c.ss| == |c.spaces| && Apart(c.spaces) && HasSpace(c', s, x')
    ensures HasSpace(c, s, x)
    ensures OfOwn(c, e, s) ==> !e.terminated && e.i < |c.ss| == |c'.ss| && x == c.ss[e.i] && x' == c'.ss[e.i]
    ensures !OfOwn(c, e, s) ==> OfOther(c, e, s)
  {
    hide StepOf;
    StepKeeps(c, c', step, inputs, e);
    var j :| 0 <= j < |c'.spaces| == |c'.ss| && c'.spaces[j] == s && c'.ss[j] == x';
    if e.Skipped? {
      x := x';
    } else {
      var k := FoundBefore(c, c', e.i, e.terminated, j);
      KeptLengths(c, c', e.i, e.terminated);
      hide OthersKept, Apart;
      x := c.ss[k];
      if k != e.i {
        Differ(c.spaces, k, e.i);
      }
    }
  }

  lemma KeptLengths(c: Config, c': Config, i: nat, gone: bool)
    requires OthersKept(c, c', i, gone)
    ensures i < |c.spaces| == |c.ss| && (!gone ==> |c'.ss| == |c.ss|)
  {
    hide Untouched;
  }

  lemma Differ(spaces: seq<VMSpace>, a: nat, b: nat)
    requires Apart(spaces) && a < |spaces| && b < |spaces| && a != b
    ensures spaces[a] != spaces[b]
  {
  }

  lemma OneSpace(c: Config, s: VMSpace, x: Space, y: Space)
    requires Apart(c.spaces) && HasSpace(c, s, x) && HasSpace(c, s, y)
    ensures x == y
  {
  }

  /** After any number of steps, by whichever tasks, a task reads its flat memory and has its
      permissions. */
  lemma {:induction false} RunIsFlat(trace: seq<Config>, events: seq<Event>, steps: seq<(Steps.Step, Inputs)>, k: Pgt,
                                     managed: int, s: VMSpace, x0: Space, x: Space, va: nat, v: nat, m: nat)
    requires IsRun(trace, events, steps) && m <= |events| && forall n :: 0 <= n <= m ==> Sound(k, managed, trace[n])
    requires HasSpace(trace[0], s, x0) && HasSpace(trace[m], s, x) && CheckUVa(va)
    ensures ByteAtVa(trace[m].w, x, va) == FlatByte(trace, events, steps, s, va, m, ByteAtVa(trace[0].w, x0, va))
    ensures PermissionsAt(x, v) == FlatPermissions(trace, events, steps, s, v, m, PermissionsAt(x0, v))
    decreases m
  {
    hide StepOf, Sound, HasSpace, ByteAtVa, PermissionsAt, ByteAfter, PermissionsAfter, OfOwn, OfOther, Untouched;
    SoundMeans(k, managed, trace[m]);
    if m == 0 {
      OneSpace(trace[0], s, x0, x);
    } else {
      var c, c', e, step, inputs := trace[m - 1], trace[m], events[m - 1], steps[m - 1].0, steps[m - 1].1;
      assert StepOf(c, trace[m - 1 + 1], step, inputs, e);
      SoundMeans(k, managed, c);
      var y := SpaceBefore(c, c', step, inputs, e, s, x);
      RunIsFlat(trace, events, steps, k, managed, s, x0, y, va, v, m - 1);
      if OfOwn(c, e, s) {
        OwnIsFlat(c, c', step, inputs, e, s, va, v);
      } else {
        OtherIsFlat(k, managed, c, c', step, inputs, e, s, y, x, va);
      }
    }
  }

  lemma SoundMeans(k: Pgt, managed: int, c: Config)
    requires Sound(k, managed, c)
    ensures |c.ss| == |c.spaces| && Apart(c.spaces)
  {
    hide SystemOk, AllUser, Apart;
  }

  lemma OwnIsFlat(c: Config, c': Config, step: Steps.Step, inputs: Inputs, e: Event, s: VMSpace, va: nat, v: nat)
    requires StepOf(c, c', step, inputs, e) && OfOwn(c, e, s) && !e.terminated && CheckUVa(va)
    ensures e.i < |c.ss| == |c'.ss|
    ensures ByteAtVa(c'.w, c'.ss[e.i], va) == ByteAfter(step, inputs, e, va, ByteAtVa(c.w, c.ss[e.i], va))
    ensures PermissionsAt(c'.ss[e.i], v) == PermissionsAfter(step, e, v, PermissionsAt(c.ss[e.i], v))
  {
    hide StepOf, ByteAtVa, PermissionsAt, ByteAfter, PermissionsAfter;
    if step.Access? {
      AccessIsFlat(c, c', step, inputs, e, va, v);
    } else {
      TrapIsFlat(c, c', step, inputs, e, va, v);
    }
  }

  lemma OtherIsFlat(k: Pgt, managed: int, c: Config, c': Config, step: Steps.Step, inputs: Inputs, e: Event,
                    s: VMSpace, y: Space, x: Space, va: nat)
    requires StepOf(c, c', step, inputs, e) && Sound(k, managed, c) && Apart(c'.spaces) && OfOther(c, e, s)
    requires HasSpace(c, s, y) && HasSpace(c', s, x) && CheckUVa(va)
    ensures x == y && ByteAtVa(c'.w, x, va) == ByteAtVa(c.w, y, va)
  {
    hide StepOf, OfOther, Untouched, ByteAtVa, AllUser, SpaceOk;
    var j :| 0 <= j < |c.ss| && c.ss[j] == y;
    SystemMeans(c.w, k, c.ss, j);
    hide SystemOk;
    OtherStep(c, c', step, inputs, e, s, y);
    OneSpace(c', s, x, y);
    UntouchedByte(c.w, c'.w, y, va);
  }

  /** No step of a task leaves an empty area in its list. */
  lemma StepNoneEmpty(c: Config, c': Config, step: Steps.Step, inputs: Inputs, e: Event)
    requires StepOf(c, c', step, inputs, e) && e.Stepped? && !e.terminated
    ensures e.i < |c.ss| == |c'.ss| && (NoneEmpty(c.ss[e.i].areas) ==> NoneEmpty(c'.ss[e.i].areas))
  {
    hide UserByte, CellAt, Translate, Granted, Refused, Shrinks, CallsGrow, PanicsIff, FaultServed, ReadsKept,
      Untouched, NoneRefused, UserBytes, Pages, WritePages, CheckUVaRange, RemoveAt, NoneEmpty, Accessed, ListFull,
      InfoEffect, WriteEffect, MmapAccepts;
  }

  /** If a task's program has no empty segment, its list of areas never has an empty area. */
  lemma {:induction false} NeverEmpty(trace: seq<Config>, events: seq<Event>, steps: seq<(Steps.Step, Inputs)>, k: Pgt,
                                      managed: int, s: VMSpace, x0: Space, x: Space, m: nat)
    requires IsRun(trace, events, steps) && m <= |events| && forall n :: 0 <= n <= m ==> Sound(k, managed, trace[n])
    requires HasSpace(trace[0], s, x0) && HasSpace(trace[m], s, x) && NoneEmpty(x0.areas)
    ensures NoneEmpty(x.areas)
    decreases m
  {
    hide StepOf, Sound, HasSpace, OfOwn, OfOther, NoneEmpty;
    SoundMeans(k, managed, trace[m]);
    if m == 0 {
      OneSpace(trace[0], s, x0, x);
    } else {
      var c, c', e, step, inputs := trace[m - 1], trace[m], events[m - 1], steps[m - 1].0, steps[m - 1].1;
      assert StepOf(c, trace[m - 1 + 1], step, inputs, e);
      SoundMeans(k, managed, c);
      var y := SpaceBefore(c, c', step, inputs, e, s, x);
      NeverEmpty(trace, events, steps, k, managed, s, x0, y, m - 1);
      if OfOwn(c, e, s) {
        OwnIsStepped(c, e, s);
        StepNoneEmpty(c, c', step, inputs, e);
      } else {
        OtherIsFlat(k, managed, c, c', step, inputs, e, s, y, x, 0);
      }
    }
  }

  lemma OwnIsStepped(c: Config, e: Event, s: VMSpace)
    requires OfOwn(c, e, s)
    ensures e.Stepped?
  {
  }

  // What the task sees of it.

  lemma RefusedPermissions(x: Space, va: nat, store: bool)
    ensures var permissions := PermissionsAt(x, va / 4096);
            !Refused(x.areas, va, store) <==>
            permissions.Some? && permissions.value / 16 % 2 == 1 && permissions.value / 2 % 2 == 1
                && (store ==> permissions.value / 4 % 2 == 1)
  {
    hide CellAt, Includes, Unmappable, Needed;
    var permissions := PermissionsAt(x, va / 4096);
    if permissions.Some? {
      AllowedInBits(permissions.value, store);
    }
  }

  lemma GrantedIsAllowed(w: World, x: Space, va: nat, store: bool, free: int)
    requires SpaceOk(w, x) && AllUser(x.areas) && CheckUVa(va) && Granted(View(w, x.pgt.root, x.areas, free), va, store)
    ensures !Refused(x.areas, va, store)
  {
    hide SpaceOk, Translate, CellAt, Refusable, Grants, Needed, Direct, AllUser;
    NeededIsDirect(Translate(w.tables, x.pgt.root, va / PAGE_SIZE), store);
    GrantedNotRefusable(w, x, va / PAGE_SIZE, store);
  }

  /** At every access of a run: what is loaded is the byte of the flat memory, and the access goes
      through exactly if the flat permissions have U (bit 4) and R (bit 1), and for a store W (bit 2)
      too, unless fewer than three pages are free. */
  lemma {:induction false} AccessesAreFlat(trace: seq<Config>, events: seq<Event>, steps: seq<(Steps.Step, Inputs)>,
                                           k: Pgt, managed: int, s: VMSpace, x0: Space, n: nat)
    requires IsRun(trace, events, steps) && n < |events| && forall m :: 0 <= m <= n ==> Sound(k, managed, trace[m])
    requires HasSpace(trace[0], s, x0) && steps[n].0.Access? && OfOwn(trace[n], events[n], s)
    ensures var e, va, store := events[n], steps[n].0.va, steps[n].0.store;
            var permissions := FlatPermissions(trace, events, steps, s, va / PAGE_SIZE, n,
                                               PermissionsAt(x0, va / PAGE_SIZE));
            var may := permissions.Some? && permissions.value / 16 % 2 == 1 && permissions.value / 2 % 2 == 1
                && (store ==> permissions.value / 4 % 2 == 1);
            && (e.loaded.Some? && !store ==>
                  e.loaded == Some(FlatByte(trace, events, steps, s, va, n, ByteAtVa(trace[0].w, x0, va))))
            && (e.loaded.Some? ==> may) && (trace[n].free >= 3 ==> (e.loaded.Some? <==> may))
  {
    var c, e, step := trace[n], events[n], steps[n].0;
    assert StepOf(c, trace[n + 1], step, steps[n].1, e);
    AccessOf(c, trace[n + 1], step, steps[n].1, e, s);
    hide StepOf, FlatByte, FlatPermissions, ByteAtVa, PermissionsAt;
    var x := c.ss[e.i];
    RunIsFlat(trace, events, steps, k, managed, s, x0, x, step.va, step.va / PAGE_SIZE, n);
    RefusedPermissions(x, step.va, step.store);
    SystemMeans(c.w, k, c.ss, e.i);
    hide SystemOk, SpaceOk, Refused, AllUser;
    if Granted(ViewAt(c, e.i), step.va, step.store) {
      GrantedIsAllowed(c.w, x, step.va, step.store, c.free);
    }
  }

  lemma AccessOf(c: Config, c': Config, step: Steps.Step, inputs: Inputs, e: Event, s: VMSpace)
    requires StepOf(c, c', step, inputs, e) && step.Access? && OfOwn(c, e, s)
    ensures CheckUVa(step.va) && e.i < |c.ss| == |c.spaces| && HasSpace(c, s, c.ss[e.i])
    ensures var v := ViewAt(c, e.i);
            && (Granted(v, step.va, step.store) ==> e.loaded.Some?)
            && (e.loaded.Some? && !Granted(v, step.va, step.store) ==> !Refused(v.areas, step.va, step.store))
            && (e.loaded.None? ==> Refused(v.areas, step.va, step.store) || c.free < 3)
            && (e.loaded.Some? && !step.store ==> e.loaded == Some(ByteAtVa(c.w, c.ss[e.i], step.va)))
  {
    hide UserByte, Granted, Refused, OthersKept, Shrinks, CallsGrow, OwnFilled, ReadsKept;
  }

  /** What `write` prints are bytes of the flat memory of its caller. */
  lemma {:induction false} PrintsAreFlat(trace: seq<Config>, events: seq<Event>, steps: seq<(Steps.Step, Inputs)>,
                                         k: Pgt, managed: int, s: VMSpace, x0: Space, n: nat, j: nat)
    requires IsRun(trace, events, steps) && n < |events| && forall m :: 0 <= m <= n ==> Sound(k, managed, trace[m])
    requires HasSpace(trace[0], s, x0) && steps[n].0.Trapped? && OfOwn(trace[n], events[n], s)
    requires j < |events[n].out|
    ensures var trap := steps[n].0.trap;
            && trap.EnvironmentCall? && trap.id == SYSCALL_WRITE && |events[n].out| == trap.a2 && CheckUVa(trap.a1 + j)
            && events[n].out[j] == FlatByte(trace, events, steps, s, trap.a1 + j, n,
                                            ByteAtVa(trace[0].w, x0, trap.a1 + j))
  {
    hide StepOf, Sound, HasSpace, FlatByte, ByteAtVa, PermissionsAt, OfOwn;
    var c, e, step := trace[n], events[n], steps[n].0;
    assert StepOf(c, trace[n + 1], step, steps[n].1, e);
    PrintOf(c, trace[n + 1], step, steps[n].1, e, s, j);
    RunIsFlat(trace, events, steps, k, managed, s, x0, c.ss[e.i], step.trap.a1 + j, 0, n);
  }

  lemma PrintOf(c: Config, c': Config, step: Steps.Step, inputs: Inputs, e: Event, s: VMSpace, j: nat)
    requires StepOf(c, c', step, inputs, e) && step.Trapped? && OfOwn(c, e, s) && j < |e.out|
    ensures e.Stepped? && e.i < |c.ss| == |c.spaces| && HasSpace(c, s, c.ss[e.i])
    ensures var trap := step.trap;
            && trap.EnvironmentCall? && trap.id == SYSCALL_WRITE && |e.out| == trap.a2 && CheckUVa(trap.a1 + j)
            && e.out[j] == ByteAtVa(c.w, c.ss[e.i], trap.a1 + j)
  {
    hide UserByte, Granted, Refused, OthersKept, Shrinks, CallsGrow, OwnFilled, ReadsKept, PanicsIff, FaultServed,
      NoneRefused, Pages, WritePages;
  }

  // What it is at first.

  /** The byte that the program has at `va`. */
  ghost function ProgramByte(elf: seq<byte>, segments: seq<Segment>, va: nat): byte {
    if i :| 0 <= i < |segments| && Covers(segments[i], va / PAGE_SIZE) && (segments[i].r || segments[i].x) then
      var k := va - segments[i].vaddr / 4096 * 4096;
      if k < segments[i].fileSize && segments[i].offset + k < |elf| then elf[segments[i].offset + k] else 0
    else 0
  }

  /** The permissions that the program and its stack have at page `v`. */
  ghost function ProgramPermissions(segments: seq<Segment>, v: nat): Option<nat> {
    if i :| 0 <= i < |segments| && Covers(segments[i], v) then Some(segments[i].Permissions())
    else if STACK_START_VPN <= v < USER_END_VPN then Some(STACK_PERMISSIONS)
    else None
  }

  lemma ProgramPermissionsAre(w: World, x: Space, elf: seq<byte>, segments: seq<Segment>, v: nat)
    requires ProgramIn(w, x, elf, segments) && v < LOWER_END
    ensures PermissionsAt(x, v) == ProgramPermissions(segments, v)
    ensures forall i :: 0 <= i < |segments| && segments[i].load
                        && segments[i].vaddr / 4096 <= v < (segments[i].vaddr + segments[i].memSize + 4095) / 4096 ==>
              && PermissionsAt(x, v).Some?
              && PermissionsAt(x, v).value == 16 + (if segments[i].r then 2 else 0) + (if segments[i].w then 4 else 0)
                                              + (if segments[i].x then 8 else 0)
    ensures (forall i :: 0 <= i < |segments| && segments[i].load ==>
               !(segments[i].vaddr / 4096 <= v < (segments[i].vaddr + segments[i].memSize + 4095) / 4096)) ==>
              PermissionsAt(x, v) == if 0x3ff_ffff - 2048 <= v < 0x3ff_ffff then Some(16 + 4 + 2) else None
  {
    hide CellAt, SegmentFrame, ZeroFrame, InSegment;
    CoversWhat(segments, v);
    InSegmentMeans(segments, v);
    if i :| 0 <= i < |segments| && Covers(segments[i], v) {
      forall j | 0 <= j < |segments| && Covers(segments[j], v)
        ensures PermissionsAt(x, v) == Some(segments[j].Permissions())
      {
        assert Loaded(w, x, elf, segments[j]);
      }
    }
  }

  /** The areas of a program are empty only where one of its segments is. */
  lemma ProgramNoneEmpty(w: World, x: Space, elf: seq<byte>, segments: seq<Segment>)
    requires ProgramIn(w, x, elf, segments)
    requires forall i :: 0 <= i < |segments| && segments[i].load ==>
              segments[i].memSize > 0 || segments[i].vaddr % 4096 > 0
    ensures forall j :: 0 <= j < |x.areas| ==> x.areas[j].start < x.areas[j].end
    ensures NoneEmpty(x.areas)
  {
    hide AllLoaded, OnlyFrom, StackReady;
  }

  lemma CoversWhat(segments: seq<Segment>, v: nat)
    ensures forall i :: 0 <= i < |segments| ==>
              (Covers(segments[i], v) <==>
                 segments[i].load
                     && segments[i].vaddr / 4096 <= v < (segments[i].vaddr + segments[i].memSize + 4095) / 4096)
  {
  }

  lemma InSegmentMeans(segments: seq<Segment>, v: nat)
    ensures forall p :: InSegment(segments, v, p) ==>
              exists j :: 0 <= j < |segments| && Covers(segments[j], v) && segments[j].Permissions() == p
  {
    forall p | InSegment(segments, v, p)
      ensures exists j :: 0 <= j < |segments| && Covers(segments[j], v) && segments[j].Permissions() == p
    {
      var j :| 0 <= j < |segments| && segments[j].load && segments[j].Start() <= v < segments[j].End()
          && p == segments[j].Permissions();
      assert Covers(segments[j], v);
    }
  }

  lemma ProgramBytesAre(w: World, x: Space, elf: seq<byte>, segments: seq<Segment>, va: nat)
    requires SpaceOk(w, x) && ProgramIn(w, x, elf, segments) && CheckUVa(va)
    requires forall i :: 0 <= i < |segments| && segments[i].load ==>
               segments[i].Loadable(elf) && segments[i].BelowStack()
    ensures ByteAtVa(w, x, va) == ProgramByte(elf, segments, va)
    ensures forall i :: 0 <= i < |segments| && segments[i].load && (segments[i].r || segments[i].x)
                        && segments[i].vaddr / 4096 <= va / 4096
                           < (segments[i].vaddr + segments[i].memSize + 4095) / 4096 ==>
              var k := va - segments[i].vaddr / 4096 * 4096;
              && segments[i].Loadable(elf) && k >= 0
              && ByteAtVa(w, x, va) == if k < segments[i].fileSize then elf[segments[i].offset + k] else 0
    ensures (forall i :: 0 <= i < |segments| && segments[i].load && (segments[i].r || segments[i].x) ==>
               !(segments[i].vaddr / 4096 <= va / 4096
                 < (segments[i].vaddr + segments[i].memSize + 4095) / 4096)) ==>
              ByteAtVa(w, x, va) == 0
  {
    hide CellAt, SpaceOk, SegmentFrame, ZeroFrame, UserByte, Translate;
    CoversWhat(segments, va / 4096);
    var v := va / PAGE_SIZE;
    if i :| 0 <= i < |segments| && Covers(segments[i], v) && (segments[i].r || segments[i].x) {
      forall j | 0 <= j < |segments| && Covers(segments[j], v) && (segments[j].r || segments[j].x)
        ensures ByteAtVa(w, x, va) == PageByte(elf, segments[j].offset, segments[j].fileSize,
                                               va - segments[j].Start() * PAGE_SIZE)
      {
        var i := va - segments[j].Start() * PAGE_SIZE;
        assert Loaded(w, x, elf, segments[j]);
        LoadedBytes(w, x, elf, segments[j], i);
      }
    } else {
      NoSegmentNoByte(w, x, elf, segments, va);
    }
  }

  /** Outside readable segments there is nothing, or a page of zeros in the stack. */
  lemma NoSegmentNoByte(w: World, x: Space, elf: seq<byte>, segments: seq<Segment>, va: nat)
    requires SpaceOk(w, x) && ProgramIn(w, x, elf, segments) && CheckUVa(va)
    requires forall i :: 0 <= i < |segments| && Covers(segments[i], va / PAGE_SIZE) ==> !segments[i].r && !segments[i].x
    ensures ByteAtVa(w, x, va) == 0
  {
    hide CellAt, SpaceOk, Translate, SegmentFrame, HasR, HasX, InSegment;
    var v := va / PAGE_SIZE;
    TranslationIsAreas(w, x, v);
    InSegmentMeans(segments, v);
    if Translate(w.tables, x.pgt.root, v).Hit? {
      HitPage(w, x, v);
    }
  }

  lemma SpaceIsOk(k: Pgt, managed: int, c: Config, s: VMSpace, x: Space)
    requires Sound(k, managed, c) && HasSpace(c, s, x)
    ensures SpaceOk(c.w, x) && AllUser(x.areas)
  {
    hide SystemOk, SpaceOk, AllUser, Apart;
    var j :| 0 <= j < |c.ss| && c.ss[j] == x;
    SystemMeans(c.w, k, c.ss, j);
  }

  /** The whole of it: what a task that started with a program reads and may do after any number
      of steps depends on the program and on its own stores and system calls alone. */
  lemma {:induction false} FromProgram(trace: seq<Config>, events: seq<Event>, steps: seq<(Steps.Step, Inputs)>,
                                       k: Pgt, managed: int, elf: seq<byte>, segments: seq<Segment>, s: VMSpace,
                                           x0: Space, x: Space, va: nat, m: nat)
    requires IsRun(trace, events, steps) && m <= |events| && forall n :: 0 <= n <= m ==> Sound(k, managed, trace[n])
    requires HasSpace(trace[0], s, x0) && HasSpace(trace[m], s, x) && CheckUVa(va)
    requires ProgramIn(trace[0].w, x0, elf, segments)
    requires forall i :: 0 <= i < |segments| && segments[i].load ==>
               segments[i].Loadable(elf) && segments[i].BelowStack()
    ensures ByteAtVa(trace[m].w, x, va) == FlatByte(trace, events, steps, s, va, m, ProgramByte(elf, segments, va))
    ensures PermissionsAt(x, va / PAGE_SIZE)
         == FlatPermissions(trace, events, steps, s, va / PAGE_SIZE, m, ProgramPermissions(segments, va / PAGE_SIZE))
  {
    hide StepOf, Sound, HasSpace, ByteAtVa, PermissionsAt, ProgramIn, ProgramByte, ProgramPermissions, FlatByte,
      FlatPermissions, SpaceOk;
    RunIsFlat(trace, events, steps, k, managed, s, x0, x, va, va / PAGE_SIZE, m);
    SpaceIsOk(k, managed, trace[0], s, x0);
    ProgramPermissionsAre(trace[0].w, x0, elf, segments, va / PAGE_SIZE);
    ProgramBytesAre(trace[0].w, x0, elf, segments, va);
  }

  // Free pages.

  /** When a task leaves, all pages of its space are free again, and no others. */
  lemma GoneIsFree(k: Pgt, managed: int, c: Config, c': Config, i: nat)
    requires Sound(k, managed, c) && Sound(k, managed, c') && OthersKept(c, c', i, true)
    ensures c'.w.live == c.w.live - Owned(c.ss[i]) && c'.free == c.free + |Owned(c.ss[i])|
  {
    hide Owned, Shared, Untouched, SpaceOk, HasStop, PgtOk, KernelOnly, SeesKernel, AllUser, Apart;
    GonePages(c.w.live, c'.w.live, k, c.ss, i);
  }

  lemma GonePages(live: set<nat>, live': set<nat>, k: Pgt, ss: seq<Space>, i: nat)
    requires Partitioned(live, k, ss) && i < |ss| && Partitioned(live', k, RemoveAt(ss, i))
    ensures live' == live - Owned(ss[i]) && Owned(ss[i]) <= live
  {
    hide Owned, Shared, RemoveAt;
    var rest := RemoveAt(ss, i);
    forall p ensures p in live' <==> p in live && p !in Owned(ss[i]) {
      if p in live' && p !in k.own {
        var j :| 0 <= j < |rest| && p in Owned(rest[j]);
        assert rest[j] == ss[if j < i then j else j + 1];
      }
      if p in live && p !in Owned(ss[i]) && p !in k.own {
        var j :| 0 <= j < |ss| && p in Owned(ss[j]);
        assert rest[if j < i then j else j - 1] == ss[j];
      }
    }
  }
}
