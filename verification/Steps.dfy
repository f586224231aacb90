/**
  The steps of the running kernel, as relations on what it is at a moment: the list of tasks,
  the calls that they have made, their memory and the free pages (os/src/trap/utrap.rs,
  os/src/syscall.rs).
 */
module Steps {
  import opened Layout
  import opened Pte
  import opened Walk
  import opened PageAlloc
  import opened PgtSpec
  import opened Areas
  import opened SpaceSpec
  import opened LoadSpec
  import opened VMSpace
  import opened SystemSpec
  import opened Tasks
  import opened Kernel
  import opened UAccess

  const SYSCALL_WRITE: nat := 64
  const SYSCALL_MMAP: nat := 90
  const SYSCALL_MUNMAP: nat := 215
  const SYSCALL_EXIT: nat := 93
  const SYSCALL_YIELD: nat := 124
  const SYSCALL_TASK_INFO: nat := 0x8000_0000_0000_0001

  const KNOWN: set<nat> :=
    {SYSCALL_WRITE, SYSCALL_MMAP, SYSCALL_MUNMAP, SYSCALL_EXIT, SYSCALL_YIELD, SYSCALL_TASK_INFO}

  const KERNEL_HEAP_SIZE: nat := 0x40_0000

  predicate KnownSyscall(id: nat) {
    id in KNOWN
  }

  /** The causes that `u_trap_handler` tells apart. */
  datatype Trap =
    | TimerInterrupt
    | EnvironmentCall(id: nat, a0: nat, a1: nat, a2: nat)
    | PageFault(store: bool, stval: nat)
    | IllegalInstruction
    | InstructionPageFault
    | Unexpected

  /** `Resumed`: the current task goes on, with a system call's result.  `Switched`: some Ready
      task has been switched to. */
  datatype Outcome = Resumed(result: Option<int>) | Switched | ShutDown | Panicked

  predicate Goes(o: Outcome) {
    o.Resumed? || o.Switched?
  }

  /** What the kernel gets from elsewhere while it handles a trap: two readings of the clock, the
      address of a heap buffer if the heap has one, whether the heap lets the list of areas grow,
      and where on the stack the bytes of a task's record lie. */
  datatype Inputs = Inputs(clock1: nat, clock2: nat, heap: Option<nat>, grows: bool, stack: nat, info: seq<byte>)

  /** The memory as a task sees it whose space has this root and these areas, and the number of
      free pages. */
  datatype View = View(w: World, root: nat, areas: seq<VMArea>, free: int)

  /** What user code does next: an access to its memory, or something else that traps. */
  datatype Step = Access(va: nat, store: bool, value: byte) | Trapped(trap: Trap)

  /** A page fault of an access in user space is part of `Access`. */
  predicate Possible(step: Step, inputs: Inputs) {
    match step
    case Access(va, _, _) => CheckUVa(va)
    case Trapped(trap) => Fits(trap, inputs) && (trap.PageFault? ==> !CheckUVa(trap.stval))
  }

  /** The registers of a system call are 64 bits wide; the kernel's buffers lie in one half of
      the address space, and none is larger than the heap. */
  predicate Fits(trap: Trap, inputs: Inputs) {
    trap.EnvironmentCall? ==>
      && trap.a0 < USIZE && trap.a1 < USIZE && trap.a2 < USIZE
      && (trap.id == SYSCALL_WRITE && WriteAccepted(trap.a0, trap.a1, trap.a2) && inputs.heap.Some? ==>
            trap.a2 <= KERNEL_HEAP_SIZE && OneHalf(inputs.heap.value, trap.a2))
      && (trap.id == SYSCALL_TASK_INFO ==> OneHalf(inputs.stack, |inputs.info|))
  }

  /** The traps that `u_trap_handler` and `syscall_handler` themselves answer with a panic. */
  predicate Panics(trap: Trap) {
    match trap
    case Unexpected => true
    case PageFault(_, stval) => !CheckUVa(stval)
    case EnvironmentCall(id, _, _, _) => !KnownSyscall(id)
    case _ => false
  }

  /** A call that adds an area to its caller's list, for which the heap has no room. */
  predicate ListFull(trap: Trap, inputs: Inputs, areas: seq<VMArea>) {
    && trap.EnvironmentCall? && !inputs.grows
    && (|| (trap.id == SYSCALL_MMAP && MmapAccepts(areas, trap.a0, trap.a1, trap.a2))
        || (trap.id == SYSCALL_MUNMAP && MunmapSplits(areas, trap.a0, trap.a1)))
  }

  /** The panics of a trap: those of `Panics`, those of `write`, and those of a full heap when the
      list of areas must grow. */
  ghost predicate Dies(trap: Trap, inputs: Inputs, v: View) {
    || Panics(trap)
    || (trap.EnvironmentCall? && trap.id == SYSCALL_WRITE
        && WriteDies(v.w, v.root, v.areas, trap.a0, trap.a1, trap.a2, inputs.heap))
    || ListFull(trap, inputs, v.areas)
  }

  /** The free pages with which no copy of `write` breaks off for lack of them. */
  function PagesToWrite(trap: Trap, inputs: Inputs): nat {
    if trap.EnvironmentCall? && trap.id == SYSCALL_WRITE then WritePages(trap.a0, trap.a1, trap.a2, inputs.heap) else 0
  }

  /** A readable byte 0xFF is enough: `write` of that one byte takes the machine down, whatever
      else the caller's memory holds. */
  lemma NotTextDies(w: World, s: Space, va: nat, inputs: Inputs, free: int)
    requires SpaceOk(w, s) && AllUser(s.areas) && CheckUVa(va)
    requires Grants(Translate(w.tables, s.pgt.root, va / PAGE_SIZE), Direct(false))
             && UserByte(w, s.pgt.root, va) == Some(0xFF)
    ensures Dies(EnvironmentCall(SYSCALL_WRITE, FD_STDOUT, va, 1), inputs, View(w, s.pgt.root, s.areas, free))
  {
    hide SpaceOk, Translate, UserByte, CellAt, Refusable, Grants, Direct;
    GrantedNotRefusable(w, s, va / PAGE_SIZE, false);
    assert UserBytes(w, s.pgt.root, va, 1)[0] == 0xFF;
  }

  /** So does an accepted write of more than the whole heap. */
  lemma TooLongDies(trap: Trap, inputs: Inputs, v: View)
    requires Fits(trap, inputs) && trap.EnvironmentCall? && trap.id == SYSCALL_WRITE
    requires WriteAccepted(trap.a0, trap.a1, trap.a2) && trap.a2 > KERNEL_HEAP_SIZE
    ensures Dies(trap, inputs, v) && PagesToWrite(trap, inputs) == 0
  {
    hide NoneRefused, UserBytes;
  }

  /** And so does an accepted `mmap` once the heap has no room for one more area: each `mmap` of
      one page takes some of it, and nothing bounds their number. */
  lemma FullListDies(trap: Trap, inputs: Inputs, v: View)
    requires trap.EnvironmentCall? && trap.id == SYSCALL_MMAP && !inputs.grows
    requires MmapAccepts(v.areas, trap.a0, trap.a1, trap.a2)
    ensures Dies(trap, inputs, v) && PagesToWrite(trap, inputs) == 0
  {
  }

  // The whole kernel at one moment.

  /** `calls` are the ids of the system calls that each listed task has made; `ss` are what
      `spaces` are at this moment. */
  datatype Config = Config(tasks: seq<TaskControlBlock>, current: Option<nat>, calls: map<TaskControlBlock, seq<nat>>,
                           spaces: seq<VMSpace>, ss: seq<Space>, w: World, free: int)

  /** The space at position `i` is that of the current task. */
  ghost predicate IsCurrent(c: Config, i: nat) {
    i < |c.spaces| == |c.ss| && exists t :: t in c.tasks && c.current == Some(t.taskId) && t.vmSpace == c.spaces[i]
  }

  function ViewAt(c: Config, i: nat): View
    requires i < |c.ss|
  {
    View(c.w, c.ss[i].pgt.root, c.ss[i].areas, c.free)
  }

  /** The spaces other than the one at position `i` are as they were, and what their users can
      read is too.  The one at `i` leaves exactly if it is `gone`. */
  ghost predicate OthersKept(c: Config, c': Config, i: nat, gone: bool) {
    && i < |c.spaces| == |c.ss|
    && (if gone then c'.spaces == RemoveAt(c.spaces, i) && c'.ss == RemoveAt(c.ss, i)
        else
          && c'.spaces == c.spaces && |c'.ss| == |c.ss|
          && forall j :: 0 <= j < |c.ss| && j != i ==> c'.ss[j] == c.ss[j])
    && forall j :: 0 <= j < |c.ss| && j != i ==> Untouched(c.w, c'.w, c.ss[j])
  }

  /** No task comes, and the listed ones have made the calls that they had made before, with
      `ids` after those of the task with the id `caller`. */
  ghost predicate CallsGrow(c: Config, c': Config, caller: Option<nat>, ids: seq<nat>) {
    forall t :: t in c'.tasks ==>
      t in c.tasks && t in c.calls && t in c'.calls
          && c'.calls[t] == c.calls[t] + if caller == Some(t.taskId) then ids else []
  }

  /** How a step changes the list: a terminated current task leaves it, and nothing else comes or
      goes; the machine shuts down exactly if that was the last task. */
  ghost predicate Shrinks(tasks: seq<TaskControlBlock>, current: Option<nat>, tasks': seq<TaskControlBlock>,
                          o: Outcome, terminates: bool) {
    && (o.ShutDown? <==> tasks' == []) && (terminates ==> !o.Resumed?)
    && (terminates ==>
        exists t :: t in tasks && current == Some(t.taskId) && multiset(tasks') + multiset{t} == multiset(tasks))
    && (!terminates ==> multiset(tasks') == multiset(tasks))
  }

  /** All of memory is as it was. */
  ghost predicate SameSpaces(c: Config, c': Config) {
    c'.spaces == c.spaces && c'.ss == c.ss && c'.w == c.w && c'.free == c.free
  }

  /** The current task's space has the same root, its areas differ at most in pages that have
      become resident, and this took at most so many pages. */
  ghost predicate OwnFilled(c: Config, c': Config, i: nat, pages: nat) {
    && i < |c.ss| == |c'.ss| && c'.ss[i].pgt.root == c.ss[i].pgt.root
    && OnlyFilled(c.ss[i].areas, c'.ss[i].areas) && c.free - pages <= c'.free <= c.free
  }

  /** What every step does around the memory of the current task. */
  ghost predicate Around(c: Config, c': Config, i: nat, o: Outcome, ids: seq<nat>, terminated: bool, inputs: Inputs) {
    && Shrinks(c.tasks, c.current, c'.tasks, o, terminated) && OthersKept(c, c', i, terminated)
       && CallsGrow(c, c', c.current, ids)
    && (o.Resumed? || o.Panicked? ==> c'.tasks == c.tasks && c'.current == c.current)
    && (o.Switched? || o.ShutDown? ==>
          Rotates(c.tasks, c.current, terminated, inputs.clock1, inputs.clock2, c'.tasks, c'.current))
  }

  /** The hardware grants a user access. */
  ghost predicate Granted(v: View, va: nat, store: bool) {
    Grants(Translate(v.w.tables, v.root, va / PAGE_SIZE), Needed(store))
  }

  /** After a fault was served the access is granted, and all reads are as before, except that a
      page of zeros may have come in. */
  ghost predicate FaultServed(v: View, w': World, va: nat, store: bool) {
    Granted(v.(w := w'), va, store) && ReadsKept(v.w, w', v.root, 0, 0)
  }

  /** A load reads the byte that was there, or zero from a page that has just come in; a store
      changes this byte and no other. */
  ghost predicate Accessed(v: View, w': World, va: nat, store: bool, value: byte, r: byte) {
    && UserByte(w', v.root, va) == Some(if store then value else r)
    && (!store ==> r == ByteOrZero(UserByte(v.w, v.root, va)))
    && ReadsKept(v.w, w', v.root, va, va + 1)
  }

  /** The traps that end the current task: a fault does if it is refused. */
  ghost predicate MustTerminate(trap: Trap, areas: seq<VMArea>) {
    match trap
    case IllegalInstruction => true
    case InstructionPageFault => true
    case EnvironmentCall(id, _, _, _) => id == SYSCALL_EXIT
    case PageFault(store, stval) => CheckUVa(stval) && Refused(areas, stval, store)
    case _ => false
  }

  predicate HasId(tasks: seq<TaskControlBlock>, id: nat) {
    exists t :: t in tasks && t.taskId == id
  }

  /** What a known system call does to its caller's memory, what it prints and what it returns;
      `copied` bytes of a record reach the caller. */
  ghost predicate SyscallEffect(c: Config, c': Config, trap: Trap, inputs: Inputs, i: nat, o: Outcome, out: seq<byte>,
                                copied: nat)
    requires trap.EnvironmentCall? && i < |c.ss|
  {
    && (trap.id != SYSCALL_WRITE ==> out == []) && (trap.id != SYSCALL_TASK_INFO ==> copied == 0)
    && if trap.id == SYSCALL_EXIT then o.Switched? || o.ShutDown?
       else if trap.id == SYSCALL_YIELD then o.Switched? && SameSpaces(c, c')
       else if ListFull(trap, inputs, c.ss[i].areas) then o.Panicked? && SameSpaces(c, c')
       else MemoryEffect(c, c', trap, inputs, i, o, out, copied)
  }

  /** The system calls that act on memory, unless the list of areas is full. */
  ghost predicate MemoryEffect(c: Config, c': Config, trap: Trap, inputs: Inputs, i: nat, o: Outcome, out: seq<byte>,
                               copied: nat)
    requires trap.EnvironmentCall? && i < |c.ss|
  {
    var v := ViewAt(c, i);
    && (o.Resumed? ==> o.result.Some?)
    && if trap.id == SYSCALL_WRITE then
         && (o.Panicked? || o.Resumed?) && OwnFilled(c, c', i, WritePages(trap.a0, trap.a1, trap.a2, inputs.heap))
         && WriteEffect(v.w, c'.w, v.root, v.areas, v.free, trap.a0, trap.a1, trap.a2, inputs.heap,
                        if o.Resumed? then o.result else None, out)
       else
         && o.Resumed? && |c'.ss| == |c.ss| && c'.ss[i].pgt.root == v.root
         && (trap.id == SYSCALL_MMAP ==>
               MmapEffect(v.areas, c'.ss[i].areas, trap.a0, trap.a1, trap.a2, o.result.value) && c'.w == v.w
                   && c'.free == v.free)
         && (trap.id == SYSCALL_MUNMAP ==>
             MunmapEffect(v.w, c'.w, v.root, v.areas, c'.ss[i].areas, trap.a0, trap.a1, o.result.value))
         && (trap.id == SYSCALL_TASK_INFO ==>
               && OwnFilled(c, c', i, 3 * Pages(trap.a1, |inputs.info|))
               && InfoEffect(v.w, c'.w, v.root, v.areas, v.free, HasId(c.tasks, trap.a0), inputs.info, trap.a1,
                             o.result.value, copied))
  }

  /** A known system call panics only in `write` or if the list of areas is full, and then it does
      unless pages run out first. */
  lemma SyscallDies(c: Config, c': Config, trap: Trap, inputs: Inputs, i: nat, o: Outcome, out: seq<byte>, copied: nat)
    requires trap.EnvironmentCall? && KnownSyscall(trap.id) && i < |c.ss|
    requires SyscallEffect(c, c', trap, inputs, i, o, out, copied)
    ensures PanicsIff(ViewAt(c, i), trap, inputs, o)
  {
    hide WriteEffect, MmapEffect, MunmapEffect, InfoEffect, WriteDies, WritePages, MmapAccepts, MunmapSplits,
      OwnFilled;
    if trap.id == SYSCALL_WRITE {
      var v := ViewAt(c, i);
      WriteDecided(v.w, c'.w, v.root, v.areas, v.free, trap.a0, trap.a1, trap.a2, inputs.heap,
                   if o.Resumed? then o.result else None, out);
    }
  }

  /** What `Dies` lists panics and nothing else does, unless pages run out and `write` returns -1.
      Apart from the lists of areas, the kernel's own lists and maps are taken to grow always. */
  ghost predicate PanicsIff(v: View, trap: Trap, inputs: Inputs, o: Outcome) {
    && (Panics(trap) ==> o.Panicked?)
    && (o.Panicked? ==> Dies(trap, inputs, v))
    && (Dies(trap, inputs, v) ==> o.Panicked? || (o == Resumed(Some(-1)) && v.free < PagesToWrite(trap, inputs)))
  }

  // The steps.

  /** `u_trap_handler`. */
  ghost predicate TrapStep(c: Config, c': Config, trap: Trap, inputs: Inputs, i: nat, o: Outcome, out: seq<byte>,
                           terminated: bool, copied: nat)
  {
    && IsCurrent(c, i)
    && Around(c, c', i, o, if trap.EnvironmentCall? then [trap.id] else [], terminated, inputs)
    && PanicsIff(ViewAt(c, i), trap, inputs, o)
    && (MustTerminate(trap, ViewAt(c, i).areas) ==> terminated)
    && (terminated ==> MustTerminate(trap, ViewAt(c, i).areas) || (trap.PageFault? && c.free < 3))
    && (trap.TimerInterrupt? ==> o.Switched?)
    && (trap.TimerInterrupt? || Panics(trap) ==> SameSpaces(c, c'))
    && (trap.EnvironmentCall? && KnownSyscall(trap.id) ==> SyscallEffect(c, c', trap, inputs, i, o, out, copied))
    && (!(trap.EnvironmentCall? && KnownSyscall(trap.id)) ==> out == [] && copied == 0)
    && (trap.PageFault? && !terminated && !o.Panicked? ==>
          o == Resumed(None) && OwnFilled(c, c', i, 3) && FaultServed(ViewAt(c, i), c'.w, trap.stval, trap.store))
  }

  /** A load or store of user code, with the fault that it may take; the task is gone if it
      reads or writes nothing. */
  ghost predicate AccessStep(c: Config, c': Config, va: nat, store: bool, value: byte, i: nat, o: Outcome,
                             r: Option<byte>, inputs: Inputs) {
    && IsCurrent(c, i)
    && Around(c, c', i, o, [], r.None?, inputs) && !o.Panicked?
    && (Granted(ViewAt(c, i), va, store) ==> r.Some?)
    && (Refused(c.ss[i].areas, va, store) && !Granted(ViewAt(c, i), va, store) ==> r.None?)
    && (r.None? ==> Refused(c.ss[i].areas, va, store) || c.free < 3)
    && (r.Some? ==>
          && o == Resumed(None) && Accessed(ViewAt(c, i), c'.w, va, store, value, r.value)
          && OwnFilled(c, c', i, if Granted(ViewAt(c, i), va, store) then 0 else 3))
  }

  /** The task that touches a write-only mapping which it has just made is gone. */
  lemma WriteOnlyKills(areas: seq<VMArea>, c: Config, c': Config, addr: nat, len: nat, va: nat, store: bool,
                       value: byte, i: nat, o: Outcome, r: Option<byte>, inputs: Inputs)
    requires AccessStep(c, c', va, store, value, i, o, r, inputs) && SpaceOk(c.w, c.ss[i])
    requires MmapEffect(areas, c.ss[i].areas, addr, len, PROT_WRITE, 0) && CheckUVa(va)
             && PageMeets(addr, len, va / PAGE_SIZE)
    ensures r.None? && (o.Switched? || o.ShutDown?)
  {
    hide SpaceOk, MmapEffect, Refused, OthersKept, CallsGrow, Accessed, Translate, Needed;
    WriteOnlyUseless(areas, c.w, c.ss[i], addr, len, va);
    assert !Granted(ViewAt(c, i), va, store);
  }

  lemma KernelStep(c: Config, c': Config, i: nat)
    requires i < |c.spaces| == |c.ss| && c'.spaces == c.spaces && OthersUntouched(c.w, c.ss, c'.w, c'.ss, i)
    ensures OthersKept(c, c', i, false)
  {
    hide Untouched;
  }

  lemma OthersThen(c0: Config, c1: Config, c2: Config, i: nat, gone: bool)
    requires OthersKept(c0, c1, i, false) && OthersKept(c1, c2, i, gone)
    ensures OthersKept(c0, c2, i, gone)
  {
    hide Untouched;
    forall j | 0 <= j < |c0.ss| && j != i ensures Untouched(c0.w, c2.w, c0.ss[j]) {
      assert Untouched(c1.w, c2.w, c1.ss[j]);
      UntouchedTrans(c0.w, c1.w, c2.w, c0.ss[j]);
    }
    if gone {
      RemovedSame(c0.ss, c1.ss, i);
    }
  }

  lemma RemovedSame<T>(s: seq<T>, t: seq<T>, i: nat)
    requires i < |s| == |t| && forall j :: 0 <= j < |s| && j != i ==> t[j] == s[j]
    ensures RemoveAt(t, i) == RemoveAt(s, i)
  {
    forall j | 0 <= j < |RemoveAt(s, i)| ensures RemoveAt(t, i)[j] == RemoveAt(s, i)[j] {
    }
  }

  lemma CallsThen(c0: Config, c1: Config, c2: Config, caller: Option<nat>, ids: seq<nat>, more: seq<nat>)
    requires CallsGrow(c0, c1, caller, ids) && CallsGrow(c1, c2, caller, more)
    ensures CallsGrow(c0, c2, caller, ids + more)
  {
  }

  lemma CallsOfNobody(c: Config, c': Config, caller: Option<nat>, caller': Option<nat>)
    requires CallsGrow(c, c', caller, [])
    ensures CallsGrow(c, c', caller', [])
  {
  }

  lemma SameMemory(w: World, w': World)
    requires w'.tables == w.tables && w'.frames == w.frames
    ensures forall s :: Untouched(w, w', s)
  {
  }

  /** All different. */
  predicate Apart(spaces: seq<VMSpace>) {
    forall a, b :: 0 <= a < b < |spaces| ==> spaces[a] != spaces[b]
  }

  /** What the memory invariant says of a moment: `k` are the kernel's tables, and `managed` is
      the number of pages that are free or in use. */
  ghost predicate Sound(k: Pgt, managed: int, c: Config) {
    && SystemOk(c.w, k, c.ss) && |c.ss| == |c.spaces| && Apart(c.spaces) && UniqueIds(c.tasks)
    && (forall i :: 0 <= i < |c.ss| ==> AllUser(c.ss[i].areas))
    && c.free + |c.w.live| == managed
  }

  /** Every switch goes to another task if there is one, and which one it is follows from the list
      and the first reading of the clock; `n` is the position of the current task. */
  lemma SwitchesTo(c: Config, c': Config, i: nat, o: Outcome, ids: seq<nat>, terminated: bool, inputs: Inputs, n: nat)
    requires Around(c, c', i, o, ids, terminated, inputs) && UniqueIds(c.tasks) && o.Switched?
    requires n < |c.tasks| && c.current == Some(c.tasks[n].taskId)
    ensures |c.tasks| == 1 ==> !terminated && c'.tasks == c.tasks && c'.current == c.current
    ensures |c.tasks| >= 2 ==>
              var last, r := |c.tasks| - 1, inputs.clock1 % |c.tasks|;
              var next := if r == 0 then (if n == last then 0 else last) else if n == 0 then r else 0;
              c'.current == Some(c.tasks[next].taskId) != c.current
  {
    hide OthersKept, CallsGrow, Rotates;
    ShrinksBy(c.tasks, c.current, c'.tasks, o, terminated);
    NextTask(c.tasks, n, terminated, inputs.clock1, inputs.clock2, c'.tasks, c'.current);
  }

  /** The timer and `yield` do not let the current task go on if another one is listed. */
  lemma TimerSwitches(k: Pgt, managed: int, c: Config, c': Config, trap: Trap, inputs: Inputs, i: nat, o: Outcome,
                      out: seq<byte>, terminated: bool, copied: nat)
    requires TrapStep(c, c', trap, inputs, i, o, out, terminated, copied) && Sound(k, managed, c) && |c.tasks| >= 2
    requires trap.TimerInterrupt? || (trap.EnvironmentCall? && trap.id == 124)
    ensures o.Switched? && c'.current != c.current && multiset(c'.tasks) == multiset(c.tasks)
  {
    hide Around, PanicsIff, SystemOk, MemoryEffect, ListFull, Apart, UniqueIds;
    var t :| t in c.tasks && c.current == Some(t.taskId);
    var n :| 0 <= n < |c.tasks| && c.tasks[n] == t;
    SwitchesTo(c, c', i, o, if trap.EnvironmentCall? then [trap.id] else [], terminated, inputs, n);
    AroundShrinks(c, c', i, o, if trap.EnvironmentCall? then [trap.id] else [], terminated, inputs);
  }

  lemma AroundShrinks(c: Config, c': Config, i: nat, o: Outcome, ids: seq<nat>, terminated: bool, inputs: Inputs)
    requires Around(c, c', i, o, ids, terminated, inputs)
    ensures Shrinks(c.tasks, c.current, c'.tasks, o, terminated)
  {
    hide OthersKept, CallsGrow, Rotates, Shrinks;
  }

  // Runs.

  /** What a step of a run did: `i` is the position of the space of the task that was current,
      `out` what it printed, `loaded` what it accessed, and `copied` how many bytes of a record it
      got. */
  datatype Event =
    | Skipped
    | Stepped(i: nat, o: Outcome, out: seq<byte>, terminated: bool, loaded: Option<byte>, copied: nat)

  ghost predicate StepOf(c: Config, c': Config, step: Step, inputs: Inputs, e: Event) {
    if !Possible(step, inputs) then e == Skipped && c' == c
    else
      e.Stepped? &&
      match step
      case Access(va, store, value) =>
        && e.out == [] && e.copied == 0 && e.terminated == e.loaded.None?
        && AccessStep(c, c', va, store, value, e.i, e.o, e.loaded, inputs)
      case Trapped(trap) => e.loaded.None? && TrapStep(c, c', trap, inputs, e.i, e.o, e.out, e.terminated, e.copied)
  }

  /** The trace is a run of these steps as far as there are events; all but the last leave the
      machine going. */
  ghost predicate IsRun(trace: seq<Config>, events: seq<Event>, steps: seq<(Step, Inputs)>) {
    && |trace| == |events| + 1 && |events| <= |steps|
    && (forall n :: 0 <= n < |events| ==> StepOf(trace[n], trace[n + 1], steps[n].0, steps[n].1, events[n]))
    && (forall n :: 0 <= n < |events| - 1 ==> GoesOn(events[n]))
  }

  predicate GoesOn(e: Event) {
    e.Stepped? ==> Goes(e.o)
  }

  /** What a run prints. */
  function Printed(events: seq<Event>): seq<byte> {
    if events == [] then []
    else
      var e := events[|events| - 1];
      Printed(events[..|events| - 1]) + if e.Stepped? then e.out else []
  }

  lemma {:induction false} RunNext(trace: seq<Config>, events: seq<Event>, steps: seq<(Step, Inputs)>, c: Config,
                                   e: Event)
    requires IsRun(trace, events, steps) && |events| < |steps| && forall n :: 0 <= n < |events| ==> GoesOn(events[n])
    requires StepOf(trace[|events|], c, steps[|events|].0, steps[|events|].1, e)
    ensures IsRun(trace + [c], events + [e], steps)
    ensures Printed(events + [e]) == Printed(events) + if e.Stepped? then e.out else []
  {
    hide StepOf;
    var trace', events' := trace + [c], events + [e];
    forall n | 0 <= n < |events'| ensures StepOf(trace'[n], trace'[n + 1], steps[n].0, steps[n].1, events'[n]) {
      if n < |events| {
        assert trace'[n] == trace[n] && trace'[n + 1] == trace[n + 1];
      }
    }
  }

  predicate EndsWith(events: seq<Event>, o: Outcome) {
    events != [] && events[|events| - 1].Stepped? && events[|events| - 1].o == o
  }

  /** A run that ended in a panic did so at a trap that must panic for what memory was then. */
  lemma {:induction false} LastPanic(trace: seq<Config>, events: seq<Event>, steps: seq<(Step, Inputs)>)
    requires IsRun(trace, events, steps) && EndsWith(events, Panicked)
    ensures var n := |events| - 1;
            && IsCurrent(trace[n], events[n].i) && steps[n].0.Trapped?
            && Dies(steps[n].0.trap, steps[n].1, ViewAt(trace[n], events[n].i))
  {
    hide Around, IsCurrent, Dies, SyscallEffect, FaultServed, Granted, Refused, Accessed, MustTerminate, PagesToWrite,
      OwnFilled;
    var n := |events| - 1;
    assert StepOf(trace[n], trace[n + 1], steps[n].0, steps[n].1, events[n]);
  }

  /** A run that ended in a shutdown has no task left. */
  lemma {:induction false} LastStep(trace: seq<Config>, events: seq<Event>, steps: seq<(Step, Inputs)>)
    requires IsRun(trace, events, steps) && EndsWith(events, ShutDown)
    ensures trace[|events|].tasks == []
  {
    hide StepOf;
    var n := |events| - 1;
    assert StepOf(trace[n], trace[n + 1], steps[n].0, steps[n].1, events[n]);
    StepShrinks(trace[n], trace[n + 1], steps[n].0, steps[n].1, events[n]);
  }

  /** Space `s` is one of the spaces, and `x` is what it is. */
  ghost predicate HasSpace(c: Config, s: VMSpace, x: Space) {
    exists j :: 0 <= j < |c.spaces| == |c.ss| && c.spaces[j] == s && c.ss[j] == x
  }

  /** The event is a step of a task with another space. */
  predicate OfOther(c: Config, e: Event, s: VMSpace) {
    e.Stepped? ==> e.i < |c.spaces| && c.spaces[e.i] != s
  }

  lemma StepKeeps(c: Config, c': Config, step: Step, inputs: Inputs, e: Event)
    requires StepOf(c, c', step, inputs, e)
    ensures if e.Skipped? then c' == c else OthersKept(c, c', e.i, e.terminated)
  {
    hide PanicsIff, SyscallEffect, FaultServed, Granted, Refused, Accessed, CallsGrow, Shrinks, MustTerminate,
      OthersKept, IsCurrent, Possible, OwnFilled;
  }

  lemma RemovedFrom<T>(s: seq<T>, i: nat, j: nat)
    requires i < |s| && j < |s| - 1
    ensures RemoveAt(s, i)[j] == s[if j < i then j else j + 1]
  {
  }

  /** The space at position `j` is still there, and is untouched. */
  lemma StillThere(c: Config, c': Config, i: nat, gone: bool, j: nat)
    requires OthersKept(c, c', i, gone) && j < |c.ss| && j != i
    ensures HasSpace(c', c.spaces[j], c.ss[j]) && Untouched(c.w, c'.w, c.ss[j])
  {
    hide Untouched;
    if gone && j < i {
      RemovedFrom(c.spaces, i, j);
      RemovedFrom(c.ss, i, j);
      assert c'.spaces[j] == c.spaces[j] && c'.ss[j] == c.ss[j];
    } else if gone {
      RemovedFrom(c.spaces, i, j - 1);
      RemovedFrom(c.ss, i, j - 1);
      assert c'.spaces[j - 1] == c.spaces[j] && c'.ss[j - 1] == c.ss[j];
    } else {
      assert c'.spaces[j] == c.spaces[j] && c'.ss[j] == c.ss[j];
    }
  }

  /** A step of another task. */
  lemma OtherStep(c: Config, c': Config, step: Step, inputs: Inputs, e: Event, s: VMSpace, x: Space)
    requires StepOf(c, c', step, inputs, e) && HasSpace(c, s, x) && OfOther(c, e, s)
    ensures HasSpace(c', s, x) && Untouched(c.w, c'.w, x)
  {
    StepKeeps(c, c', step, inputs, e);
    hide StepOf, Untouched, OthersKept;
    if e.Skipped? {
      NothingTouched(c.w);
    } else {
      var j :| 0 <= j < |c.spaces| == |c.ss| && c.spaces[j] == s && c.ss[j] == x;
      StillThere(c, c', e.i, e.terminated, j);
    }
  }

  /** Isolation over whole runs: while other tasks run, for however long and whatever they do, a
      task's space stays, and so do its areas, its translations and every byte of it. */
  lemma {:induction false} IsolatedRun(trace: seq<Config>, events: seq<Event>, steps: seq<(Step, Inputs)>, n: nat,
                                       m: nat, s: VMSpace, x: Space)
    requires IsRun(trace, events, steps) && n <= m <= |events| && HasSpace(trace[n], s, x)
    requires forall e :: n <= e < m ==> OfOther(trace[e], events[e], s)
    ensures HasSpace(trace[m], s, x) && Untouched(trace[n].w, trace[m].w, x)
    decreases m
  {
    hide StepOf, OfOther, Untouched, HasSpace;
    if n == m {
      NothingTouched(trace[n].w);
    } else {
      IsolatedRun(trace, events, steps, n, m - 1, s, x);
      assert StepOf(trace[m - 1], trace[m - 1 + 1], steps[m - 1].0, steps[m - 1].1, events[m - 1]);
      OtherStep(trace[m - 1], trace[m], steps[m - 1].0, steps[m - 1].1, events[m - 1], s, x);
      UntouchedTrans(trace[n].w, trace[m - 1].w, trace[m].w, x);
    }
  }

  /** The calls that task `t` makes in the first `m` steps of a run. */
  function CallsMade(trace: seq<Config>, steps: seq<(Step, Inputs)>, t: TaskControlBlock, m: nat): seq<nat>
    requires m <= |trace| && m <= |steps|
  {
    if m == 0 then []
    else
      CallsMade(trace, steps, t, m - 1) +
      var (step, inputs) := steps[m - 1];
      if Possible(step, inputs) && step.Trapped? && step.trap.EnvironmentCall? && trace[m - 1].current == Some(t.taskId)
      then [step.trap.id] else []
  }

  /** What is recorded for a task that is still listed is every call that it made, in order. */
  lemma {:induction false} CallsAreRecorded(trace: seq<Config>, events: seq<Event>, steps: seq<(Step, Inputs)>,
                                            t: TaskControlBlock, m: nat)
    requires IsRun(trace, events, steps) && m <= |events| && t in trace[m].tasks
             && forall u :: u in trace[0].tasks ==> u in trace[0].calls
    ensures t in trace[0].tasks && t in trace[m].calls
            && trace[m].calls[t] == trace[0].calls[t] + CallsMade(trace, steps, t, m)
  {
    hide Possible, PanicsIff, SyscallEffect, FaultServed, Granted, Refused, Accessed, OthersKept, Shrinks,
      MustTerminate, Untouched, IsCurrent, OwnFilled, SameSpaces;
    if m > 0 {
      assert StepOf(trace[m - 1], trace[m - 1 + 1], steps[m - 1].0, steps[m - 1].1, events[m - 1]);
      CallsAreRecorded(trace, events, steps, t, m - 1);
    }
  }

  /** Tasks leave, and none comes. */
  lemma {:induction false} FewerTasks(trace: seq<Config>, events: seq<Event>, steps: seq<(Step, Inputs)>, m: nat)
    requires IsRun(trace, events, steps) && m <= |events|
    ensures |trace[m].tasks| <= |trace[0].tasks|
  {
    hide StepOf;
    if m > 0 {
      assert StepOf(trace[m - 1], trace[m - 1 + 1], steps[m - 1].0, steps[m - 1].1, events[m - 1]);
      FewerTasks(trace, events, steps, m - 1);
      StepShrinks(trace[m - 1], trace[m], steps[m - 1].0, steps[m - 1].1, events[m - 1]);
    }
  }

  lemma StepShrinks(c: Config, c': Config, step: Step, inputs: Inputs, e: Event)
    requires StepOf(c, c', step, inputs, e)
    ensures |c'.tasks| == |c.tasks| - if e.Stepped? && e.terminated then 1 else 0
    ensures e.Stepped? && e.o.ShutDown? ==> c'.tasks == []
  {
    hide OthersKept, CallsGrow, PanicsIff, SyscallEffect, FaultServed, Granted, Refused, Accessed, MustTerminate,
      IsCurrent, Possible, OwnFilled, SameSpaces;
    if e.Stepped? {
      ShrinksBy(c.tasks, c.current, c'.tasks, e.o, e.terminated);
    }
  }

  lemma {:induction false} Sizes<T>(s: seq<T>, t: seq<T>, m: multiset<T>)
    requires multiset(s) + m == multiset(t)
    ensures |s| + |m| == |t|
  {
    assert |multiset(s)| == |s| && |multiset(t)| == |t|;
  }

  /** A step takes one task away, or none. */
  lemma ShrinksBy(tasks: seq<TaskControlBlock>, current: Option<nat>, tasks': seq<TaskControlBlock>, o: Outcome,
                  terminates: bool)
    requires Shrinks(tasks, current, tasks', o, terminates)
    ensures |tasks'| == (|tasks| - if terminates then 1 else 0) && (o.ShutDown? ==> tasks' == [])
  {
    if terminates {
      var t :| t in tasks && current == Some(t.taskId) && multiset(tasks') + multiset{t} == multiset(tasks);
      Sizes(tasks', tasks, multiset{t});
    } else {
      Sizes(tasks', tasks, multiset{});
    }
  }
}
