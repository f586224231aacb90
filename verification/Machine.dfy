/**
  The kernel as a machine: the memory of all tasks and the task list, driven by traps
  (os/src/trap/utrap.rs, os/src/syscall.rs, os/src/syscall/process.rs).
 */
module Machine {
  import opened Layout
  import opened Pte
  import opened Memory
  import opened Walk
  import opened PageAlloc
  import opened PgtSpec
  import opened Areas
  import opened SpaceSpec
  import opened LoadSpec
  import opened VMSpace
  import opened KernelMap
  import opened SystemSpec
  import opened Statistics
  import opened Tasks
  import opened Kernel
  import opened UAccess
  import opened Steps
  import FlatMemory

  datatype App = App(elf: seq<byte>, segments: seq<Segment>, entry: nat)

  function PositionOfSpace(spaces: seq<VMSpace>, s: VMSpace, i: nat): (k: nat)
    requires i <= |spaces| && exists j :: i <= j < |spaces| && spaces[j] == s
    ensures i <= k < |spaces| && spaces[k] == s
    decreases |spaces| - i
  {
    if spaces[i] == s then i else PositionOfSpace(spaces, s, i + 1)
  }

  /** The tasks and the spaces correspond one to one. */
  ghost predicate Matched(tasks: seq<TaskControlBlock>, spaces: seq<VMSpace>) {
    && (forall t :: t in tasks ==> t.vmSpace in spaces)
    && (forall s :: s in spaces ==> exists t :: t in tasks && t.vmSpace == s)
    && (forall t, u :: t in tasks && u in tasks && t.vmSpace == u.vmSpace ==> t == u)
  }

  lemma MatchedPermuted(tasks: seq<TaskControlBlock>, tasks': seq<TaskControlBlock>, spaces: seq<VMSpace>)
    requires Matched(tasks, spaces) && multiset(tasks') == multiset(tasks)
    ensures Matched(tasks', spaces)
  {
    SameMembers(tasks, tasks');
  }

  lemma MembersLess(tasks: seq<TaskControlBlock>, tasks': seq<TaskControlBlock>, tcb: TaskControlBlock, nextTaskId: nat)
    requires Listed(tasks, nextTaskId) && multiset(tasks') + multiset{tcb} == multiset(tasks) && tcb in tasks
    ensures forall t :: t in tasks' <==> t in tasks && t != tcb
  {
    forall t ensures t in tasks' <==> t in tasks && t != tcb {
      if t in tasks' {
        Removed(tasks, tasks', nextTaskId, tcb, t);
      }
      if t in tasks && t != tcb {
        assert t in multiset(tasks') + multiset{tcb};
        assert t in multiset(tasks');
      }
    }
  }

  lemma DroppedMatched(tasks: seq<TaskControlBlock>, tasks': seq<TaskControlBlock>, tcb: TaskControlBlock,
                       nextTaskId: nat, spaces: seq<VMSpace>, i: nat)
    requires Listed(tasks, nextTaskId) && multiset(tasks') + multiset{tcb} == multiset(tasks) && tcb in tasks
    requires Matched(tasks, spaces) && i < |spaces| && spaces[i] == tcb.vmSpace && Apart(spaces)
    ensures Matched(tasks', RemoveAt(spaces, i))
  {
    hide Matched, Listed;
    MembersLess(tasks, tasks', tcb, nextTaskId);
    MatchedLess(tasks, tasks', tcb, spaces, i);
  }

  /** A task and its space leave together. */
  lemma MatchedLess(tasks: seq<TaskControlBlock>, tasks': seq<TaskControlBlock>, tcb: TaskControlBlock,
                    spaces: seq<VMSpace>, i: nat)
    requires Matched(tasks, spaces) && tcb in tasks && forall t :: t in tasks' <==> t in tasks && t != tcb
    requires i < |spaces| && spaces[i] == tcb.vmSpace && Apart(spaces)
    ensures Matched(tasks', RemoveAt(spaces, i))
  {
    SpacesLess(spaces, i);
    hide RemoveAt;
  }

  lemma SpacesLess(spaces: seq<VMSpace>, i: nat)
    requires i < |spaces| && Apart(spaces)
    ensures forall s :: s in RemoveAt(spaces, i) <==> s in spaces && s != spaces[i]
  {
  }

  lemma MatchedMore(tasks: seq<TaskControlBlock>, spaces: seq<VMSpace>, tcb: TaskControlBlock)
    requires Matched(tasks, spaces) && tcb.vmSpace !in spaces
    ensures Matched(tasks + [tcb], spaces + [tcb.vmSpace])
  {
  }

  /** `run_next_task`: a terminated current task is dropped, and its space at position `at` with
      it; all else in memory stays. */
  ghost predicate SwitchStep(c: Config, c': Config, o: Outcome, dropped: Option<TaskControlBlock>, at: nat,
                             clock1: nat, clock2: nat) {
    && multiset(c'.tasks) + (if dropped.Some? then multiset{dropped.value} else multiset{}) == multiset(c.tasks)
    && o == (if c'.tasks == [] then ShutDown else Switched)
    && Rotates(c.tasks, c.current, dropped.Some?, clock1, clock2, c'.tasks, c'.current)
    && |c.ss| == |c.spaces| && c'.w.tables == c.w.tables && c'.w.frames == c.w.frames && CallsGrow(c, c', None, [])
    && match dropped
       case None => SameSpaces(c, c')
       case Some(t) =>
         && t in c.tasks && c.current == Some(t.taskId) && at < |c.spaces| && c.spaces[at] == t.vmSpace
         && c'.spaces == RemoveAt(c.spaces, at) && c'.ss == RemoveAt(c.ss, at)
  }

  lemma SwitchIsAround(c: Config, c': Config, o: Outcome, dropped: Option<TaskControlBlock>, at: nat, i: nat,
                       nextTaskId: nat, inputs: Inputs)
    requires SwitchStep(c, c', o, dropped, at, inputs.clock1, inputs.clock2) && IsCurrent(c, i)
             && Listed(c.tasks, nextTaskId)
    requires Apart(c.spaces)
    ensures Around(c, c', i, o, [], dropped.Some?, inputs) && (o.Switched? || o.ShutDown?)
    ensures dropped.None? ==> SameSpaces(c, c')
  {
    hide Rotates, Listed, RemoveAt, Untouched;
    if dropped.Some? {
      DroppedIsCurrent(c, dropped.value, at, i, nextTaskId);
    }
    CallsOfNobody(c, c', None, c.current);
    SwitchKeeps(c, c', i, dropped.Some?);
    hide CallsGrow, OthersKept, Apart;
  }

  lemma DroppedIsCurrent(c: Config, dropped: TaskControlBlock, at: nat, i: nat, nextTaskId: nat)
    requires IsCurrent(c, i) && Listed(c.tasks, nextTaskId) && Apart(c.spaces)
    requires dropped in c.tasks && c.current == Some(dropped.taskId)
    requires at < |c.spaces| && c.spaces[at] == dropped.vmSpace
    ensures at == i
  {
    hide Listed;
    var t :| t in c.tasks && c.current == Some(t.taskId) && t.vmSpace == c.spaces[i];
    OneTask(c.tasks, nextTaskId, t, dropped);
  }

  lemma SwitchKeeps(c: Config, c': Config, i: nat, gone: bool)
    requires i < |c.spaces| == |c.ss| && c'.w.tables == c.w.tables && c'.w.frames == c.w.frames
    requires if gone then c'.spaces == RemoveAt(c.spaces, i) && c'.ss == RemoveAt(c.ss, i)
             else c'.spaces == c.spaces && c'.ss == c.ss
    ensures OthersKept(c, c', i, gone)
  {
    SameMemory(c.w, c'.w);
    hide Untouched, RemoveAt;
  }

  /** A step that acts on the memory of the current task only. */
  lemma KernelIsAround(c: Config, c': Config, i: nat, o: Outcome, inputs: Inputs)
    requires c'.tasks == c.tasks != [] && c'.current == c.current && CallsGrow(c, c', None, [])
    requires o.Resumed? || o.Panicked?
    requires i < |c.spaces| == |c.ss| && c'.spaces == c.spaces && OthersUntouched(c.w, c.ss, c'.w, c'.ss, i)
    ensures Around(c, c', i, o, [], false, inputs)
  {
    KernelStep(c, c', i);
    CallsOfNobody(c, c', None, c.current);
    hide OthersKept, CallsGrow, OthersUntouched;
  }

  lemma AroundThen(c0: Config, c1: Config, c2: Config, i: nat, o1: Outcome, o: Outcome, ids: seq<nat>,
                   terminated: bool, inputs: Inputs)
    requires Around(c0, c1, i, o1, ids, false, inputs) && c1.tasks == c0.tasks && c1.current == c0.current
    requires Around(c1, c2, i, o, [], terminated, inputs)
    ensures Around(c0, c2, i, o, ids, terminated, inputs)
  {
    OthersThen(c0, c1, c2, i, terminated);
    CallsThen(c0, c1, c2, c0.current, ids, []);
    hide OthersKept, CallsGrow;
    assert ids + [] == ids;
  }

  /** The space at `at` is gone, its pages are free, and nothing else changes. */
  ghost predicate Dropped(c: Config, c': Config, tcb: TaskControlBlock, at: nat) {
    && at < |c.spaces| == |c.ss| && c.spaces[at] == tcb.vmSpace
    && c'.spaces == RemoveAt(c.spaces, at) && c'.ss == RemoveAt(c.ss, at)
    && c'.tasks == c.tasks && c'.current == c.current && c'.calls == c.calls
    && c'.w.tables == c.w.tables && c'.w.frames == c.w.frames
    && c'.w.live == c.w.live - Owned(c.ss[at])
  }

  /** First the list, then the space. */
  lemma SwitchDone(c: Config, c1: Config, c2: Config, dropped: Option<TaskControlBlock>, at: nat, clock1: nat,
                   clock2: nat)
    requires multiset(c1.tasks) + (if dropped.Some? then multiset{dropped.value} else multiset{}) == multiset(c.tasks)
    requires CallsGrow(c, c1, None, []) && SameSpaces(c, c1) && |c.ss| == |c.spaces|
    requires Rotates(c.tasks, c.current, dropped.Some?, clock1, clock2, c1.tasks, c1.current)
    requires dropped.None? ==> c2 == c1
    requires dropped.Some? ==>
               dropped.value in c.tasks && c.current == Some(dropped.value.taskId) && Dropped(c1, c2, dropped.value, at)
    ensures SwitchStep(c, c2, if c2.tasks == [] then ShutDown else Switched, dropped, at, clock1, clock2)
  {
    hide Rotates;
  }

  lemma AroundItself(c: Config, i: nat, inputs: Inputs)
    requires IsCurrent(c, i) && forall t :: t in c.tasks ==> t in c.calls
    ensures Around(c, c, i, Resumed(None), [], false, inputs) && Around(c, c, i, Panicked, [], false, inputs)
  {
    NothingTouched(c.w);
    hide Untouched;
  }

  /** `run_next_task` finds a task if none has left. */
  lemma YieldSwitches(c: Config, c': Config, i: nat, o: Outcome, inputs: Inputs)
    requires Around(c, c', i, o, [], false, inputs) && c.tasks != [] && (o.Switched? || o.ShutDown?)
    ensures o.Switched?
  {
    hide OthersKept, CallsGrow, Rotates;
    Sizes(c'.tasks, c.tasks, multiset{});
  }

  /** A call has been recorded. */
  lemma OneCall(c: Config, c': Config, i: nat, id: nat, inputs: Inputs)
    requires c' == c.(calls := c'.calls) && IsCurrent(c, i) && CallsGrow(c, c', c.current, [id])
    ensures Around(c, c', i, Resumed(None), [id], false, inputs) && Around(c, c', i, Panicked, [id], false, inputs)
    ensures IsCurrent(c', i) && ViewAt(c', i) == ViewAt(c, i)
  {
    NothingTouched(c.w);
    hide Untouched, CallsGrow;
  }

  lemma CallPanics(c: Config, c': Config, trap: Trap, inputs: Inputs, i: nat)
    requires trap.EnvironmentCall? && !KnownSyscall(trap.id) && IsCurrent(c, i)
    requires Around(c, c', i, Panicked, [trap.id], false, inputs)
    requires SameSpaces(c, c')
    ensures TrapStep(c, c', trap, inputs, i, Panicked, [], false, 0)
  {
    hide Around, WriteDies, WritePages;
  }

  lemma CallIsTrap(c: Config, c1: Config, c': Config, trap: Trap, inputs: Inputs, i: nat, o: Outcome, out: seq<byte>,
                   copied: nat)
    requires trap.EnvironmentCall? && KnownSyscall(trap.id) && IsCurrent(c, i) && c1 == c.(calls := c1.calls)
    requires Around(c, c1, i, Resumed(None), [trap.id], false, inputs)
    requires Around(c1, c', i, o, [], trap.id == SYSCALL_EXIT, inputs)
             && SyscallEffect(c1, c', trap, inputs, i, o, out, copied)
    ensures TrapStep(c, c', trap, inputs, i, o, out, trap.id == SYSCALL_EXIT, copied)
  {
    hide Around, SyscallEffect, PanicsIff, MustTerminate, ViewAt;
    AroundThen(c, c1, c', i, Resumed(None), o, [trap.id], trap.id == SYSCALL_EXIT, inputs);
    CallsUnseen(c, c1, c', trap, inputs, i, o, out, copied);
    SyscallDies(c, c', trap, inputs, i, o, out, copied);
    ExitTerminates(trap, ViewAt(c, i).areas);
  }

  /** What a system call does to memory does not depend on what has been recorded. */
  lemma CallsUnseen(c: Config, c1: Config, c': Config, trap: Trap, inputs: Inputs, i: nat, o: Outcome, out: seq<byte>,
                    copied: nat)
    requires trap.EnvironmentCall? && c1 == c.(calls := c1.calls) && i < |c.ss|
    requires SyscallEffect(c1, c', trap, inputs, i, o, out, copied)
    ensures SyscallEffect(c, c', trap, inputs, i, o, out, copied)
  {
    hide WriteEffect, MmapEffect, MunmapEffect, InfoEffect, OnlyFilled, MmapAccepts, MunmapSplits, WritePages, Pages;
  }

  lemma ExitTerminates(trap: Trap, areas: seq<VMArea>)
    requires trap.EnvironmentCall?
    ensures MustTerminate(trap, areas) <==> trap.id == SYSCALL_EXIT
  {
  }

  /** A fault that was served. */
  lemma FaultIsTrap(c: Config, c': Config, store: bool, stval: nat, inputs: Inputs, i: nat)
    requires IsCurrent(c, i) && CheckUVa(stval) && Around(c, c', i, Resumed(None), [], false, inputs)
    requires OwnFilled(c, c', i, 3) && FaultServed(ViewAt(c, i), c'.w, stval, store)
    requires !Refused(c.ss[i].areas, stval, store)
    ensures TrapStep(c, c', PageFault(store, stval), inputs, i, Resumed(None), [], false, 0)
  {
    hide Around, FaultServed, Refused, IsCurrent, OwnFilled;
  }

  /** A fault that killed the task. */
  lemma KillIsTrap(c: Config, c1: Config, c': Config, store: bool, stval: nat, inputs: Inputs, i: nat, o: Outcome)
    requires IsCurrent(c, i) && CheckUVa(stval) && Around(c, c1, i, Resumed(None), [], false, inputs)
             && c1.tasks == c.tasks
             && c1.current == c.current
    requires Around(c1, c', i, o, [], true, inputs) && !o.Panicked?
             && (Refused(c.ss[i].areas, stval, store) || c.free < 3)
    ensures TrapStep(c, c', PageFault(store, stval), inputs, i, o, [], true, 0)
  {
    AroundThen(c, c1, c', i, Resumed(None), o, [], true, inputs);
    hide Around, Refused, IsCurrent;
  }

  lemma HasCurrent(c: Config, i: nat)
    requires IsCurrent(c, i)
    ensures c.tasks != []
  {
  }

  /** The arms that only switch. */
  lemma LeaveIsTrap(c: Config, c': Config, trap: Trap, inputs: Inputs, i: nat, o: Outcome, terminated: bool)
    requires IsCurrent(c, i) && Around(c, c', i, o, [], terminated, inputs) && (o.Switched? || o.ShutDown?)
    requires if terminated then trap.IllegalInstruction? || trap.InstructionPageFault?
             else trap.TimerInterrupt? && SameSpaces(c, c')
    ensures TrapStep(c, c', trap, inputs, i, o, [], terminated, 0)
  {
    hide Around, SameSpaces, IsCurrent;
    if !terminated {
      HasCurrent(c, i);
      YieldSwitches(c, c', i, o, inputs);
    }
  }

  /** The arms that panic at once. */
  lemma NothingIsTrap(c: Config, trap: Trap, inputs: Inputs, i: nat)
    requires IsCurrent(c, i) && (forall t :: t in c.tasks ==> t in c.calls) && Panics(trap) && !trap.EnvironmentCall?
    ensures TrapStep(c, c, trap, inputs, i, Panicked, [], false, 0)
  {
    AroundItself(c, i, inputs);
    hide Around;
  }

  lemma NotResumed(c: Config, c': Config, trap: Trap, inputs: Inputs, i: nat, o: Outcome, terminated: bool)
    requires TrapStep(c, c', trap, inputs, i, o, [], terminated, 0)
    ensures o.Resumed? ==> !terminated
  {
    hide OthersKept, CallsGrow, PanicsIff, SyscallEffect, MustTerminate, FaultServed, OwnFilled;
  }

  /** What a fault means for the access that took it. */
  lemma FaultMeans(c: Config, c': Config, store: bool, va: nat, inputs: Inputs, i: nat, o: Outcome, out: seq<byte>,
                   terminated: bool, copied: nat, value: byte)
    requires TrapStep(c, c', PageFault(store, va), inputs, i, o, out, terminated, copied) && CheckUVa(va)
             && !Granted(ViewAt(c, i), va, store)
    ensures !o.Panicked? && i < |c.ss|
    ensures o.Resumed? ==>
              && o == Resumed(None) && Around(c, c', i, Resumed(None), [], false, inputs) && c'.current == c.current
                 && !Refused(c.ss[i].areas, va, store)
              && OwnFilled(c, c', i, 3) && i < |c'.ss| && c'.ss[i].pgt.root == c.ss[i].pgt.root
              && FaultServed(ViewAt(c, i), c'.w, va, store)
    ensures !o.Resumed? ==> AccessStep(c, c', va, store, value, i, o, None, inputs)
  {
    NotResumed(c, c', PageFault(store, va), inputs, i, o, terminated);
    hide Shrinks, OthersKept, CallsGrow, FaultServed, Refused, Granted, OnlyFilled;
  }

  /** An access that goes through, after a fault or at once (`c1` is `c`). */
  lemma AccessGranted(c: Config, c1: Config, c': Config, va: nat, store: bool, value: byte, i: nat, b: byte,
                      inputs: Inputs)
    requires IsCurrent(c, i) && CheckUVa(va) && c1.tasks == c.tasks && c1.current == c.current
    requires Around(c, c1, i, Resumed(None), [], false, inputs) && Around(c1, c', i, Resumed(None), [], false, inputs)
    requires Granted(ViewAt(c, i), va, store) || !Refused(c.ss[i].areas, va, store)
    requires OwnFilled(c, c1, i, if Granted(ViewAt(c, i), va, store) then 0 else 3) && c'.ss == c1.ss
             && c'.free == c1.free
    requires var root := c.ss[i].pgt.root;
             && ReadsKept(c.w, c1.w, root, 0, 0) && UserByte(c'.w, root, va) == Some(if store then value else b)
                && (!store ==> c'.w == c1.w)
             && forall x: nat :: CheckUVa(x) && x != va ==> UserByte(c'.w, root, x) == UserByte(c1.w, root, x)
    ensures AccessStep(c, c', va, store, value, i, Resumed(None), Some(b), inputs)
  {
    AroundThen(c, c1, c', i, Resumed(None), Resumed(None), [], false, inputs);
    ReadsKeptStore(c.w, c1.w, c'.w, c.ss[i].pgt.root, va);
    hide Around, Refused, Granted, ReadsKept, UserByte, IsCurrent;
  }

  lemma OwnItself(c: Config, i: nat)
    requires i < |c.ss|
    ensures OwnFilled(c, c, i, 0)
  {
    OnlyFilledItself(c.ss[i].areas);
    hide OnlyFilled;
  }

  /** The space at position `k` holds the program, and nothing else but a stack. */
  ghost predicate OneLoaded(c: Config, k: nat, app: App) {
    k < |c.ss| && ProgramIn(c.w, c.ss[k], app.elf, app.segments)
  }

  /** The first `n` spaces hold the programs. */
  ghost predicate AppsLoaded(c: Config, apps: seq<App>, n: nat)
    requires n <= |apps|
  {
    |c.ss| == n && forall k :: 0 <= k < n ==> OneLoaded(c, k, apps[k])
  }

  /** A task with a space of its own has come, which holds the program; the others are as they
      were. */
  ghost predicate Added(c: Config, c': Config, app: App) {
    && |c'.tasks| == |c.tasks| + 1 && c'.tasks[..|c.tasks|] == c.tasks
    && |c'.spaces| == |c.spaces| + 1 && c'.spaces[..|c.spaces|] == c.spaces
    && c'.tasks[|c.tasks|].vmSpace == c'.spaces[|c.spaces|]
    && OneMoreSpace(c.w, c.ss, c'.w, c'.ss) && OneLoaded(c', |c.ss|, app)
  }

  /** First the space, then the task. */
  lemma AddedInTwo(c: Config, c1: Config, c': Config, app: App, tcb: TaskControlBlock, space: VMSpace)
    requires c1.spaces == c.spaces + [space] && OneMoreSpace(c.w, c.ss, c1.w, c1.ss) && OneLoaded(c1, |c.ss|, app)
    requires c'.spaces == c1.spaces && c'.ss == c1.ss && c'.w == c1.w
    requires c'.tasks == c.tasks + [tcb] && tcb.vmSpace == space
    ensures Added(c, c', app)
  {
    hide OneMoreSpace, ProgramIn;
  }

  /** There are `n` tasks, each with its space at its own position, and these hold the programs. */
  ghost predicate AllAdded(c: Config, apps: seq<App>, n: nat)
    requires n <= |apps|
  {
    && |c.tasks| == |c.spaces| == n && AppsLoaded(c, apps, n)
    && forall k :: 0 <= k < n ==> c.tasks[k].vmSpace == c.spaces[k]
  }

  lemma OneMoreProgram(c: Config, c': Config, apps: seq<App>, n: nat)
    requires n < |apps| && AllAdded(c, apps, n) && Added(c, c', apps[n])
    requires forall k :: 0 <= k < |c.ss| ==> SpaceOk(c.w, c.ss[k])
    ensures AllAdded(c', apps, n + 1)
  {
    hide ProgramIn, SpaceOk, Untouched;
    forall k | 0 <= k < n ensures OneLoaded(c', k, apps[k]) && c'.tasks[k].vmSpace == c'.spaces[k] {
      assert OneLoaded(c, k, apps[k]) && c'.tasks[..n][k] == c.tasks[k] && c'.spaces[..n][k] == c.spaces[k];
      StaysUntouched(c.w, c.ss[k], c'.w, apps[k].elf, apps[k].segments);
    }
  }

  /** From boot to its first turn a task's memory is its program, whatever the others do. */
  lemma {:induction false} UntilItsTurn(trace: seq<Config>, events: seq<Event>, steps: seq<(Steps.Step, Inputs)>,
                                        k: Pgt, managed: int, apps: seq<App>, a: nat, m: nat)
    requires IsRun(trace, events, steps) && Sound(k, managed, trace[0]) && AppsLoaded(trace[0], apps, |apps|)
    requires a < |apps| && m <= |events|
    requires forall e :: 0 <= e < m ==> OfOther(trace[e], events[e], trace[0].spaces[a])
    ensures HasSpace(trace[m], trace[0].spaces[a], trace[0].ss[a])
    ensures ProgramIn(trace[m].w, trace[0].ss[a], apps[a].elf, apps[a].segments)
  {
    hide StepOf, OfOther, Untouched, ProgramIn;
    var c := trace[0];
    assert OneLoaded(c, a, apps[a]) && HasSpace(c, c.spaces[a], c.ss[a]);
    SystemMeans(c.w, k, c.ss, a);
    hide OneLoaded, HasSpace, SpaceOk, SystemOk;
    IsolatedRun(trace, events, steps, 0, m, c.spaces[a], c.ss[a]);
    StaysUntouched(c.w, c.ss[a], trace[m].w, apps[a].elf, apps[a].segments);
  }

  /** From boot on, whatever happens: what a task reads and may do is given by its program and by
      its own stores and system calls. */
  lemma {:induction false} TasksAreFlat(trace: seq<Config>, events: seq<Event>, steps: seq<(Steps.Step, Inputs)>,
                                        k: Pgt, managed: int, apps: seq<App>, a: nat, x: Space, va: nat, m: nat)
    requires IsRun(trace, events, steps) && forall n :: 0 <= n < |trace| ==> Sound(k, managed, trace[n])
    requires AppsLoaded(trace[0], apps, |apps|) && AllLoadable(apps) && a < |apps| == |trace[0].spaces|
    requires m <= |events| && CheckUVa(va) && HasSpace(trace[m], trace[0].spaces[a], x)
    ensures var (s, elf, segments) := (trace[0].spaces[a], apps[a].elf, apps[a].segments);
            && FlatMemory.ByteAtVa(trace[m].w, x, va)
            == FlatMemory.FlatByte(trace, events, steps, s, va, m, FlatMemory.ProgramByte(elf, segments, va))
            && FlatMemory.PermissionsAt(x, va / PAGE_SIZE)
            == FlatMemory.FlatPermissions(trace, events, steps, s, va / PAGE_SIZE, m,
                                          FlatMemory.ProgramPermissions(segments, va / PAGE_SIZE))
  {
    hide StepOf, ProgramIn, SystemOk, AllUser, Apart;
    var c := trace[0];
    assert OneLoaded(c, a, apps[a]) && HasSpace(c, c.spaces[a], c.ss[a]);
    hide OneLoaded, HasSpace, Sound;
    FlatMemory.FromProgram(trace, events, steps, k, managed, apps[a].elf, apps[a].segments, c.spaces[a], c.ss[a], x,
                           va, m);
  }

  class Machine {
    const kernel: Kernel
    const list: TaskList

    /** What holds of tasks and memory whatever the states of the tasks are. */
    ghost predicate Kept()
      reads kernel, kernel.mem, kernel.alloc, kernel.spaces, kernel.Roots(), list, list.Tables()
    {
      kernel.Inv() && Matched(list.tasks, kernel.spaces) && list.Unique() && list.Counted()
    }

    /** What holds whenever user code runs. */
    ghost predicate Inv()
      reads kernel, kernel.mem, kernel.alloc, kernel.spaces, kernel.Roots(), list, list.tasks, list.Tables()
    {
      Kept() && list.InUser() && list.CallsIn(KNOWN)
    }

    ghost function Now(): Config
      reads kernel, kernel.mem, kernel.alloc, kernel.spaces, kernel.Roots(), list, list.Tables()
    {
      Config(list.tasks, list.current, list.Calls(), kernel.spaces, kernel.Spaces(), kernel.Now(), kernel.alloc.Free())
    }

    constructor (kernel: Kernel, list: TaskList)
      ensures this.kernel == kernel && this.list == list
    {
      this.kernel := kernel;
      this.list := list;
    }

    /** A step that records no call keeps all tables. */
    twostate lemma TablesStay()
      requires old(list.Counted()) && unchanged(old(list.Tables()))
               && forall t :: t in list.tasks ==> t in old(list.tasks)
      ensures list.Counted() && CallsGrow(old(Now()), Now(), None, [])
      ensures forall ids :: old(list.CallsIn(ids)) ==> list.CallsIn(ids)
    {
      list.CountedStays();
      hide TaskList.Counted, TaskList.CallsIn;
    }

    /** A new task and a new space have come at the ends of the lists. */
    twostate predicate NewTask(entry: nat)
      reads kernel, kernel.spaces, list
    {
      var (n, m) := (|old(list.tasks)|, |old(kernel.spaces)|);
      && |list.tasks| == n + 1 && list.tasks[..n] == old(list.tasks)
      && |kernel.spaces| == m + 1 && kernel.spaces[..m] == old(kernel.spaces)
      && fresh(list.tasks[n]) && fresh(list.tasks[n].statistics) && fresh(list.tasks[n].statistics.counts)
      && fresh(kernel.spaces[m]) && fresh(kernel.spaces[m].rootPgt) && kernel.spaces[m].entryAddr == entry
    }

    /** `add_task`; it panics where this returns false. */
    method AddTask(app: App) returns (ok: bool)
      requires Kept() && list.current.None? && list.CallsIn({}) && list.AllReady()
      requires forall j :: 0 <= j < |app.segments| && app.segments[j].load ==>
                 app.segments[j].Loadable(app.elf) && app.segments[j].BelowStack()
      modifies kernel, kernel.mem, kernel.alloc, list
      ensures Kept() && list.current.None? && list.CallsIn({}) && list.AllReady()
      ensures !ok ==> list.tasks == old(list.tasks) && kernel.spaces == old(kernel.spaces)
      ensures if ok
              then !ProgramRefused(app.segments)
                  && kernel.alloc.Free() >= old(kernel.alloc.Free()) - ProgramPages(app.segments)
              else ProgramRefused(app.segments) || old(kernel.alloc.Free()) < ProgramPages(app.segments)
      ensures ok ==> NewTask(app.entry) && Added(old(Now()), Now(), app)
    {
      hide Kernel.Inv, Matched, Listed, ProgramIn, OneMoreSpace, PageAllocator.Live, PageAllocator.Free,
        ProgramRefused, TaskList.Counted, TaskList.CallsIn, TaskList.Calls, TaskList.AllReady, Kernel.Spaces, Added,
        ProgramPages, RemoveAt, Untouched, SystemOk;
      ghost var c := Now();
      SpacesSize(this);
      NotTables(kernel, list);
      ok := kernel.Spawn(app.elf, app.segments, app.entry);
      list.Unmoved();
      hide TaskList.Tables;
      if ok {
        var space := kernel.spaces[|kernel.spaces| - 1];
        assert kernel.spaces == c.spaces + [space];
        ghost var c1 := Now();
        var tcb := Enlist(space, c.spaces);
        AddedInTwo(c, c1, Now(), app, tcb, space);
      }
    }

    /** The last part of `add_task`, for a space that has just come. */
    method Enlist(space: VMSpace, ghost spaces: seq<VMSpace>) returns (tcb: TaskControlBlock)
      requires kernel.Inv() && list.Unique() && list.Counted() && list.CallsIn({}) && list.AllReady()
      requires Matched(list.tasks, spaces) && kernel.spaces == spaces + [space] && space !in spaces
      modifies list
      ensures Kept() && list.CallsIn({}) && list.AllReady() && list.current == old(list.current)
      ensures list.tasks == old(list.tasks) + [tcb] && tcb.vmSpace == space
      ensures fresh(tcb) && fresh(tcb.statistics) && fresh(tcb.statistics.counts)
      ensures Now().ss == old(Now()).ss && Now().w == old(Now()).w
    {
      hide Kernel.Inv, Matched, Listed, PageAllocator.Live, TaskList.Counted, TaskList.CallsIn, TaskList.Calls,
        TaskList.AllReady, Kernel.Spaces;
      NotRoots(kernel, list, []);
      tcb := list.Add(space);
      MatchedMore(old(list.tasks), spaces, tcb);
    }

    /** All tasks and spaces are new. */
    twostate predicate AllFresh()
      reads kernel, list
    {
      && (forall k :: 0 <= k < |list.tasks| ==>
            fresh(list.tasks[k]) && fresh(list.tasks[k].statistics) && fresh(list.tasks[k].statistics.counts))
      && (forall k :: 0 <= k < |kernel.spaces| ==> fresh(kernel.spaces[k]) && fresh(kernel.spaces[k].rootPgt))
    }

    /** The first `n` spaces start at the entry points of the programs. */
    ghost predicate AtEntries(apps: seq<App>, n: nat)
      requires n <= |apps|
      reads kernel, kernel.spaces
    {
      n == |kernel.spaces| && forall k :: 0 <= k < n ==> kernel.spaces[k].entryAddr == apps[k].entry
    }

    /** The first part of `start`: a task for every program. */
    method AddAll(apps: seq<App>) returns (ok: bool)
      requires Kept() && list.current.None? && list.CallsIn({}) && list.tasks == [] && kernel.spaces == []
               && AllLoadable(apps)
      modifies kernel, kernel.mem, kernel.alloc, list
      ensures ok ==> Kept() && list.current.None? && list.CallsIn({}) && |list.tasks| == |apps|
      ensures if ok then !AnyRefused(apps)
              else AnyRefused(apps) || old(kernel.alloc.Free()) < TotalPages(apps, |apps|)
      ensures ok ==> list.AllReady()
      ensures ok ==> AllFresh() && AllAdded(Now(), apps, |apps|) && AtEntries(apps, |apps|)
    {
      hide Kernel.Inv, Matched, Listed, PageAllocator.Live, PageAllocator.Free, ProgramRefused, ProgramPages,
        TotalPages, TaskList.Counted, TaskList.CallsIn, Kernel.Spaces, RemoveAt, Untouched, ProgramIn;
      NoPages(apps);
      NoneLoaded(Now(), apps);
      assert list.AllReady();
      hide AllAdded, Added, Machine.Now, SpaceOk, TaskList.AllReady;
      var n := 0;
      while n < |apps|
        invariant 0 <= n <= |apps| && Kept() && |list.tasks| == n && list.current.None? && list.CallsIn({})
        invariant kernel.alloc.Free() >= old(kernel.alloc.Free()) - TotalPages(apps, n)
        invariant forall a :: 0 <= a < n ==> !ProgramRefused(apps[a].segments)
        invariant list.AllReady()
        invariant AllFresh() && AllAdded(Now(), apps, n) && AtEntries(apps, n)
      {
        OneMoreApp(apps, n);
        ghost var c, tasks, spaces := Now(), list.tasks, kernel.spaces;
        SpacesOk(this);
        ok := AddTask(apps[n]);
        if !ok {
          return;
        }
        OneMoreProgram(c, Now(), apps, n);
        forall k | 0 <= k <= n
          ensures fresh(list.tasks[k]) && fresh(list.tasks[k].statistics) && fresh(list.tasks[k].statistics.counts)
        {
          assert k < n ==> list.tasks[k] == tasks[k];
        }
        forall k | 0 <= k <= n
          ensures fresh(kernel.spaces[k]) && fresh(kernel.spaces[k].rootPgt)
          ensures kernel.spaces[k].entryAddr == apps[k].entry
        {
          assert k < n ==> kernel.spaces[k] == spaces[k];
        }
        assert AllFresh() && AtEntries(apps, n + 1);
        hide Machine.AllFresh, Machine.AtEntries, Machine.NewTask;
        n := n + 1;
      }
      ok := true;
    }

    /** `start`; it panics where `ok` is false. */
    method StartTasks(apps: seq<App>, clock1: nat, clock2: nat) returns (ok: bool, o: Outcome)
      requires Kept() && list.current.None? && list.CallsIn({}) && list.tasks == [] && kernel.spaces == []
               && AllLoadable(apps)
      modifies kernel, kernel.mem, kernel.alloc, list
      ensures if ok then !AnyRefused(apps)
              else AnyRefused(apps) || old(kernel.alloc.Free()) < TotalPages(apps, |apps|)
      ensures ok ==> Kept() && |list.tasks| == |apps| && list.CallsIn({})
      ensures ok ==> o == (if apps == [] then ShutDown else Switched) && (apps != [] ==> Inv())
      ensures ok ==> AllFresh() && AppsLoaded(Now(), apps, |apps|) && AtEntries(apps, |apps|)
      ensures ok && apps != [] ==> IsCurrent(Now(), 0)
    {
      hide Kernel.Inv, Matched, Listed, PageAllocator.Live, PageAllocator.Free, TotalPages, AnyRefused, AllLoadable,
        TaskList.Counted, TaskList.CallsIn, TaskList.InUser, Kernel.Spaces, SwitchStep;
      o := Panicked;
      ok := AddAll(apps);
      if ok {
        ghost var c := Now();
        ghost var dropped, at;
        NothingCalled(list);
        assert list.Switching();
        hide TaskList.Switching;
        assert forall k :: 0 <= k < |list.tasks| ==> fresh(list.tasks[k]);
        o, dropped, at := Switch(clock1, clock2);
        FirstSwitch(c, Now(), o, dropped, at, clock1, clock2);
        if apps != [] {
          HasFirst(c.tasks);
          assert IsCurrent(Now(), 0);
        }
        forall k | 0 <= k < |list.tasks|
          ensures fresh(list.tasks[k]) && fresh(list.tasks[k].statistics) && fresh(list.tasks[k].statistics.counts)
        {
          assert list.tasks[k] in c.tasks;
          var j :| 0 <= j < |c.tasks| && c.tasks[j] == list.tasks[k];
        }
      }
    }

    /** `update_tcb` for the current task: where its space is. */
    function CurrentSpace(): (i: nat)
      requires Matched(list.tasks, kernel.spaces) && list.InUser()
      reads kernel, list, list.tasks
      ensures i < |kernel.spaces|
    {
      var k := PositionOf(list.tasks, list.current.value, 0);
      PositionOfSpace(kernel.spaces, list.tasks[k.value].vmSpace, 0)
    }

    lemma CurrentIs(i: nat)
      requires Inv() && IsCurrent(Now(), i)
      ensures CurrentSpace() == i
    {
      hide Kernel.Inv, RemoveAt, TaskList.Counted, TaskList.CallsIn;
      var k := PositionOf(list.tasks, list.current.value, 0);
      SpacesDiffer(kernel);
      var t :| t in list.tasks && list.current == Some(t.taskId) && t.vmSpace == kernel.spaces[i];
      OneTask(list.tasks, list.nextTaskId, t, list.tasks[k.value]);
    }

    /** Dropping a control block drops its space, and that gives back its pages. */
    method DropSpace(tcb: TaskControlBlock) returns (ghost at: nat)
      requires kernel.Inv() && list.Counted() && tcb.vmSpace in kernel.spaces
      modifies kernel, kernel.alloc
      ensures kernel.Inv() && list.Counted() && (forall ids :: old(list.CallsIn(ids)) ==> list.CallsIn(ids))
      ensures old(list.InUser()) ==> list.InUser()
      ensures list.Unique() == old(list.Unique()) && Dropped(old(Now()), Now(), tcb, at)
      ensures list.current == old(list.current)
    {
      hide Kernel.Inv, RemoveAt, TaskList.Counted, TaskList.CallsIn, TaskList.Calls, TaskList.InUser,
        PageAllocator.Live, Owned, Kernel.Spaces;
      var i := PositionOfSpace(kernel.spaces, tcb.vmSpace, 0);
      NotTables(kernel, list);
      ghost var c := Now();
      kernel.Exit(i);
      at := i;
      list.Unmoved();
      hide TaskList.Tables, Kernel.Roots;
    }

    /** `run_next_task`; the space of a task that was dropped gives back its pages. */
    method Switch(clock1: nat, clock2: nat) returns (o: Outcome, ghost dropped: Option<TaskControlBlock>, ghost at: nat)
      requires Kept() && list.Switching() && list.CallsIn(KNOWN)
      modifies kernel, kernel.alloc, list, list.tasks
      ensures Kept() && (o == Switched ==> Inv()) && forall ids :: old(list.CallsIn(ids)) ==> list.CallsIn(ids)
      ensures SwitchStep(old(Now()), Now(), o, dropped, at, clock1, clock2)
              && (dropped.Some? <==> old(list.Terminated()))
      ensures old(list.current).None? && o == Switched ==>
                old(list.tasks) != [] && list.current == Some(old(list.tasks)[0].taskId)
    {
      hide Kernel.Inv, TaskList.InUser, TaskList.Switching, TaskList.Terminated, TaskList.Counted, TaskList.CallsIn,
        TaskList.Called, Matched, RemoveAt, Listed, CallsGrow, PageAllocator.Free, PageAllocator.Live, Kernel.Spaces,
        TaskList.Calls, Rotates;
      ghost var c, nextTaskId := Now(), list.nextTaskId;
      SpacesDiffer(kernel);
      hide Apart, SwitchStep;
      NotRoots(kernel, list, list.tasks);
      NotTables(kernel, list);
      at := 0;
      var next, gone := list.RunNextTask(clock1, clock2);
      dropped := gone;
      o := if next.Some? then Switched else ShutDown;
      assert kernel.Inv();
      TablesStay();
      ghost var c1 := Now();
      assert c1.tasks == list.tasks && SameSpaces(c, c1);
      hide Kernel.Roots, TaskList.Tables, Dropped;
      if gone.Some? {
        MatchedHas(c.tasks, kernel.spaces, gone.value);
        at := DropSpace(gone.value);
        SwitchDone(c, c1, Now(), dropped, at, clock1, clock2);
        DroppedMatched(c.tasks, list.tasks, gone.value, nextTaskId, c.spaces, at);
      } else {
        MatchedPermuted(c.tasks, list.tasks, kernel.spaces);
        SwitchDone(c, c1, c1, dropped, at, clock1, clock2);
      }
    }

    /** `sleep_task`, `kill_task`, or the first part of `sys_exit` and `sys_yield`, and then
        `run_next_task`.  The current task is Running, so the exchange never fails. */
    method Leave(state: TaskState, inputs: Inputs, ghost i: nat) returns (o: Outcome)
      requires Inv() && IsCurrent(Now(), i) && state != Running
      modifies kernel, kernel.alloc, list, list.tasks
      ensures Kept() && (o == Switched ==> Inv()) && (o.Switched? || o.ShutDown?)
      ensures Around(old(Now()), Now(), i, o, [], state != Ready, inputs)
      ensures state == Ready ==> SameSpaces(old(Now()), Now())
    {
      hide Kernel.Inv, Matched, RemoveAt, Listed, Untouched, TaskList.Counted, TaskList.CallsIn, CallsGrow,
        PageAllocator.Free, PageAllocator.Live, Kernel.Spaces, Rotates;
      ghost var c := Now();
      NotRoots(kernel, list, list.tasks);
      NotTables(kernel, list);
      ghost var t :| t in list.tasks && t.taskId == list.current.value;
      var exchanged := list.ExchangeCurrentTaskState(Running, state);
      assert exchanged == Exchanged(Running);  // otherwise the source panics
      assert kernel.Inv() && list.Switching();
      TablesStay();
      assert Now().calls == c.calls;
      assert Now() == c && c.current == list.current && c.tasks == list.tasks;
      assert t.state == state && list.current == Some(t.taskId);
      assert list.Terminated() <==> state != Ready;
      SpacesDiffer(kernel);
      hide Machine.Now, SwitchStep, Around, SameSpaces;
      ghost var nextTaskId := list.nextTaskId;
      ghost var dropped, at;
      hide TaskList.Switching, TaskList.InUser, TaskList.Terminated;
      o, dropped, at := Switch(inputs.clock1, inputs.clock2);
      SwitchIsAround(c, Now(), o, dropped, at, i, nextTaskId, inputs);
    }

    /** `mmap` and `munmap` of the task whose space is at `i`. */
    method MapCall(trap: Trap, inputs: Inputs, ghost i: nat) returns (o: Outcome)
      requires Inv() && IsCurrent(Now(), i) && trap.EnvironmentCall? && Fits(trap, inputs)
      requires trap.id == SYSCALL_MMAP || trap.id == SYSCALL_MUNMAP
      modifies kernel.mem, kernel.alloc, kernel.spaces[i]
      ensures Inv() && (o.Resumed? || o.Panicked?)
      ensures Around(old(Now()), Now(), i, o, [], false, inputs)
      ensures SyscallEffect(old(Now()), Now(), trap, inputs, i, o, [], 0)
    {
      hide Kernel.Inv, Machine.CurrentSpace, Matched, RemoveAt, Listed, TaskList.InUser, OthersUntouched, CellAt,
        UserByte, PageAllocator.Free, PageAllocator.Live, CheckUVaRange, MmapEffect, MunmapEffect, TaskList.Counted,
        TaskList.CallsIn, TaskList.Calls, Around, CallsGrow, MmapAccepts, MunmapSplits;
      NotTables(kernel, list);
      ghost var c := Now();
      HasTask(this);
      CurrentIs(i);
      var at := CurrentSpace();
      var r;
      if trap.id == SYSCALL_MMAP {
        r := kernel.Mmap(at, trap.a0, trap.a1, trap.a2, inputs.grows);
      } else {
        r := kernel.Munmap(at, trap.a0, trap.a1, inputs.grows);
      }
      o := if r.Some? then Resumed(r) else Panicked;
      TablesStay();
      KernelIsAround(c, Now(), i, o, inputs);
      assert r.None? ==> Now().ss == c.ss;
    }

    /** `write` and `task_info` of the task whose space is at `i`. */
    method CopyCall(trap: Trap, inputs: Inputs, ghost i: nat) returns (o: Outcome, out: seq<byte>, ghost copied: nat)
      requires Inv() && IsCurrent(Now(), i) && trap.EnvironmentCall? && Fits(trap, inputs)
      requires trap.id == SYSCALL_WRITE || trap.id == SYSCALL_TASK_INFO
      modifies kernel.mem, kernel.alloc, kernel.spaces[i], kernel.spaces[i].rootPgt
      ensures Inv() && (o.Resumed? || o.Panicked?)
      ensures Around(old(Now()), Now(), i, o, [], false, inputs)
      ensures SyscallEffect(old(Now()), Now(), trap, inputs, i, o, out, copied)
    {
      hide Kernel.Inv, Machine.CurrentSpace, Matched, RemoveAt, Listed, TaskList.InUser, OthersUntouched, CellAt,
        UserByte, PageAllocator.Free, PageAllocator.Live, CheckUVaRange, WriteEffect, InfoEffect, TaskList.Counted,
        TaskList.CallsIn, TaskList.Calls, Around, CallsGrow, OnlyFilled, WritePages, Pages;
      NotTables(kernel, list);
      ghost var c := Now();
      HasTask(this);
      CurrentIs(i);
      var at := CurrentSpace();
      out, copied := [], 0;
      if trap.id == SYSCALL_WRITE {
        var r;
        r, out := SysWrite(kernel, at, trap.a0, trap.a1, trap.a2, inputs.heap);
        o := if r.Some? then Resumed(r) else Panicked;
      } else {
        var found := PositionOf(list.tasks, trap.a0, 0);
        var r;
        r, copied := SysTaskInfo(kernel, at, found.Some?, inputs.info, inputs.stack, trap.a1);
        o := Resumed(Some(r));
      }
      TablesStay();
      KernelIsAround(c, Now(), i, o, inputs);
    }

    /** `syscall_handler` for the known system calls; `i` is the position of the caller's space. */
    method Syscall(trap: Trap, inputs: Inputs, ghost i: nat) returns (o: Outcome, out: seq<byte>, ghost copied: nat)
      requires Inv() && IsCurrent(Now(), i) && trap.EnvironmentCall? && KnownSyscall(trap.id) && Fits(trap, inputs)
      modifies kernel, kernel.mem, kernel.alloc, kernel.spaces, kernel.Roots(), list, list.tasks
      ensures Kept() && (Goes(o) ==> Inv())
      ensures Around(old(Now()), Now(), i, o, [], trap.id == SYSCALL_EXIT, inputs)
      ensures SyscallEffect(old(Now()), Now(), trap, inputs, i, o, out, copied)
    {
      hide Kernel.Inv, Matched, Listed, TaskList.InUser, TaskList.Counted, TaskList.CallsIn, Around, WriteEffect,
        MmapEffect, MunmapEffect, InfoEffect, Fits;
      ghost var c := Now();
      assert i < |kernel.spaces|;
      hide Machine.Now;
      HasTask(this);
      out, copied := [], 0;
      if trap.id == SYSCALL_EXIT {
        o := Leave(Exited, inputs, i);
      } else if trap.id == SYSCALL_YIELD {
        o := Leave(Ready, inputs, i);
        YieldSwitches(c, Now(), i, o, inputs);
      } else if trap.id == SYSCALL_MMAP || trap.id == SYSCALL_MUNMAP {
        o := MapCall(trap, inputs, i);
      } else {
        o, out, copied := CopyCall(trap, inputs, i);
      }
    }

    /** `record_current_syscall`. */
    method RecordCall(id: nat, ghost i: nat)
      requires Inv() && IsCurrent(Now(), i)
      modifies list.Tables()
      ensures Kept() && list.InUser() && (KnownSyscall(id) ==> list.CallsIn(KNOWN))
      ensures Now() == old(Now()).(calls := Now().calls) && CallsGrow(old(Now()), Now(), Now().current, [id])
    {
      hide Kernel.Inv, Matched, Listed, TaskList.Counted, PageAllocator.Free, PageAllocator.Live, Kernel.Spaces,
        RemoveAt, Untouched, Rotates;
      NotRoots(kernel, list, list.tasks);
      NotTables(kernel, list);
      var recorded := list.RecordCurrentSyscall(id);
    }

    /** The environment-call arm of `u_trap_handler`. */
    method HandleCall(trap: Trap, inputs: Inputs, ghost i: nat) returns (o: Outcome, out: seq<byte>, ghost copied: nat)
      requires Inv() && IsCurrent(Now(), i) && trap.EnvironmentCall? && Fits(trap, inputs)
      modifies kernel, kernel.mem, kernel.alloc, kernel.spaces, kernel.Roots(), list, list.tasks, list.Tables()
      ensures Kept() && (Goes(o) ==> Inv())
      ensures TrapStep(old(Now()), Now(), trap, inputs, i, o, out, trap.id == SYSCALL_EXIT, copied)
    {
      hide Kernel.Inv, Matched, Listed, SyscallEffect, TaskList.Counted, TaskList.CallsIn, TaskList.InUser, CallsGrow,
        Fits, Around, IsCurrent, TrapStep, Kernel.Spaces, ViewAt, PageAllocator.Free;
      ghost var c := Now();
      RecordCall(trap.id, i);
      ghost var c1 := Now();
      assert kernel.spaces == c.spaces && list.tasks == c.tasks;
      OneCall(c, c1, i, trap.id, inputs);
      hide Machine.Now;
      if !KnownSyscall(trap.id) {
        o, out, copied := Panicked, [], 0;
        CallPanics(c, c1, trap, inputs, i);
      } else {
        o, out, copied := Syscall(trap, inputs, i);
        CallIsTrap(c, c1, Now(), trap, inputs, i, o, out, copied);
      }
    }

    /** The two page-fault arms of `u_trap_handler`. */
    method HandleFault(store: bool, stval: nat, inputs: Inputs, ghost i: nat)
      returns (o: Outcome, ghost terminated: bool)
      requires Inv() && IsCurrent(Now(), i) && CheckUVa(stval) && !Granted(ViewAt(Now(), i), stval, store)
      modifies kernel, kernel.mem, kernel.alloc, kernel.spaces, kernel.Roots(), list, list.tasks
      ensures Kept() && (Goes(o) ==> Inv())
      ensures TrapStep(old(Now()), Now(), PageFault(store, stval), inputs, i, o, [], terminated, 0)
      ensures !terminated ==> kernel.spaces == old(kernel.spaces) && list.tasks == old(list.tasks)
    {
      hide Kernel.Inv, Machine.CurrentSpace, Matched, RemoveAt, Listed, TaskList.InUser, OthersUntouched, Grants,
        CellAt, ReadsKept, PageAllocator.Free, PageAllocator.Live, Refusable, FaultOutcome, FilledWithZeros,
        OutOfPages, Translate, Needed, TaskList.Counted, TaskList.CallsIn, TaskList.Calls, Around, CallsGrow,
        TrapStep, OnlyFilled;
      ghost var c := Now();
      NotRoots(kernel, list, list.tasks);
      NotTables(kernel, list);
      HasTask(this);
      CurrentIs(i);
      var at := CurrentSpace();
      NeedsReadOrWrite(store);
      var handled := kernel.PageFault(at, stval, Needed(store));
      FaultNeedsArea(CellAt(c.ss[i].areas, VpnFromVa(stval)), VpnFromVa(stval), Needed(store), handled);
      assert list.InUser();
      TablesStay();
      ghost var c1 := Now();
      KernelIsAround(c, c1, i, Resumed(None), inputs);
      if handled.Done? {
        FilledPermissions(c.ss[i].areas, c1.ss[i].areas, VpnFromVa(stval), c1.w.frames);
        FaultIsTrap(c, c1, store, stval, inputs, i);
        return Resumed(None), false;
      }
      assert IsCurrent(c1, i);
      o := Leave(Killed, inputs, i);
      KillIsTrap(c, c1, Now(), store, stval, inputs, i, o);
      terminated := true;
    }

    /** `u_trap_handler`.  A page fault is an access that the hardware has not granted. */
    method UTrap(trap: Trap, inputs: Inputs, ghost i: nat)
      returns (o: Outcome, out: seq<byte>, ghost terminated: bool, ghost copied: nat)
      requires Inv() && IsCurrent(Now(), i) && Fits(trap, inputs)
      requires trap.PageFault? && CheckUVa(trap.stval) ==> !Granted(ViewAt(Now(), i), trap.stval, trap.store)
      modifies kernel, kernel.mem, kernel.alloc, kernel.spaces, kernel.Roots(), list, list.tasks, list.Tables()
      ensures Kept() && (Goes(o) ==> Inv())
      ensures TrapStep(old(Now()), Now(), trap, inputs, i, o, out, terminated, copied)
      ensures trap.PageFault? && o.Resumed? ==> kernel.spaces == old(kernel.spaces) && list.tasks == old(list.tasks)
    {
      hide Kernel.Inv, Machine.CurrentSpace, Matched, RemoveAt, Listed, TaskList.InUser, Untouched,
        PageAllocator.Free, PageAllocator.Live, TaskList.Counted, TaskList.CallsIn, TaskList.Calls, Around, TrapStep,
        Granted, Kernel.Spaces, IsCurrent, Fits;
      ghost var c := Now();
      HasTask(this);
      out, copied := [], 0;
      match trap {
        case TimerInterrupt =>
          o := Leave(Ready, inputs, i);
          terminated := false;
          LeaveIsTrap(c, Now(), trap, inputs, i, o, terminated);
        case EnvironmentCall(id, _, _, _) =>
          o, out, copied := HandleCall(trap, inputs, i);
          terminated := id == SYSCALL_EXIT;
        case PageFault(store, stval) =>
          if CheckUVa(stval) {
            o, terminated := HandleFault(store, stval, inputs, i);
            NotResumed(c, Now(), trap, inputs, i, o, terminated);
          } else {
            o, terminated := Panicked, false;
            NothingIsTrap(c, trap, inputs, i);
          }
        case IllegalInstruction =>
          o := Leave(Killed, inputs, i);
          terminated := true;
          LeaveIsTrap(c, Now(), trap, inputs, i, o, terminated);
        case InstructionPageFault =>
          o := Leave(Killed, inputs, i);
          terminated := true;
          LeaveIsTrap(c, Now(), trap, inputs, i, o, terminated);
        case Unexpected =>
          o, terminated := Panicked, false;
          NothingIsTrap(c, trap, inputs, i);
      }
    }

    /** A load or store of user code.  If the hardware does not grant it, the handler runs, and
        then the same instruction runs again or the task is gone. */
    method UserAccess(va: nat, store: bool, value: byte, inputs: Inputs, ghost i: nat)
      returns (o: Outcome, r: Option<byte>)
      requires Inv() && IsCurrent(Now(), i) && CheckUVa(va)
      modifies kernel, kernel.mem, kernel.alloc, kernel.spaces, kernel.Roots(), list, list.tasks, list.Tables()
      ensures Kept() && (Goes(o) ==> Inv())
      ensures AccessStep(old(Now()), Now(), va, store, value, i, o, r, inputs)
    {
      hide Kernel.Inv, Machine.CurrentSpace, Matched, RemoveAt, Listed, TaskList.InUser, OthersUntouched, Grants,
        CellAt, ReadsKept, PageAllocator.Free, PageAllocator.Live, Translate, Needed, UserByte, Refused,
        TaskList.Counted, TaskList.CallsIn, TaskList.Calls, Around, CallsGrow, TrapStep, AccessStep, OwnFilled;
      ghost var c := Now();
      NotRoots(kernel, list, list.tasks);
      NotTables(kernel, list);
      HasTask(this);
      CurrentIs(i);
      var at := CurrentSpace();
      r := kernel.TryAccess(at, va, store, value, Needed(store));
      assert list.InUser();
      TablesStay();
      if r.Some? {
        KernelIsAround(c, Now(), i, Resumed(None), inputs);
        AroundItself(c, i, inputs);
        ReadsSame(c.w, c.ss[i].pgt.root);
        OwnItself(c, i);
        AccessGranted(c, c, Now(), va, store, value, i, r.value, inputs);
        return Resumed(None), r;
      }
      assert Now() == c;
      ghost var terminated, copied;
      var out;
      o, out, terminated, copied := UTrap(PageFault(store, va), inputs, i);
      ghost var c1 := Now();
      FaultMeans(c, c1, store, va, inputs, i, o, out, terminated, copied, value);
      if o.Resumed? {
        NotRoots(kernel, list, list.tasks);
        NotTables(kernel, list);
        label Served:
        r := kernel.TryAccess(at, va, store, value, Needed(store));
        TablesStay@Served();
        KernelIsAround(c1, Now(), i, Resumed(None), inputs);
        AccessGranted(c, c1, Now(), va, store, value, i, r.value, inputs);
      }
    }

    /** Any run of user code, up to a shutdown or a panic; steps that cannot happen are skipped.
        The trace says what it was at every moment, and each two neighbours are a step. */
    method Run(steps: seq<(Steps.Step, Inputs)>)
      returns (o: Outcome, console: seq<byte>, ghost trace: seq<Config>, ghost events: seq<Event>)
      requires Inv()
      modifies kernel, kernel.mem, kernel.alloc, kernel.spaces, kernel.Roots(), list, list.tasks, list.Tables()
      ensures Kept() && (Goes(o) ==> Inv())
      ensures IsRun(trace, events, steps) && trace[0] == old(Now()) && trace[|events|] == Now()
              && console == Printed(events)
      ensures if o.Resumed? || o.Switched? then |events| == |steps| else EndsWith(events, o)
      ensures forall n :: 0 <= n < |trace| ==> Sound(kernel.k, kernel.alloc.Managed(), trace[n])
      ensures o.ShutDown? ==> kernel.spaces == [] && kernel.alloc.Live() == kernel.k.own
    {
      hide Kernel.Inv, Matched, TaskList.InUser, Listed, TaskList.Counted, TaskList.CallsIn, TaskList.Calls,
        AccessStep, TrapStep, Granted, Fits, IsCurrent, Kernel.Spaces, PageAllocator.Live, PageAllocator.Free,
        Printed, Sound, StepOf, IsRun, Machine.Now;
      SoundNow(this);
      o, console := Resumed(None), [];
      trace, events := [Now()], [];
      EmptyRun(Now(), steps);
      var n := 0;
      while n < |steps| && Goes(o)
        invariant 0 <= n == |events| <= |steps| && |trace| == n + 1 && Kept() && (Goes(o) ==> Inv())
        invariant IsRun(trace, events, steps) && trace[0] == old(Now()) && trace[n] == Now()
                  && console == Printed(events)
        invariant if Goes(o) then forall k :: 0 <= k < n ==> GoesOn(events[k]) else EndsWith(events, o)
        invariant forall k :: 0 <= k < |trace| ==> Sound(kernel.k, kernel.alloc.Managed(), trace[k])
        invariant forall s :: s in kernel.spaces ==> s in old(kernel.spaces)
        invariant forall t :: t in list.tasks ==> t in old(list.tasks)
      {
        var (step, inputs) := steps[n];
        ghost var c, e := Now(), Skipped;
        NowIs(this);
        if !Possible(step, inputs) {
          SkipsStep(c, step, inputs);
        } else {
          ghost var i := CurrentExists(this);
          assert forall k :: 0 <= k < |kernel.spaces| ==> kernel.spaces[k] in old(kernel.spaces);
          assert forall k :: 0 <= k < |list.tasks| ==> list.tasks[k] in old(list.tasks);
          match step {
            case Access(va, store, value) =>
              var r;
              o, r := UserAccess(va, store, value, inputs, i);
              e := Stepped(i, o, [], r.None?, r, 0);
              AccessIsStep(c, Now(), step, inputs, i, o, r);
            case Trapped(trap) =>
              var out;
              ghost var terminated, copied;
              o, out, terminated, copied := UTrap(trap, inputs, i);
              console := console + out;
              e := Stepped(i, o, out, terminated, None, copied);
              TrapIsStep(c, Now(), step, inputs, e);
          }
        }
        SoundNow(this);
        NoneAdded(this, c, step, inputs, e);
        RunNext(trace, events, steps, Now(), e);
        trace, events := trace + [Now()], events + [e];
        n := n + 1;
      }
      if o.ShutDown? {
        LastStep(trace, events, steps);
        NowIs(this);
        AllGivenBack(this);
      }
    }
  }

  function TotalPages(apps: seq<App>, n: nat): nat
    requires n <= |apps|
  {
    if n == 0 then 0 else TotalPages(apps, n - 1) + ProgramPages(apps[n - 1].segments)
  }

  lemma {:induction false} TotalGrows(apps: seq<App>, n: nat)
    requires n <= |apps|
    ensures TotalPages(apps, n) <= TotalPages(apps, |apps|)
    decreases |apps| - n
  {
    hide ProgramPages;
    if n < |apps| {
      TotalGrows(apps, n + 1);
    }
  }

  /** Some program can never be loaded, however many pages are free. */
  ghost predicate AnyRefused(apps: seq<App>) {
    exists a :: 0 <= a < |apps| && ProgramRefused(apps[a].segments)
  }

  /** What the headers of the programs are expected to be. */
  predicate AllLoadable(apps: seq<App>) {
    forall a, j :: 0 <= a < |apps| && 0 <= j < |apps[a].segments| && apps[a].segments[j].load ==>
      apps[a].segments[j].Loadable(apps[a].elf) && apps[a].segments[j].BelowStack()
  }

  /** `rust_main` after the tables of the boot loader: memory, the tasks, and the first switch.
      Where this returns `None` the source panics. */
  method Start(mem: PhysMem, image: Image, apps: seq<App>, clock1: nat, clock2: nat)
    returns (r: Option<Machine>, o: Outcome)
    requires mem.Valid() && ImageOk(image) && AllLoadable(apps)
    modifies mem
    ensures r.Some? ==> forall a :: 0 <= a < |apps| ==> !ProgramRefused(apps[a].segments)
    ensures r.None? ==>
              || (exists a :: 0 <= a < |apps| && ProgramRefused(apps[a].segments))
              || ManagedPages(image) < 160 + TotalPages(apps, |apps|)
    ensures r.None? ==> o == Panicked
    ensures r.Some? ==>
              o == (if apps == [] then ShutDown else Switched) && r.value.Kept() && (apps != [] ==> r.value.Inv())
    ensures r.Some? ==> r.value.kernel.mem == mem && |r.value.list.tasks| == |apps| && r.value.list.CallsIn({})
    ensures r.Some? ==> AppsLoaded(r.value.Now(), apps, |apps|) && r.value.AtEntries(apps, |apps|)
    ensures r.Some? && apps != [] ==> IsCurrent(r.value.Now(), 0)
    ensures r.Some? ==> fresh(r.value) && fresh(r.value.kernel) && fresh(r.value.kernel.alloc) && fresh(r.value.list)
    ensures r.Some? ==> fresh(r.value.kernel.spaces) && fresh(r.value.kernel.Roots())
    ensures r.Some? ==> fresh(r.value.list.tasks) && fresh(r.value.list.Tables())
  {
    hide Kernel.Inv, Matched, Listed, TaskList.InUser, ProgramIn, Untouched, PageAllocator.Live, PageAllocator.Free,
      Views, ImageOk, TotalPages, ProgramRefused, ProgramPages, FirstUnusedPpn, TaskList.Counted, TaskList.CallsIn,
      ManagedPages, Kernel.Spaces;
    o := Panicked;
    ImageBounds(image);
    NoPages(apps);
    var booted, alloc, satp := Kernel.Boot(mem, image);
    if booted.None? {
      return None, o;
    }
    var list := new TaskList();
    NotRoots(booted.value, list, []);
    assert booted.value.Inv();
    var machine := new Machine(booted.value, list);
    StartsEmpty(machine);
    assert machine.kernel.Inv();
    var added;
    added, o := machine.StartTasks(apps, clock1, clock2);
    if !added {
      return None, Panicked;
    }
    return Some(machine), o;
  }

  /** A whole life of the machine, from the boot loader's memory on. */
  method Live(mem: PhysMem, image: Image, apps: seq<App>, clock1: nat, clock2: nat, steps: seq<(Steps.Step, Inputs)>)
    returns (r: Option<Machine>, o: Outcome, console: seq<byte>, ghost trace: seq<Config>, ghost events: seq<Event>)
    requires mem.Valid() && ImageOk(image) && AllLoadable(apps)
    modifies mem
    ensures r.Some? ==> forall a :: 0 <= a < |apps| ==> !ProgramRefused(apps[a].segments)
    ensures r.None? ==>
              || (exists a :: 0 <= a < |apps| && ProgramRefused(apps[a].segments))
              || ManagedPages(image) < 160 + TotalPages(apps, |apps|)
    ensures r.None? ==> o == Panicked && console == []
    ensures r.Some? ==> r.value.Kept() && (Goes(o) ==> r.value.Inv())
    ensures r.Some? ==> IsRun(trace, events, steps) && trace[|events|] == r.value.Now() && console == Printed(events)
    ensures r.Some? ==>
              forall n :: 0 <= n < |trace| ==> Sound(r.value.kernel.k, r.value.kernel.alloc.Managed(), trace[n])
    ensures r.Some? ==> AppsLoaded(trace[0], apps, |apps|) && (apps != [] ==> IsCurrent(trace[0], 0))
    ensures r.Some? ==> |trace[0].spaces| == |apps|
    ensures r.Some? ==>
              |trace[0].tasks| == |apps|
                  && forall t :: t in trace[0].tasks ==> t in trace[0].calls && trace[0].calls[t] == []
    ensures r.Some? ==>
              if apps == [] then o == ShutDown && events == []
              else if o.Resumed? || o.Switched? then |events| == |steps|
              else EndsWith(events, o)
    ensures r.Some? && o.ShutDown? ==>
              r.value.kernel.spaces == [] && r.value.kernel.alloc.Live() == r.value.kernel.k.own
  {
    hide Kernel.Inv, Matched, Listed, TaskList.InUser, ImageOk, Views, PageAllocator.Live, PageAllocator.Free,
      TaskList.Counted, IsRun, Printed, Kernel.Spaces, Sound, IsCurrent;
    trace, events, console := [], [], [];
    r, o := Start(mem, image, apps, clock1, clock2);
    if r.None? {
      return;
    }
    ghost var c := r.value.Now();
    NoCallsYet(r.value);
    SoundNow(r.value);
    hide Machine.Now;
    if o.ShutDown? {
      EmptyRun(c, steps);
      trace := [c];
      AllGivenBack(r.value);
    } else {
      o, console, trace, events := r.value.Run(steps);
    }
  }

  /** Area `a` holds page `p` for page number `v`, with permissions that give `flags`. */
  predicate Holds(a: VMArea, v: nat, p: nat, flags: nat) {
    a.Contains(v) && v in a.pages && a.pages[v] == p && a.permissions + FLAG_V == flags
        && (HasR(a.permissions) || HasX(a.permissions))
  }

  /** What every reachable state says about the memory of the task whose space is at `i`. */
  lemma ReachableMemory(m: Machine, i: nat)
    requires m.Kept() && i < |m.kernel.spaces|
    ensures var t, root, areas := m.kernel.mem.tables, m.kernel.spaces[i].rootPgt.ppn, m.kernel.spaces[i].areas;
            // the lower half is exactly the areas, and at most one area holds a page number
            && (forall v: nat, p, flags :: v < LOWER_END ==>
                  (Translate(t, root, v) == Hit(p, flags) <==>
                      exists a :: 0 <= a < |areas| && Holds(areas[a], v, p, flags)))
            && (forall v: nat, a, b ::
                0 <= a < |areas| && 0 <= b < |areas| && areas[a].Contains(v) && areas[b].Contains(v) ==> a == b)
            // the upper half is the kernel's
            && (forall v :: IsUpper(v) ==> Translate(t, root, v) == Expected(Regions(m.kernel.image), 12, v))
            // so every page that can be allocated is readable and writable for the kernel
            && (forall p: nat :: FirstUnusedPpn(m.kernel.image.kernelEnd) <= p < 0x8_8000 ==>
                  var hit := Translate(t, root, (p * 4096 + 0xffff_ffc0_0000_0000) / 4096);
                  hit.Hit? && hit.ppn == p && hit.flags / 2 % 2 == 1 && hit.flags / 4 % 2 == 1)
  {
    hide SpaceOk, HasStop, PgtOk, KernelOnly, Partitioned, SeesKernel, ImageOk, AllUser, Views, PageAllocator.Valid,
      Translate, Expected, Regions, HasR, HasX;
    var w, k, ss := m.kernel.Now(), m.kernel.k, m.kernel.Spaces();
    var t, root, areas := m.kernel.mem.tables, m.kernel.spaces[i].rootPgt.ppn, m.kernel.spaces[i].areas;
    assert SystemOk(w, k, ss) && ss[i] == m.kernel.spaces[i].Snap();
    ImageBounds(m.kernel.image);
    hide SystemOk;
    forall v: nat, p, flags | v < LOWER_END
      ensures Translate(t, root, v) == Hit(p, flags) <==> exists a :: 0 <= a < |areas| && Holds(areas[a], v, p, flags)
    {
      TranslatedIffHeld(w, k, ss, i, v, p, flags);
    }
    OneArea(w, k, ss, i);
    forall v | IsUpper(v) ensures Translate(t, root, v) == Expected(Regions(m.kernel.image), 12, v) {
      UpperIsKernels(w, k, ss, i, v);
    }
    forall p: nat | FirstUnusedPpn(m.kernel.image.kernelEnd) <= p < 0x8_8000
      ensures var hit := Translate(t, root, (p * 4096 + 0xffff_ffc0_0000_0000) / 4096);
              hit.Hit? && hit.ppn == p && hit.flags / 2 % 2 == 1 && hit.flags / 4 % 2 == 1
    {
      LinearEverywhere(w, k, ss, i, m.kernel.image, p);
    }
  }

  /** In every reachable state, whichever task runs, the kernel's stack, data, bss, devices and free
      memory are readable and writable and not executable, its text is readable and executable, its
      constants are readable only, each at its address minus the offset and for the kernel alone; and
      nothing else of the upper half is translated. */
  lemma ReachableKernel(m: Machine, i: nat, va: nat)
    requires m.Kept() && i < |m.kernel.spaces| && 0xffff_ffc0_0000_0000 <= va < 0x1_0000_0000_0000_0000
    ensures var (hit, image) := (Translate(m.kernel.mem.tables, m.kernel.spaces[i].rootPgt.ppn, va / 4096),
                                 m.kernel.image);
            if image.textStart <= va < image.textEnd then Linear(hit, va, true, false, true)
            else if image.rodataStart <= va < image.rodataEnd then Linear(hit, va, true, false, false)
            else if || image.stackStart <= va < image.stackEnd || image.dataStart <= va < image.dataEnd
                    || image.bssStart <= va < image.bssEnd || IsDevice(va - 0xffff_ffc0_0000_0000)
                    || InFreeMemory(image, va)
                 then Linear(hit, va, true, true, false)
            else hit == Fault
  {
    hide SpaceOk, HasStop, PgtOk, KernelOnly, Partitioned, SeesKernel, ImageOk, AllUser, Views, PageAllocator.Valid,
      Translate, Expected, Regions, Linear, IsDevice, InFreeMemory;
    assert SystemOk(m.kernel.Now(), m.kernel.k, m.kernel.Spaces()) && m.kernel.Spaces()[i] == m.kernel.spaces[i].Snap();
    ImageBounds(m.kernel.image);
    AddressFields(va);
    hide SystemOk;
    UpperIsKernels(m.kernel.Now(), m.kernel.k, m.kernel.Spaces(), i, va / 4096);
    KernelIsMapped(m.kernel.image, m.kernel.mem.tables, m.kernel.kernelRoot, va);
  }

  lemma ImageBounds(image: Image)
    requires ImageOk(image)
    ensures KERNEL_VA_OFFSET <= image.kernelEnd
  {
  }

  lemma TranslatedIffHeld(w: World, k: Pgt, ss: seq<Space>, i: nat, v: nat, p: nat, flags: nat)
    requires SystemOk(w, k, ss) && i < |ss| && v < LOWER_END
    ensures Translate(w.tables, ss[i].pgt.root, v) == Hit(p, flags) <==>
              exists a :: 0 <= a < |ss[i].areas| && Holds(ss[i].areas[a], v, p, flags)
  {
    hide SystemOk, Translate, HasR, HasX;
    SpacesAreTheirAreas(w, k, ss, i, v, p, flags);
    OneArea(w, k, ss, i);
    if a :| 0 <= a < |ss[i].areas| && Holds(ss[i].areas[a], v, p, flags) {
      assert ss[i].areas[a].Contains(v);
    }
  }

  lemma OneArea(w: World, k: Pgt, ss: seq<Space>, i: nat)
    requires SystemOk(w, k, ss) && i < |ss|
    ensures forall v: nat, a, b ::
              (0 <= a < |ss[i].areas| && 0 <= b < |ss[i].areas|
               && ss[i].areas[a].Contains(v) && ss[i].areas[b].Contains(v)) ==> a == b
  {
    SystemMeans(w, k, ss, i);
    hide SystemOk;
    OwnParts(w, ss[i]);
  }

  /** In every reachable state the table of each task counts every call that it has made: there
      are no more system calls than the table has slots. */
  lemma TablesComplete(m: Machine, t: TaskControlBlock)
    requires m.Inv() && t in m.list.tasks
    ensures var (slots, calls) := (t.statistics.counts[..], t.statistics.history);
            && |slots| == 6
            && (forall x :: x in calls ==> exists k :: 0 <= k < 6 && slots[k] == (x, multiset(calls)[x]))
            && (forall k :: 0 <= k < 6 && slots[k].1 > 0 ==> slots[k].0 in calls)
  {
    hide Kernel.Inv, Matched;
    FewIdsComplete(t.statistics.history, KNOWN);
  }

  /** Whenever user code runs, one listed task is Running and it is the current one, all others are
      Ready, and each task has one of the spaces to itself. */
  lemma OneRuns(m: Machine)
    requires m.Inv()
    ensures exists t :: t in m.list.tasks && t.state == Running && m.list.current == Some(t.taskId)
    ensures forall t :: t in m.list.tasks && m.list.current != Some(t.taskId) ==> t.state == Ready
    ensures forall a, b :: 0 <= a < b < |m.list.tasks| ==>
              m.list.tasks[a].taskId != m.list.tasks[b].taskId && m.list.tasks[a].vmSpace != m.list.tasks[b].vmSpace
    ensures forall t :: t in m.list.tasks ==> t.vmSpace in m.kernel.spaces
    ensures forall s :: s in m.kernel.spaces ==> exists t :: t in m.list.tasks && t.vmSpace == s
  {
    hide Kernel.Inv, TaskList.Counted, TaskList.CallsIn;
    var t :| t in m.list.tasks && t.taskId == m.list.current.value;
    assert t.state == Running;
  }

  lemma SoundNow(m: Machine)
    requires m.Kept()
    ensures Sound(m.kernel.k, m.kernel.alloc.Managed(), m.Now())
  {
    FreeAndLive(m.kernel.alloc);
    SpacesDiffer(m.kernel);
    hide SystemOk, LinearMap, ImageOk, AllUser, Views, PageAllocator.Valid, PageAllocator.Live, Lists, Matched, Apart,
      TaskList.Counted;
  }

  lemma StartsEmpty(m: Machine)
    requires m.kernel.spaces == [] && m.list.tasks == [] && m.list.nextTaskId == 1
    ensures Matched(m.list.tasks, m.kernel.spaces) && m.list.Unique() && m.list.Counted() && m.list.CallsIn({})
  {
  }

  lemma CurrentExists(m: Machine) returns (i: nat)
    requires m.Inv()
    ensures IsCurrent(m.Now(), i)
  {
    hide Kernel.Inv;
    var t :| t in m.list.tasks && t.taskId == m.list.current.value;
    i :| 0 <= i < |m.kernel.spaces| && m.kernel.spaces[i] == t.vmSpace;
  }

  lemma HasFirst<T>(s: seq<T>)
    ensures s != [] ==> s[0] in s
  {
  }

  /** When the last task is gone, so is its memory: all pages in use are the kernel's tables. */
  lemma AllGivenBack(m: Machine)
    requires m.Kept() && m.list.tasks == []
    ensures m.kernel.spaces == [] && m.kernel.alloc.Live() == m.kernel.k.own
  {
    hide SpaceOk, HasStop, PgtOk, KernelOnly, SeesKernel, LinearMap, ImageOk, AllUser, Views, PageAllocator.Valid,
      PageAllocator.Live;
    HasFirst(m.kernel.spaces);
    assert forall s :: s !in m.kernel.spaces;
    assert m.kernel.Spaces() == [];
    assert Partitioned(m.kernel.Now().live, m.kernel.k, []);
  }

  lemma SpacesOk(m: Machine)
    requires m.kernel.Inv()
    ensures forall i :: 0 <= i < |m.Now().ss| ==> SpaceOk(m.Now().w, m.Now().ss[i])
  {
    hide Kernel.Inv, SpaceOk;
    forall i | 0 <= i < |m.Now().ss| ensures SpaceOk(m.Now().w, m.Now().ss[i]) {
      KernelState(m.kernel, i);
    }
  }

  lemma SpacesSize(m: Machine)
    ensures |m.Now().ss| == |m.kernel.spaces|
  {
  }

  lemma NoneLoaded(c: Config, apps: seq<App>)
    requires c.tasks == [] && c.spaces == [] && c.ss == []
    ensures AllAdded(c, apps, 0)
  {
  }

  lemma NowIs(m: Machine)
    ensures m.Now().tasks == m.list.tasks && m.Now().spaces == m.kernel.spaces
  {
  }

  lemma SkipsStep(c: Config, step: Steps.Step, inputs: Inputs)
    requires !Possible(step, inputs)
    ensures StepOf(c, c, step, inputs, Skipped)
  {
    hide Possible;
  }

  lemma AccessIsStep(c: Config, c': Config, step: Steps.Step, inputs: Inputs, i: nat, o: Outcome, r: Option<byte>)
    requires Possible(step, inputs) && step.Access?
             && AccessStep(c, c', step.va, step.store, step.value, i, o, r, inputs)
    ensures StepOf(c, c', step, inputs, Stepped(i, o, [], r.None?, r, 0))
  {
    hide Possible, AccessStep;
  }

  lemma TrapIsStep(c: Config, c': Config, step: Steps.Step, inputs: Inputs, e: Event)
    requires Possible(step, inputs) && step.Trapped? && e.Stepped? && e.loaded.None?
    requires TrapStep(c, c', step.trap, inputs, e.i, e.o, e.out, e.terminated, e.copied)
    ensures StepOf(c, c', step, inputs, e)
  {
    hide Possible, TrapStep;
  }

  lemma NoneAdded(m: Machine, c: Config, step: Steps.Step, inputs: Inputs, e: Event)
    requires StepOf(c, m.Now(), step, inputs, e)
    ensures forall t :: t in m.list.tasks ==> t in c.tasks
    ensures forall s :: s in m.kernel.spaces ==> s in c.spaces
  {
    hide PanicsIff, SyscallEffect, FaultServed, Granted, Refused, Accessed, Shrinks, MustTerminate, Untouched,
      IsCurrent, Possible;
  }

  lemma {:induction false} EmptyRun(c: Config, steps: seq<(Steps.Step, Inputs)>)
    ensures IsRun([c], [], steps) && Printed([]) == []
  {
  }

  lemma NoPages(apps: seq<App>)
    ensures TotalPages(apps, 0) == 0 <= TotalPages(apps, |apps|)
  {
    TotalGrows(apps, 0);
  }

  lemma OneMoreApp(apps: seq<App>, n: nat)
    requires n < |apps|
    ensures TotalPages(apps, n + 1) == TotalPages(apps, n) + ProgramPages(apps[n].segments) <= TotalPages(apps, |apps|)
  {
    TotalGrows(apps, n + 1);
  }

  /** The first switch: there is no current task yet, so none is dropped. */
  lemma FirstSwitch(c: Config, c': Config, o: Outcome, dropped: Option<TaskControlBlock>, at: nat, clock1: nat,
                    clock2: nat)
    requires SwitchStep(c, c', o, dropped, at, clock1, clock2) && c.current.None?
    ensures |c'.tasks| == |c.tasks| && o == (if c'.tasks == [] then ShutDown else Switched)
    ensures SameSpaces(c, c') && forall t :: t in c'.tasks <==> t in c.tasks
  {
    hide CallsGrow;
    Sizes(c'.tasks, c.tasks, multiset{});
    SameMembers(c'.tasks, c.tasks);
  }

  lemma NoCallsYet(m: Machine)
    requires m.list.CallsIn({})
    ensures m.Now().tasks == m.list.tasks
            && forall t :: t in m.list.tasks ==> t in m.Now().calls && m.Now().calls[t] == []
  {
    hide TaskList.Tables;
    forall t | t in m.list.tasks ensures t.statistics.history == [] {
      HasFirst(t.statistics.history);
    }
  }

  lemma NothingCalled(list: TaskList)
    requires list.CallsIn({})
    ensures list.CallsIn(KNOWN)
  {
  }

  lemma MatchedHas(tasks: seq<TaskControlBlock>, spaces: seq<VMSpace>, tcb: TaskControlBlock)
    requires Matched(tasks, spaces) && tcb in tasks
    ensures exists j :: 0 <= j < |spaces| && spaces[j] == tcb.vmSpace
  {
  }

  lemma SpacesDiffer(kernel: Kernel)
    requires kernel.Inv()
    ensures Apart(kernel.spaces)
  {
    hide ImageOk, SystemOk, LinearMap, AllUser, Lists;
  }

  /** The statistics are none of the objects that the memory and the list are made of. */
  lemma NotTables(kernel: Kernel, list: TaskList)
    ensures forall o :: o in list.Tables() ==>
              && o != kernel && o != kernel.mem && o != kernel.alloc && o != list && o !in kernel.Roots()
              && (forall k :: 0 <= k < |kernel.spaces| ==> (kernel.spaces[k] as object) != o)
              && (forall k :: 0 <= k < |list.tasks| ==> (list.tasks[k] as object) != o)
  {
  }

  /** The objects of the task list are none of those that the memory invariant reads. */
  lemma NotRoots(kernel: Kernel, list: TaskList, tasks: seq<TaskControlBlock>)
    ensures forall k :: 0 <= k < |tasks| ==>
              (tasks[k] as object) !in kernel.Roots() && (tasks[k] as object) !in kernel.spaces
    ensures (list as object) !in kernel.Roots() && (list as object) !in kernel.spaces
  {
  }

  lemma HasTask(m: Machine)
    requires m.Inv()
    ensures m.list.tasks != [] && forall t :: t in m.Now().tasks ==> t in m.Now().calls
  {
    hide Kernel.Inv, Matched, TaskList.Counted, TaskList.CallsIn;
  }
}
