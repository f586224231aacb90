/**
  The task list and the switch between tasks (os/src/task.rs, os/src/task/state.rs).

  The thread pointer, from which the source reads the id of the current task, is the field
  `current`.  Clock readings are parameters.
 */
module Tasks {
  import opened PageAlloc
  import opened Areas
  import opened VMSpace
  import opened Statistics

  datatype TaskState = Ready | Running | Killed | Exited

  datatype ExchangeResult = Exchanged(previous: TaskState) | OtherState(state: TaskState)

  class TaskControlBlock {
    const taskId: nat
    const vmSpace: VMSpace
    var state: TaskState
    const statistics: TaskStatistics

    /** `new_ready`, with the id that the counter gives. */
    constructor (taskId: nat, vmSpace: VMSpace)
      ensures this.taskId == taskId && this.vmSpace == vmSpace && state == Ready
      ensures fresh(statistics) && fresh(statistics.counts) && statistics.Valid() && statistics.history == []
    {
      this.taskId := taskId;
      this.vmSpace := vmSpace;
      state := Ready;
      statistics := new TaskStatistics();
    }
  }

  /** `position(|tcb| tcb.get_task_id() == id)` from index `i` on. */
  function PositionOf(tasks: seq<TaskControlBlock>, id: nat, i: nat): (r: Option<nat>)
    requires i <= |tasks|
    ensures r.Some? ==> i <= r.value < |tasks| && tasks[r.value].taskId == id
    ensures forall j :: i <= j < (if r.Some? then r.value else |tasks|) ==> tasks[j].taskId != id
    decreases |tasks| - i
  {
    if i == |tasks| then None
    else if tasks[i].taskId == id then Some(i)
    else PositionOf(tasks, id, i + 1)
  }

  /** `position(|tcb| tcb.get_state() == Ready)` from index `i` on. */
  function FirstReady(tasks: seq<TaskControlBlock>, i: nat): (r: Option<nat>)
    requires i <= |tasks|
    reads tasks
    ensures r.Some? ==> i <= r.value < |tasks| && tasks[r.value].state == Ready
    ensures forall j :: i <= j < (if r.Some? then r.value else |tasks|) ==> tasks[j].state != Ready
    decreases |tasks| - i
  {
    if i == |tasks| then None
    else if tasks[i].state == Ready then Some(i)
    else FirstReady(tasks, i + 1)
  }

  /** `swap(index, random)` and then `swap_remove(random)`. */
  function TakeAt<T>(s: seq<T>, index: nat, random: nat): seq<T>
    requires index < |s| && random < |s|
  {
    SwapRemove(s[index := s[random]][random := s[index]], random)
  }

  /** What is where afterwards: the random element goes to the place of the one taken out, and the
      last one then fills the random place. */
  lemma TakeAtEach<T>(s: seq<T>, index: nat, random: nat, k: nat)
    requires index < |s| && random < |s| && k < |s| - 1
    ensures var from := if k == random then |s| - 1 else k;
            |TakeAt(s, index, random)| == |s| - 1
                && TakeAt(s, index, random)[k] == s[if from == index then random else from]
  {
  }

  /** Whatever the clock says, exactly the element at `index` is taken out. */
  lemma TakeAtMultiset<T>(s: seq<T>, index: nat, random: nat)
    requires index < |s| && random < |s|
    ensures multiset(TakeAt(s, index, random)) + multiset{s[index]} == multiset(s)
  {
    hide TakeAt, SwapRemove;
    TakeAtShape(s, index, random);
    SwapMultiset(s, index, random);
    OverwriteMultiset(s[index := s[random]][random := s[index]], random);
  }

  /** The last element takes the place of the one at `i`. */
  lemma OverwriteMultiset<T>(t: seq<T>, i: nat)
    requires i < |t|
    ensures multiset(t[i := t[|t| - 1]][..|t| - 1]) + multiset{t[i]} == multiset(t)
  {
    var u := t[i := t[|t| - 1]];
    UpdateMultiset(t, i, t[|t| - 1]);
    LastMultiset(u);
    Cancel(multiset(u[..|u| - 1]), multiset(t), t[i], t[|t| - 1]);
  }

  lemma TakeAtShape<T>(s: seq<T>, index: nat, random: nat)
    requires index < |s| && random < |s|
    ensures var t := s[index := s[random]][random := s[index]];
            TakeAt(s, index, random) == t[random := t[|t| - 1]][..|t| - 1] && t[random] == s[index]
  {
  }

  lemma Cancel<T>(r: multiset<T>, m: multiset<T>, a: T, b: T)
    requires r + multiset{b} == m - multiset{a} + multiset{b} && a in m
    ensures r + multiset{a} == m
  {
    forall x ensures (r + multiset{a})[x] == m[x] {
      assert (r + multiset{b})[x] == (m - multiset{a} + multiset{b})[x];
    }
  }

  lemma UpdateMultiset<T>(s: seq<T>, i: nat, x: T)
    requires i < |s|
    ensures multiset(s[i := x]) == multiset(s) - multiset{s[i]} + multiset{x}
  {
  }

  lemma LastMultiset<T>(s: seq<T>)
    requires s != []
    ensures multiset(s) == multiset(s[..|s| - 1]) + multiset{s[|s| - 1]}
  {
    assert s == s[..|s| - 1] + [s[|s| - 1]];
  }

  lemma SwapMultiset<T>(s: seq<T>, i: nat, j: nat)
    requires i < |s| && j < |s|
    ensures multiset(s[i := s[j]][j := s[i]]) == multiset(s)
  {
  }

  predicate UniqueIds(tasks: seq<TaskControlBlock>) {
    forall i, j :: 0 <= i < j < |tasks| ==> tasks[i].taskId != tasks[j].taskId
  }

  /** Ids are unique and have been given out. */
  ghost predicate Listed(tasks: seq<TaskControlBlock>, nextTaskId: nat) {
    nextTaskId >= 1 && UniqueIds(tasks) && forall t :: t in tasks ==> 1 <= t.taskId < nextTaskId
  }

  lemma OneTask(tasks: seq<TaskControlBlock>, nextTaskId: nat, t: TaskControlBlock, u: TaskControlBlock)
    requires Listed(tasks, nextTaskId) && t in tasks && u in tasks && t.taskId == u.taskId
    ensures t == u
  {
  }

  lemma {:induction false} UniqueCount(tasks: seq<TaskControlBlock>, t: TaskControlBlock)
    requires UniqueIds(tasks)
    ensures multiset(tasks)[t] == if t in tasks then 1 else 0
  {
    if tasks != [] {
      UniqueCount(tasks[1..], t);
      assert tasks == [tasks[0]] + tasks[1..];
      assert tasks[0] !in tasks[1..];
    }
  }

  /** Listing does not depend on the order. */
  lemma ListedPermuted(tasks: seq<TaskControlBlock>, tasks': seq<TaskControlBlock>, nextTaskId: nat)
    requires Listed(tasks, nextTaskId) && multiset(tasks') <= multiset(tasks)
    ensures Listed(tasks', nextTaskId)
    ensures forall t :: t in tasks' ==> t in tasks
  {
    forall t | t in tasks' ensures t in tasks {
      assert t in multiset(tasks');
      assert t in multiset(tasks);
    }
    forall i, j | 0 <= i < j < |tasks'| ensures tasks'[i].taskId != tasks'[j].taskId {
      if tasks'[i].taskId == tasks'[j].taskId {
        OneTask(tasks, nextTaskId, tasks'[i], tasks'[j]);
        UniqueCount(tasks, tasks'[i]);
        TwiceCounted(tasks', i, j);
        assert false;
      }
    }
  }

  lemma TwiceCounted<T>(s: seq<T>, i: nat, j: nat)
    requires i < j < |s| && s[i] == s[j]
    ensures multiset(s)[s[i]] >= 2
  {
    assert s == s[..i] + [s[i]] + s[i + 1..j] + [s[j]] + s[j + 1..];
  }

  /** A task that was taken out is no longer listed, nor is another one under its id. */
  lemma Removed(tasks: seq<TaskControlBlock>, tasks': seq<TaskControlBlock>, nextTaskId: nat, tcb: TaskControlBlock,
                t: TaskControlBlock)
    requires Listed(tasks, nextTaskId) && tcb in tasks && multiset(tasks') + multiset{tcb} == multiset(tasks)
             && t in tasks'
    ensures t in tasks && t != tcb && t.taskId != tcb.taskId
  {
    ListedPermuted(tasks, tasks', nextTaskId);
    UniqueCount(tasks, tcb);
    assert t in multiset(tasks');
    if t.taskId == tcb.taskId {
      OneTask(tasks, nextTaskId, t, tcb);
      assert false;
    }
  }

  // The order of the list over a switch.

  /** The list after the first half of `run_next_task`: the current task goes to its end, or leaves
      it if it is `gone`. */
  function Departed(tasks: seq<TaskControlBlock>, current: Option<nat>, gone: bool, clock: nat): seq<TaskControlBlock> {
    if current.None? || PositionOf(tasks, current.value, 0).None? then tasks
    else
      var i := PositionOf(tasks, current.value, 0).value;
      TakeAt(tasks, i, clock % |tasks|) + if gone then [] else [tasks[i]]
  }

  lemma DepartedIs(tasks: seq<TaskControlBlock>, current: Option<nat>, clock: nat)
    ensures current.None? ==> Departed(tasks, current, false, clock) == tasks
    ensures current.Some? ==>
              match PositionOf(tasks, current.value, 0)
              case None => Departed(tasks, current, false, clock) == tasks
              case Some(i) =>
                var rest := TakeAt(tasks, i, clock % |tasks|);
                Departed(tasks, current, true, clock) == rest
                    && Departed(tasks, current, false, clock) == rest + [tasks[i]]
  {
    hide TakeAt, PositionOf;
  }

  /** The list after the second half, in which all tasks are Ready: the first one goes to its end. */
  function Turned(tasks: seq<TaskControlBlock>, clock: nat): seq<TaskControlBlock> {
    if tasks == [] then [] else TakeAt(tasks, 0, clock % |tasks|) + [tasks[0]]
  }

  /** What a switch makes of the list and of the current task. */
  predicate Rotates(tasks: seq<TaskControlBlock>, current: Option<nat>, gone: bool, clock1: nat, clock2: nat,
                    tasks': seq<TaskControlBlock>, current': Option<nat>) {
    var left := Departed(tasks, current, gone, clock1);
    tasks' == Turned(left, clock2) && current' == if left == [] then current else Some(left[0].taskId)
  }

  /** Who runs next: never the task that was current, if there is another one.  It is the first
      one of the list, except that the last one comes if the clock points at the first place, and
      the one that the clock points at comes if the current task is itself the first one. */
  lemma NextTask(tasks: seq<TaskControlBlock>, i: nat, gone: bool, clock1: nat, clock2: nat,
                 tasks': seq<TaskControlBlock>, current': Option<nat>)
    requires UniqueIds(tasks) && i < |tasks|
    requires Rotates(tasks, Some(tasks[i].taskId), gone, clock1, clock2, tasks', current')
    ensures |tasks| == 1 && !gone ==> tasks' == tasks && current' == Some(tasks[i].taskId)
    ensures |tasks| >= 2 ==>
              var r := clock1 % |tasks|;
              var next := if r == 0 then (if i == |tasks| - 1 then 0 else |tasks| - 1) else if i == 0 then r else 0;
              next != i && current' == Some(tasks[next].taskId) != Some(tasks[i].taskId)
                  && tasks'[|tasks'| - 1] == tasks[next]
  {
    hide TakeAt;
    var left := Departed(tasks, Some(tasks[i].taskId), gone, clock1);
    if |tasks| >= 2 {
      TakeAtEach(tasks, i, clock1 % |tasks|, 0);
    } else if !gone {
      TakeAtNone(tasks, clock1);
      TakeAtNone(tasks, clock2);
      assert left == [] + [tasks[0]] == tasks;
    }
  }

  lemma TakeAtNone<T>(s: seq<T>, clock: nat)
    requires |s| == 1
    ensures clock % |s| == 0 && TakeAt(s, 0, clock % |s|) == []
  {
  }

  /** A switch is not fair: from any list whose last task is the current one, which is how every
      switch leaves it, the clock can have the first and the last task change places, so that these
      two run in turn and the ones between them never. */
  lemma Starves(tasks: seq<TaskControlBlock>)
    requires UniqueIds(tasks) && |tasks| >= 2
    ensures var last := |tasks| - 1;
            Rotates(tasks, Some(tasks[last].taskId), false, last, 0,
                    [tasks[last]] + tasks[1..last] + [tasks[0]], Some(tasks[0].taskId))
  {
  }

  class TaskList {
    var tasks: seq<TaskControlBlock>
    var current: Option<nat>
    var nextTaskId: nat

    /** The empty list, before `start`; ids count from 1. */
    constructor ()
      ensures tasks == [] && current.None? && nextTaskId == 1
    {
      tasks := [];
      current := None;
      nextTaskId := 1;
    }

    ghost predicate Unique()
      reads this
    {
      Listed(tasks, nextTaskId)
    }

    /** The objects that hold the statistics of the listed tasks. */
    ghost function Tables(): set<object>
      reads this
    {
      (set t | t in tasks :: t.statistics as object) + (set t | t in tasks :: t.statistics.counts as object)
    }

    /** Every listed task has a table of its own, and it follows the task's calls. */
    ghost predicate Counted()
      reads this, Tables()
    {
      && (forall t :: t in tasks ==> t.statistics.Valid())
      && (forall t, u :: t in tasks && u in tasks && t != u ==>
            t.statistics != u.statistics && t.statistics.counts != u.statistics.counts)
    }

    /** The listed tasks have called nothing but `ids`. */
    ghost predicate CallsIn(ids: set<nat>)
      reads this, Tables()
    {
      forall t :: t in tasks ==> forall x :: x in t.statistics.history ==> x in ids
    }

    /** The system calls that each listed task has made. */
    ghost function Calls(): map<TaskControlBlock, seq<nat>>
      reads this, Tables()
    {
      map t | t in tasks :: t.statistics.history
    }

    /** No task has come, and the listed ones have made the calls that they had made before, with
        `calls` after those of the task with the id `caller`. */
    twostate predicate Called(caller: Option<nat>, calls: seq<nat>)
      reads this, Tables()
    {
      forall t :: t in tasks ==>
        t in old(tasks)
            && t.statistics.history == old(t.statistics.history) + if caller == Some(t.taskId) then calls else []
    }

    /** What does not touch the list, its tasks or their statistics keeps all that is said of them. */
    twostate lemma Unmoved()
      requires unchanged(this) && unchanged(tasks) && unchanged(Tables())
      ensures Counted() == old(Counted()) && InUser() == old(InUser()) && Calls() == old(Calls())
      ensures AllReady() == old(AllReady())
      ensures forall ids :: CallsIn(ids) == old(CallsIn(ids))
    {
    }

    /** A step that records no call keeps the tables, whatever it does to the list's order. */
    twostate lemma CountedStays()
      requires old(Counted()) && unchanged(old(Tables())) && forall t :: t in tasks ==> t in old(tasks)
      ensures Counted() && Called(None, []) && forall ids :: old(CallsIn(ids)) ==> CallsIn(ids)
    {
      forall t | t in tasks ensures t.statistics.Valid() && t.statistics.history == old(t.statistics.history) {
        assert t.statistics in old(Tables()) && t.statistics.counts in old(Tables());
      }
    }

    /** `record_current_syscall`; it panics if the current task is not listed. */
    method RecordCurrentSyscall(id: nat) returns (recorded: bool)
      requires InUser() && Counted()
      modifies Tables()
      ensures Counted() && Called(current, [id])
      ensures forall t :: t in tasks && t.taskId == current.value && ZeroIsLast(t.statistics.history) ==>
                (recorded <==> InFirstSix(t.statistics.history, id))
    {
      hide ZeroIsLast, InFirstSix, After, Promised;
      var i := PositionOf(tasks, current.value, 0);
      var tcb := tasks[i.value];
      forall t | t in tasks && t.taskId == current.value ensures t == tcb {
        OneTask(tasks, nextTaskId, t, tcb);
      }
      assert tcb.statistics in Tables() && tcb.statistics.counts in Tables();
      recorded := tcb.statistics.IncreaseSyscallCount(id);
    }

    /** The state in which user code runs: exactly one task is Running, it is the current one,
        and all others are Ready. */
    ghost predicate InUser()
      reads this, tasks
    {
      && Unique() && current.Some?
      && (exists t :: t in tasks && t.taskId == current.value)
      && (forall t :: t in tasks ==> t.state == if t.taskId == current.value then Running else Ready)
    }

    /** The state in which `run_next_task` is called: the current task has left the Running
        state; no other task is anything but Ready. */
    ghost predicate Switching()
      reads this, tasks
    {
      && Unique()
      && (forall t :: t in tasks ==>
            if current.Some? && t.taskId == current.value then t.state != Running else t.state == Ready)
    }

    /** The current task is listed, and has been killed or has exited. */
    ghost predicate Terminated()
      reads this, tasks
    {
      exists t :: t in tasks && current == Some(t.taskId) && (t.state == Killed || t.state == Exited)
    }

    ghost predicate AllReady()
      reads this, tasks
    {
      forall t :: t in tasks ==> t.state == Ready
    }

    /** The last part of `add_task`. */
    method Add(vmSpace: VMSpace) returns (tcb: TaskControlBlock)
      requires Unique()
      modifies this
      ensures fresh(tcb) && fresh(tcb.statistics) && fresh(tcb.statistics.counts) && tcb.statistics.Valid()
              && tcb.statistics.history == []
      ensures tcb.vmSpace == vmSpace && tcb.state == Ready
      ensures tcb.taskId == old(nextTaskId) && nextTaskId == old(nextTaskId) + 1
      ensures Unique() && tasks == old(tasks) + [tcb] && current == old(current)
      ensures old(Counted()) ==> Counted()
      ensures (old(AllReady()) ==> AllReady()) && forall ids :: old(CallsIn(ids)) ==> CallsIn(ids)
    {
      tcb := new TaskControlBlock(nextTaskId, vmSpace);
      nextTaskId := nextTaskId + 1;
      tasks := tasks + [tcb];
    }

    /** `take_task_tcb`. */
    method TakeTaskTcb(id: nat, clock: nat) returns (r: Option<TaskControlBlock>)
      requires Unique()
      modifies this`tasks
      ensures Unique()
      ensures r.None? <==> forall t :: t in old(tasks) ==> t.taskId != id
      ensures r.None? ==> tasks == old(tasks)
      ensures r.Some? ==>
                r.value in old(tasks) && r.value.taskId == id
                    && multiset(tasks) + multiset{r.value} == multiset(old(tasks))
      ensures r.Some? ==>
                var i := PositionOf(old(tasks), id, 0);
                i.Some? && r.value == old(tasks)[i.value]
                    && tasks == TakeAt(old(tasks), i.value, clock % |old(tasks)|)
    {
      var index := PositionOf(tasks, id, 0);
      if index.None? {
        return None;
      }
      var random := clock % |tasks|;
      TakeAtMultiset(tasks, index.value, random);
      r := Some(tasks[index.value]);
      tasks := TakeAt(tasks, index.value, random);
      ListedPermuted(old(tasks), tasks, nextTaskId);
    }

    /** `get_next_task_id`. */
    method GetNextTaskId() returns (r: Option<nat>)
      ensures r.None? <==> forall t :: t in tasks ==> t.state != Ready
      ensures r.Some? ==> exists i :: 0 <= i < |tasks| && tasks[i].taskId == r.value && tasks[i].state == Ready
                                   && forall j :: 0 <= j < i ==> tasks[j].state != Ready
    {
      var i := FirstReady(tasks, 0);
      r := if i.Some? then Some(tasks[i.value].taskId) else None;
    }

    /** `exchange_current_task_state`; it panics if the current task is not listed. */
    method ExchangeCurrentTaskState(expected: TaskState, next: TaskState) returns (r: ExchangeResult)
      requires Unique() && current.Some? && exists t :: t in tasks && t.taskId == current.value
      modifies tasks
      ensures forall t :: t in tasks ==>
                t.state == if t.taskId == current.value && old(t.state) == expected then next else old(t.state)
      ensures forall t :: t in tasks && t.taskId == current.value ==>
                r == if old(t.state) == expected then Exchanged(expected) else OtherState(old(t.state))
    {
      var i := PositionOf(tasks, current.value, 0);
      var tcb := tasks[i.value];
      forall t | t in tasks && t.taskId == current.value ensures t == tcb {
        OneTask(tasks, nextTaskId, t, tcb);
      }
      if tcb.state == expected {
        tcb.state := next;
        return Exchanged(expected);
      }
      return OtherState(tcb.state);
    }

    /** `run_next_task` up to the switch.  `next` is the task that runs now, or `None` where the
        source shuts the machine down; `dropped` is the terminated task whose control block was
        dropped.  The source panics if the current task is still Running. */
    method RunNextTask(clock1: nat, clock2: nat) returns (next: Option<nat>, dropped: Option<TaskControlBlock>)
      requires Switching()
      modifies this, tasks
      ensures nextTaskId == old(nextTaskId) && Unique()
      ensures Rotates(old(tasks), old(current), dropped.Some?, clock1, clock2, tasks, current)
      ensures forall t :: t in old(tasks) ==>
                (dropped == Some(t) <==>
                    old(current) == Some(t.taskId) && (old(t.state) == Killed || old(t.state) == Exited))
      ensures dropped.Some? ==> dropped.value in old(tasks) && old(current) == Some(dropped.value.taskId)
      ensures dropped.Some? <==> old(Terminated())
      ensures multiset(tasks) + (if dropped.Some? then multiset{dropped.value} else multiset{}) == multiset(old(tasks))
      ensures forall t :: t in tasks ==> t in old(tasks) && old(t.state) == Ready
      ensures next.None? <==> tasks == []
      ensures next.Some? ==> InUser() && current == next
      ensures old(current).None? && next.Some? ==> old(tasks) != [] && next == Some(old(tasks)[0].taskId)
    {
      hide Departed, Turned, PositionOf;
      dropped := LeaveCurrent(clock1);
      ghost var ready := tasks;
      assert forall t :: t in ready ==> t in old(tasks);
      next := StartReady(clock2);
      SameMembers(ready, tasks);
    }

    /** The first half: the current task goes back into the list, or is dropped. */
    method LeaveCurrent(clock: nat) returns (dropped: Option<TaskControlBlock>)
      requires Switching()
      modifies this`tasks
      ensures Unique()
      ensures forall t :: t in old(tasks) ==>
                (dropped == Some(t) <==> current == Some(t.taskId) && (t.state == Killed || t.state == Exited))
      ensures dropped.Some? ==> dropped.value in old(tasks)
      ensures multiset(tasks) + (if dropped.Some? then multiset{dropped.value} else multiset{}) == multiset(old(tasks))
      ensures forall t :: t in tasks ==> t in old(tasks) && t.state == Ready
      ensures tasks == Departed(old(tasks), current, dropped.Some?, clock)
      ensures current.None? ==> tasks == old(tasks)
    {
      hide TakeAt, PositionOf, Listed, Departed;
      DepartedIs(tasks, current, clock);
      if current.None? {
        return None;
      }
      var taken := TakeTaskTcb(current.value, clock);
      if taken.None? {
        return None;
      }
      var tcb := taken.value;
      forall t | t in old(tasks) && t.taskId == tcb.taskId ensures t == tcb {
        OneTask(old(tasks), nextTaskId, t, tcb);
      }
      if tcb.state == Ready {
        PutBack(old(tasks), tasks, tcb);
        tasks := tasks + [tcb];
        ListedPermuted(old(tasks), tasks, nextTaskId);
        return None;
      }
      if tcb.state == Running {
        assert false;  // the source panics here
      }
      forall t | t in tasks ensures t in old(tasks) && t.state == Ready {
        Removed(old(tasks), tasks, nextTaskId, tcb, t);
      }
      return Some(tcb);
    }

    /** The second half: a Ready task is marked Running and becomes the current one. */
    method StartReady(clock: nat) returns (next: Option<nat>)
      requires Unique() && forall t :: t in tasks ==> t.state == Ready
      modifies this, tasks
      ensures nextTaskId == old(nextTaskId) && multiset(tasks) == multiset(old(tasks))
      ensures Unique() && (next.None? <==> tasks == []) && tasks == Turned(old(tasks), clock)
      ensures next.Some? ==> InUser() && current == next && next == Some(old(tasks)[0].taskId)
      ensures next.None? ==> current == old(current)
    {
      hide TakeAt;
      assert tasks != [] ==> tasks[0].state == Ready;
      next := GetNextTaskId();
      if next.Some? {
        var taken := TakeTaskTcb(next.value, clock);
        var tcb := taken.value;
        tcb.state := Running;
        PutBack(old(tasks), tasks, tcb);
        tasks := tasks + [tcb];
        ListedPermuted(old(tasks), tasks, nextTaskId);
        current := next;
        forall t | t in tasks ensures t.state == if t.taskId == next.value then Running else Ready {
          if t.taskId == next.value { OneTask(old(tasks), nextTaskId, t, tcb); }
        }
        assert tcb in tasks;
      }
    }
  }

  lemma PutBack<T>(s: seq<T>, rest: seq<T>, x: T)
    requires multiset(rest) + multiset{x} == multiset(s)
    ensures multiset(rest + [x]) == multiset(s)
  {
  }

  lemma SameMembers<T>(s: seq<T>, t: seq<T>)
    requires multiset(s) == multiset(t)
    ensures forall x :: x in s <==> x in t
  {
    forall x ensures x in s <==> x in t {
      assert x in multiset(s) <==> x in multiset(t);
    }
  }
}
