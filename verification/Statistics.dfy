/**
  The per-task table of system calls (`TaskStatistics`, os/src/task/state.rs): six slots that
  hold an id and a count, the free ones zeros.
 */
module Statistics {
  const MAX_SYSCALLS_TRACKED: nat := 6

  type Slots = s: seq<(nat, nat)> | |s| == MAX_SYSCALLS_TRACKED witness seq(6, i => (0, 0))

  /** The first slot, from `i` on, that has the id or is free; else the number of slots. */
  function FindSlot(s: Slots, id: nat, i: nat): (k: nat)
    requires i <= MAX_SYSCALLS_TRACKED
    ensures i <= k <= MAX_SYSCALLS_TRACKED
    ensures k < MAX_SYSCALLS_TRACKED ==> s[k].0 == id || s[k].0 == 0
    ensures forall j :: i <= j < k ==> s[j].0 != id && s[j].0 != 0
    decreases MAX_SYSCALLS_TRACKED - i
  {
    if i == MAX_SYSCALLS_TRACKED || s[i].0 == id || s[i].0 == 0 then i else FindSlot(s, id, i + 1)
  }

  /** The slots after one more call. */
  function Recorded(s: Slots, id: nat): Slots {
    var k := FindSlot(s, id, 0);
    if k < MAX_SYSCALLS_TRACKED then s[k := (id, s[k].1 + 1)] else s
  }

  /** The slots after a whole history of calls. */
  function After(history: seq<nat>): Slots {
    if history == [] then seq(MAX_SYSCALLS_TRACKED, i => (0, 0))
    else Recorded(After(history[..|history| - 1]), history[|history| - 1])
  }

  /** The different ids of a history, in the order of their first appearance. */
  function Distinct(history: seq<nat>): (d: seq<nat>)
    ensures forall x :: x in d <==> x in history
    ensures forall i, j :: 0 <= i < j < |d| ==> d[i] != d[j]
  {
    if history == [] then [] else
    var x := history[|history| - 1];
    var d := Distinct(history[..|history| - 1]);
    assert history == history[..|history| - 1] + [x];
    if x in d then d else d + [x]
  }

  /** An id that comes earlier in the list has appeared before the other one. */
  lemma {:induction false} FirstAppearance(history: seq<nat>, i: nat, j: nat) returns (p: nat)
    requires i < j < |Distinct(history)|
    ensures p < |history| && history[p] == Distinct(history)[i] && Distinct(history)[j] !in history[..p]
  {
    var h, x := history[..|history| - 1], history[|history| - 1];
    assert history == h + [x];
    if j < |Distinct(h)| {
      p := FirstAppearance(h, i, j);
    } else {
      assert Distinct(h)[i] in h && x !in h;
      p :| 0 <= p < |h| && h[p] == Distinct(h)[i];
    }
    assert history[..p] == h[..p];
  }

  /** Ids `d` with the counts that `m` gives them, as far as there are slots. */
  function Table(d: seq<nat>, m: multiset<nat>): (t: Slots)
    ensures forall i :: 0 <= i < MAX_SYSCALLS_TRACKED ==> t[i] == if i < |d| then (d[i], m[d[i]]) else (0, 0)
  {
    seq(MAX_SYSCALLS_TRACKED, i requires 0 <= i => if i < |d| then (d[i], m[d[i]]) else (0, 0))
  }

  /** What the documentation promises: the first six different ids with their exact counts. */
  function Promised(history: seq<nat>): Slots {
    Table(Distinct(history), multiset(history))
  }

  /** Among the first six ids only the very last one may be 0. */
  predicate OnlyLastZero(d: seq<nat>) {
    forall k :: 0 <= k < MAX_SYSCALLS_TRACKED && k < |d| - 1 ==> d[k] != 0
  }

  /** The id 0, which marks a free slot, is not among the first six ids, or no new id has
      appeared after it. */
  predicate ZeroIsLast(history: seq<nat>) {
    OnlyLastZero(Distinct(history))
  }

  /** The ids after one more. */
  function WithId(d: seq<nat>, x: nat): seq<nat> {
    if x in d then d else d + [x]
  }

  lemma DistinctNext(history: seq<nat>, x: nat)
    ensures Distinct(history + [x]) == WithId(Distinct(history), x)
  {
  }

  lemma AfterNext(history: seq<nat>, x: nat)
    ensures After(history + [x]) == Recorded(After(history), x)
  {
  }

  lemma {:induction false} FindsAt(s: Slots, x: nat, i: nat, k: nat)
    requires i <= k <= MAX_SYSCALLS_TRACKED && forall j :: i <= j < k ==> s[j].0 != x && s[j].0 != 0
    requires k < MAX_SYSCALLS_TRACKED ==> s[k].0 == x || s[k].0 == 0
    ensures FindSlot(s, x, i) == k
    decreases k - i
  {
  }

  /** Where a call of `x` is recorded. */
  lemma SlotOf(d: seq<nat>, m: multiset<nat>, x: nat) returns (k: nat)
    requires (forall i, j :: 0 <= i < j < |d| ==> d[i] != d[j]) && OnlyLastZero(WithId(d, x))
    ensures k <= MAX_SYSCALLS_TRACKED && FindSlot(Table(d, m), x, 0) == k
    ensures k < MAX_SYSCALLS_TRACKED ==> k < |WithId(d, x)| && WithId(d, x)[k] == x
    ensures k == MAX_SYSCALLS_TRACKED ==>
              forall j :: 0 <= j < MAX_SYSCALLS_TRACKED && j < |WithId(d, x)| ==> WithId(d, x)[j] != x
  {
    var d' := WithId(d, x);
    var p :| 0 <= p < |d'| && d'[p] == x;
    k := if p < MAX_SYSCALLS_TRACKED then p else MAX_SYSCALLS_TRACKED;
    forall j | 0 <= j < k ensures Table(d, m)[j].0 != x && Table(d, m)[j].0 != 0 {
      assert d'[j] == d[j] && d'[j] != 0 && (p < |d| ==> d[j] != d[p]);
    }
    FindsAt(Table(d, m), x, 0, k);
  }

  /** One more call, in terms of ids and counts. */
  lemma TableNext(d: seq<nat>, m: multiset<nat>, x: nat)
    requires (forall i, j :: 0 <= i < j < |d| ==> d[i] != d[j]) && OnlyLastZero(WithId(d, x))
    requires x !in d ==> m[x] == 0
    ensures Recorded(Table(d, m), x) == Table(WithId(d, x), m + multiset{x})
  {
    var d' := WithId(d, x);
    var k := SlotOf(d, m, x);
    hide FindSlot, OnlyLastZero;
    forall i | 0 <= i < MAX_SYSCALLS_TRACKED ensures Recorded(Table(d, m), x)[i] == Table(d', m + multiset{x})[i] {
      if i < |d'| && i != k {
        assert d'[i] != x;
      }
    }
  }

  /** One more call keeps the promise, as long as no new id follows a recorded 0. */
  lemma PromiseKept(history: seq<nat>, x: nat)
    requires ZeroIsLast(history + [x])
    ensures Recorded(Promised(history), x) == Promised(history + [x])
  {
    DistinctNext(history, x);
    assert x in Distinct(history) <==> x in multiset(history);
    hide Distinct, Recorded;
    assert multiset(history + [x]) == multiset(history) + multiset{x};
    TableNext(Distinct(history), multiset(history), x);
  }

  lemma ZeroLastBefore(history: seq<nat>, x: nat)
    requires ZeroIsLast(history + [x])
    ensures ZeroIsLast(history)
  {
    DistinctNext(history, x);
    hide Distinct;
    var d := Distinct(history);
    forall k | 0 <= k < MAX_SYSCALLS_TRACKED && k < |d| - 1 ensures d[k] != 0 {
      assert WithId(d, x)[k] == d[k];
    }
  }

  lemma {:induction false} AsPromised(history: seq<nat>)
    requires ZeroIsLast(history)
    ensures After(history) == Promised(history)
  {
    if history == [] {
      assert After(history) == Promised(history);
    } else {
      var h, x := history[..|history| - 1], history[|history| - 1];
      assert history == h + [x];
      ZeroLastBefore(h, x);
      AsPromised(h);
      PromiseKept(h, x);
    }
  }

  /** A slot whose id is not 0 keeps its id. */
  lemma SlotKeepsId(s: Slots, x: nat, k: nat)
    requires k < MAX_SYSCALLS_TRACKED && s[k].0 != 0
    ensures Recorded(s, x)[k].0 == s[k].0
  {
  }

  /** After an id that follows a recorded 0, the slot of the 0 has another id. */
  lemma {:induction false} PromiseBroken(history: seq<nat>) returns (k: nat)
    requires !ZeroIsLast(history)
    ensures k < MAX_SYSCALLS_TRACKED && k < |Distinct(history)| && Distinct(history)[k] == 0 && After(history)[k].0 != 0
  {
    var h, x := history[..|history| - 1], history[|history| - 1];
    assert history == h + [x];
    DistinctNext(h, x);
    AfterNext(h, x);
    if !ZeroIsLast(h) {
      k := PromiseBroken(h);
      SlotKeepsId(After(h), x, k);
    } else {
      AsPromised(h);
      hide Distinct, After, ZeroIsLast;
      k := |Distinct(h)| - 1;
      LastZeroTaken(Distinct(h), multiset(h), x);
    }
  }

  lemma LastZeroTaken(d: seq<nat>, m: multiset<nat>, x: nat)
    requires OnlyLastZero(d) && !OnlyLastZero(WithId(d, x))
    ensures 0 < |d| <= MAX_SYSCALLS_TRACKED && d[|d| - 1] == 0 && WithId(d, x)[|d| - 1] == 0
    ensures Recorded(Table(d, m), x)[|d| - 1].0 != 0
  {
  }

  /** The table is as promised exactly if no new id has appeared after a recorded id 0. */
  lemma PromisedIff(history: seq<nat>)
    ensures After(history) == Promised(history) <==> ZeroIsLast(history)
  {
    if ZeroIsLast(history) {
      AsPromised(history);
    } else {
      var k := PromiseBroken(history);
      assert Promised(history)[k].0 == 0;
    }
  }

  /** Id 0 and then id 7: the table does not say that each was called once.  The function alone
      allows this; no run reaches it, because `syscall_handler` panics on the id 0. */
  lemma ZeroIsTakenForFree()
    ensures !ZeroIsLast([0, 7]) && After([0, 7]) != Promised([0, 7])
  {
    assert [0, 7] == [0] + [7] && [0] == [] + [0];
    DistinctNext([], 0);
    DistinctNext([0], 7);
    PromisedIff([0, 7]);
  }

  /** A history without the id 0, which no system call has, keeps the promise. */
  lemma NonzeroIsPromised(history: seq<nat>)
    requires 0 !in history
    ensures After(history) == Promised(history)
  {
    forall k | 0 <= k < |Distinct(history)| ensures Distinct(history)[k] != 0 {
      assert Distinct(history)[k] in history;
    }
    AsPromised(history);
  }

  /** The id is one of the first six different ids of the history. */
  predicate InFirstSix(history: seq<nat>, id: nat) {
    exists k :: 0 <= k < MAX_SYSCALLS_TRACKED && k < |Distinct(history)| && Distinct(history)[k] == id
  }

  /** A call is recorded exactly if its id is one of the first six. */
  lemma CallRecorded(history: seq<nat>, id: nat)
    ensures After(history + [id]) == Recorded(After(history), id)
    ensures ZeroIsLast(history + [id]) ==> After(history + [id]) == Promised(history + [id])
    ensures ZeroIsLast(history + [id]) ==>
              (FindSlot(After(history), id, 0) < MAX_SYSCALLS_TRACKED <==> InFirstSix(history + [id], id))
  {
    AfterNext(history, id);
    if ZeroIsLast(history + [id]) {
      ZeroLastBefore(history, id);
      AsPromised(history);
      AsPromised(history + [id]);
      DistinctNext(history, id);
      hide Distinct, After, FindSlot;
      var k := SlotOf(Distinct(history), multiset(history), id);
    }
  }

  lemma {:induction false} Members(d: seq<nat>, ids: set<nat>)
    requires (forall i, j :: 0 <= i < j < |d| ==> d[i] != d[j]) && forall x :: x in d ==> x in ids
    ensures |d| <= |ids|
  {
    if d != [] {
      Members(d[1..], ids - {d[0]});
    }
  }

  /** The table has an entry with the exact count for every id that was ever called, and counts
      no other. */
  ghost predicate Complete(s: Slots, history: seq<nat>) {
    && (forall x :: x in history ==> exists k :: 0 <= k < MAX_SYSCALLS_TRACKED && s[k] == (x, multiset(history)[x]))
    && (forall k :: 0 <= k < MAX_SYSCALLS_TRACKED && s[k].1 > 0 ==> s[k].0 in history)
  }

  /** If there are no more than six ids to call, no call is lost. */
  lemma FewIdsComplete(history: seq<nat>, ids: set<nat>)
    requires |ids| <= MAX_SYSCALLS_TRACKED && 0 !in ids && forall x :: x in history ==> x in ids
    ensures Complete(After(history), history)
  {
    NonzeroIsPromised(history);
    var d := Distinct(history);
    Members(d, ids);
    forall x | x in history
      ensures exists k :: 0 <= k < MAX_SYSCALLS_TRACKED && After(history)[k] == (x, multiset(history)[x])
    {
      assert x in d;
      var k :| 0 <= k < |d| && d[k] == x;
      assert After(history)[k] == (x, multiset(history)[x]);
    }
  }

  class TaskStatistics {
    const counts: array<(nat, nat)>
    /** The ids of all calls so far. */
    ghost var history: seq<nat>

    ghost predicate Valid()
      reads this, counts
    {
      counts.Length == MAX_SYSCALLS_TRACKED && counts[..] == After(history)
    }

    /** `new_zeros`. */
    constructor ()
      ensures Valid() && fresh(counts) && history == []
    {
      counts := new (nat, nat)[6](_ => (0, 0));
      history := [];
      new;
      assert counts[..] == After([]);
    }

    /** `increase_syscall_count`. */
    method IncreaseSyscallCount(id: nat) returns (recorded: bool)
      requires Valid()
      modifies this, counts
      ensures Valid() && history == old(history) + [id]
      ensures ZeroIsLast(history) ==> counts[..] == Promised(history)
      ensures ZeroIsLast(history) ==>
                (recorded <==> InFirstSix(history, id))
      ensures !recorded ==> counts[..] == old(counts[..])
    {
      ghost var s: Slots := counts[..];
      CallRecorded(history, id);
      history := history + [id];
      hide After, Distinct, OnlyLastZero, FindSlot, ZeroIsLast, Promised, InFirstSix;
      var i := 0;
      while i < MAX_SYSCALLS_TRACKED
        invariant 0 <= i <= MAX_SYSCALLS_TRACKED && counts[..] == s
        invariant FindSlot(s, id, 0) == FindSlot(s, id, i)
      {
        if counts[i].0 == id || counts[i].0 == 0 {
          counts[i] := (id, counts[i].1 + 1);
          assert counts[..] == Recorded(s, id);
          return true;
        }
        i := i + 1;
      }
      return false;
    }
  }
}
