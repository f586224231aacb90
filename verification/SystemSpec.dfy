/**
  All spaces together: the invariant of the memory system, and that an operation on one space
  cannot be seen from another.
 */
module SystemSpec {
  import opened Layout
  import opened Pte
  import opened Memory
  import opened Walk
  import opened PageAlloc
  import opened PgtSpec
  import opened Areas
  import opened SpaceSpec
  import opened LoadSpec
  import opened KernelMap

  /** Every live page belongs to the kernel's table or to exactly one space; every space is in
      agreement with itself, shares only the kernel's tables, and sees the kernel's upper half. */
  ghost predicate SystemOk(w: World, k: Pgt, ss: seq<Space>) {
    && PgtOk(w, k) && KernelOnly(w.tables, k)
    && (forall i :: 0 <= i < |ss| ==> SpaceOk(w, ss[i]) && HasStop(w, ss[i]))
    && Partitioned(w.live, k, ss)
    && (forall i :: 0 <= i < |ss| ==> SeesKernel(w.tables, k, ss[i]))
  }

  ghost predicate Partitioned(live: set<nat>, k: Pgt, ss: seq<Space>) {
    && (forall i :: 0 <= i < |ss| ==> Owned(ss[i]) !! k.own && Shared(ss[i].pgt) <= k.own)
    && (forall i, j :: 0 <= i < j < |ss| ==> Owned(ss[i]) !! Owned(ss[j]))
    && (forall p :: p in live <==> p in k.own || exists i :: 0 <= i < |ss| && p in Owned(ss[i]))
  }

  ghost predicate SeesKernel(t: Tables, k: Pgt, s: Space) {
    forall v :: IsUpper(v) ==> Lookup(t, s.pgt.root, v) == Lookup(t, k.root, v)
  }

  /** A space whose tables and data pages keep their contents is as before, byte for byte. */
  ghost predicate Untouched(w: World, w': World, s: Space) {
    && (forall v: nat :: Lookup(w'.tables, s.pgt.root, v) == Lookup(w.tables, s.pgt.root, v))
    && (forall v: nat :: Translate(w'.tables, s.pgt.root, v) == Translate(w.tables, s.pgt.root, v))
    && (forall p :: p in s.data && p in w.frames ==> p in w'.frames && w'.frames[p] == w.frames[p])
  }

  lemma TablesKept(w: World, g: Pgt, w': World, kept: set<nat>)
    requires PgtOk(w, g) && WorldOk(w') && SameOn(w, w', kept) && g.role.Keys <= kept && g.role.Keys <= w'.live
    ensures PgtOk(w', g)
    ensures forall v: nat :: Lookup(w'.tables, g.root, v) == Lookup(w.tables, g.root, v)
    ensures forall v: nat :: Translate(w'.tables, g.root, v) == Translate(w.tables, g.root, v)
    ensures HasLeafTable(w.tables, g.root, 255, 511) ==> HasLeafTable(w'.tables, g.root, 255, 511)
  {
    hide Lookup, HasLeafTable, Translate, SlotOk;
    PgtFrame(w, g, w');
    assert Near(255, 511, 0);
    forall v: nat ensures Translate(w'.tables, g.root, v) == Translate(w.tables, g.root, v) {
      WalksAgree(w.tables, g.root, g.role, v);
      WalksAgree(w'.tables, g.root, g.role, v);
    }
  }

  /** Another space's step leaves this space as it was. */
  lemma Isolated(w: World, s: Space, w': World, kept: set<nat>)
    requires SpaceOk(w, s) && HasStop(w, s) && WorldOk(w') && SameOn(w, w', kept)
    requires s.pgt.role.Keys + s.data.Keys <= kept && kept <= w'.live
    ensures SpaceOk(w', s) && HasStop(w', s) && Untouched(w, w', s)
  {
    hide Lookup, HasLeafTable, Translate, PgtOk, AreasOk, DataOk, CellAt, WorldOk;
    OwnParts(w, s);
    TablesKept(w, s.pgt, w', kept);
  }

  /** What the pages of a space or of the kernel's table are kept by. */
  lemma OthersKeep(live: set<nat>, k: Pgt, ss: seq<Space>, i: nat, j: nat)
    requires Partitioned(live, k, ss) && i < |ss| && j < |ss| && i != j
    requires ss[j].pgt.role.Keys == ss[j].pgt.own + Shared(ss[j].pgt)
    ensures ss[j].pgt.role.Keys + ss[j].data.Keys <= live - Owned(ss[i])
    ensures k.own <= live - Owned(ss[i])
  {
  }

  lemma RoleSplit(w: World, g: Pgt)
    requires PgtOk(w, g)
    ensures g.role.Keys == g.own + Shared(g)
  {
    hide Tree;
  }

  lemma PartitionStep(live: set<nat>, k: Pgt, ss: seq<Space>, i: nat, live': set<nat>, s': Space)
    requires Partitioned(live, k, ss) && i < |ss|
    requires live' - Owned(s') == live - Owned(ss[i]) && Shared(s'.pgt) <= Shared(ss[i].pgt) && Owned(s') <= live'
    ensures Partitioned(live', k, ss[i := s'])
  {
    hide Owned, Shared;
    var ss' := ss[i := s'];
    StaysApart(live, k, ss, i, live', s');
    hide Partitioned;
    forall p ensures p in live' <==> p in k.own || exists j :: 0 <= j < |ss'| && p in Owned(ss'[j]) {
      OwnerStep(live, k, ss, i, live', s', ss', p);
    }
    forall a, b | 0 <= a < b < |ss'| ensures Owned(ss'[a]) !! Owned(ss'[b]) {
      if a != i && b != i {
        assert ss'[a] == ss[a] && ss'[b] == ss[b];
        PartsApart(live, k, ss, a, b);
      }
    }
    forall j | 0 <= j < |ss'| ensures Owned(ss'[j]) !! k.own && Shared(ss'[j].pgt) <= k.own {
      PartsApart(live, k, ss, j, j);
    }
    PartitionedMeans(live', k, ss');
  }

  lemma PartitionedMeans(live: set<nat>, k: Pgt, ss: seq<Space>)
    requires forall i :: 0 <= i < |ss| ==> Owned(ss[i]) !! k.own && Shared(ss[i].pgt) <= k.own
    requires forall i, j :: 0 <= i < j < |ss| ==> Owned(ss[i]) !! Owned(ss[j])
    requires forall p :: p in live <==> p in k.own || exists i :: 0 <= i < |ss| && p in Owned(ss[i])
    ensures Partitioned(live, k, ss)
  {
    hide Owned, Shared;
  }

  lemma PartsApart(live: set<nat>, k: Pgt, ss: seq<Space>, a: nat, b: nat)
    requires Partitioned(live, k, ss) && a <= b < |ss|
    ensures a < b ==> Owned(ss[a]) !! Owned(ss[b])
    ensures Owned(ss[a]) !! k.own && Shared(ss[a].pgt) <= k.own
  {
    hide Owned, Shared;
  }

  /** The new pages of space `i` are nobody else's. */
  lemma StaysApart(live: set<nat>, k: Pgt, ss: seq<Space>, i: nat, live': set<nat>, s': Space)
    requires Partitioned(live, k, ss) && i < |ss| && live' - Owned(s') == live - Owned(ss[i])
    ensures Owned(s') !! k.own && forall j :: 0 <= j < |ss| && j != i ==> Owned(ss[j]) !! Owned(s')
  {
    hide Owned, Shared;
    assert forall p :: p in Owned(s') ==> p !in live - Owned(ss[i]);
    forall j, p | 0 <= j < |ss| && j != i && p in Owned(ss[j]) ensures p !in Owned(s') {
      PairApart(live, k, ss, i, j);
      assert p in live - Owned(ss[i]);
    }
    forall p | p in k.own ensures p !in Owned(s') {
      assert p in live - Owned(ss[i]);
    }
  }

  lemma OwnerStep(live: set<nat>, k: Pgt, ss: seq<Space>, i: nat, live': set<nat>, s': Space, ss': seq<Space>, p: nat)
    requires Partitioned(live, k, ss) && i < |ss| && ss' == ss[i := s'] && live' - Owned(s') == live - Owned(ss[i])
             && Owned(s') <= live'
    ensures p in live' <==> p in k.own || exists j :: 0 <= j < |ss| && p in Owned(ss'[j])
  {
    hide Owned, Shared;
    if p in Owned(s') {
      assert p in Owned(ss'[i]);
    } else if p in live' {
      assert p in live - Owned(ss[i]);
      if p !in k.own {
        var j :| 0 <= j < |ss| && p in Owned(ss[j]);
        assert p in Owned(ss'[j]);
      }
    } else {
      assert p !in live - Owned(ss[i]);
      forall j | 0 <= j < |ss| && j != i ensures p !in Owned(ss'[j]) {
        PairApart(live, k, ss, i, j);
      }
    }
  }

  lemma PairApart(live: set<nat>, k: Pgt, ss: seq<Space>, i: nat, j: nat)
    requires Partitioned(live, k, ss) && i < |ss| && j < |ss| && i != j
    ensures Owned(ss[i]) !! Owned(ss[j]) && Owned(ss[j]) <= live && Owned(ss[i]) !! k.own && k.own <= live
  {
    hide Owned, Shared;
    PartsApart(live, k, ss, if i < j then i else j, if i < j then j else i);
  }

  /** The spaces other than the one at `i` are as they were, and all that their users can read is
      too. */
  ghost predicate OthersUntouched(w: World, ss: seq<Space>, w': World, ss': seq<Space>, i: nat) {
    |ss'| == |ss| && forall j :: 0 <= j < |ss| && j != i ==> ss'[j] == ss[j] && Untouched(w, w', ss[j])
  }

  /** One space has come, and the others are as they were. */
  ghost predicate OneMoreSpace(w: World, ss: seq<Space>, w': World, ss': seq<Space>) {
    |ss'| == |ss| + 1 && forall j :: 0 <= j < |ss| ==> ss'[j] == ss[j] && Untouched(w, w', ss[j])
  }

  lemma OthersUntouchedItself(w: World, ss: seq<Space>, i: nat)
    ensures OthersUntouched(w, ss, w, ss, i)
  {
    hide Lookup, Translate;
  }

  lemma OthersOn(w0: World, ss0: seq<Space>, w1: World, ss1: seq<Space>, w2: World, ss2: seq<Space>, i: nat)
    requires OthersUntouched(w0, ss0, w1, ss1, i) && OthersUntouched(w1, ss1, w2, ss2, i)
    ensures OthersUntouched(w0, ss0, w2, ss2, i)
  {
    hide Untouched;
    forall j | 0 <= j < |ss0| && j != i ensures Untouched(w0, w2, ss0[j]) {
      assert Untouched(w1, w2, ss1[j]);
      UntouchedTrans(w0, w1, w2, ss0[j]);
    }
  }

  /** An operation on space `i` keeps the system's invariant, and leaves the kernel's table and
      every other space exactly as they were. */
  lemma SystemStep(w: World, k: Pgt, ss: seq<Space>, i: nat, w': World, s': Space)
    requires SystemOk(w, k, ss) && i < |ss|
    requires SpaceOk(w', s') && HasStop(w', s') && WorldOk(w')
    requires Others(w, ss[i], w', s') && SameUpper(w.tables, w'.tables, ss[i].pgt.root)
    ensures SystemOk(w', k, ss[i := s'])
    ensures forall j :: 0 <= j < |ss| && j != i ==> Untouched(w, w', ss[j])
    ensures forall v: nat :: Translate(w'.tables, k.root, v) == Translate(w.tables, k.root, v)
  {
    hide PgtOk, Lookup, HasLeafTable, Translate, Agrees, AreasOk, DataOk, WorldOk, KeepsBytes, SameOn, KernelOnly,
      Untouched;
    var kept := w.live - Owned(ss[i]);
    assert kept <= w'.live;
    OwnedLive(w', s');
    PartitionStep(w.live, k, ss, i, w'.live, s');
    KernelKept(w, k, w', kept, ss, i);
    forall j | 0 <= j < |ss| && j != i
      ensures SpaceOk(w', ss[j]) && HasStop(w', ss[j]) && Untouched(w, w', ss[j]) && SeesKernel(w'.tables, k, ss[j])
    {
      OwnParts(w, ss[j]);
      RoleSplit(w, ss[j].pgt);
      OthersKeep(w.live, k, ss, i, j);
      Isolated(w, ss[j], w', kept);
      SeesStill(w, w', k, ss[j]);
    }
    SeesAfter(w, w', k, ss[i], s');
  }

  lemma OwnedLive(w: World, s: Space)
    requires OwnOk(w, s)
    ensures Owned(s) <= w.live
  {
    hide Tree, AreasOk, DataOk;
  }

  lemma KernelKept(w: World, k: Pgt, w': World, kept: set<nat>, ss: seq<Space>, i: nat)
    requires PgtOk(w, k) && KernelOnly(w.tables, k) && WorldOk(w') && SameOn(w, w', kept) && kept <= w'.live
    requires Partitioned(w.live, k, ss) && i < |ss| && kept == w.live - Owned(ss[i])
    ensures PgtOk(w', k) && KernelOnly(w'.tables, k)
    ensures forall v: nat :: Lookup(w'.tables, k.root, v) == Lookup(w.tables, k.root, v)
    ensures forall v: nat :: Translate(w'.tables, k.root, v) == Translate(w.tables, k.root, v)
  {
    hide PgtOk, Lookup, HasLeafTable, Translate, WorldOk, SameOn;
    assert Owned(ss[i]) !! k.own;
    assert k.own <= kept;
    TablesKept(w, k, w', kept);
  }

  lemma SeesStill(w: World, w': World, k: Pgt, s: Space)
    requires SeesKernel(w.tables, k, s) && Untouched(w, w', s)
    requires forall v: nat :: Lookup(w'.tables, k.root, v) == Lookup(w.tables, k.root, v)
    ensures SeesKernel(w'.tables, k, s)
  {
    hide Lookup, Translate;
  }

  lemma SeesAfter(w: World, w': World, k: Pgt, s: Space, s': Space)
    requires SeesKernel(w.tables, k, s) && SameUpper(w.tables, w'.tables, s.pgt.root) && s'.pgt.root == s.pgt.root
    requires forall v: nat :: Lookup(w'.tables, k.root, v) == Lookup(w.tables, k.root, v)
    ensures SeesKernel(w'.tables, k, s')
  {
    hide Lookup;
  }

  // A space comes and a space goes.

  /** A new space takes pages that were not live. */
  lemma SystemGrows(w: World, k: Pgt, ss: seq<Space>, w': World, s': Space)
    requires SystemOk(w, k, ss) && WorldOk(w') && SameOn(w, w', w.live)
    requires SpaceOk(w', s') && HasStop(w', s') && Owned(s') !! w.live && w'.live == w.live + Owned(s')
             && Shared(s'.pgt) <= k.own
    requires forall v :: IsUpper(v) ==> Lookup(w'.tables, s'.pgt.root, v) == Lookup(w.tables, k.root, v)
    ensures SystemOk(w', k, ss + [s'])
    ensures forall j :: 0 <= j < |ss| ==> Untouched(w, w', ss[j])
    ensures forall v: nat :: Translate(w'.tables, k.root, v) == Translate(w.tables, k.root, v)
  {
    hide PgtOk, Lookup, HasLeafTable, Translate, Agrees, AreasOk, DataOk, WorldOk, SameOn, KernelOnly, Untouched;
    var ss' := ss + [s'];
    NewPartition(w.live, k, ss, w'.live, s');
    KernelOwnLive(w, k);
    TablesKept(w, k, w', w.live);
    KernelOnlyStill(w, w', k);
    forall j | 0 <= j < |ss|
      ensures SpaceOk(w', ss[j]) && HasStop(w', ss[j]) && Untouched(w, w', ss[j]) && SeesKernel(w'.tables, k, ss[j])
    {
      SpaceLive(w, ss[j]);
      Isolated(w, ss[j], w', w.live);
      SeesStill(w, w', k, ss[j]);
    }
  }

  lemma KernelOwnLive(w: World, k: Pgt)
    requires PgtOk(w, k)
    ensures k.role.Keys <= w.live
  {
    hide Tree;
  }

  lemma KernelOnlyStill(w: World, w': World, k: Pgt)
    requires KernelOnly(w.tables, k) && forall v: nat :: Lookup(w'.tables, k.root, v) == Lookup(w.tables, k.root, v)
    ensures KernelOnly(w'.tables, k)
  {
    hide Lookup;
  }

  lemma SpaceLive(w: World, s: Space)
    requires OwnOk(w, s)
    ensures s.pgt.role.Keys + s.data.Keys <= w.live
  {
    hide Tree, AreasOk, DataOk;
  }

  lemma NewPartition(live: set<nat>, k: Pgt, ss: seq<Space>, live': set<nat>, s': Space)
    requires Partitioned(live, k, ss) && Owned(s') !! live && live' == live + Owned(s') && Shared(s'.pgt) <= k.own
    ensures Partitioned(live', k, ss + [s'])
  {
    var ss' := ss + [s'];
    forall a, b | 0 <= a < b < |ss'| ensures Owned(ss'[a]) !! Owned(ss'[b]) {
      if b < |ss| {
        assert Owned(ss[a]) !! Owned(ss[b]);
      } else {
        assert forall p :: p in Owned(ss[a]) ==> p in live;
      }
    }
    forall p ensures p in live' <==> p in k.own || exists j :: 0 <= j < |ss'| && p in Owned(ss'[j]) {
      if p in live && p !in k.own {
        var j :| 0 <= j < |ss| && p in Owned(ss[j]);
        assert ss'[j] == ss[j];
      }
      if p in Owned(s') {
        assert ss'[|ss|] == s';
      }
      if j :| 0 <= j < |ss'| && p in Owned(ss'[j]) {
        assert j < |ss| ==> p in Owned(ss[j]);
      }
    }
  }

  function RemoveAt<T>(s: seq<T>, i: nat): (r: seq<T>)
    requires i < |s|
    ensures |r| == |s| - 1
    ensures forall j :: 0 <= j < |r| ==> r[j] == s[if j < i then j else j + 1]
    ensures forall j :: 0 <= j < |s| && j != i ==> r[if j < i then j else j - 1] == s[j]
  {
    s[..i] + s[i + 1..]
  }

  /** A dropped space gives back exactly its own pages. */
  lemma SystemShrinks(w: World, k: Pgt, ss: seq<Space>, i: nat, w': World)
    requires SystemOk(w, k, ss) && i < |ss| && WorldOk(w')
    requires w'.tables == w.tables && w'.frames == w.frames && w'.live == w.live - Owned(ss[i])
    ensures SystemOk(w', k, RemoveAt(ss, i))
    ensures forall j :: 0 <= j < |ss| && j != i ==> Untouched(w, w', ss[j])
    ensures forall v: nat :: Translate(w'.tables, k.root, v) == Translate(w.tables, k.root, v)
  {
    hide PgtOk, Lookup, HasLeafTable, Translate, Agrees, AreasOk, DataOk, WorldOk, KernelOnly, Untouched, SameOn,
      RemoveAt, Partitioned, Owned;
    var ss' := RemoveAt(ss, i);
    var kept := w.live - Owned(ss[i]);
    SameEverywhere(w, w', kept);
    LessPartition(w.live, k, ss, i);
    KernelKept(w, k, w', kept, ss, i);
    forall j | 0 <= j < |ss| && j != i
      ensures SpaceOk(w', ss[j]) && HasStop(w', ss[j]) && Untouched(w, w', ss[j]) && SeesKernel(w'.tables, k, ss[j])
    {
      OwnParts(w, ss[j]);
      RoleSplit(w, ss[j].pgt);
      OthersKeep(w.live, k, ss, i, j);
      Isolated(w, ss[j], w', kept);
      SeesStill(w, w', k, ss[j]);
    }
    forall j | 0 <= j < |ss'| ensures SpaceOk(w', ss'[j]) && HasStop(w', ss'[j]) && SeesKernel(w'.tables, k, ss'[j]) {
      assert ss'[j] == ss[if j < i then j else j + 1];
    }
  }

  lemma SameEverywhere(w: World, w': World, kept: set<nat>)
    requires w'.tables == w.tables && w'.frames == w.frames
    ensures SameOn(w, w', kept)
  {
  }

  lemma LessPartition(live: set<nat>, k: Pgt, ss: seq<Space>, i: nat)
    requires Partitioned(live, k, ss) && i < |ss|
    ensures Partitioned(live - Owned(ss[i]), k, RemoveAt(ss, i))
  {
    hide RemoveAt, Owned, Shared;
  }

  // User stores.

  /** A store that the space's own translation grants writes to one of the space's data pages,
      so it changes no translation and nothing that belongs to somebody else. */
  lemma UserStore(w: World, s: Space, v: nat, w': World)
    requires SpaceOk(w, s) && HasStop(w, s) && v < LOWER_END && Translate(w.tables, s.pgt.root, v).Hit? && WorldOk(w')
    requires var p := Translate(w.tables, s.pgt.root, v).ppn;
             && (forall q :: q in w.tables && q != p ==> q in w'.tables && w'.tables[q] == w.tables[q])
             && (forall q :: q in w.frames && q != p ==> q in w'.frames && w'.frames[q] == w.frames[q])
    requires w'.live == w.live
    ensures SpaceOk(w', s) && HasStop(w', s) && Others(w, s, w', s) && SameUpper(w.tables, w'.tables, s.pgt.root)
    ensures forall u: nat :: Translate(w'.tables, s.pgt.root, u) == Translate(w.tables, s.pgt.root, u)
    ensures Translate(w.tables, s.pgt.root, v).ppn in s.data && s.data[Translate(w.tables, s.pgt.root, v).ppn] == v
  {
    var p := Translate(w.tables, s.pgt.root, v).ppn;
    TranslationIsAreas(w, s, v);
    hide Lookup, HasLeafTable, Translate, PgtOk, AreasOk, CellAt, WorldOk;
    assert p in s.data && s.data[p] == v;
    OwnParts(w, s);
    SpaceLive(w, s);
    TablesKept(w, s.pgt, w', s.pgt.role.Keys);
  }

  lemma SystemMeans(w: World, k: Pgt, ss: seq<Space>, i: nat)
    requires SystemOk(w, k, ss) && i < |ss|
    ensures SpaceOk(w, ss[i]) && HasStop(w, ss[i]) && WorldOk(w) && PgtOk(w, k) && KernelOnly(w.tables, k)
  {
    hide SpaceOk, HasStop, Tree, Partitioned, SeesKernel, KernelOnly;
  }

  lemma StepMeans(w: World, s: Space, w': World, s': Space)
    requires Step(w, s, w', s') && HasStop(w, s)
    ensures Others(w, s, w', s') && SameUpper(w.tables, w'.tables, s.pgt.root) && HasStop(w', s')
            && KeepsBytes(w, s, w', s')
  {
    hide Others, SameUpper, HasStop, KeepsBytes;
  }

  /** What the removal of a range of cells means for the hardware. */
  lemma RemovedTranslations(w: World, s: Space, w': World, s': Space, lo: nat, hi: nat)
    requires SpaceOk(w, s) && SpaceOk(w', s') && s'.pgt.root == s.pgt.root
    requires forall v: nat :: CellAt(s'.areas, v) == if lo <= v < hi then Nowhere else CellAt(s.areas, v)
    ensures forall v: nat :: v < LOWER_END ==>
              Translate(w'.tables, s.pgt.root, v) == if lo <= v < hi then Fault else Translate(w.tables, s.pgt.root, v)
  {
    hide SpaceOk, Translate, CellAt, HasR, HasX;
    forall v: nat | v < LOWER_END
      ensures Translate(w'.tables, s.pgt.root, v) == if lo <= v < hi then Fault else Translate(w.tables, s.pgt.root, v)
    {
      TranslationIsAreas(w, s, v);
      TranslationIsAreas(w', s', v);
    }
  }

  lemma KernelMeans(w: World, k: Pgt, ss: seq<Space>)
    requires SystemOk(w, k, ss)
    ensures WorldOk(w) && PgtOk(w, k) && KernelOnly(w.tables, k)
  {
    hide SpaceOk, HasStop, Tree, Partitioned, SeesKernel, KernelOnly;
  }

  lemma SpaceHolds(w: World, s: Space)
    requires SpaceOk(w, s)
    ensures OwnOk(w, s)
  {
    hide OwnOk, Agrees;
  }

  /** Only pages that nobody holds were written. */
  lemma SystemSame(w: World, k: Pgt, ss: seq<Space>, w': World)
    requires SystemOk(w, k, ss) && WorldOk(w') && SameOn(w, w', w.live) && w'.live == w.live
    ensures SystemOk(w', k, ss)
    ensures forall j :: 0 <= j < |ss| ==> Untouched(w, w', ss[j])
    ensures forall v: nat :: Translate(w'.tables, k.root, v) == Translate(w.tables, k.root, v)
  {
    hide PgtOk, Lookup, HasLeafTable, Translate, Agrees, AreasOk, DataOk, WorldOk, SameOn, KernelOnly, Untouched;
    KernelOwnLive(w, k);
    TablesKept(w, k, w', w.live);
    KernelOnlyStill(w, w', k);
    forall j | 0 <= j < |ss|
      ensures SpaceOk(w', ss[j]) && HasStop(w', ss[j]) && Untouched(w, w', ss[j]) && SeesKernel(w'.tables, k, ss[j])
    {
      SpaceLive(w, ss[j]);
      Isolated(w, ss[j], w', w.live);
      SeesStill(w, w', k, ss[j]);
    }
  }

  lemma UntouchedTrans(w0: World, w1: World, w2: World, s: Space)
    requires Untouched(w0, w1, s) && Untouched(w1, w2, s)
    ensures Untouched(w0, w2, s)
  {
    hide Lookup, Translate;
  }

  /** A program stays where it is, byte for byte, while others run. */
  lemma StaysUntouched(w: World, s: Space, w': World, elf: seq<byte>, segments: seq<Segment>)
    requires SpaceOk(w, s) && Untouched(w, w', s) && ProgramIn(w, s, elf, segments)
    ensures ProgramIn(w', s, elf, segments)
  {
    hide CellAt, SpaceOk, Untouched, OnlyFrom, ZeroFrame;
    forall v: nat | CellAt(s.areas, v).InArea? && CellAt(s.areas, v).page.Some?
           && CellAt(s.areas, v).page.value in w.frames
      ensures var p := CellAt(s.areas, v).page.value; p in w'.frames && w'.frames[p] == w.frames[p]
    {
      PageStays(w, s, w', v);
    }
    hide SegmentFrame;
    forall i | 0 <= i < |segments| && segments[i].load ensures Loaded(w', s, elf, segments[i]) {
      assert Loaded(w, s, elf, segments[i]);
    }
  }

  lemma PageStays(w: World, s: Space, w': World, v: nat)
    requires SpaceOk(w, s) && Untouched(w, w', s) && CellAt(s.areas, v).InArea? && CellAt(s.areas, v).page.Some?
    requires CellAt(s.areas, v).page.value in w.frames
    ensures var p := CellAt(s.areas, v).page.value; p in w'.frames && w'.frames[p] == w.frames[p]
  {
    hide Lookup, Translate, PgtOk, Agrees;
  }

  // What the invariant says.

  /** In every space a lower-half page number is translated exactly if one area contains it and
      holds a page for it, to that page and with that area's permissions; and that area is the
      only one that contains it. */
  lemma SpacesAreTheirAreas(w: World, k: Pgt, ss: seq<Space>, i: nat, v: nat, p: nat, flags: nat)
    requires SystemOk(w, k, ss) && i < |ss| && v < LOWER_END
    ensures Translate(w.tables, ss[i].pgt.root, v) == Hit(p, flags) <==>
            exists a: nat ::
              && a < |ss[i].areas| && ss[i].areas[a].Contains(v)
              && v in ss[i].areas[a].pages && ss[i].areas[a].pages[v] == p
                 && ss[i].areas[a].permissions + FLAG_V == flags
              && (HasR(ss[i].areas[a].permissions) || HasX(ss[i].areas[a].permissions))
              && (forall b: nat :: b < |ss[i].areas| && ss[i].areas[b].Contains(v) ==> b == a)
  {
    hide SeesKernel, Partitioned, Translate, PgtOk, KernelOnly, HasStop, HasR, HasX;
    var s := ss[i];
    TranslationIsAreas(w, s, v);
    if a: nat :| a < |s.areas| && s.areas[a].Contains(v) {
      CellOf(s.areas, a, v);
      OwnParts(w, s);
      assert forall b: nat :: b < |s.areas| && s.areas[b].Contains(v) ==> b == a;
    } else {
      CellNowhere(s.areas, v);
    }
  }

  /** In the upper half every space translates as the kernel's own table does. */
  lemma UpperIsKernels(w: World, k: Pgt, ss: seq<Space>, i: nat, v: nat)
    requires SystemOk(w, k, ss) && i < |ss| && IsUpper(v)
    ensures Translate(w.tables, ss[i].pgt.root, v) == Translate(w.tables, k.root, v)
  {
    hide Lookup, Translate, Partitioned, Agrees, AreasOk, DataOk, HasStop, KernelOnly;
    WalksAgree(w.tables, k.root, k.role, v);
    assert SpaceOk(w, ss[i]) && SeesKernel(w.tables, k, ss[i]);
    OwnParts(w, ss[i]);
    WalksAgree(w.tables, ss[i].pgt.root, ss[i].pgt.role, v);
  }

  /** No free page is reachable: what a lower-half page number translates to is a live page of
      that space and of no other, and every table of its tree is live too. */
  lemma NothingFreeIsMapped(w: World, k: Pgt, ss: seq<Space>, i: nat, v: nat)
    requires SystemOk(w, k, ss) && i < |ss| && v < LOWER_END
    ensures ss[i].pgt.role.Keys <= w.live
    ensures Translate(w.tables, ss[i].pgt.root, v).Hit? ==>
              var p := Translate(w.tables, ss[i].pgt.root, v).ppn;
              && p in w.live && p in Owned(ss[i]) && p !in k.own && p !in ss[i].pgt.role
              && forall j :: 0 <= j < |ss| && j != i ==> p !in Owned(ss[j])
  {
    hide Lookup, Translate, Agrees, AreasOk, HasStop, KernelOnly, CellAt, SeesKernel;
    SystemMeans(w, k, ss, i);
    TranslationIsAreas(w, ss[i], v);
    SpaceLive(w, ss[i]);
    assert Owned(ss[i]) !! k.own;
    forall j | 0 <= j < |ss| && j != i ensures Owned(ss[j]) !! Owned(ss[i]) {
      if j < i { assert Owned(ss[j]) !! Owned(ss[i]); } else { assert Owned(ss[i]) !! Owned(ss[j]); }
    }
  }

  /** Every page that the allocator can hand out is readable and writable, not executable and not for
      the user, at its linear address in every user space. */
  lemma LinearEverywhere(w: World, k: Pgt, ss: seq<Space>, i: nat, image: Image, p: nat)
    requires SystemOk(w, k, ss) && i < |ss| && ImageOk(image) && FirstUnusedPpn(image.kernelEnd) <= p < MEM_END_PPN
    requires forall v :: IsVpn(v) ==> Translate(w.tables, k.root, v) == Expected(Regions(image), 12, v)
    ensures Translate(w.tables, k.root, LinearVpn(p)) == Hit(p, RW + FLAG_V)
    ensures Translate(w.tables, ss[i].pgt.root, LinearVpn(p)) == Hit(p, RW + FLAG_V)
    ensures var va := p * 4096 + 0xffff_ffc0_0000_0000;
            va / 4096 == LinearVpn(p)
                && Linear(Translate(w.tables, ss[i].pgt.root, va / 4096), va, true, true, false)
  {
    hide Lookup, Translate, Partitioned, Agrees, AreasOk, DataOk, HasStop, KernelOnly, Expected, Regions;
    AllocatableIsMapped(image, p);
    WalksAgree(w.tables, k.root, k.role, LinearVpn(p));
    assert SpaceOk(w, ss[i]) && SeesKernel(w.tables, k, ss[i]);
    OwnParts(w, ss[i]);
    WalksAgree(w.tables, ss[i].pgt.root, ss[i].pgt.role, LinearVpn(p));
  }

  /** Ownership is conserved: the never-used pages, the recycled ones, the kernel's tables and
      what each space owns partition the allocator's range. */
  lemma OwnershipIsPartition(alloc: PageAllocator, mem: PhysMem, k: Pgt, ss: seq<Space>, p: nat)
    requires alloc.Valid() && mem.Valid() && SystemOk(WorldOf(mem, alloc), k, ss) && alloc.firstPpn <= p < alloc.maxPpn
    ensures var unused := alloc.nextUnused <= p;
            var free := p in alloc.recycled;
            var kernel := p in k.own;
            && (unused || free || kernel || exists i :: 0 <= i < |ss| && p in Owned(ss[i]))
            && !(unused && free) && !(unused && kernel) && !(free && kernel)
            && (forall i :: 0 <= i < |ss| && p in Owned(ss[i]) ==> !unused && !free && !kernel)
            && (forall i, j :: 0 <= i < |ss| && 0 <= j < |ss| && p in Owned(ss[i]) && p in Owned(ss[j]) ==> i == j)
  {
    hide Tree, KernelOnly, SpaceOk, HasStop, SeesKernel, Views;
  }
}
