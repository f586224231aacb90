/**
  The physical page allocator (os/src/mm/page_alloc.rs).

  A `Page` value of the source is the right to use one page; dropping it gives the page back.
  `Live` is the set of pages whose `Page` value exists.  Never-used pages, recycled pages and
  live pages partition the range that the allocator manages.
 */
module PageAlloc {
  import opened Layout
  import opened Memory

  datatype Option<T> = None | Some(value: T)

  predicate NoDup(s: seq<nat>) {
    forall i, j :: 0 <= i < j < |s| ==> s[i] != s[j]
  }

  /** The list `s` holds exactly the pages of `own`, each once. */
  ghost predicate Lists(s: seq<nat>, own: set<nat>) {
    NoDup(s) && forall p :: p in s <==> p in own
  }

  lemma ListsPush(s: seq<nat>, own: set<nat>, p: nat)
    requires Lists(s, own) && p !in own
    ensures Lists(s + [p], own + {p})
  {
  }

  lemma {:induction false} ListsCount(s: seq<nat>, own: set<nat>)
    requires Lists(s, own)
    ensures |s| == |own|
  {
    if s == [] {
      assert forall p :: p in own ==> p in s;
      assert own == {};
    } else {
      var p := s[|s| - 1];
      assert s == s[..|s| - 1] + [p];
      assert p in s;
      forall q ensures q in s[..|s| - 1] <==> q in own - {p} {
        assert q in s <==> q in s[..|s| - 1] || q == p;
      }
      ListsCount(s[..|s| - 1], own - {p});
    }
  }

  /** `compute_first_unused_ppn` for the address of `kernel_end`. */
  function FirstUnusedPpn(kernelEnd: nat): (p: nat)
    requires KERNEL_VA_OFFSET <= kernelEnd
    ensures (p - 1) * PAGE_SIZE < kernelEnd - KERNEL_VA_OFFSET <= p * PAGE_SIZE
  {
    var pa := kernelEnd - KERNEL_VA_OFFSET;
    if pa % PAGE_SIZE == 0 then pa / PAGE_SIZE else (pa + PAGE_SIZE) / PAGE_SIZE
  }

  class PageAllocator {
    ghost const firstPpn: nat
    var nextUnused: nat
    const maxPpn: nat
    var recycled: seq<nat>

    ghost predicate Valid()
      reads this
    {
      && MEM_START_PPN <= firstPpn <= nextUnused <= maxPpn <= MEM_END_PPN
      && NoDup(recycled)
      && (forall i :: 0 <= i < |recycled| ==> firstPpn <= recycled[i] < nextUnused)
    }

    ghost function Live(): set<nat>
      reads this
    {
      set p | firstPpn <= p < nextUnused && p !in recycled
    }

    predicate Exhausted()
      reads this
    {
      recycled == [] && nextUnused == maxPpn
    }

    /** How many pages `alloc` can still hand out. */
    ghost function Free(): int
      reads this
    {
      |recycled| + maxPpn - nextUnused
    }

    /** How many pages there are to hand out at all. */
    ghost function Managed(): int {
      maxPpn - firstPpn
    }

    /** The global `PAGE_ALLOCATOR`. */
    constructor (kernelEnd: nat)
      requires MEM_START_PPN * PAGE_SIZE <= kernelEnd - KERNEL_VA_OFFSET <= MEM_END_PPN * PAGE_SIZE
      ensures Valid() && Live() == {} && Free() == MEM_END_PPN - FirstUnusedPpn(kernelEnd)
      ensures firstPpn == nextUnused == FirstUnusedPpn(kernelEnd) && maxPpn == MEM_END_PPN
    {
      firstPpn := FirstUnusedPpn(kernelEnd);
      nextUnused := FirstUnusedPpn(kernelEnd);
      maxPpn := (MEM_START_PA + MEM_SIZE) / PAGE_SIZE;
      recycled := [];
    }

    /** `alloc`: the most recently recycled page, else the next never-used one. */
    method Alloc() returns (r: Option<nat>)
      requires Valid()
      modifies this
      ensures Valid()
      ensures r.None? <==> old(Exhausted())
      ensures r.None? <==> old(Free()) == 0
      ensures r.None? ==> Live() == old(Live()) && Exhausted()
      ensures r.Some? ==> r.value !in old(Live()) && Live() == old(Live()) + {r.value}
      ensures r.Some? ==> firstPpn <= r.value < maxPpn && IsRam(r.value)
      ensures r.Some? ==> r.value == if old(recycled) != [] then old(recycled)[|old(recycled)| - 1] else old(nextUnused)
      ensures Free() == old(Free()) - if r.Some? then 1 else 0
    {
      if recycled != [] {
        var p := recycled[|recycled| - 1];
        recycled := recycled[..|recycled| - 1];
        assert old(recycled) == recycled + [p];
        return Some(p);
      }
      if nextUnused >= maxPpn {
        return None;
      }
      r := Some(nextUnused);
      nextUnused := nextUnused + 1;
    }

    /** `dealloc`, which `Page::drop` calls. */
    method Dealloc(p: nat)
      requires Valid() && p in Live()
      modifies this
      ensures Valid() && Live() == old(Live()) - {p}
      ensures recycled == old(recycled) + [p] && nextUnused == old(nextUnused) && Free() == old(Free()) + 1
    {
      recycled := recycled + [p];
    }

    /** Dropping a `Vec<Page>`: every page goes back, in order. */
    method DeallocAll(ps: seq<nat>)
      requires Valid() && NoDup(ps) && forall p :: p in ps ==> p in Live()
      modifies this
      ensures Valid() && Live() == old(Live()) - set p | p in ps
      ensures recycled == old(recycled) + ps && nextUnused == old(nextUnused)
    {
      var i := 0;
      while i < |ps|
        invariant 0 <= i <= |ps| && Valid()
        invariant Live() == old(Live()) - set p | p in ps[..i]
        invariant recycled == old(recycled) + ps[..i] && nextUnused == old(nextUnused)
      {
        assert ps[i] in ps && ps[i] !in ps[..i];
        assert ps[..i + 1] == ps[..i] + [ps[i]];
        Dealloc(ps[i]);
        i := i + 1;
      }
      assert ps[..|ps|] == ps;
    }

    /** Dropping a `BTreeMap<VPN, Page>`: every page goes back, in some order. */
    method DeallocMap(m: map<nat, nat>)
      requires Valid()
      requires forall v :: v in m ==> m[v] in Live()
      requires forall v, w :: v in m && w in m && m[v] == m[w] ==> v == w
      modifies this
      ensures Valid() && Live() == old(Live()) - set v | v in m :: m[v]
      ensures nextUnused == old(nextUnused)
    {
      var rest := m;
      while rest != map[]
        invariant forall v :: v in rest ==> v in m && rest[v] == m[v]
        invariant Valid() && nextUnused == old(nextUnused)
        invariant Live() == old(Live()) - Given(m, rest)
        decreases |rest|
      {
        var v :| v in rest;
        GiveOne(m, rest, v);
        Dealloc(rest[v]);
        rest := rest - {v};
      }
      assert Given(m, map[]) == set v | v in m :: m[v];
    }
  }

  /** The pages of `m` that are no longer in `rest`. */
  ghost function Given(m: map<nat, nat>, rest: map<nat, nat>): set<nat> {
    set v | v in m && v !in rest :: m[v]
  }

  lemma GiveOne(m: map<nat, nat>, rest: map<nat, nat>, v: nat)
    requires v in rest && forall u :: u in rest ==> u in m && rest[u] == m[u]
    requires forall u, w :: u in m && w in m && m[u] == m[w] ==> u == w
    ensures rest[v] !in Given(m, rest) && Given(m, rest - {v}) == Given(m, rest) + {rest[v]}
    ensures |rest - {v}| < |rest|
  {
  }

  /** The pages `[lo, hi)`. */
  function PageRange(lo: nat, hi: nat): (r: set<nat>)
    ensures forall p :: p in r <==> lo <= p < hi
  {
    if hi <= lo then {} else PageRange(lo, hi - 1) + {hi - 1}
  }

  lemma {:induction false} RangeSize(lo: nat, hi: nat)
    requires lo <= hi
    ensures |PageRange(lo, hi)| == hi - lo
    decreases hi - lo
  {
    if lo < hi {
      RangeSize(lo, hi - 1);
    }
  }

  /** The pages of a list without duplicates are as many as it is long. */
  lemma {:induction false} ListSize(s: seq<nat>, pages: set<nat>)
    requires NoDup(s) && forall p :: p in pages <==> p in s
    ensures |pages| == |s|
  {
    if s != [] {
      var last, rest := s[|s| - 1], s[..|s| - 1];
      assert s == rest + [last];
      assert NoDup(rest) && last !in rest;
      ListSize(rest, pages - {last});
    } else {
      assert pages == {};
    }
  }

  /** Every managed page is free or in use, and none is both. */
  lemma FreeAndLive(a: PageAllocator)
    requires a.Valid()
    ensures a.Free() + |a.Live()| == a.Managed()
  {
    var used, back := PageRange(a.firstPpn, a.nextUnused), set p | p in a.recycled;
    RangeSize(a.firstPpn, a.nextUnused);
    ListSize(a.recycled, back);
    hide NoDup;
    assert a.Live() == used - back && back <= used;
  }

  /** Recycled, live and never-used pages add up to the managed range, none twice. */
  lemma Partition(a: PageAllocator)
    requires a.Valid()
    ensures multiset(a.recycled) + multiset(a.Live()) + multiset(PageRange(a.nextUnused, a.maxPpn)) ==
              multiset(PageRange(a.firstPpn, a.maxPpn))
  {
    forall p: nat
      ensures multiset(a.recycled)[p] == (if p in a.recycled then 1 else 0)
      ensures p in a.recycled ==> a.firstPpn <= p < a.nextUnused
    {
      NoDupCount(a.recycled, p);
      if p in a.recycled {
        assert p in multiset(a.recycled);
      }
    }
  }

  lemma {:induction false} NoDupCount(s: seq<nat>, p: nat)
    requires NoDup(s)
    ensures multiset(s)[p] <= 1
  {
    if s != [] {
      NoDupCount(s[1..], p);
      assert s == [s[0]] + s[1..];
      if p == s[0] {
        assert p !in s[1..];
      }
    }
  }

  /** `alloc_zeroed_page`: a fresh page, all of whose bytes are zero. */
  method AllocZeroedPage(a: PageAllocator, mem: PhysMem) returns (r: Option<nat>)
    requires a.Valid() && mem.Valid()
    modifies a, mem
    ensures a.Valid() && mem.Valid()
    ensures r.None? <==> old(a.Exhausted())
    ensures a.Free() == old(a.Free()) - if r.Some? then 1 else 0
    ensures r.None? ==>
              a.Exhausted() && a.Live() == old(a.Live()) && mem.frames == old(mem.frames)
                  && mem.tables == old(mem.tables)
    ensures r.Some? ==> r.value !in old(a.Live()) && a.Live() == old(a.Live()) + {r.value}
    ensures r.Some? ==> a.firstPpn <= r.value < a.maxPpn && IsRam(r.value)
    ensures r.Some? ==> mem.frames == old(mem.frames)[r.value := ZeroFrame()]
    ensures r.Some? ==> mem.tables == old(mem.tables)[r.value := ZeroTable()]
  {
    r := a.Alloc();
    if r.Some? {
      mem.Zero(r.value);
    }
  }
}
