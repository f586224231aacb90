/**
  Physical memory as the kernel sees it through its linear map: raw bytes, page by page.

  Page tables live in the same bytes as data.  The ghost field `tables` is the view of every
  page as 512 entries; `Valid` ties it to the bytes, so writing an entry and writing a byte
  act on one memory.
 */
module Memory {
  import opened Layout
  import opened Pte

  type Frame = seq<byte>
  type Tables = map<nat, seq<PTE>>

  function EntryIn(f: Frame, i: nat): PTE
    requires |f| == PAGE_SIZE && i < PTES_PER_TABLE
  {
    DecodeEntry(f[8 * i..8 * i + 8])
  }

  function PutEntry(f: Frame, i: nat, e: PTE): (g: Frame)
    requires |f| == PAGE_SIZE && i < PTES_PER_TABLE && e.Fits()
    ensures |g| == PAGE_SIZE
  {
    f[..8 * i] + EncodeEntry(e) + f[8 * i + 8..]
  }

  /** Entry `i` of a table is in the eight bytes from byte `8 * i` on. */
  lemma EntryBytes(f: Frame, i: nat)
    requires |f| == 4096 && i < 512
    ensures var (e, k) := (EntryIn(f, i), 8 * i);
            && e.flags < 0x400 && e.ppn < 0x1000_0000_0000 && e.reserved < 0x400
            && e.flags + 0x400 * e.ppn + 0x40_0000_0000_0000 * e.reserved
            == (f[k] as int) + 0x100 * (f[k + 1] as int) + 0x1_0000 * (f[k + 2] as int) + 0x100_0000 * (f[k + 3] as int)
               + 0x1_0000_0000 * (f[k + 4] as int) + 0x100_0000_0000 * (f[k + 5] as int)
               + 0x1_0000_0000_0000 * (f[k + 6] as int) + 0x100_0000_0000_0000 * (f[k + 7] as int)
  {
    hide DecodeEntry;
    EntryLayout(f[8 * i..8 * i + 8]);
  }

  /** Writing one entry changes that entry and no other. */
  lemma PutEntryLocal(f: Frame, i: nat, e: PTE, j: nat)
    requires |f| == PAGE_SIZE && i < PTES_PER_TABLE && e.Fits() && j < PTES_PER_TABLE
    ensures EntryIn(PutEntry(f, i, e), j) == if i == j then e else EntryIn(f, j)
  {
    var g := PutEntry(f, i, e);
    if i == j {
      assert g[8 * j..8 * j + 8] == EncodeEntry(e);
      EntryRoundTrip(e);
    } else {
      assert g[8 * j..8 * j + 8] == f[8 * j..8 * j + 8];
    }
  }

  function SetByte(f: Frame, k: nat, b: byte): (g: Frame)
    requires k < |f|
    ensures |g| == |f| && g[k] == b
    ensures forall j :: 0 <= j < |f| && j != k ==> g[j] == f[j]
  {
    f[..k] + [b] + f[k + 1..]
  }

  function ZeroTable(): (t: seq<PTE>)
    ensures |t| == PTES_PER_TABLE
    ensures forall i :: 0 <= i < PTES_PER_TABLE ==> t[i] == ZERO
  {
    seq(PTES_PER_TABLE, i => ZERO)
  }

  function ZeroFrame(): (f: Frame)
    ensures |f| == PAGE_SIZE
    ensures forall k :: 0 <= k < PAGE_SIZE ==> f[k] == 0
  {
    seq(PAGE_SIZE, i => 0)
  }

  /** A page of zero bytes is an empty page table. */
  lemma ZeroFrameIsEmptyTable(i: nat)
    requires i < PTES_PER_TABLE
    ensures EntryIn(ZeroFrame(), i) == ZERO
  {
    ZeroEntry(ZeroFrame()[8 * i..8 * i + 8]);
  }

  predicate IsRam(p: int) {
    MEM_START_PPN <= p < MEM_END_PPN
  }

  /** The table view agrees with the bytes. */
  ghost predicate Views(frames: map<nat, Frame>, tables: Tables) {
    && (forall p :: p in frames <==> IsRam(p))
    && (forall p :: p in tables <==> IsRam(p))
    && (forall p :: p in frames ==> |frames[p]| == PAGE_SIZE)
    && (forall p :: p in tables ==> |tables[p]| == PTES_PER_TABLE)
    && (forall p, i {:trigger EntryIn(frames[p], i)} ::
          p in frames && 0 <= i < PTES_PER_TABLE ==> tables[p][i] == EntryIn(frames[p], i))
  }

  /** The table view of one page. */
  ghost function View(f: Frame): (t: seq<PTE>)
    requires |f| == PAGE_SIZE
    ensures |t| == PTES_PER_TABLE
  {
    seq(PTES_PER_TABLE, i requires 0 <= i < PTES_PER_TABLE => EntryIn(f, i))
  }

  class PhysMem {
    var frames: map<nat, Frame>
    ghost var tables: Tables

    ghost predicate Valid()
      reads this
    {
      Views(frames, tables)
    }

    /** Memory as the boot loader leaves it: any contents. */
    constructor (contents: map<nat, Frame>)
      requires forall p :: p in contents <==> IsRam(p)
      requires forall p :: p in contents ==> |contents[p]| == PAGE_SIZE
      ensures Valid() && frames == contents
    {
      frames := contents;
      tables := map p | p in contents :: View(contents[p]);
    }

    /** `table[i]` for the page at `p` seen as a page table. */
    method ReadEntry(p: nat, i: nat) returns (e: PTE)
      requires Valid() && IsRam(p) && i < PTES_PER_TABLE
      ensures e == tables[p][i]
    {
      e := EntryIn(frames[p], i);
    }

    /** `table[i] = e` for the page at `p` seen as a page table. */
    method WriteEntry(p: nat, i: nat, e: PTE)
      requires Valid() && IsRam(p) && i < PTES_PER_TABLE && e.Fits()
      modifies this
      ensures Valid()
      ensures tables == old(tables)[p := old(tables)[p][i := e]]
      ensures p in frames && frames == old(frames)[p := frames[p]]
    {
      ghost var f := frames[p];
      frames := frames[p := PutEntry(frames[p], i, e)];
      tables := tables[p := tables[p][i := e]];
      forall j | 0 <= j < PTES_PER_TABLE ensures tables[p][j] == EntryIn(frames[p], j) {
        PutEntryLocal(f, i, e, j);
        assert old(tables)[p][j] == EntryIn(f, j);
      }
    }

    /** The loop of `alloc_zeroed_page` (os/src/mm/page_alloc.rs): clears byte after byte. */
    method Zero(p: nat)
      requires Valid() && IsRam(p)
      modifies this
      ensures Valid()
      ensures frames == old(frames)[p := ZeroFrame()]
      ensures tables == old(tables)[p := ZeroTable()]
    {
      var i := 0;
      while i < PAGE_SIZE
        invariant 0 <= i <= PAGE_SIZE
        invariant p in frames && frames == old(frames)[p := frames[p]] && tables == old(tables)
        invariant |frames[p]| == PAGE_SIZE && forall k :: 0 <= k < i ==> frames[p][k] == 0
      {
        frames := frames[p := SetByte(frames[p], i, 0)];
        i := i + 1;
      }
      assert frames[p] == ZeroFrame();
      tables := tables[p := ZeroTable()];
      forall j | 0 <= j < PTES_PER_TABLE ensures tables[p][j] == EntryIn(frames[p], j) {
        ZeroFrameIsEmptyTable(j);
      }
    }

    /** `copy_from_slice` between two whole pages. */
    method CopyFrame(dst: nat, src: nat)
      requires Valid() && IsRam(dst) && IsRam(src)
      modifies this
      ensures Valid()
      ensures frames == old(frames)[dst := old(frames)[src]]
      ensures tables == old(tables)[dst := old(tables)[src]]
    {
      frames := frames[dst := frames[src]];
      tables := tables[dst := tables[src]];
      forall j | 0 <= j < PTES_PER_TABLE ensures tables[dst][j] == EntryIn(frames[dst], j) {
        assert old(tables)[src][j] == EntryIn(old(frames)[src], j);
      }
    }

    method ReadByte(p: nat, k: nat) returns (b: byte)
      requires Valid() && IsRam(p) && k < PAGE_SIZE
      ensures b == frames[p][k]
    {
      b := frames[p][k];
    }

    method WriteByte(p: nat, k: nat, b: byte)
      requires Valid() && IsRam(p) && k < PAGE_SIZE
      modifies this
      ensures Valid()
      ensures frames == old(frames)[p := SetByte(old(frames)[p], k, b)]
      ensures p in tables && tables == old(tables)[p := tables[p]]
    {
      frames := frames[p := SetByte(frames[p], k, b)];
      tables := tables[p := View(frames[p])];
    }
  }

  lemma MemoryDomain(mem: PhysMem)
    requires mem.Valid()
    ensures forall p :: p in mem.frames <==> IsRam(p)
    ensures forall p :: p in mem.tables <==> IsRam(p)
    ensures forall p :: p in mem.frames ==> |mem.frames[p]| == PAGE_SIZE
  {
  }
}
