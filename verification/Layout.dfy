/**
  Address arithmetic and memory layout (os/src/mm.rs).

  A `usize` is a natural number below 2^64.  Shifts and masks by constants are written as
  division and remainder, so `va >> 12` is `va / 4096` and `x & 0x1ff` is `x % 512`.
 */
module Layout {

  const USIZE: nat := 0x1_0000_0000_0000_0000
  const PAGE_SIZE: nat := 4096
  const LARGE_PAGE_SIZE: nat := 0x20_0000
  const PTES_PER_TABLE: nat := 512

  const MEM_START_PA: nat := 0x8000_0000
  const MEM_SIZE: nat := 0x800_0000
  const KERNEL_VA_OFFSET: nat := 0xffff_ffc0_0000_0000
  const USER_SPACE_END: nat := 0x40_0000_0000 - 4096
  const USER_STACK_MAX_SIZE: nat := 0x80_0000

  const MEM_START_PPN: nat := 0x8_0000
  const MEM_END_PPN: nat := 0x8_8000
  const PPN_LIMIT: nat := 0x1000_0000_0000

  /** Virtual page numbers below LOWER_END are the lower half of the Sv39 space;
      those from UPPER_START to UPPER_END are the sign-extended upper half. */
  const LOWER_END: nat := 0x400_0000
  const UPPER_START: nat := 0xf_ffff_fc00_0000
  const UPPER_END: nat := 0x10_0000_0000_0000
  const USER_END_VPN: nat := 0x3ff_ffff

  /** `VPN::is_valid_va`: bits 63-39 all equal to bit 38. */
  predicate IsValidVa(va: nat) {
    va < 0x40_0000_0000 || KERNEL_VA_OFFSET <= va < USIZE
  }

  /** The virtual page numbers that `VPN::from_va` can produce. */
  predicate IsVpn(v: int) {
    0 <= v < LOWER_END || UPPER_START <= v < UPPER_END
  }

  predicate IsUpper(v: int) {
    UPPER_START <= v < UPPER_END
  }

  lemma UpperIsVpn(v: nat)
    requires IsUpper(v)
    ensures IsVpn(v)
  {
  }

  /** `VPN::from_va`; its assertion is the precondition. */
  function VpnFromVa(va: nat): (v: nat)
    requires IsValidVa(va)
    ensures IsVpn(v)
    ensures v * PAGE_SIZE <= va < (v + 1) * PAGE_SIZE
  {
    va / PAGE_SIZE
  }

  /** `parse_vpn` (os/src/mm/sv39.rs): the three 9-bit table indices of a page number. */
  function Index(v: nat, level: nat): (i: nat)
    requires level <= 2
    ensures i < PTES_PER_TABLE
  {
    if level == 2 then (v / 0x4_0000) % 512
    else if level == 1 then (v / 512) % 512
    else v % 512
  }

  /** The fields of a virtual address as the standard lays them out for Sv39: bits 63 to 39 repeat
      bit 38, and the table indices are bits 38 to 30, 29 to 21 and 20 to 12. */
  lemma AddressFields(va: nat)
    requires va < 0x1_0000_0000_0000_0000
    ensures IsValidVa(va) <==> va / 0x40_0000_0000 == 0 || va / 0x40_0000_0000 == 0x3ff_ffff
    ensures IsVpn(va / 4096) <==> IsValidVa(va)
    ensures IsUpper(va / 4096) <==> va / 0x40_0000_0000 == 0x3ff_ffff
    ensures Index(va / 4096, 2) == va / 0x4000_0000 % 512
    ensures Index(va / 4096, 1) == va / 0x20_0000 % 512
    ensures Index(va / 4096, 0) == va / 0x1000 % 512
  {
  }

  /** The page number that `RootPgt::unmap` rebuilds from loop counters; no sign extension. */
  function Rebuild(i2: nat, i1: nat, i0: nat): nat {
    i2 * 0x4_0000 + i1 * 512 + i0
  }

  lemma IndexInjective(v: nat, w: nat)
    requires IsVpn(v) && IsVpn(w)
    requires Index(v, 2) == Index(w, 2) && Index(v, 1) == Index(w, 1) && Index(v, 0) == Index(w, 0)
    ensures v == w
  {
    assert TopOf(v) == TopOf(w) by { TopIndex(v); TopIndex(w); }
    Digits(v);
    Digits(w);
  }

  lemma Digits(v: nat)
    ensures v == TopOf(v) * 0x4_0000 + Index(v, 1) * 512 + Index(v, 0)
  {
  }

  function TopOf(v: nat): nat { v / 0x4_0000 }

  /** Sign extension makes the top of a page number a function of its level-2 index. */
  lemma TopIndex(v: nat)
    requires IsVpn(v)
    ensures TopOf(v) == if Index(v, 2) < 256 then Index(v, 2) else 0x3_ffff_fe00 + Index(v, 2)
    ensures Index(v, 2) < 256 <==> v < LOWER_END
  {
  }

  /** Lower-half page numbers are exactly the ones that `Rebuild` gives back. */
  lemma RebuildIndex(v: nat)
    requires v < LOWER_END
    ensures Rebuild(Index(v, 2), Index(v, 1), Index(v, 0)) == v
    ensures Index(v, 2) < 256
  {
    Digits(v);
    TopIndex(v);
    hide Index;
  }

  lemma IndexRebuild(i2: nat, i1: nat, i0: nat)
    requires i2 < 512 && i1 < 512 && i0 < 512
    ensures Index(Rebuild(i2, i1, i0), 2) == i2
    ensures Index(Rebuild(i2, i1, i0), 1) == i1
    ensures Index(Rebuild(i2, i1, i0), 0) == i0
  {
    var v := Rebuild(i2, i1, i0);
    assert v == (i2 * 512 + i1) * 512 + i0;
    assert v / 512 == i2 * 512 + i1 && v % 512 == i0;
    assert v / 0x4_0000 == i2;
  }

  /** `get_va_from_pa`: panics on overflow, hence the precondition. */
  function VaFromPa(pa: nat): nat
    requires pa + KERNEL_VA_OFFSET < USIZE
  {
    pa + KERNEL_VA_OFFSET
  }

  /** The upper-half page through which the kernel reaches physical page `p`. */
  function LinearVpn(p: nat): nat {
    p + UPPER_START
  }

  predicate CheckUVa(va: nat) {
    va < USER_SPACE_END
  }

  /** `check_u_va_range` as built in release mode, where `end - 1` wraps for `end == 0`. */
  predicate CheckUVaRange(start: nat, len: nat) {
    && CheckUVa(start)
    && start + len < USIZE
    && CheckUVa(if start + len == 0 then USIZE - 1 else start + len - 1)
  }

  /** In numbers: user space ends one page below 256 GiB; a range of no bytes is accepted anywhere
      in it but at 0. */
  lemma AcceptedRanges(addr: nat, len: nat)
    ensures CheckUVa(addr) <==> addr < 0x40_0000_0000 - 4096
    ensures CheckUVaRange(addr, len) <==>
            addr < 0x40_0000_0000 - 4096 && 0 < addr + len <= 0x40_0000_0000 - 4096
  {
  }

  /** An accepted range never trips the assertion of `VPN::from_va` after rounding up, and
      the rounded end stays at or below the last page of user space. */
  lemma AcceptedRangeRoundsInside(addr: nat, len: nat)
    requires CheckUVaRange(addr, len)
    ensures IsValidVa(addr) && IsValidVa(addr + len + PAGE_SIZE - 1)
    ensures VpnFromVa(addr + len + PAGE_SIZE - 1) <= USER_END_VPN
    ensures VpnFromVa(addr) < USER_END_VPN
    ensures len > 0 ==> VpnFromVa(addr) < VpnFromVa(addr + len + PAGE_SIZE - 1)
    ensures len == 0 ==> (VpnFromVa(addr) < VpnFromVa(addr + PAGE_SIZE - 1) <==> addr % PAGE_SIZE != 0)
  {
  }
}
