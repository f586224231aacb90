/**
  The value of the satp register (riscv/src/regs/satp.rs) and its reading in os/src/mm/vm.rs.
 */
module Satp {
  import opened Layout

  datatype Mode = Bare | Sv39 | Sv48 | Sv57 | Sv64

  /** `get_mode_value`. */
  function ModeValue(mode: Mode): nat {
    match mode
    case Bare => 0
    case Sv39 => 8
    case Sv48 => 9
    case Sv57 => 10
    case Sv64 => 11
  }

  /** `compute_value`: bits of `ppn` beyond the lower 44 are ignored. */
  function ComputeValue(ppn: nat, mode: Mode): (satp: nat)
    ensures satp < USIZE
  {
    ModeValue(mode) * 0x1000_0000_0000_0000 + ppn % PPN_LIMIT
  }

  /** `get_kernel_satp_ppn`. */
  function PpnOf(satp: nat): (ppn: nat)
    ensures ppn < PPN_LIMIT
  {
    satp % PPN_LIMIT
  }

  /** The fields of the register as the standard lays them out: the mode in bits 63 to 60, the
      address-space identifier in bits 59 to 44, which stays 0, and the page number below. */
  lemma SatpFields(ppn: nat, mode: Mode)
    ensures var satp := ComputeValue(ppn, mode);
            && satp / 0x1000_0000_0000_0000 == ModeValue(mode)
            && ModeValue(mode) == (if mode.Bare? then 0 else if mode.Sv39? then 8 else if mode.Sv48? then 9
                                   else if mode.Sv57? then 10 else 11)
            && satp / PPN_LIMIT % 0x1_0000 == 0
            && PpnOf(satp) == ppn % PPN_LIMIT
    ensures ppn < PPN_LIMIT ==> PpnOf(ComputeValue(ppn, mode)) == ppn
  {
    var satp := ComputeValue(ppn, mode);
    assert satp == PPN_LIMIT * (0x1_0000 * ModeValue(mode)) + ppn % PPN_LIMIT;
  }

  /** Different modes and different pages have different register values. */
  lemma SatpInjective(ppn: nat, mode: Mode, ppn': nat, mode': Mode)
    requires ppn < PPN_LIMIT && ppn' < PPN_LIMIT && ComputeValue(ppn, mode) == ComputeValue(ppn', mode')
    ensures ppn == ppn' && mode == mode'
  {
  }
}
