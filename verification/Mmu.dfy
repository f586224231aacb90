/**
  The memory management unit: the hardware's walk, reading entries from memory.
 */
module Mmu {
  import opened Layout
  import opened Pte
  import opened Memory
  import opened Walk

  /** Walks the tables of `root` for page number `v`, level by level. */
  method TranslateNow(mem: PhysMem, root: nat, v: nat) returns (t: Translation)
    requires mem.Valid()
    ensures t == Translate(mem.tables, root, v)
  {
    MemoryDomain(mem);
    hide Views;
    var a := root;
    var level := 2;
    while true
      invariant 0 <= level <= 2
      invariant Translate(mem.tables, root, v) == TranslateFrom(mem.tables, a, v, level)
      decreases level
    {
      var pte := ZERO;
      if IsRam(a) {
        pte := mem.ReadEntry(a, Index(v, level));
      }
      assert pte == Slot(mem.tables, a, Index(v, level));
      if !HasV(pte.flags) || (!HasR(pte.flags) && HasW(pte.flags)) || pte.reserved != 0 {
        return Fault;
      }
      if HasR(pte.flags) || HasX(pte.flags) {
        if pte.ppn % Span(level) != 0 {
          return Fault;
        }
        return Hit(pte.ppn + v % Span(level), pte.flags);
      }
      if level == 0 || HasU(pte.flags) || HasA(pte.flags) || HasD(pte.flags) {
        return Fault;
      }
      a := pte.ppn;
      level := level - 1;
    }
  }
}
