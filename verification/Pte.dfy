/**
  Page table entries (the `PTE` type of os/src/mm/sv39.rs).

  An entry is a 64-bit word: bits 9-0 are flags, bits 53-10 the physical page number, bits
  63-54 reserved.  `PTE` names the three fields; `ToWord` and `FromWord` are the two
  directions of the word encoding, and the word-level expressions of the source are proved
  to agree with the field-level predicates.
 */
module Pte {
  import opened Layout

  const ALL_FLAGS: nat := 0x3ff
  const FLAG_V: nat := 1
  const FLAG_R: nat := 2
  const FLAG_W: nat := 4
  const FLAG_X: nat := 8
  const FLAG_U: nat := 16
  const FLAG_A: nat := 64
  const FLAG_D: nat := 128

  predicate HasV(f: nat) { f % 2 == 1 }
  predicate HasR(f: nat) { f / 2 % 2 == 1 }
  predicate HasW(f: nat) { f / 4 % 2 == 1 }
  predicate HasX(f: nat) { f / 8 % 2 == 1 }
  predicate HasU(f: nat) { f / 16 % 2 == 1 }
  predicate HasA(f: nat) { f / 64 % 2 == 1 }
  predicate HasD(f: nat) { f / 128 % 2 == 1 }

  datatype PTE = PTE(reserved: nat, ppn: nat, flags: nat) {

    predicate Fits() {
      reserved < 1024 && ppn < PPN_LIMIT && flags < 1024
    }

    /** `PTE::is_valid`. */
    predicate IsValid() {
      HasV(flags)
    }

    /** `PTE::is_leaf`: it looks at X and W, where the standard looks at R and X. */
    predicate IsLeaf() {
      IsValid() && (HasX(flags) || HasW(flags))
    }

    /** An entry that points to the next table, as `PTE::new(page, PTE::FLAG_V)` builds it. */
    predicate IsPointer() {
      reserved == 0 && flags == FLAG_V
    }
  }

  const ZERO: PTE := PTE(0, 0, 0)

  /** `PTE::is_valid_flags`: no unknown bit, V set, and not W without R. */
  predicate IsValidFlags(flags: nat) {
    flags <= ALL_FLAGS && HasV(flags) && !(HasW(flags) && !HasR(flags))
  }

  /** In bits: V is bit 0, R 1, W 2, X 3, and the code takes an entry with X or W for a leaf. */
  lemma FlagBits(e: PTE)
    ensures e.IsValid() <==> e.flags % 2 == 1
    ensures e.IsLeaf() <==> e.flags % 2 == 1 && (e.flags / 8 % 2 == 1 || e.flags / 4 % 2 == 1)
    ensures e.IsPointer() <==> e.reserved == 0 && e.flags == 1
    ensures IsValidFlags(e.flags) <==>
            e.flags < 1024 && e.flags % 2 == 1 && (e.flags / 4 % 2 == 1 ==> e.flags / 2 % 2 == 1)
  {
  }

  function ToWord(e: PTE): (w: nat)
    requires e.Fits()
    ensures w < USIZE
  {
    e.reserved * 0x40_0000_0000_0000 + e.ppn * 1024 + e.flags
  }

  function FromWord(w: nat): (e: PTE)
    requires w < USIZE
    ensures e.Fits()
  {
    PTE(w / 0x40_0000_0000_0000, w / 1024 % PPN_LIMIT, w % 1024)
  }

  lemma WordRoundTrip(e: PTE)
    requires e.Fits()
    ensures FromWord(ToWord(e)) == e
  {
    var w := ToWord(e);
    assert w / 1024 == e.reserved * PPN_LIMIT + e.ppn;
  }

  lemma WordOnto(w: nat)
    requires w < USIZE
    ensures ToWord(FromWord(w)) == w
  {
  }

  /** `PTE::new` on words, `(ppn << 10) | flags` with the flag check, gives the entry with
      those fields, and `PTE::get_ppn` never trips the assertion of `PPN::from_pa`. */
  lemma NewWord(ppn: nat, flags: nat)
    requires ppn < PPN_LIMIT && IsValidFlags(flags)
    ensures ppn * 1024 + flags < USIZE
    ensures FromWord(ppn * 1024 + flags) == PTE(0, ppn, flags)
    ensures ppn * PAGE_SIZE < 0x100_0000_0000_0000 - 1
  {
  }

  // Bytes of a word, least significant first.

  type byte = b: int | 0 <= b < 256

  function Pow256(n: nat): (p: nat)
    ensures p > 0
  {
    if n == 0 then 1 else 256 * Pow256(n - 1)
  }

  function ToBytes(w: nat, n: nat): (bs: seq<byte>)
    ensures |bs| == n
  {
    if n == 0 then [] else [w % 256] + ToBytes(w / 256, n - 1)
  }

  function FromBytes(bs: seq<byte>): nat {
    if bs == [] then 0 else bs[0] + 256 * FromBytes(bs[1..])
  }

  lemma {:induction false} BytesRoundTrip(w: nat, n: nat)
    requires w < Pow256(n)
    ensures FromBytes(ToBytes(w, n)) == w
  {
    if n > 0 {
      BytesRoundTrip(w / 256, n - 1);
      assert ToBytes(w, n)[1..] == ToBytes(w / 256, n - 1);
    }
  }

  lemma {:induction false} FromBytesBound(bs: seq<byte>)
    ensures FromBytes(bs) < Pow256(|bs|)
  {
    if bs != [] {
      FromBytesBound(bs[1..]);
    }
  }

  lemma Pow256Of8()
    ensures Pow256(8) == USIZE
  {
  }

  /** The entry stored in eight bytes of memory. */
  function DecodeEntry(bs: seq<byte>): (e: PTE)
    requires |bs| == 8
    ensures e.Fits()
  {
    FromBytesBound(bs); Pow256Of8();
    FromWord(FromBytes(bs))
  }

  function EncodeEntry(e: PTE): (bs: seq<byte>)
    requires e.Fits()
    ensures |bs| == 8
  {
    ToBytes(ToWord(e), 8)
  }

  lemma EntryRoundTrip(e: PTE)
    requires e.Fits()
    ensures DecodeEntry(EncodeEntry(e)) == e
  {
    Pow256Of8();
    BytesRoundTrip(ToWord(e), 8);
    WordRoundTrip(e);
  }

  /** The fields of an entry as the standard lays them out, in eight bytes with the least
      significant one first: ten bits of flags, 44 bits of page number and ten reserved bits. */
  lemma EntryLayout(bs: seq<byte>)
    requires |bs| == 8
    ensures var e := DecodeEntry(bs);
            && e.flags < 0x400 && e.ppn < 0x1000_0000_0000 && e.reserved < 0x400
            && e.flags + 0x400 * e.ppn + 0x40_0000_0000_0000 * e.reserved
            == (bs[0] as int) + 0x100 * (bs[1] as int) + 0x1_0000 * (bs[2] as int) + 0x100_0000 * (bs[3] as int)
               + 0x1_0000_0000 * (bs[4] as int) + 0x100_0000_0000 * (bs[5] as int)
               + 0x1_0000_0000_0000 * (bs[6] as int) + 0x100_0000_0000_0000 * (bs[7] as int)
  {
    FromBytesBound(bs);
    Pow256Of8();
    WordOnto(FromBytes(bs));
    hide FromBytes, FromWord;
    FourBytes(bs);
    FourBytes(bs[4..]);
    assert bs[4..][4..] == [];
    ZeroBytes([]);
  }

  lemma {:induction false} FourBytes(bs: seq<byte>)
    requires |bs| >= 4
    ensures FromBytes(bs) == (bs[0] as int) + 0x100 * (bs[1] as int) + 0x1_0000 * (bs[2] as int)
                             + 0x100_0000 * (bs[3] as int) + 0x1_0000_0000 * FromBytes(bs[4..])
  {
    assert bs[1..][1..] == bs[2..] && bs[2..][1..] == bs[3..] && bs[3..][1..] == bs[4..];
    assert FromBytes(bs[2..]) == (bs[2] as int) + 0x100 * FromBytes(bs[3..]);
    assert FromBytes(bs[3..]) == (bs[3] as int) + 0x100 * FromBytes(bs[4..]);
  }

  lemma {:induction false} ZeroBytes(bs: seq<byte>)
    requires forall k :: 0 <= k < |bs| ==> bs[k] == 0
    ensures FromBytes(bs) == 0
  {
    if bs != [] {
      ZeroBytes(bs[1..]);
    }
  }

  lemma ZeroEntry(bs: seq<byte>)
    requires |bs| == 8 && forall k :: 0 <= k < 8 ==> bs[k] == 0
    ensures DecodeEntry(bs) == ZERO
  {
    ZeroBytes(bs);
  }
}
