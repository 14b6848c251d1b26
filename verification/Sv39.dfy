/**
 The Sv39 page-table entry and address layout (kernel/riscv.h), and the permission
 encoding of kernel/vmm.c.
 */
module Sv39 {
  import opened Words

  const ENTRIES: nat := 512

  /** One beyond the highest virtual address the kernel walks, and the page count below it. */
  const MAXVA: nat := 0x40_0000_0000
  const MAXVPN: nat := MAXVA / PAGE_SIZE

  const FRAME_LIMIT: nat := 0x10_0000_0000_0000

  predicate Valid(w: nat) { w % 2 == 1 }
  predicate Readable(w: nat) { Bit(w, 1) }
  predicate Writable(w: nat) { Bit(w, 2) }
  predicate Executable(w: nat) { Bit(w, 3) }
  predicate UserPage(w: nat) { Bit(w, 4) }
  predicate Accessed(w: nat) { Bit(w, 6) }
  predicate Dirty(w: nat) { Bit(w, 7) }

  const PTE_V: nat := 1
  const PTE_R: nat := 2
  const PTE_W: nat := 4
  const PTE_X: nat := 8
  const PTE_U: nat := 16
  const PTE_A: nat := 64
  const PTE_D: nat := 128

  /** PA2PTE: a physical address, moved to the place of the page number. */
  function FromAddress(pa: nat): nat
  {
    pa / PAGE_SIZE * 1024
  }

  /** PTE2PA in units of frames; the left shift drops what does not fit 64 bits. */
  function FrameOf(w: nat): nat
  {
    w / 1024 % FRAME_LIMIT
  }

  function ToAddress(w: nat): nat
  {
    FrameOf(w) * PAGE_SIZE
  }

  function Flags(w: nat): nat
  {
    w % 1024
  }

  /** An interior entry: the address of the next table, and the valid bit alone. */
  function PointerTo(frame: nat): nat
  {
    Or(FromAddress(frame * PAGE_SIZE), PTE_V)
  }

  /** The word map_pages stores for a page. */
  function LeafEntry(pa: nat, perm: nat): nat
  {
    Or(Or(FromAddress(pa), perm), PTE_V)
  }

  /** An interior entry that no walk can take for a leaf. */
  predicate IsPointer(w: nat)
  {
    w == 1024 * FrameOf(w) + PTE_V
  }

  lemma EntryFields(frame: nat, flags: nat)
    requires frame < FRAME_LIMIT && flags < 1024
    ensures FrameOf(1024 * frame + flags) == frame && Flags(1024 * frame + flags) == flags
  {
  }

  lemma PointerFields(frame: nat)
    requires frame < FRAME_LIMIT
    ensures PointerTo(frame) == 1024 * frame + 1
    ensures Valid(PointerTo(frame)) && IsPointer(PointerTo(frame)) && FrameOf(PointerTo(frame)) == frame
  {
    hide Or;
    assert frame * PAGE_SIZE / PAGE_SIZE == frame;
    OrOdd(1024 * frame);
    EntryFields(frame, 1);
  }

  lemma LeafValid(pa: nat, perm: nat)
    ensures Valid(LeafEntry(pa, perm))
  {
    hide Or;
    OrOdd(Or(FromAddress(pa), perm));
  }

  lemma Pow2Of10()
    ensures Pow2(10) == 1024
  {
    assert Pow2(4) == 16;
    assert Pow2(7) == 128;
  }

  /** With permission bits only in `perm`, a leaf entry holds the page number and the flags apart. */
  lemma LeafFields(pa: nat, perm: nat)
    requires pa < WORD_LIMIT && perm < 1024
    ensures LeafEntry(pa, perm) == 1024 * (pa / PAGE_SIZE) + (if perm % 2 == 1 then perm else perm + 1)
    ensures FrameOf(LeafEntry(pa, perm)) == pa / PAGE_SIZE
    ensures Flags(LeafEntry(pa, perm)) == if perm % 2 == 1 then perm else perm + 1
  {
    hide Or, Pow2;
    var f := pa / PAGE_SIZE;
    assert FromAddress(pa) == 1024 * f;
    LeafSum(f, perm);
    EntryFields(f, if perm % 2 == 1 then perm else perm + 1);
  }

  lemma LeafSum(f: nat, perm: nat)
    requires perm < 1024
    ensures Or(Or(1024 * f, perm), PTE_V) == 1024 * f + (if perm % 2 == 1 then perm else perm + 1)
  {
    hide Or, Pow2;
    Pow2Of10();
    OrIsSum(10, f, perm);
    OrOdd(1024 * f + perm);
  }

  const PROT_READ: nat := 1
  const PROT_WRITE: nat := 2
  const PROT_EXEC: nat := 4

  predicate Asks(prot: nat, bit: nat)
    requires bit > 0
  {
    prot / bit % 2 == 1
  }

  /** Permission code of a protection request. */
  function ProtToType(prot: nat, user: bool): nat
  {
    var p0 := if Asks(prot, PROT_READ) then Or(Or(0, PTE_R), PTE_A) else 0;
    var p1 := if Asks(prot, PROT_WRITE) then Or(Or(p0, PTE_W), PTE_D) else p0;
    var p2 := if Asks(prot, PROT_EXEC) then Or(Or(p1, PTE_X), PTE_A) else p1;
    var p3 := if p2 == 0 then PTE_R else p2;
    if user then Or(p3, PTE_U) else p3
  }

  /** What a hart without hardware management of the A and D bits can use without a fault. */
  predicate Usable(w: nat)
  {
    Readable(w) && Accessed(w) && (Writable(w) ==> Dirty(w))
  }

  /** Setting a permission bit of a flag word. */
  lemma OrFlag(w: nat)
    ensures Or(w, PTE_R) == if Readable(w) then w else w + PTE_R
    ensures Or(w, PTE_W) == if Writable(w) then w else w + PTE_W
    ensures Or(w, PTE_X) == if Executable(w) then w else w + PTE_X
    ensures Or(w, PTE_U) == if UserPage(w) then w else w + PTE_U
    ensures Or(w, PTE_A) == if Accessed(w) then w else w + PTE_A
    ensures Or(w, PTE_D) == if Dirty(w) then w else w + PTE_D
  {
    hide Or, Bit;
    assert Pow2(1) == 2 && Pow2(2) == 4 && Pow2(3) == 8 && Pow2(4) == 16 && Pow2(6) == 64 && Pow2(7) == 128;
    OrBit(w, 1);
    OrBit(w, 2);
    OrBit(w, 3);
    OrBit(w, 4);
    OrBit(w, 6);
    OrBit(w, 7);
  }

  /** The permission bits of an entry are those of its flag field. */
  lemma FlagBits(w: nat, k: nat)
    requires k < 10
    ensures Bit(w, k) == Bit(Flags(w), k)
  {
    hide Bit, Pow2;
    Pow2Of10();
    BitOfLow(10, w / 1024, w % 1024, k);
  }

  lemma ReadFlags()
    ensures Or(Or(0, PTE_R), PTE_A) == 66
  {
    hide Or;
    OrFlag(0);
    OrFlag(2);
  }

  lemma WriteFlags(p: nat)
    requires p == 0 || p == 66
    ensures Or(Or(p, PTE_W), PTE_D) == p + 132
  {
    hide Or;
    if p == 0 { OrFlag(0); OrFlag(4); } else { OrFlag(66); OrFlag(70); }
  }

  lemma ExecFlags(p: nat)
    requires p == 0 || p == 66 || p == 132 || p == 198
    ensures Or(Or(p, PTE_X), PTE_A) == if p == 0 || p == 132 then p + 72 else p + 8
  {
    hide Or;
    if p == 0 { OrFlag(0); OrFlag(8); }
    else if p == 66 { OrFlag(66); OrFlag(74); }
    else if p == 132 { OrFlag(132); OrFlag(140); }
    else { OrFlag(198); OrFlag(206); }
  }

  lemma UserFlag(p: nat)
    requires p in {2, 66, 132, 198, 72, 74, 204, 206}
    ensures Or(p, PTE_U) == p + 16
  {
    hide Or;
    if p == 2 { OrFlag(2); } else if p == 66 { OrFlag(66); } else if p == 132 { OrFlag(132); }
    else if p == 198 { OrFlag(198); } else if p == 72 { OrFlag(72); } else if p == 74 { OrFlag(74); }
    else if p == 204 { OrFlag(204); } else { OrFlag(206); }
  }

  /** The encoding as a table. */
  lemma ProtToTypeTable(prot: nat, user: bool)
    ensures ProtToType(prot, user) ==
      (if user then PTE_U else 0) +
      if Asks(prot, PROT_READ) then
        66 + (if Asks(prot, PROT_WRITE) then 132 else 0) + (if Asks(prot, PROT_EXEC) then 8 else 0)
      else if Asks(prot, PROT_WRITE) then
        132 + (if Asks(prot, PROT_EXEC) then 72 else 0)
      else if Asks(prot, PROT_EXEC) then 72 else 2
  {
    hide Or;
    ReadFlags();
    var p0 := if Asks(prot, PROT_READ) then 66 else 0;
    WriteFlags(p0);
    var p1 := if Asks(prot, PROT_WRITE) then p0 + 132 else p0;
    ExecFlags(p1);
    var p2 := if Asks(prot, PROT_EXEC) then (if p0 == 0 then p1 + 72 else p1 + 8) else p1;
    UserFlag(if p2 == 0 then PTE_R else p2);
  }

  /** The encoding grants what was asked, and is usable exactly when reading was asked for. */
  lemma ProtToTypeMeaning(prot: nat, user: bool)
    ensures var w := ProtToType(prot, user);
      && w < 1024 && w % 2 == 0
      && (Usable(w) <==> Asks(prot, PROT_READ))
      && (Writable(w) <==> Asks(prot, PROT_WRITE))
      && (Executable(w) <==> Asks(prot, PROT_EXEC))
      && (UserPage(w) <==> user)
      && (Dirty(w) <==> Writable(w))
  {
    hide Or, ProtToType;
    ProtToTypeTable(prot, user);
  }
}
