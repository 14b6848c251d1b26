/**
 Address translation as the hart performs it (RISC-V Privileged Architecture, version
 20211203, sections 4.3.2 and 4.4), the kernel's own lookups (kernel/vmm.c), and their
 agreement on the trees the kernel builds.
 */
module Hardware {
  import opened Words
  import opened Sv39
  import opened Layout
  import opened Vmm

  datatype Access = Load | Store | Fetch

  datatype Translation = Fault | Address(pa: nat)

  function Ppn(e: nat): nat { e / 1024 % 0x1000_0000_0000 }

  /** Bits 63 to 54 of an entry are reserved. */
  predicate ReservedBits(e: nat) { e / 1024 / 0x1000_0000_0000 % 1024 != 0 }

  /** Permission check without the SUM and MXR overrides. */
  predicate Permitted(e: nat, access: Access, user: bool) {
    && UserPage(e) == user
    && match access
       case Load => Readable(e)
       case Store => Writable(e)
       case Fetch => Executable(e)
  }

  function Span(level: nat): (n: nat)
    ensures n > 0
  {
    if level == 0 then 1 else if level == 1 then 512 else 262144
  }

  /** The field of a virtual address that selects an entry of a table of the given level. */
  function Vpn(level: nat, va: nat): nat {
    va / 4096 / Span(level) % 512
  }

  lemma IndexIsField(level: nat, va: nat)
    requires level <= 2
    ensures Px(level, va) == Vpn(level, va)
  {
  }

  /** Steps 2 to 7 of the translation process, with a table of the given level at hand. */
  function WalkFrom(m: Memory, table: nat, level: nat, va: nat, access: Access, user: bool): Translation
    requires level <= 2
    decreases level
  {
    var e := Entry(m, table, Vpn(level, va));
    if !Valid(e) || (!Readable(e) && Writable(e)) || ReservedBits(e) then Fault
    else if Readable(e) || Executable(e) then
      if !Permitted(e, access, user) then Fault
      else if Ppn(e) % Span(level) != 0 then Fault
      else if !Accessed(e) || (access.Store? && !Dirty(e)) then Fault
      else Address((Ppn(e) + va / 4096 % Span(level)) * 4096 + va % 4096)
    else if level == 0 then Fault
    else WalkFrom(m, Ppn(e), level - 1, va, access, user)
  }

  /** Sv39 translation; an address whose upper bits are not copies of bit 38 faults. */
  function Translate(m: Memory, root: nat, va: nat, access: Access, user: bool): Translation {
    if 0x40_0000_0000 <= va < 0xffff_ffc0_0000_0000 then Fault
    else WalkFrom(m, root, 2, va, access, user)
  }

  /** lookup_pa: the physical page of va, or 0. */
  function LookupPa(m: Memory, root: nat, va: nat): nat {
    if va >= MAXVA then 0 else
    match Descend(m, root, 2, va)
    case Slot(f, i) =>
      var e := Entry(m, f, i);
      if !Valid(e) || (!Readable(e) && !Writable(e)) then 0 else ToAddress(e)
    case _ => 0
  }

  /** user_va_to_pa: faults (panics) beyond MAXVA, and does not look at the valid bit of the leaf. */
  function UserVaToPa(m: Memory, root: nat, va: nat): Translation {
    if va >= MAXVA then Fault else
    match Descend(m, root, 2, va)
    case Slot(f, i) => Address(ToAddress(Entry(m, f, i)) + va % PAGE_SIZE)
    case _ => Address(0)
  }

  /** A valid leaf the hart can use: readable, accessed, dirty when writable, with a page number in range. */
  predicate Sound(w: nat) {
    Valid(w) ==> Usable(w) && w / 1024 < PPN_LIMIT
  }

  lemma PointerBits(e: nat)
    requires IsPointer(e) && FrameOf(e) < PPN_LIMIT
    ensures Valid(e) && !Readable(e) && !Writable(e) && !Executable(e)
    ensures !ReservedBits(e) && Ppn(e) == FrameOf(e)
  {
    hide Bit, FrameOf, Ppn, ReservedBits, Flags, Valid;
    EntryOfFrame(e, FrameOf(e));
    FlagBits(e, 1);
    FlagBits(e, 2);
    FlagBits(e, 3);
    OneHasNoFlags();
  }

  lemma EntryOfFrame(e: nat, f: nat)
    requires e == 1024 * f + 1 && f < PPN_LIMIT
    ensures Flags(e) == 1 && Valid(e) && !ReservedBits(e) && Ppn(e) == f
  {
    Quotient(f);
    SmallPpn(f);
  }

  lemma Quotient(f: nat)
    ensures (1024 * f + 1) / 1024 == f && (1024 * f + 1) % 1024 == 1 && (1024 * f + 1) % 2 == 1
  {
    Odd(512 * f);
  }

  lemma Odd(x: nat)
    ensures (2 * x + 1) % 2 == 1
  {
  }

  lemma SmallPpn(f: nat)
    requires f < PPN_LIMIT
    ensures f / PPN_LIMIT == 0 && f % PPN_LIMIT == f
  {
  }

  lemma OneHasNoFlags()
    ensures !Bit(1, 1) && !Bit(1, 2) && !Bit(1, 3)
  {
  }

  /** At an interior table the hart and the kernel follow the same pointer or stop. */
  lemma InteriorStep(s: State, t: Tree, level: nat, va: nat, access: Access, user: bool)
    requires Well(s) && 0 < level <= 2 && va < MAXVA && OnPath(t, level, va / PAGE_SIZE) in s.nodes
    ensures var f, next := s.nodes[OnPath(t, level, va / PAGE_SIZE)], OnPath(t, level - 1, va / PAGE_SIZE);
      if next in s.nodes then
        && WalkFrom(s.mem, f, level, va, access, user) ==
             WalkFrom(s.mem, s.nodes[next], level - 1, va, access, user)
        && Descend(s.mem, f, level, va) == Descend(s.mem, s.nodes[next], level - 1, va)
      else
        WalkFrom(s.mem, f, level, va, access, user).Fault? && Descend(s.mem, f, level, va).Null?
  {
    hide Bit, FreeOk, OnPath;
    var id, i := OnPath(t, level, va / PAGE_SIZE), Px(level, va);
    assert id.level == level by { PathLevel(t, level, va / PAGE_SIZE); }
    PathLinks(t, level, va);
    IndexIsField(level, va);
    assert IdOk(s, id) && LinkOk(s, id, i);
    var next := OnPath(t, level - 1, va / PAGE_SIZE);
    if next in s.nodes {
      assert IdOk(s, next);
      PointerBits(Entry(s.mem, s.nodes[id], i));
    }
  }

  lemma PathLevel(t: Tree, level: nat, vpn: nat)
    requires level <= 2
    ensures OnPath(t, level, vpn).level == level
  {
  }

  /** Both walks reach the leaf word. */
  lemma WalksReachLeaf(s: State, t: Tree, va: nat, access: Access, user: bool)
    requires Well(s) && Root(t) in s.nodes && va < MAXVA
    ensures var low, root := NodeId(t, 0, va / PAGE_SIZE / ENTRIES), s.nodes[Root(t)];
      if low in s.nodes then
        && Translate(s.mem, root, va, access, user) == WalkFrom(s.mem, s.nodes[low], 0, va, access, user)
        && Descend(s.mem, root, 2, va) == Slot(s.nodes[low], va / PAGE_SIZE % ENTRIES)
        && Entry(s.mem, s.nodes[low], va / PAGE_SIZE % ENTRIES) == LeafWord(s, t, va / PAGE_SIZE)
      else
        && Translate(s.mem, root, va, access, user).Fault?
        && Descend(s.mem, root, 2, va).Null?
        && !Mapped(s, t, va / PAGE_SIZE)
  {
    hide Bit, Well, WalkFrom;
    InteriorStep(s, t, 2, va, access, user);
    var vpn := va / PAGE_SIZE;
    if OnPath(t, 0, vpn) in s.nodes {
      LowNeedsMid(s, t, vpn);
      SlotReads(s, t, vpn);
    }
    if OnPath(t, 1, vpn) in s.nodes {
      InteriorStep(s, t, 1, va, access, user);
    }
  }

  /**
   On a tree with sound leaves the hart translates exactly the mapped addresses it may
   access, to the frame the leaf names; lookup_pa and user_va_to_pa give the same address.
   */
  lemma SoftwareAgreesWithHardware(s: State, t: Tree, va: nat, access: Access, user: bool)
    requires Well(s) && Root(t) in s.nodes && va < MAXVA && Sound(LeafWord(s, t, va / PAGE_SIZE))
    ensures var w, root := LeafWord(s, t, va / PAGE_SIZE), s.nodes[Root(t)];
      && Translate(s.mem, root, va, access, user) ==
           (if Valid(w) && Permitted(w, access, user) then Address(ToAddress(w) + va % PAGE_SIZE) else Fault)
      && LookupPa(s.mem, root, va) == (if Valid(w) then ToAddress(w) else 0)
      && (Valid(w) ==> UserVaToPa(s.mem, root, va) == Address(ToAddress(w) + va % PAGE_SIZE))
  {
    hide Bit, Well, WalkFrom, Descend;
    WalksReachLeaf(s, t, va, access, user);
    var low := NodeId(t, 0, va / PAGE_SIZE / ENTRIES);
    if low in s.nodes {
      LeafStep(s.mem, s.nodes[low], va, access, user);
    }
  }

  lemma DirectoryEntryUnused(s: State, t: Tree, i: nat)
    requires Well(s) && Root(t) in s.nodes && LOWER_HALF <= i < ENTRIES
    ensures !Valid(Entry(s.mem, s.nodes[Root(t)], i))
  {
    hide FreeOk, Entry;
    assert LinkOk(s, Root(t), i);
    if Root(t).Child(i) in s.nodes { TableBound(s, Root(t).Child(i)); }
  }

  /** The hart also walks the uppermost addresses; the kernel's trees map none of them. */
  lemma UpperHalfFaults(s: State, t: Tree, va: nat, access: Access, user: bool)
    requires Well(s) && Root(t) in s.nodes && MAXVA <= va < WORD_LIMIT
    ensures Translate(s.mem, s.nodes[Root(t)], va, access, user).Fault?
  {
    hide FreeOk, Bit;
    if va >= WORD_LIMIT - MAXVA {
      var i := Vpn(2, va);
      assert LOWER_HALF <= i < ENTRIES;
      DirectoryEntryUnused(s, t, i);
    }
  }

  lemma LeafStep(m: Memory, f: nat, va: nat, access: Access, user: bool)
    requires Sound(Entry(m, f, va / PAGE_SIZE % ENTRIES))
    ensures var w := Entry(m, f, va / PAGE_SIZE % ENTRIES);
      WalkFrom(m, f, 0, va, access, user) ==
      if Valid(w) && Permitted(w, access, user) then Address(ToAddress(w) + va % PAGE_SIZE) else Fault
  {
    hide Bit;
  }

  /**
   On an unmapped address below MAXVA user_va_to_pa answers null exactly when there is no
   table for it, or its entry was never used and the address is the first of its page.
   */
  lemma UserVaToPaOnUnmapped(s: State, t: Tree, va: nat)
    requires Well(s) && Root(t) in s.nodes && va < MAXVA && !Mapped(s, t, va / PAGE_SIZE)
    ensures UserVaToPa(s.mem, s.nodes[Root(t)], va) == Address(0) <==>
      || NodeId(t, 0, va / PAGE_SIZE / ENTRIES) !in s.nodes
      || (FrameOf(LeafWord(s, t, va / PAGE_SIZE)) == 0 && va % PAGE_SIZE == 0)
  {
    hide Bit, Well, WalkFrom, Descend;
    WalksReachLeaf(s, t, va, Load, true);
  }

  lemma ValidBitAside(p: nat, k: nat)
    requires p % 2 == 0 && k > 0
    ensures Bit(p + 1, k) == Bit(p, k)
  {
    assert (p + 1) / 2 == p / 2;
  }

  lemma LeafBit(pa: nat, perm: nat, k: nat)
    requires pa < WORD_LIMIT && perm < 1024 && perm % 2 == 0 && 0 < k < 10
    ensures Bit(LeafEntry(pa, perm), k) == Bit(perm, k)
  {
    hide Bit, LeafEntry;
    LeafFields(pa, perm);
    FlagBits(LeafEntry(pa, perm), k);
    ValidBitAside(perm, k);
  }

  /** The leaf word for a page mapped with a protection that includes reading. */
  lemma EncodedLeaf(pa: nat, prot: nat, user: bool)
    requires pa / PAGE_SIZE < PPN_LIMIT && Asks(prot, PROT_READ)
    ensures var w := LeafEntry(pa, ProtToType(prot, user));
      && Valid(w) && Sound(w) && Readable(w) && FrameOf(w) == pa / PAGE_SIZE
      && (Writable(w) <==> Asks(prot, PROT_WRITE))
      && (Executable(w) <==> Asks(prot, PROT_EXEC))
      && (UserPage(w) <==> user)
  {
    hide Bit, LeafEntry, ProtToType;
    var perm := ProtToType(prot, user);
    ProtToTypeMeaning(prot, user);
    LeafValid(pa, perm);
    EncodedFrame(pa, perm);
    LeafBit(pa, perm, 1);
    LeafBit(pa, perm, 2);
    LeafBit(pa, perm, 3);
    LeafBit(pa, perm, 4);
    LeafBit(pa, perm, 6);
    LeafBit(pa, perm, 7);
  }

  lemma EncodedFrame(pa: nat, perm: nat)
    requires pa / PAGE_SIZE < PPN_LIMIT && perm < 1024 && perm % 2 == 0
    ensures FrameOf(LeafEntry(pa, perm)) == pa / PAGE_SIZE && LeafEntry(pa, perm) / 1024 == pa / PAGE_SIZE
  {
    hide LeafEntry;
    LeafFields(pa, perm);
  }
}
