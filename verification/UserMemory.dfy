/**
 Changes to the address space of one process: pages granted to it and taken back
 (kernel/syscall.c, kernel/strap.c, kernel/vmm.c), with what they keep of everybody's memory.
 */
module UserMemory {
  import opened Words
  import opened Sv39
  import opened Layout
  import opened Pmm
  import opened Vmm
  import opened Hardware
  import opened Ownership

  /** The tables are well formed and every leaf of processes 0 .. n-1 leads where it may. */
  ghost predicate Orderly(s: State, n: nat, trapSec: nat) {
    Well(s) && TreesOwned(s, n) && LeavesOwned(s, n, trapSec)
  }

  /** Frame f may become the target of page v of process pid, with the given use. */
  ghost predicate MayLead(s: State, trapSec: nat, pid: nat, v: nat, f: nat, role: Role) {
    f in s.roles ==>
      || (&& s.roles[f].Taken?
          && (role == Private(pid, v) || (role == Trapframe(pid) && v == f) || (role == Code(v) && pid == 0)))
      || (s.roles[f] == role && (role == Code(v) || (role.Image? && v == f == trapSec)))
  }

  /** The protection suits the use: context and trap section for the kernel only, shared code not for writing. */
  predicate Suits(pid: nat, prot: nat, user: bool, role: Role) {
    (role.Trapframe? || role.Image? ==> !user) && (role.Code? && pid > 0 ==> !Asks(prot, PROT_WRITE))
  }

  /** Page v of process pid was mapped to frame f, now used as `role`. */
  ghost predicate Granted(s: State, s': State, pid: nat, v: nat, f: nat, role: Role, w: nat) {
    && !Valid(LeafWord(s, UserTree(pid), v)) && LeafWord(s', UserTree(pid), v) == w
    && LeafChanged(s, s', UserTree(pid), v, w)
    && Evolves(s, s', pid, {f}) && RolesKept(s, s', f)
    && (f in s.roles && f in s.mem ==> s'.roles[f] == role && s'.mem[f] == s.mem[f])
  }

  lemma GrantIsOrderly(s: State, s': State, n: nat, trapSec: nat, pid: nat, v: nat, pa: nat, prot: nat, user: bool,
                       role: Role)
    requires Orderly(s, n, trapSec) && pid < n && Well(s')
    requires pa / PAGE_SIZE < PPN_LIMIT && Asks(prot, PROT_READ)
    requires MayLead(s, trapSec, pid, v, pa / PAGE_SIZE, role) && Suits(pid, prot, user, role)
    requires Granted(s, s', pid, v, pa / PAGE_SIZE, role, LeafEntry(pa, ProtToType(prot, user)))
    ensures Orderly(s', n, trapSec)
  {
    hide TreesOk, FreeOk, LeafEntry, ProtToType, LeafWord, Sound, FrameOf, Valid, Bit;
    EncodedLeaf(pa, prot, user);
    var f := pa / PAGE_SIZE;
    if f in s.roles {
      assert RoleOk(s, n, f);
      assert LeafWord(s', UserTree(0), v) ==
        if pid == 0 then LeafEntry(pa, ProtToType(prot, user)) else LeafWord(s, UserTree(0), v);
    }
    InstallKeepsLeaves(s, s', n, trapSec, pid, v, LeafEntry(pa, ProtToType(prot, user)), pa / PAGE_SIZE);
  }

  /** `s'` is `s` with the free frame f handed out and not yet used. */
  ghost predicate Took(s: State, s': State, f: nat) {
    && f in s.roles && f in s.mem && s.roles[f].Free? && f in s'.roles && s'.roles[f].Taken?
    && s'.mem.Keys == s.mem.Keys && (forall g :: g in s.mem && g != f ==> s'.mem[g] == s.mem[g])
    && SameLeaves(s, s') && s'.nodes == s.nodes && RolesKept(s, s', f)
    && (forall g :: g in s'.roles && s'.roles[g].Free? ==> g in s.roles && s.roles[g].Free?)
  }

  /** Take a page from the list without disturbing anybody. */
  method TakePage(mc: Machine, ghost n: nat, ghost trapSec: nat) returns (pa: nat)
    requires mc.Valid() && Orderly(mc.S(), n, trapSec)
    modifies mc
    ensures mc.Valid() && mc.startAddr == old(mc.startAddr) && mc.endAddr == old(mc.endAddr)
    ensures Orderly(mc.S(), n, trapSec)
    ensures pa == Link(old(mc.free), 0) && pa % PAGE_SIZE == 0
    ensures pa == 0 ==> old(mc.free) == [] && mc.S() == old(mc.S()) && 0 !in mc.roles
    ensures pa != 0 ==>
      && old(mc.free) != [] && mc.free == old(mc.free)[1..] && pa / PAGE_SIZE < PPN_LIMIT
      && mc.mem == old(mc.mem)
      && Took(old(mc.S()), mc.S(), pa / PAGE_SIZE)
  {
    hide TreesOk, FreeOk, LeavesOwned, TreesOwned, LeafWord, Valid;
    ghost var s := mc.S();
    pa := mc.AllocPage();
    if pa != 0 {
      TakeIsOrderly(s, n, trapSec);
      TakeEvolves(s, 0);
      TakeWell(s, Taken);
    }
  }

  lemma TookEvolves(s: State, s': State, f: nat, pid: nat)
    requires Took(s, s', f)
    ensures Evolves(s, s', pid, {}) && SameLeaves(s, s')
  {
    hide LeafWord, Valid;
  }

  /** Filling a frame just taken is still taking it. */
  lemma TookThenFilled(s: State, s1: State, f: nat, page: Page)
    requires Took(s, s1, f) && Well(s1) && |page| == ENTRIES
    ensures Took(s, Fill(s1, f, page, Taken), f)
  {
    hide LeafWord, TreesOk, FreeOk;
    FillWell(s1, f, page, Taken);
    SameLeavesTrans(s, s1, Fill(s1, f, page, Taken));
    assert Fill(s1, f, page, Taken).roles == s1.roles;
  }

  lemma TakeIsOrderly(s: State, n: nat, trapSec: nat)
    requires Orderly(s, n, trapSec) && s.free != []
    ensures Orderly(Take(s, Taken), n, trapSec)
  {
    hide TreesOk, LeavesOwned, LeafWord, Valid;
    TakeWell(s, Taken);
    TakeEvolves(s, 0);
    RetagKeepsLeaves(s, Take(s, Taken), n, trapSec, s.free[0]);
  }

  lemma FillIsOrderly(s: State, n: nat, trapSec: nat, f: nat, page: Page, role: Role)
    requires Orderly(s, n, trapSec) && f in s.roles && s.roles[f].Plain() && |page| == ENTRIES && role.Plain()
    requires role == s.roles[f] || (s.roles[f].Taken? && !role.Private? && !role.Code? && !role.Image?)
    ensures Orderly(Fill(s, f, page, role), n, trapSec)
  {
    hide TreesOk, FreeOk, LeavesOwned, LeafWord, Valid;
    FillEvolves(s, f, page, role, 0);
    RetagKeepsLeaves(s, Fill(s, f, page, role), n, trapSec, f);
  }

  /** Map one page of process pid and record the use of its frame. */
  method MapOwned(mc: Machine, root: nat, va: nat, size: nat, pa: nat, prot: nat, user: bool,
                  ghost n: nat, ghost trapSec: nat, ghost pid: nat, ghost role: Role)
      returns (r: Outcome)
    requires mc.Valid() && Orderly(mc.S(), n, trapSec) && pid < n && root == mc.nodes[Root(UserTree(pid))] * PAGE_SIZE
    requires va < WORD_LIMIT && size < WORD_LIMIT && PageCount(va, size) == 1
    requires pa / PAGE_SIZE < PPN_LIMIT && Asks(prot, PROT_READ)
    requires MayLead(mc.S(), trapSec, pid, va / PAGE_SIZE, pa / PAGE_SIZE, role)
    requires Suits(pid, prot, user, role)
    modifies mc
    ensures mc.Valid() && mc.startAddr == old(mc.startAddr) && mc.endAddr == old(mc.endAddr)
    ensures Orderly(mc.S(), n, trapSec)
    ensures r.Done? <==> CanMap(old(mc.S()), UserTree(pid), va / PAGE_SIZE, 1)
    ensures r.Halted? <==> !Vacant(old(mc.S()), UserTree(pid), va / PAGE_SIZE, 1)
    ensures r.Done? ==>
      && va < MAXVA && TablesAdded(old(mc.S()), mc.S(), PathOf(UserTree(pid), va / PAGE_SIZE) - old(mc.nodes.Keys))
      && Granted(old(mc.S()), mc.S(), pid, va / PAGE_SIZE, pa / PAGE_SIZE, role, LeafEntry(pa, ProtToType(prot, user)))
    ensures !r.Done? ==>
      Evolves(old(mc.S()), mc.S(), pid, {}) && SameLeaves(old(mc.S()), mc.S()) && PlainKept(old(mc.S()), mc.S())
    ensures r.Failed? ==> mc.free == []
  {
    hide Well, TreesOwned, LeavesOwned, LeafEntry, ProtToType, LeafWord, Granted, RangeMapped, CanMap, SameLeaves,
      PlainKept, Evolves, MayLead, Mapped, Vacant, Missing, PathOf;
    ghost var s, v, f := mc.S(), va / PAGE_SIZE, pa / PAGE_SIZE;
    OnePageMissing(s, UserTree(pid), v);
    ghost var perm := ProtToType(prot, user);
    RootOf(s, n, pid);
    ghost var k, added;
    r, k, added := MapPages(mc, root, va, size, pa, ProtToType(prot, user), UserTree(pid));
    ghost var s1 := mc.S();
    if r.Done? {
      WasUnmapped(s, UserTree(pid), v);
      if f in mc.roles {
        mc.roles := mc.roles[f := role];
      }
      ThenTablesAdded(s, s1, mc.S(), UserTree(pid), v, pa, perm, added);
      GrantHappened(s, s1, mc.S(), n, trapSec, pid, v, pa, perm, added, role);
      GrantIsOrderly(s, mc.S(), n, trapSec, pid, v, pa, prot, user, role);
    } else {
      GrantFailed(s, s1, n, trapSec, pid, v, pa, perm, added);
      OnePageVacant(s, UserTree(pid), v);
    }
  }

  lemma OnePageMissing(s: State, t: Tree, v: nat)
    ensures Missing(s, t, v, 1) == PathOf(t, v) - s.nodes.Keys
    ensures CanMap(s, t, v, 1) ==> Vacant(s, t, v, 1)
  {
    assert TablesFor(t, v, 1) == TablesFor(t, v, 0) + PathOf(t, v);
  }

  lemma ThenTablesAdded(s: State, s1: State, s2: State, t: Tree, v: nat, pa: nat, perm: nat, added: set<NodeId>)
    requires RangeMapped(s, s1, t, v, 1, pa, perm, added) && s2.free == s1.free && s2.nodes == s1.nodes
    ensures TablesAdded(s, s2, added)
  {
    hide LeavesSet, PlainKept;
  }

  lemma OnePageVacant(s: State, t: Tree, v: nat)
    ensures Vacant(s, t, v, 1) <==> v < MAXVPN && !Mapped(s, t, v)
  {
    hide Mapped;
  }

  lemma RootOf(s: State, n: nat, pid: nat)
    requires TreesOwned(s, n) && pid < n
    ensures Root(UserTree(pid)) in s.nodes
  {
  }

  lemma WasUnmapped(s: State, t: Tree, v: nat)
    requires CanMap(s, t, v, 1)
    ensures !Valid(LeafWord(s, t, v)) && v < MAXVPN
  {
    hide Missing, LeafWord, Valid;
    assert !Mapped(s, t, v);
  }

  lemma GrantHappened(s: State, s1: State, s2: State, n: nat, trapSec: nat, pid: nat, v: nat, pa: nat, perm: nat,
                      added: set<NodeId>, role: Role)
    requires Orderly(s, n, trapSec) && Well(s1) && pa < WORD_LIMIT
    requires RangeMapped(s, s1, UserTree(pid), v, 1, pa, perm, added) && !Valid(LeafWord(s, UserTree(pid), v))
    requires MayLead(s, trapSec, pid, v, pa / PAGE_SIZE, role)
    requires s2 == if pa / PAGE_SIZE in s1.roles then s1.(roles := s1.roles[pa / PAGE_SIZE := role]) else s1
    ensures Well(s2) && Granted(s, s2, pid, v, pa / PAGE_SIZE, role, LeafEntry(pa, perm))
  {
    hide TreesOk, FreeOk, LeavesOwned, LeafEntry, LeafWord, Valid, Evolves, RolesKept;
    var f := pa / PAGE_SIZE;
    KeysKept(s, s1);
    if f in s.roles {
      InstallEvolves(s, s1, pid, v, pa, perm, added, f, role);
      assert s2 == Fill(s1, f, s1.mem[f], role);
      FillWell(s1, f, s1.mem[f], role);
    } else {
      InstallOutside(s, s1, pid, v, pa, perm, added, f);
    }
  }

  lemma KeysKept(s: State, s1: State)
    requires PlainKept(s, s1)
    ensures s1.roles.Keys == s.roles.Keys
  {
  }

  lemma InstallOutside(s: State, s1: State, pid: nat, v: nat, pa: nat, perm: nat, added: set<NodeId>, f: nat)
    requires RangeMapped(s, s1, UserTree(pid), v, 1, pa, perm, added) && pa < WORD_LIMIT
    requires !Valid(LeafWord(s, UserTree(pid), v)) && s.mem.Keys == s.roles.Keys && f !in s.roles
    ensures LeafChanged(s, s1, UserTree(pid), v, LeafEntry(pa, perm)) && Evolves(s, s1, pid, {f}) && RolesKept(s, s1, f)
  {
    hide LeafEntry, LeafWord, Valid, LeavesSet, LeafChanged, PlainKept, FramesStay, RolesKept, TablesAdded, NodesStay;
    AddedNodesStay(s, s1, pid, added);
    InstalledLeaf(s, s1, s1, pid, v, pa, perm);
    ChangedLeavesStay(s, s1, pid, v, LeafEntry(pa, perm));
    PlainFramesStay(s, s1, f);
  }

  lemma PlainFramesStay(s: State, s1: State, f: nat)
    requires PlainKept(s, s1) && s.mem.Keys == s.roles.Keys
    ensures FramesStay(s, s1, {f}) && RolesKept(s, s1, f)
  {
    assert forall g :: g in s.roles ==> g in s.mem.Keys && g in s1.roles.Keys;
  }

  lemma GrantFailed(s: State, s1: State, n: nat, trapSec: nat, pid: nat, v: nat, pa: nat, perm: nat, added: set<NodeId>)
    requires Orderly(s, n, trapSec) && Well(s1) && RangeMapped(s, s1, UserTree(pid), v, 0, pa, perm, added) && pid < n
    ensures Orderly(s1, n, trapSec) && SameLeaves(s, s1) && PlainKept(s, s1) && Evolves(s, s1, pid, {})
  {
    hide TreesOk, FreeOk, LeavesOwned, LeafEntry, LeafWord, Valid;
    assert SameLeaves(s, s1);
    KeysKept(s, s1);
    RetagKeepsLeaves(s, s1, n, trapSec, 0);
  }
}
