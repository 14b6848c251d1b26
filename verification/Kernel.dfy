/**
 The kernel's services on process memory (kernel/syscall.c, kernel/strap.c,
 kernel/process.c) and the invariant that every step keeps.
 */
module Kernel {
  import opened Words
  import opened Sv39
  import opened Layout
  import opened Pmm
  import opened Vmm
  import opened Ownership
  import opened UserMemory
  import opened Spaces
  import opened Release
  import opened Birth
  import opened Shape
  import opened Fork
  import opened Load
  import opened KernelMap
  import Schedule

  const USER_HEAP_START: nat := PAGE_SIZE * 1024

  /** Addresses handed out so far: aligned, increasing, and below the next one. */
  ghost predicate HeapOk(heap: seq<nat>, next: nat) {
    && next % PAGE_SIZE == 0
    && (forall i :: 0 <= i < |heap| ==> heap[i] % PAGE_SIZE == 0 && USER_HEAP_START <= heap[i] < next)
    && (forall i, j :: 0 <= i < j < |heap| ==> heap[i] < heap[j])
  }

  /** Entries of a region table. */
  const REGION_SLOTS: nat := 256

  /** The regions alloc_process records: stack, trapframe, trap section. */
  function NewRegions(tf: nat, trapSec: nat): seq<Region> {
    [Region(STACK_VPN * PAGE_SIZE, 1, StackSegment), Region(tf * PAGE_SIZE, 1, ContextSegment),
     Region(trapSec * PAGE_SIZE, 1, SystemSegment)]
  }

  lemma InvOrderly(s: State, spaces: seq<Space>, trapSec: nat, exhausted: bool)
    requires Inv(s, spaces, trapSec, exhausted)
    ensures Orderly(s, |spaces|, trapSec)
  {
  }

  lemma BornHere(s0: State, s: State, spaces: seq<Space>, child: Space, trapSec: nat, us: nat)
    requires FourFrames(s.mem, child.trapframe, child.kernelStack, us, child.regionTable)
    requires Fresh(s0, s, |spaces|, OwnFrames(|spaces|, child.trapframe, child.kernelStack, us, child.regionTable))
    requires NewLeaves(s, |spaces|, child.trapframe, us, trapSec) && STACK_VPN !in {child.trapframe, trapSec}
    requires Root(UserTree(|spaces|)) in s.nodes && child.root == s.nodes[Root(UserTree(|spaces|))]
    requires TrapSection(s0, trapSec)
    requires child.regions == NewRegions(child.trapframe, trapSec) && (|spaces| > 0 ==> child.parent < |spaces|)
    ensures Born(s0, s, spaces, child, trapSec, us) && Evolves(s0, s, |spaces|, {})
  {
    hide NewLeaves, LeavesStay, NodesStay;
    ImageStays(s0, s, |spaces|, OwnFrames(|spaces|, child.trapframe, child.kernelStack, us, child.regionTable),
               trapSec);
  }

  /** The page of the trap vector, inside the kernel image. */
  ghost predicate TrapSection(s: State, f: nat) {
    0 < f < PPN_LIMIT && f in s.roles && s.roles[f].Image? && f in s.mem
  }

  /** The frames of memory outside the kernel image are exactly the pages of the pool. */
  ghost predicate PoolInUse(s: State, start: nat, end: nat) {
    && (forall f: nat {:trigger InPool(start, end, f)} :: InPool(start, end, f) ==> f in s.roles && !s.roles[f].Image?)
    && (forall f :: f in s.roles && !s.roles[f].Image? ==> InPool(start, end, f)) && s.roles.Keys == s.mem.Keys
  }

  /** The kernel's own tree is the identity map. */
  ghost predicate IdentityMap(s: State, etext: nat) {
    forall v: nat {:trigger LeafWord(s, KernelTree, v)} :: LeafWord(s, KernelTree, v) == IdentityLeaf(etext, v)
  }

  /** The pool lies behind the start of the kernel image, and so does the end of its text. */
  predicate BoundsOk(start: nat, etext: nat) {
    KERN_BASE <= start && KERN_BASE <= etext <= PHYS_TOP && etext % PAGE_SIZE == 0
  }

  /** What boot sets up for good: the kernel image, the pool and the kernel's map. */
  ghost predicate Base(s: State, trapSec: nat, start: nat, end: nat, etext: nat) {
    && TrapSection(s, trapSec) && PoolInUse(s, start, end) && IdentityMap(s, etext) && BoundsOk(start, etext)
    && Root(KernelTree) in s.nodes
  }

  lemma BaseStays(s0: State, s: State, pid: nat, trapSec: nat, start: nat, end: nat, etext: nat)
    requires Evolves(s0, s, pid, {}) && Base(s0, trapSec, start, end, etext)
    ensures Base(s, trapSec, start, end, etext)
  {
    hide InPool, LeafWord, IdentityLeaf, Sv39.Valid;
    assert trapSec in s.roles.Keys && trapSec in s.mem.Keys && s0.roles.Keys == s.roles.Keys;
    forall f: nat | InPool(start, end, f) ensures f in s.roles && !s.roles[f].Image? {
      assert f in s0.roles && f in s.roles.Keys;
    }
    forall v: nat ensures LeafWord(s, KernelTree, v) == IdentityLeaf(etext, v) {
      assert LeafWord(s, KernelTree, v) == LeafWord(s0, KernelTree, v);
    }
  }

  /** The words of frames and their leaves may change without harm to the base. */
  lemma BaseWith(s0: State, s: State, trapSec: nat, start: nat, end: nat, etext: nat)
    requires Base(s0, trapSec, start, end, etext) && s.roles == s0.roles && s.mem.Keys == s0.mem.Keys
    requires SameLeaves(s0, s) && s.nodes == s0.nodes
    ensures Base(s, trapSec, start, end, etext)
  {
    hide InPool, LeafWord, IdentityLeaf;
    assert trapSec in s.mem.Keys;
    forall v: nat ensures LeafWord(s, KernelTree, v) == IdentityLeaf(etext, v) {
      assert LeafWord(s, KernelTree, v) == LeafWord(s0, KernelTree, v);
    }
  }

  lemma TrapSectionOf(s: State, trapSec: nat, start: nat, end: nat, etext: nat)
    requires Base(s, trapSec, start, end, etext)
    ensures TrapSection(s, trapSec)
  {
    hide PoolInUse, IdentityMap, BoundsOk;
  }

  lemma ForkKeepsBase(s0: State, s: State, spaces: seq<Space>, parent: nat, child: nat, trapSec: nat, start: nat,
                      end: nat, etext: nat)
    requires parent < |spaces| && child < |spaces| && ForkDone(s0, s, spaces, parent, child)
    requires Base(s0, trapSec, start, end, etext)
    ensures Base(s, trapSec, start, end, etext)
  {
    hide Base, Evolves, PageCopied, RegionForked, ContextCopied;
    BaseStays(s0, s, child, trapSec, start, end, etext);
  }

  /** A fork of `parent` succeeds: there is a slot, and memory for the child. */
  ghost predicate CanFork(s: State, spaces: seq<Space>, parent: nat, trapSec: nat)
    requires parent < |spaces|
  {
    |spaces| < Schedule.NPROC && ForkFits(s, parent, |spaces|, trapSec, spaces[parent].regions)
  }

  lemma FirstFits(s: State, parent: nat, child: nat, trapSec: nat, regions: seq<Region>)
    ensures ForkFits(s, parent, child, trapSec, regions) ==> Fits(s, child, FirstPages(s.free, trapSec), 5)
  {
    hide Fits, SourceFound;
    if ForkFits(s, parent, child, trapSec, regions) {
      ForkFitsPrefix(s, parent, child, trapSec, regions, 0);
      assert regions[..0] == [];
    }
  }

  class Kernel {
    const mc: Machine
    const trapSec: nat
    ghost const start: nat
    ghost const end: nat
    ghost const etext: nat
    var spaces: seq<Space>
    var current: nat
    var ufree: nat
    ghost var exhausted: bool
    ghost var heap: seq<nat>

    ghost predicate Valid()
      reads this, mc
    {
      && mc.Valid() && Inv(mc.S(), spaces, trapSec, exhausted)
      && USER_HEAP_START <= ufree <= MAXVA && HeapOk(heap, ufree)
      && mc.startAddr == start && mc.endAddr == end && trapSec * PAGE_SIZE < start
      && Base(mc.S(), trapSec, start, end, etext)
    }

    /** The process table after boot: no process yet, all memory free, kernel image or kernel tables. */
    constructor (m: Machine, trap: nat, ghost text: nat)
      requires m.Valid() && TreesOwned(m.S(), 0) && trap * PAGE_SIZE < m.startAddr
      requires Base(m.S(), trap, m.startAddr, m.endAddr, text)
      requires forall f :: f in m.roles ==> m.roles[f].Free? || m.roles[f].Table? || m.roles[f].Image?
      ensures Valid() && mc == m && trapSec == trap && start == m.startAddr && end == m.endAddr && etext == text
      ensures spaces == [] && heap == [] && !exhausted && ufree == USER_HEAP_START
    {
      mc, trapSec, spaces, current, ufree := m, trap, [], 0, USER_HEAP_START;
      exhausted, heap := false, [];
      start, end, etext := m.startAddr, m.endAddr, text;
      new;
      assert forall f :: f in m.roles ==> RoleOk(m.S(), 0, f);
      assert forall f :: f in m.roles ==> OwnerOk(m.S(), spaces, false, f);
    }

    /** The address space of a new process, at the end of the table. */
    method AllocProcess(parent: nat) returns (r: Outcome, ghost us: nat)
      requires Valid() && (spaces != [] ==> parent < |spaces|)
      modifies this, mc
      ensures r.Done? || r.Halted?
      ensures r.Done? <==>
        |old(spaces)| < Schedule.NPROC && Fits(old(mc.S()), |old(spaces)|, FirstPages(old(mc.free), trapSec), 5)
      ensures current == old(current) && heap == old(heap) && ufree == old(ufree) && exhausted == old(exhausted)
      ensures r.Done? ==>
        && Valid() && |spaces| == |old(spaces)| + 1 && spaces[..|old(spaces)|] == old(spaces)
        && Born(old(mc.S()), mc.S(), old(spaces), spaces[|old(spaces)|], trapSec, us)
        && spaces[|old(spaces)|].parent == parent && NewContext(mc.mem[spaces[|old(spaces)|].trapframe])
        && spaces[|old(spaces)|].regions == NewRegions(spaces[|old(spaces)|].trapframe, trapSec)
        && Shaped(old(mc.S()), mc.S(), |old(spaces)|, FirstPages(old(mc.free), trapSec), 5)
        && old(mc.free) != [] && spaces[|old(spaces)|].trapframe == old(mc.free)[0]
    {
      hide Shaped, Fits, Base, Machine.Valid, Inv, Born, NewContext, Fresh, NewLeaves, HeapOk, FourFrames, Evolves,
        NewRegions, Orderly;
      us := 0;
      if |spaces| >= Schedule.NPROC {
        return Halted, us;
      }
      ghost var s0 := mc.S();
      InvOrderly(s0, spaces, trapSec, exhausted);
      TrapSectionOf(s0, trapSec, start, end, etext);
      var root, tf, ks, stack, info;
      r, root, tf, ks, stack, info := NewProcessMemory(mc, trapSec, |spaces|);
      if !r.Done? { return; }
      us := stack;
      var child := Space(root, tf, ks, info, NewRegions(tf, trapSec), parent);
      TrapSectionOf(s0, trapSec, start, end, etext);
      BornHere(s0, mc.S(), spaces, child, trapSec, us);
      BirthKeepsInv(s0, mc.S(), spaces, child, trapSec, exhausted, us);
      BaseStays(s0, mc.S(), |spaces|, trapSec, start, end, etext);
      spaces := spaces + [child];
    }

    /** fork: a copy of the current process. */
    method DoFork() returns (r: Outcome, pid: nat)
      requires Valid() && current < |spaces|
      modifies this, mc
      ensures r.Done? || r.Halted?
      ensures r.Done? <==> CanFork(old(mc.S()), old(spaces), old(current), trapSec)
      ensures current == old(current) && heap == old(heap) && ufree == old(ufree) && exhausted == old(exhausted)
      ensures r.Done? ==>
        && Valid() && pid == |old(spaces)| && |spaces| == pid + 1 && spaces[..pid] == old(spaces)
        && spaces[pid].parent == current
        && spaces[pid].regions == NewRegions(spaces[pid].trapframe, trapSec) + CodeRegions(spaces[current].regions)
        && ForkDone(old(mc.S()), mc.S(), spaces, current, pid)
        && Grew(old(mc.S()), mc.S(), current, pid, trapSec, spaces[current].regions)
        && old(mc.free) != [] && spaces[pid].trapframe == old(mc.free)[0]
    {
      hide Machine.Valid, Inv, Born, NewContext, Base, Forking, ForkDone, HeapOk, CodeRegions, NewRegions, Grew,
        Shaped, ForkFits, Fits;
      pid := |spaces|;
      ghost var s0 := mc.S();
      FirstFits(s0, current, pid, trapSec, spaces[current].regions);
      ghost var before := spaces;
      ghost var us;
      r, us := AllocProcess(current);
      if !r.Done? { return; }
      assert spaces == before + [spaces[pid]];
      BornIsForking(s0, mc.S(), before, spaces[pid], trapSec, exhausted, current, us);
      var all;
      r, all := ForkRegions(mc, spaces, current, pid, s0, trapSec, exhausted, us);
      if !r.Done? { return; }
      ClearA0(mc, all, current, pid, s0, trapSec, exhausted, us);
      ForkKeepsBase(s0, mc.S(), all, current, pid, trapSec, start, end, etext);
      spaces := all;
    }

    /** Load one segment of the first program, before anything runs; segments are page-aligned. */
    method LoadSegment(va: nat, size: nat, code: bool, content: Page, ghost s0: State, ghost pages: seq<nat>,
                       ghost taken: nat)
        returns (r: Outcome)
      requires Valid() && |spaces| == 1 && |spaces[0].regions| < REGION_SLOTS
      requires 0 < va < WORD_LIMIT && va % PAGE_SIZE == 0 && |content| == ENTRIES
      modifies this, mc
      ensures r.Done? || r.Halted?
      ensures r.Done? <==> size < PAGE_SIZE && old(mc.free) != [] && CanGrant(old(mc.S()), UserTree(0), va / PAGE_SIZE)
      ensures Shaped(s0, old(mc.S()), 0, pages, taken) ==>
        && (r.Done? <==> size < PAGE_SIZE && Fits(s0, 0, pages + [va / PAGE_SIZE], taken + 1))
        && (r.Done? ==> Shaped(s0, mc.S(), 0, pages + [va / PAGE_SIZE], taken + 1))
      ensures current == old(current) && heap == old(heap) && ufree == old(ufree) && exhausted == old(exhausted)
      ensures r.Done? ==>
        && Valid() && Evolves(old(mc.S()), mc.S(), 0, {})
        && spaces == WithRegion(old(spaces), 0, Region(va, 1, if code then CodeSegment else DataSegment))
        && Loaded(mc.S(), Region(va, 1, if code then CodeSegment else DataSegment), content)
        && Leads(mc.S(), 0, va / PAGE_SIZE, Link(old(mc.free), 0) / PAGE_SIZE)
    {
      hide Machine.Valid, Inv, Evolves, LeafWord, Base, WithRegion, HeapOk, FrameOf, Sv39.Valid, Shaped, Fits,
        CanGrant, Loaded;
      if size >= PAGE_SIZE {
        return Halted;
      }
      ghost var s := mc.S();
      var region := Region(va, 1, if code then CodeSegment else DataSegment);
      r := LoadPage(mc, spaces, region, content, trapSec, exhausted, s0, pages, taken);
      if !r.Done? { return; }
      BaseStays(s, mc.S(), 0, trapSec, start, end, etext);
      spaces := WithRegion(spaces, 0, region);
    }

    /** Overwrite the saved context of a process: no table, leaf or use changes. */
    method SetContext(pid: nat, page: Page)
      requires pid < |spaces| && spaces[pid].trapframe in mc.mem && |page| == ENTRIES
      modifies mc`mem
      ensures mc.mem == old(mc.mem)[spaces[pid].trapframe := page]
      ensures old(Valid()) ==> Valid() && SameLeaves(old(mc.S()), mc.S())
    {
      hide Inv, TreesOk, FreeOk, HeapOk, SameLeaves, Base;
      ghost var s, tf := mc.S(), spaces[pid].trapframe;
      mc.mem := mc.mem[spaces[pid].trapframe := page];
      if old(Valid()) {
        ContextFrame(s, spaces, trapSec, exhausted, pid);
        ContentKeepsInv(s, spaces, trapSec, exhausted, tf, page);
        assert s.roles[tf := s.roles[tf]] == s.roles;
        BaseWith(s, mc.S(), trapSec, start, end, etext);
      }
    }

    /** naive_malloc: map a page at the next heap address. */
    method SysAllocatePage() returns (r: Outcome, va: nat)
      requires Valid() && current < |spaces|
      modifies this, mc
      ensures spaces == old(spaces) && current == old(current)
      ensures r.Done? || r.Halted?
      ensures r.Done? <==> CanGrant(old(mc.S()), UserTree(current), old(ufree) / PAGE_SIZE)
      ensures r.Done? ==>
        && ufree == Wrap(old(ufree) + PAGE_SIZE)
        && Valid() && va == old(ufree) && heap == old(heap) + [va] && exhausted == old(exhausted)
        && Evolves(old(mc.S()), mc.S(), current, {})
        && !Mapped(old(mc.S()), UserTree(current), va / PAGE_SIZE)
        && LeafChanged(old(mc.S()), mc.S(), UserTree(current), va / PAGE_SIZE, UserReadWrite(Link(old(mc.free), 0)))
        && Handed(old(mc.S()), mc.S(), current, va / PAGE_SIZE)
    {
      hide Machine.Valid, Inv, Evolves, LeafChanged, LeafEntry, ProtToType, Mapped, Base, CanGrant, Handed;
      ghost var s0 := mc.S();
      va := ufree;
      ufree := Wrap(ufree + PAGE_SIZE);
      var pa;
      r, pa := GrantPrivate(mc, spaces[current].root * PAGE_SIZE, va, PAGE_SIZE, spaces, trapSec, exhausted, current);
      if !r.Done? {
        return Halted, va;
      }
      heap := heap + [va];
      BaseStays(s0, mc.S(), current, trapSec, start, end, etext);
    }

    /** A store to an unmapped address: map a page there; failure to find a table is ignored. */
    method HandleStoreFault(stval: nat) returns (r: Outcome)
      requires Valid() && current < |spaces| && stval < WORD_LIMIT
      modifies this, mc
      ensures spaces == old(spaces) && current == old(current) && ufree == old(ufree) && heap == old(heap)
      ensures r.Done? || r.Halted?
      ensures r.Halted? <==> !Vacant(old(mc.S()), UserTree(current), stval / PAGE_SIZE, 1)
      ensures r.Done? ==> Valid() && Evolves(old(mc.S()), mc.S(), current, {})
      ensures r.Done? ==>
        if CanGrant(old(mc.S()), UserTree(current), stval / PAGE_SIZE) then
          && exhausted == old(exhausted) && stval < MAXVA && Handed(old(mc.S()), mc.S(), current, stval / PAGE_SIZE)
          && LeafChanged(old(mc.S()), mc.S(), UserTree(current), stval / PAGE_SIZE,
                         UserReadWrite(Link(old(mc.free), 0)))
        else
          && exhausted == (old(exhausted) || old(mc.free) != []) && mc.free == [] && SameLeaves(old(mc.S()), mc.S())
    {
      hide Machine.Valid, Inv, Evolves, LeafChanged, UserReadWrite, Mapped, LeafWord, Base, CanGrant, Vacant,
        SameLeaves, Handed;
      ghost var s0 := mc.S();
      var pa;
      r, pa := GrantPrivate(mc, spaces[current].root * PAGE_SIZE, stval, 1, spaces, trapSec, exhausted, current);
      if r.Failed? {
        exhausted := exhausted || pa != 0;
        r := Done;
      }
      if r.Done? { BaseStays(s0, mc.S(), current, trapSec, start, end, etext); }
    }

    /** The frame that page v of the current process leads to. */
    ghost function FrameAt(v: nat): nat
      reads this, mc
    {
      FrameOf(LeafWord(mc.S(), UserTree(current), v))
    }

    /**
     naive_free: the call halts unless there is an entry for the address and it names a
     page of the pool.  It keeps the invariant exactly when the page may be freed; then
     the address is unmapped, no other leaf changes, and the frame is the next to be handed out.
     */
    method SysFreePage(va: nat) returns (r: Outcome)
      requires Valid() && current < |spaces|
      modifies mc
      ensures mc.Backed() && mc.mem.Keys == old(mc.mem.Keys)
      ensures r.Done? || r.Halted?
      ensures r.Halted? <==>
        || va >= MAXVA || va % PAGE_SIZE != 0
        || NodeId(UserTree(current), 0, va / PAGE_SIZE / ENTRIES) !in old(mc.nodes)
        || !(start <= old(FrameAt(va / PAGE_SIZE)) * PAGE_SIZE < end)
      ensures r.Done? ==> (Valid() <==> CanFree(old(mc.S()), old(spaces)[current], current, va / PAGE_SIZE))
      ensures r.Done? && Valid() ==>
        && !Mapped(mc.S(), UserTree(current), va / PAGE_SIZE)
        && (forall t, v: nat :: t != UserTree(current) || v != va / PAGE_SIZE ==>
              LeafWord(mc.S(), t, v) == LeafWord(old(mc.S()), t, v))
        && mc.free == [old(FrameAt(va / PAGE_SIZE))] + old(mc.free) && mc.nodes == old(mc.nodes)
        && ContextsKept(old(mc.S()), mc.S()) && PlainStay(old(mc.S()), mc.S(), {old(FrameAt(va / PAGE_SIZE))})
        && old(FrameAt(va / PAGE_SIZE)) in old(mc.roles)
        && old(mc.roles)[old(FrameAt(va / PAGE_SIZE))] == Private(current, va / PAGE_SIZE)
    {
      hide Inv, CanFree, Unmapped, LeafWord, FrameOf, HeapOk, Base, ContextsKept;
      ghost var s, v := mc.S(), va / PAGE_SIZE;
      InvGives(s, spaces, trapSec, exhausted, current);
      r := UserVmUnmap(mc, spaces[current].root * PAGE_SIZE, va, UserTree(current));
      if r.Done? {
        ReleaseDecides(s, mc.S(), spaces, trapSec, exhausted, current, v, start, end, etext);
      }
    }
  }

  /** The saved contexts of all processes are as before. */
  ghost predicate ContextsKept(s: State, s': State) {
    forall g :: g in s.roles && s.roles[g].Trapframe? ==> g in s.mem && g in s'.mem && s'.mem[g] == s.mem[g]
  }

  /** Frames in use keep their words and their use, except those in `gone`. */
  ghost predicate PlainStay(s: State, s': State, gone: set<nat>) {
    forall g :: g in s.roles && s.roles[g].Plain() && g !in gone ==>
      g in s.mem && g in s'.mem && g in s'.roles && s'.mem[g] == s.mem[g] && s'.roles[g] == s.roles[g]
  }

  lemma UnmapKeepsFrames(s: State, t: Tree, v: nat)
    requires Well(s) && NodeId(t, 0, v / ENTRIES) in s.nodes && (forall f :: f in s.mem ==> |s.mem[f]| == ENTRIES)
    requires s.nodes[NodeId(t, 0, v / ENTRIES)] in s.mem && FrameOf(LeafWord(s, t, v)) in s.roles
    requires FrameOf(LeafWord(s, t, v)) in s.mem && s.roles[FrameOf(LeafWord(s, t, v))].Private?
    ensures ContextsKept(s, Unmapped(s, t, v)) && PlainStay(s, Unmapped(s, t, v), {FrameOf(LeafWord(s, t, v))})
    ensures Unmapped(s, t, v).mem.Keys == s.mem.Keys
  {
    hide LeafWord, FrameOf, FreeOk;
    assert IdOk(s, NodeId(t, 0, v / ENTRIES));
    var s', f := Unmapped(s, t, v), FrameOf(LeafWord(s, t, v));
    forall g | g in s.roles && s.roles[g].Plain() && g != f
      ensures g in s.mem && g in s'.mem && g in s'.roles && s'.mem[g] == s.mem[g] && s'.roles[g] == s.roles[g]
    {
      assert g in s.mem.Keys;
    }
  }

  lemma BaseAfterRelease(s: State, s': State, pid: nat, f: nat, trapSec: nat, start: nat, end: nat, etext: nat)
    requires Base(s, trapSec, start, end, etext) && s'.roles == s.roles[f := Free] && s'.mem.Keys == s.mem.Keys
    requires f in s.roles && !s.roles[f].Image? && s'.nodes == s.nodes
    requires forall v: nat :: LeafWord(s', KernelTree, v) == LeafWord(s, KernelTree, v)
    ensures Base(s', trapSec, start, end, etext)
  {
    hide InPool, LeafWord, IdentityLeaf;
    assert trapSec in s'.mem.Keys;
  }

  lemma ReleaseDecides(s: State, s': State, spaces: seq<Space>, trapSec: nat, exhausted: bool, pid: nat, v: nat,
                       start: nat, end: nat, etext: nat)
    requires Inv(s, spaces, trapSec, exhausted) && pid < |spaces| && NodeId(UserTree(pid), 0, v / ENTRIES) in s.nodes
    requires s.nodes[NodeId(UserTree(pid), 0, v / ENTRIES)] in s.mem && FrameOf(LeafWord(s, UserTree(pid), v)) in s.mem
    requires FrameOf(LeafWord(s, UserTree(pid), v)) != trapSec && Base(s, trapSec, start, end, etext)
    requires forall f :: f in s.mem ==> |s.mem[f]| == ENTRIES
    requires s' == Unmapped(s, UserTree(pid), v)
    ensures Inv(s', spaces, trapSec, exhausted) <==> CanFree(s, spaces[pid], pid, v)
    ensures Inv(s', spaces, trapSec, exhausted) ==> Base(s', trapSec, start, end, etext)
    ensures Inv(s', spaces, trapSec, exhausted) ==>
      && Well(s') && !Mapped(s', UserTree(pid), v)
      && (forall t, u: nat :: t != UserTree(pid) || u != v ==> LeafWord(s', t, u) == LeafWord(s, t, u))
      && var f := FrameOf(LeafWord(s, UserTree(pid), v));
         && s'.free == [f] + s.free && s'.nodes == s.nodes && f in s.roles && s.roles[f] == Private(pid, v)
         && ContextsKept(s, s') && PlainStay(s, s', {f})
  {
    hide ContextsKept, PlainStay, Base, LeafWord, FrameOf, Unmapped, SpaceOk, OwnerOk, CodeOk, TreesOk, FreeOk,
      CodePages, LeavesOwned, TreesOwned;
    var f := FrameOf(LeafWord(s, UserTree(pid), v));
    assert s.roles.Keys == s.mem.Keys && f in s.roles.Keys;
    ReleaseKeepsInvIff(s, spaces, trapSec, exhausted, pid, v);
    if CanFree(s, spaces[pid], pid, v) {
      FreeableIsPrivate(s, spaces, trapSec, exhausted, pid, v);
      UnmapPlain(s, UserTree(pid), v);
      UnmapKeepsFrames(s, UserTree(pid), v);
      forall u: nat ensures LeafWord(s', KernelTree, u) == LeafWord(s, KernelTree, u) {
      }
      BaseAfterRelease(s, s', pid, f, trapSec, start, end, etext);
    }
  }
}
